/** src/db.rs: channels, the plain append, and the legacy navigation append, which is the second
    writer of the reservation table. */
module Board {
  import opened Text
  import opened Tables

  // ---- channels -----------------------------------------------------------------------------

  /** `INSERT OR IGNORE`: an existing row, archived or not, is left alone. */
  function EnsureChannel(db: Db, channel: string, createdBy: Option<string>): Db {
    if channel in db.channels then db
    else db.(channels := db.channels[channel := Channel(DefaultVisibility(channel), ChannelActive, createdBy)])
  }

  function UpdateChannel(db: Db, channel: string, visibility: Option<Visibility>, status: Option<ChannelStatus>): (Db,
      bool) {
    if channel !in db.channels || (visibility.None? && status.None?) then (db, false)
    else
      var row := db.channels[channel];
      var changed := row.(visibility := if visibility.Some? then visibility.value else row.visibility,
                          status := if status.Some? then status.value else row.status);
      (db.(channels := db.channels[channel := changed]), true)
  }

  method EnsureChannelRow(conn: Connection, channel: string, createdBy: Option<string>)
    modifies conn
    ensures conn.tables == EnsureChannel(old(conn.tables), channel, createdBy)
  {
    if channel !in conn.tables.channels {
      conn.tables := conn.tables.(channels :=
        conn.tables.channels[channel := Channel(DefaultVisibility(channel), ChannelActive, createdBy)]);
    }
  }

  method UpdateChannelRow(conn: Connection, channel: string, visibility: Option<Visibility>,
                          status: Option<ChannelStatus>) returns (changed: bool)
    modifies conn
    ensures (conn.tables, changed) == UpdateChannel(old(conn.tables), channel, visibility, status)
  {
    var channels := conn.tables.channels;
    changed := false;
    match (visibility, status) {
      case (Some(v), Some(s)) =>
        if channel in channels {
          conn.tables := conn.tables.(channels := channels[channel := channels[channel].(visibility := v,
                                                                                         status := s)]);
          changed := true;
        }
      case (Some(v), None) =>
        if channel in channels {
          conn.tables := conn.tables.(channels := channels[channel := channels[channel].(visibility := v)]);
          changed := true;
        }
      case (None, Some(s)) =>
        if channel in channels {
          conn.tables := conn.tables.(channels := channels[channel := channels[channel].(status := s)]);
          changed := true;
        }
      case (None, None) =>
    }
  }

  // ---- messages -----------------------------------------------------------------------------

  function NewMessage(db: Db, now: int, who: Identity, channel: string, conversationRef: Option<string>,
                      kind: string, body: string, replyTo: Option<int>): Message {
    Message(db.lastMessageId + 1, now, channel, who.source, who.instance, conversationRef, kind, body, replyTo)
  }

  function InsertMessage(db: Db, m: Message): Db {
    db.(messages := db.messages[m.id := m], lastMessageId := m.id)
  }

  /** Reply targets must exist; no reply is no target. */
  predicate ReplyTargetExists(db: Db, replyTo: Option<int>) {
    replyTo.Some? ==> replyTo.value in db.messages
  }

  function AppendMessage(db: Db, now: int, who: Identity, channel: string, kind: string, body: string,
                         replyTo: Option<int>): (Db, Message) {
    var ready := EnsureChannel(db, channel, Some(who.instance));
    var m := NewMessage(ready, now, who, channel, None, kind, body, replyTo);
    (InsertMessage(ready, m), m)
  }

  method InsertMessageRow(conn: Connection, m: Message)
    modifies conn
    ensures conn.tables == InsertMessage(old(conn.tables), m)
  {
    conn.tables := conn.tables.(messages := conn.tables.messages[m.id := m], lastMessageId := m.id);
  }

  method Append(conn: Connection, now: int, who: Identity, channel: string, kind: string, body: string,
                replyTo: Option<int>) returns (m: Message)
    modifies conn
    ensures (conn.tables, m) == AppendMessage(old(conn.tables), now, who, channel, kind, body, replyTo)
  {
    EnsureChannelRow(conn, channel, Some(who.instance));
    m := NewMessage(conn.tables, now, who, channel, None, kind, body, replyTo);
    InsertMessageRow(conn, m);
  }

  // ---- the legacy navigation write ----------------------------------------------------------

  datatype NavigationInput = NavigationInput(
    channel: string, kind: string, body: string, replyTo: Option<int>, nonce: string, requestHash: string)

  datatype NavigationResult =
    | NavigationCreated(message: Message)
    | NavigationExisting(message: Message)
    | NonceConflict
    | NavigationReplyTargetNotFound
    | NavigationFailed

  ghost function NavigationAppend(db: Db, now: int, who: Identity, input: NavigationInput,
                                  conversationRef: Option<string>): (Db, NavigationResult) {
    var id := ExecutionId(who.instance, input.nonce);
    if id in db.reservations then
      var stored := db.reservations[id];
      if stored.requestHash != input.requestHash then (db, NonceConflict)
      else if stored.messageId !in db.messages then (db, NavigationFailed)
      else (db, NavigationExisting(db.messages[stored.messageId]))
    else if !ReplyTargetExists(db, input.replyTo) then (db, NavigationReplyTargetNotFound)
    else
      var ready := EnsureChannel(db, input.channel, Some(who.instance));
      var m := NewMessage(ready, now, who, input.channel, conversationRef, input.kind, input.body, input.replyTo);
      (InsertMessage(ready, m).(reservations := db.reservations[id := Reservation(input.requestHash, m.id, now)]),
       NavigationCreated(m))
  }

  method AppendNavigationMessage(conn: Connection, now: int, who: Identity, input: NavigationInput,
                                 conversationRef: Option<string>) returns (r: NavigationResult)
    modifies conn
    ensures (conn.tables, r) == NavigationAppend(old(conn.tables), now, who, input, conversationRef)
  {
    var saved := conn.tables;
    EnsureChannelRow(conn, input.channel, Some(who.instance));
    var id := ExecutionId(who.instance, input.nonce);
    var reserved := id !in conn.tables.reservations;
    if reserved {
      conn.tables := conn.tables.(reservations := conn.tables.reservations[id := Reservation(input.requestHash, 0,
                                                                                             now)]);
    }
    if !reserved {
      var stored := conn.tables.reservations[id];
      if stored.requestHash != input.requestHash {
        conn.tables := saved;
        return NonceConflict;
      }
      if stored.messageId !in conn.tables.messages {
        conn.tables := saved;
        return NavigationFailed;
      }
      r := NavigationExisting(conn.tables.messages[stored.messageId]);
      conn.tables := saved;
      return;
    }
    if input.replyTo.Some? {
      if input.replyTo.value !in conn.tables.messages {
        conn.tables := saved;
        return NavigationReplyTargetNotFound;
      }
    }
    var m := NewMessage(conn.tables, now, who, input.channel, conversationRef, input.kind, input.body, input.replyTo);
    InsertMessageRow(conn, m);
    conn.tables := conn.tables.(reservations :=
      conn.tables.reservations[id := conn.tables.reservations[id].(messageId := m.id)]);
    assert conn.tables.reservations == saved.reservations[id := Reservation(input.requestHash, m.id, now)];
    r := NavigationCreated(m);
  }

  // ---- what the writers leave ---------------------------------------------------------------

  /** A channel update stores each value given, keeps the other columns and every other channel, and reports
      whether there was anything to store in a stored channel. */
  lemma UpdateChannelExact(db: Db, channel: string, visibility: Option<Visibility>, status: Option<ChannelStatus>)
    ensures var (after, changed) := UpdateChannel(db, channel, visibility, status);
            && (changed <==> channel in db.channels && (visibility.Some? || status.Some?))
            && after == db.(channels := after.channels) && after.channels.Keys == db.channels.Keys
            && (forall name | name in db.channels && name != channel :: after.channels[name] == db.channels[name])
            && (channel in db.channels ==>
                  && (visibility.Some? ==> after.channels[channel].visibility == visibility.value)
                  && (visibility.None? ==> after.channels[channel].visibility == db.channels[channel].visibility)
                  && (status.Some? ==> after.channels[channel].status == status.value)
                  && (status.None? ==> after.channels[channel].status == db.channels[channel].status)
                  && after.channels[channel].createdBy == db.channels[channel].createdBy)
  {
  }

  /** The channels once this one exists: stored before, or new, active, and public only for the lounge. */
  predicate ChannelReady(db: Db, after: Db, channel: string, creator: string) {
    && channel in after.channels
    && (channel in db.channels ==> after.channels == db.channels)
    && (channel !in db.channels ==>
          after.channels == db.channels[channel := Channel(if channel == "blackboard-lounge" then Public else Private,
                                                           ChannelActive, Some(creator))])
  }

  /** Ensuring a channel creates it active, with its creator, and leaves a stored one alone. */
  lemma EnsureChannelExact(db: Db, channel: string, createdBy: Option<string>)
    ensures var after := EnsureChannel(db, channel, createdBy);
            && after == db.(channels := after.channels)
            && (channel in db.channels ==> after.channels == db.channels)
            && (channel !in db.channels ==>
                  after.channels == db.channels[channel := Channel(if channel == "blackboard-lounge" then Public
                                                                   else Private, ChannelActive, createdBy)])
  {
  }

  /** The legacy append answers a known nonce by its hash: the stored message for the same one, a conflict for
      another; a new nonce is refused only for a missing reply target. */
  lemma NavigationAnswerExact(db: Db, now: int, who: Identity, input: NavigationInput, conversationRef: Option<string>)
    ensures var (_, result) := NavigationAppend(db, now, who, input, conversationRef);
            var k := ExecutionId(who.instance, input.nonce);
            if k in db.reservations then
              if db.reservations[k].requestHash != input.requestHash then result == NonceConflict
              else if db.reservations[k].messageId !in db.messages then result == NavigationFailed
              else result == NavigationExisting(db.messages[db.reservations[k].messageId])
            else if input.replyTo.Some? && input.replyTo.value !in db.messages then
              result == NavigationReplyTargetNotFound
            else
              result == NavigationCreated(Message(db.lastMessageId + 1, now, input.channel, who.source, who.instance,
                                                  conversationRef, input.kind, input.body, input.replyTo))
  {
  }

  /** The legacy append writes a message, its channel and its reservation when it creates, and nothing else. */
  lemma NavigationTablesExact(db: Db, now: int, who: Identity, input: NavigationInput, conversationRef: Option<string>)
    ensures var (after, result) := NavigationAppend(db, now, who, input, conversationRef);
            if !result.NavigationCreated? then after == db
            else
              var id := db.lastMessageId + 1;
              && ChannelReady(db, after, input.channel, who.instance)
              && after == db.(messages := db.messages[id := result.message], lastMessageId := id,
                              channels := after.channels,
                              reservations := db.reservations[ExecutionId(who.instance, input.nonce) :=
                                                                Reservation(input.requestHash, id, now)])
  {
  }

  /** The plain append always adds one message, without conversation, and its channel. */
  lemma AppendExact(db: Db, now: int, who: Identity, channel: string, kind: string, body: string, replyTo: Option<int>)
    ensures var (after, m) := AppendMessage(db, now, who, channel, kind, body, replyTo);
            var id := db.lastMessageId + 1;
            && m == Message(id, now, channel, who.source, who.instance, None, kind, body, replyTo)
            && ChannelReady(db, after, channel, who.instance)
            && after == db.(messages := db.messages[id := m], lastMessageId := id, channels := after.channels)
  {
  }
}
