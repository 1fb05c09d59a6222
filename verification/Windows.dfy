/** The paged readers over the kernel's tables: policy window and snapshot (src/authorization.rs),
    administration history (src/authorization_admin.rs), messages (src/history.rs), channel directory
    (src/db.rs). */
module Windows {
  import opened Text
  import opened Order
  import opened Tables
  import opened Paging

  const DEFAULT_WINDOW_SIZE := 20
  const MAX_WINDOW_SIZE := 200

  datatype WindowError = InvalidQuery

  datatype Direction = Descending | Ascending

  datatype WindowRequest = WindowRequest(before: Option<int>, after: Option<int>, limit: Option<nat>,
                                         order: Option<string>)

  /** A request that passed validation. */
  datatype Window = Window(order: Direction, cursor: Option<int>, limit: nat)

  datatype WindowPage<T> = WindowPage(rows: seq<T>, hasMore: bool)

  function ParseOrder(order: Option<string>): Option<Direction> {
    if order.None? || order.value == "desc" then Some(Descending)
    else if order.value == "asc" then Some(Ascending)
    else None
  }

  predicate NotPositive(value: Option<int>) {
    value.Some? && value.value <= 0
  }

  /** The validation the three id-keyed readers share. */
  function ValidateWindow(r: WindowRequest): (w: Result<Window, WindowError>)
    ensures w.Ok? ==> 1 <= w.value.limit <= MAX_WINDOW_SIZE && (w.value.cursor.Some? ==> w.value.cursor.value > 0)
  {
    var order := ParseOrder(r.order);
    var limit := if r.limit.Some? then r.limit.value else DEFAULT_WINDOW_SIZE;
    if order.None? || NotPositive(r.before) || NotPositive(r.after) || (r.before.Some? && r.after.Some?)
       || (order.value == Descending && r.after.Some?) || (order.value == Ascending && r.before.Some?)
       || !(1 <= limit <= MAX_WINDOW_SIZE) then Err(InvalidQuery)
    else Ok(Window(order.value, if order.value == Descending then r.before else r.after, limit))
  }

  /** `ORDER BY id DESC` or `ASC`. */
  function Rank(order: Direction, id: int): Key {
    [Num(if order == Descending then -id else id)]
  }

  function CursorKey(w: Window): Option<Key> {
    if w.cursor.Some? then Some(Rank(w.order, w.cursor.value)) else None
  }

  /** `id < ?` and `id > ?` as order on ranks. */
  lemma RankOrder(order: Direction, a: int, b: int)
    ensures Less(Rank(order, a), Rank(order, b)) <==> if order == Descending then b < a else a < b
    ensures Rank(order, a) == Rank(order, b) <==> a == b
  {
    assert Rank(order, a)[0] == Num(if order == Descending then -a else a);
    assert Rank(order, b)[0] == Num(if order == Descending then -b else b);
    assert Leq([], []);
  }

  /** Rows keyed by their id in this direction. */
  function ById<V>(order: Direction): ((int, V)) -> Key {
    (row: (int, V)) => Rank(order, row.0)
  }

  /** A table as the set of its rows. */
  function Rows<V(==)>(table: map<int, V>): set<(int, V)> {
    set id | id in table :: (id, table[id])
  }

  lemma RowsDistinct<V>(table: map<int, V>, order: Direction)
    ensures Distinct(Rows(table), ById(order))
  {
    forall x, y | x in Rows(table) && y in Rows(table) && ById(order)(x) == ById(order)(y) ensures x == y {
      RankOrder(order, x.0, y.0);
    }
  }

  ghost function WindowOf<V>(table: map<int, V>, w: Window): WindowPage<(int, V)> {
    RowsDistinct(table, w.order);
    WindowPage(PageRows(Rows(table), ById(w.order), CursorKey(w), w.limit),
               HasMore(Rows(table), ById(w.order), CursorKey(w), w.limit))
  }

  // ---- policy window ------------------------------------------------------------------------

  datatype PolicyWindow = PolicyWindow(durable: WindowPage<(int, DurableGrant)>,
                                       delegated: WindowPage<(int, DelegatedGrant)>)

  ghost function PolicyWindowOf(db: Db, store: string, r: WindowRequest): Result<PolicyWindow, WindowError> {
    if store != "durable" && store != "delegated" then Err(InvalidQuery)
    else
      var w := ValidateWindow(r);
      if w.Err? then Err(w.error)
      else if store == "durable" then Ok(PolicyWindow(WindowOf(db.durable, w.value), WindowPage([], false)))
      else Ok(PolicyWindow(WindowPage([], false), WindowOf(db.delegated, w.value)))
  }

  method ReadAuthorizationPolicyWindow(conn: Connection, store: string, r: WindowRequest)
    returns (result: Result<PolicyWindow, WindowError>)
    ensures result == PolicyWindowOf(conn.tables, store, r)
  {
    hide ValidateWindow;
    if store != "durable" && store != "delegated" { return Err(InvalidQuery); }
    var w := ValidateWindow(r);
    if w.Err? { return Err(w.error); }
    if store == "durable" {
      RowsDistinct(conn.tables.durable, w.value.order);
      var page, more := ReadPage(Rows(conn.tables.durable), ById(w.value.order), CursorKey(w.value), w.value.limit);
      return Ok(PolicyWindow(WindowPage(page, more), WindowPage([], false)));
    }
    RowsDistinct(conn.tables.delegated, w.value.order);
    var page, more := ReadPage(Rows(conn.tables.delegated), ById(w.value.order), CursorKey(w.value), w.value.limit);
    return Ok(PolicyWindow(WindowPage([], false), WindowPage(page, more)));
  }

  // ---- administration history ---------------------------------------------------------------

  /** The log as a table: the event at position n has id n + 1. */
  function EventTable(db: Db, participant: Option<string>): map<int, AdminEvent> {
    map id | 1 <= id <= |db.events| && About(db.events, id, participant) :: db.events[id - 1]
  }

  predicate About(events: seq<AdminEvent>, id: int, participant: Option<string>)
    requires 1 <= id <= |events|
  {
    participant.Some? ==> events[id - 1].scope.participantId == participant.value
  }

  function ParticipantFilter(participant: Option<string>): Result<Option<string>, WindowError> {
    if participant.None? then Ok(None)
    else
      var p := ValidateParticipantId(participant.value);
      if p.None? then Err(InvalidQuery) else Ok(p)
  }

  ghost function EventWindowOf(db: Db, participant: Option<string>,
                               r: WindowRequest): Result<WindowPage<(int, AdminEvent)>, WindowError> {
    var w :- ValidateWindow(r);
    var p :- ParticipantFilter(participant);
    Ok(WindowOf(EventTable(db, p), w))
  }

  method ReadAdministrationEventWindow(conn: Connection, participant: Option<string>, r: WindowRequest)
    returns (result: Result<WindowPage<(int, AdminEvent)>, WindowError>)
    ensures result == EventWindowOf(conn.tables, participant, r)
  {
    hide ValidateWindow, ParticipantFilter;
    var w := ValidateWindow(r);
    if w.Err? { return Err(w.error); }
    var p := ParticipantFilter(participant);
    if p.Err? { return Err(p.error); }
    var table := EventTable(conn.tables, p.value);
    RowsDistinct(table, w.value.order);
    var page, more := ReadPage(Rows(table), ById(w.value.order), CursorKey(w.value), w.value.limit);
    result := Ok(WindowPage(page, more));
  }

  // ---- messages -----------------------------------------------------------------------------

  function ChannelMessages(db: Db, channel: string): map<int, Message> {
    map id | id in db.messages && db.messages[id].channel == channel :: db.messages[id]
  }

  /** Who asks for messages: a guest session, a request with an identity, or neither. */
  datatype Viewer = Guest | Identified | Unknown

  datatype MessageWindowError = InvalidChannel | InvalidWindow | Unauthorized | Forbidden

  predicate PublicActive(db: Db, channel: string) {
    channel in db.channels && db.channels[channel].visibility == Public && db.channels[channel].status == ChannelActive
  }

  /** The request is checked first, then the viewer, then the page is read. */
  ghost function MessageWindowOf(db: Db, viewer: Viewer, channel: string, r: WindowRequest)
    : Result<WindowPage<(int, Message)>, MessageWindowError>
  {
    var w := ValidateWindow(r);
    if !IsName(channel) then Err(InvalidChannel)
    else if w.Err? then Err(InvalidWindow)
    else if viewer == Guest && !PublicActive(db, channel) then Err(Forbidden)
    else if viewer == Unknown then Err(Unauthorized)
    else Ok(WindowOf(ChannelMessages(db, channel), w.value))
  }

  /** The message reader asks for more with an existence probe instead of one row more. A page is only ever
      shown to an identified viewer, or to a guest of a public active channel. */
  method ReadMessageWindow(conn: Connection, viewer: Viewer, channel: string, r: WindowRequest)
    returns (result: Result<WindowPage<(int, Message)>, MessageWindowError>)
    ensures result == MessageWindowOf(conn.tables, viewer, channel, r)
    ensures result.Ok? ==> viewer == Identified || (viewer == Guest && PublicActive(conn.tables, channel))
    ensures result.Ok? ==> forall row | row in result.value.rows ::
              row.0 in conn.tables.messages && row.1 == conn.tables.messages[row.0] && row.1.channel == channel
  {
    hide ValidateWindow, IsName;
    if !IsName(channel) { return Err(InvalidChannel); }
    var w := ValidateWindow(r);
    if w.Err? { return Err(InvalidWindow); }
    if viewer == Guest {
      if !PublicActive(conn.tables, channel) { return Err(Forbidden); }
    } else if viewer == Unknown {
      return Err(Unauthorized);
    }
    var table := ChannelMessages(conn.tables, channel);
    RowsDistinct(table, w.value.order);
    var page, more := ReadProbedPage(Rows(table), ById(w.value.order), CursorKey(w.value), w.value.limit);
    PageFacts(Rows(table), ById(w.value.order), CursorKey(w.value), w.value.limit);
    result := Ok(WindowPage(page, more));
  }

  // ---- channel directory --------------------------------------------------------------------

  datatype ChannelSummary = ChannelSummary(name: string, messageCount: nat, lastId: int, channel: Channel)

  function MessageIds(db: Db, name: string): set<int> {
    set id | id in db.messages && db.messages[id].channel == name
  }

  /** `COALESCE(MAX(id), 0)` */
  ghost predicate IsLastId(db: Db, name: string, last: int) {
    if MessageIds(db, name) == {} then last == 0
    else last in MessageIds(db, name) && forall id | id in MessageIds(db, name) :: id <= last
  }

  predicate Listed(row: Channel, publicOnly: bool) {
    publicOnly ==> row.visibility == Public && row.status == ChannelActive
  }

  type DirectoryRow = (string, Channel)

  function DirectoryRows(db: Db, publicOnly: bool): set<DirectoryRow> {
    set name | name in db.channels && Listed(db.channels[name], publicOnly) :: (name, db.channels[name])
  }

  function ByName(row: DirectoryRow): Key { [Str(row.0)] }

  lemma ByNameDistinct(db: Db, publicOnly: bool)
    ensures Distinct(DirectoryRows(db, publicOnly), ByName)
  {
    forall x, y | x in DirectoryRows(db, publicOnly) && y in DirectoryRows(db, publicOnly) && ByName(x) == ByName(y)
        ensures x == y {
      assert ByName(x)[0] == ByName(y)[0];
    }
  }

  ghost predicate Summarises(db: Db, s: ChannelSummary, row: DirectoryRow) {
    s.name == row.0 && s.channel == row.1 && s.messageCount == |MessageIds(db, row.0)| && IsLastId(db, row.0, s.lastId)
  }

  /** The page of the directory after a name, each row with its message count and last message. */
  ghost predicate IsDirectoryWindow(db: Db, publicOnly: bool, afterName: Option<string>, limit: Option<nat>,
                                    result: Result<WindowPage<ChannelSummary>, WindowError>) {
    var n := if limit.Some? then limit.value else DEFAULT_WINDOW_SIZE;
    if afterName == Some("") || !(1 <= n <= MAX_WINDOW_SIZE) then result == Err(InvalidQuery)
    else
      ByNameDistinct(db, publicOnly);
      var cursor := if afterName.Some? then Some([Str(afterName.value)]) else None;
      var page := PageRows(DirectoryRows(db, publicOnly), ByName, cursor, n);
      && result.Ok? && result.value.hasMore == HasMore(DirectoryRows(db, publicOnly), ByName, cursor, n)
      && |result.value.rows| == |page|
      && forall i | 0 <= i < |page| :: Summarises(db, result.value.rows[i], page[i])
  }

  method LastId(conn: Connection, name: string) returns (last: int)
    ensures IsLastId(conn.tables, name, last)
  {
    var ids := MessageIds(conn.tables, name);
    var rank := id => Rank(Descending, id);
    forall x, y | x in ids && y in ids && rank(x) == rank(y) ensures x == y { RankOrder(Descending, x, y); }
    var sorted := OrderRows(ids, rank);
    if sorted == [] {
      assert forall id :: id !in ids;
      return 0;
    }
    last := sorted[0];
    forall id | id in ids ensures id <= last {
      HeadIsLeast(sorted, ids, rank, id);
      RankOrder(Descending, last, id);
    }
  }

  method ReadChannelDirectoryWindow(conn: Connection, publicOnly: bool, afterName: Option<string>, limit: Option<nat>)
    returns (result: Result<WindowPage<ChannelSummary>, WindowError>)
    ensures IsDirectoryWindow(conn.tables, publicOnly, afterName, limit, result)
  {
    var n := if limit.Some? then limit.value else DEFAULT_WINDOW_SIZE;
    if afterName == Some("") || !(1 <= n <= MAX_WINDOW_SIZE) { return Err(InvalidQuery); }
    ByNameDistinct(conn.tables, publicOnly);
    var cursor := if afterName.Some? then Some([Str(afterName.value)]) else None;
    var page, more := ReadPage(DirectoryRows(conn.tables, publicOnly), ByName, cursor, n);
    var out: seq<ChannelSummary> := [];
    for i := 0 to |page|
      invariant |out| == i && forall j | 0 <= j < i :: Summarises(conn.tables, out[j], page[j])
    {
      var last := LastId(conn, page[i].0);
      out := out + [ChannelSummary(page[i].0, |MessageIds(conn.tables, page[i].0)|, last, page[i].1)];
    }
    result := Ok(WindowPage(out, more));
  }
}
