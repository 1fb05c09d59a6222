/** src/execution.rs, `execute_message_intent`: one transaction that authorizes an intent, reserves it,
    appends its message and writes ingress, receipt and authorization provenance. */
module Execution {
  import opened Text
  import opened Tables
  import opened Authorization
  import opened Board

  /** Ingress provenance as delivered. */
  datatype Delivery = Delivery(
    deliveryId: string, intentId: string, transport: string, externalRef: string, principal: Principal)

  datatype Intent = Intent(
    id: string, participantId: string, conversationRef: Option<string>, capability: Capability,
    resource: string, requestHash: string)

  datatype ExecutionRequest = ExecutionRequest(
    principal: Principal, delivery: Delivery, intent: Intent,
    channel: string, kind: string, body: string, replyTo: Option<int>)
  {
    function Content(): Document {
      Request(channel, kind, body, intent.conversationRef, replyTo)
    }
  }

  /** The ways the transaction can fail with an error instead of an outcome. */
  datatype Fault =
    | EnvelopeMismatch
    | DeliveryRebound
    | MessageRowMissing
    | ReceiptRebound
    | ProvenanceExists
    | GrantNotConsumable

  datatype ExecutionResult =
    | Created(message: Message)
    | Existing(message: Message)
    | IntentConflict
    | ReplyTargetNotFound
    | ChannelNotActive
    | NotAuthorized
    | Failed(fault: Fault)

  /** A transaction either commits new tables with its result, or is dropped with a result. */
  datatype Transaction = Commit(db: Db, result: ExecutionResult) | Abort(result: ExecutionResult)

  predicate EnvelopeMatches(h: Hash, who: Identity, r: ExecutionRequest) {
    && r.principal == r.delivery.principal
    && r.delivery.intentId == r.intent.id
    && who.instance == r.intent.participantId
    && r.intent.capability == PostMessage
    && r.intent.resource == r.channel
    && r.intent.requestHash == h(r.Content())
  }

  // ---- ingress and receipt ------------------------------------------------------------------

  function IngressRow(participant: string, d: Delivery, now: int): Ingress {
    Ingress(Some(participant), d.intentId, d.transport, d.externalRef, d.principal, now)
  }

  /** The stored delivery is this very evidence. */
  predicate SameEvidence(row: Ingress, participant: string, d: Delivery) {
    row == IngressRow(participant, d, row.createdAt)
  }

  predicate SameReceipt(row: Receipt, receipt: Receipt) {
    row.capability == receipt.capability && row.messageId == receipt.messageId && row.status == receipt.status
  }

  function RecordExecution(db: Db, now: int, d: Delivery, id: ExecutionId, receipt: Receipt): Result<Db, Fault> {
    if d.deliveryId in db.ingress && !SameEvidence(db.ingress[d.deliveryId], id.participant,
                                                   d) then Err(DeliveryRebound)
    else if id in db.receipts && !SameReceipt(db.receipts[id], receipt) then Err(ReceiptRebound)
    else
      Ok(db.(ingress := if d.deliveryId in db.ingress then db.ingress
                        else db.ingress[d.deliveryId := IngressRow(id.participant, d, now)],
             receipts := if id in db.receipts then db.receipts else db.receipts[id := receipt]))
  }

  method RecordExecutionRows(conn: Connection, now: int, d: Delivery, id: ExecutionId, receipt: Receipt)
    returns (r: Result<(), Fault>)
    modifies conn
    ensures var spec := RecordExecution(old(conn.tables), now, d, id, receipt);
            if spec.Ok? then r == Ok(()) && conn.tables == spec.value else r == Err(spec.error)
  {
    var db := conn.tables;
    if d.deliveryId in db.ingress {
      var row := db.ingress[d.deliveryId];
      if row.participantId != Some(id.participant) || row.intentId != d.intentId || row.transport != d.transport
         || row.externalRef != d.externalRef || row.principal != d.principal {
        return Err(DeliveryRebound);
      }
    } else {
      conn.tables := db.(ingress := db.ingress[d.deliveryId := IngressRow(id.participant, d, now)]);
    }
    if id in db.receipts {
      var row := db.receipts[id];
      if row.capability != receipt.capability || row.messageId != receipt.messageId || row.status != receipt.status {
        return Err(ReceiptRebound);
      }
    } else {
      conn.tables := conn.tables.(receipts := conn.tables.receipts[id := receipt]);
    }
    return Ok(());
  }

  // ---- authorization provenance and consumption ---------------------------------------------

  function ProvenanceRow(who: Principal, receipt: Receipt, resource: string, d: Decision): Provenance {
    Provenance(Some(who.provider), Some(who.subject), Some(receipt.capability), Some(resource),
               d.source, d.reason, d.grantId)
  }

  predicate Consumable(db: Db, grantId: int) {
    grantId in db.delegated && db.delegated[grantId].status == Active
    && db.delegated[grantId].oneShot == 1 && db.delegated[grantId].consumedAt.None?
  }

  function Consumed(g: DelegatedGrant, now: int, intent: string): DelegatedGrant {
    g.(consumedAt := Some(now), consumedIntentId := Some(intent))
  }

  /** Provenance row, then consumption of the one-shot grant the decision rests on. */
  function RecordAuthority(db: Db, now: int, id: ExecutionId, row: Provenance,
                           consume: Option<int>): Result<Db, Fault> {
    if id in db.provenance then Err(ProvenanceExists)
    else
      var noted := db.(provenance := db.provenance[id := row]);
      if consume.None? then Ok(noted)
      else if !Consumable(db, consume.value) then Err(GrantNotConsumable)
      else Ok(noted.(delegated := db.delegated[consume.value := Consumed(db.delegated[consume.value], now, id.intent)]))
  }

  method ConsumeDelegatedGrant(conn: Connection, now: int, grantId: int, intent: string) returns (ok: bool)
    modifies conn
    ensures ok == Consumable(old(conn.tables), grantId)
    ensures conn.tables == if ok then old(conn.tables).(delegated := old(conn.tables).delegated[grantId :=
                                        Consumed(old(conn.tables).delegated[grantId], now, intent)])
                           else old(conn.tables)
  {
    var rows := conn.tables.delegated;
    ok := grantId in rows && rows[grantId].status == Active && rows[grantId].oneShot == 1
          && rows[grantId].consumedAt == None;
    if ok {
      conn.tables := conn.tables.(delegated := rows[grantId := rows[grantId].(consumedAt := Some(now),
                                                                             consumedIntentId := Some(intent))]);
    }
  }

  method RecordAuthorityRows(conn: Connection, now: int, id: ExecutionId, row: Provenance, consume: Option<int>)
    returns (r: Result<(), Fault>)
    modifies conn
    ensures var spec := RecordAuthority(old(conn.tables), now, id, row, consume);
            if spec.Ok? then r == Ok(()) && conn.tables == spec.value else r == Err(spec.error)
  {
    if id in conn.tables.provenance { return Err(ProvenanceExists); }
    conn.tables := conn.tables.(provenance := conn.tables.provenance[id := row]);
    if consume.Some? {
      var ok := ConsumeDelegatedGrant(conn, now, consume.value, id.intent);
      if !ok { return Err(GrantNotConsumable); }
    }
    return Ok(());
  }

  // ---- the two branches ---------------------------------------------------------------------

  function ReceiptFor(r: ExecutionRequest, messageId: int): Receipt {
    Receipt(r.intent.requestHash, r.intent.capability, messageId, Committed)
  }

  /** The reservation exists: find its message, compare, record the delivery. */
  function Replay(db: Db, now: int, id: ExecutionId, r: ExecutionRequest): Transaction
    requires id in db.reservations
  {
    var stored := db.reservations[id];
    if stored.messageId !in db.messages then Abort(Failed(MessageRowMissing))
    else
      var m := db.messages[stored.messageId];
      if stored.requestHash != r.intent.requestHash && m.Content() != r.Content() then Abort(IntentConflict)
      else
        var recorded := RecordExecution(db, now, r.delivery, id, ReceiptFor(r, m.id));
        if recorded.Err? then Abort(Failed(recorded.error)) else Commit(recorded.value, Existing(m))
  }

  /** The message appended and the reservation bound to it. */
  function Reserved(db: Db, now: int, id: ExecutionId, r: ExecutionRequest, m: Message): Db {
    InsertMessage(db, m).(reservations := db.reservations[id := Reservation(r.intent.requestHash, m.id, now)])
  }

  /** The reservation is new: append the message and write every evidence row. */
  function Create(db: Db, now: int, who: Identity, id: ExecutionId, r: ExecutionRequest, d: Decision): Transaction {
    if !ReplyTargetExists(db, r.replyTo) then Abort(ReplyTargetNotFound)
    else
      var m := NewMessage(db, now, who, r.channel, r.intent.conversationRef, r.kind, r.body, r.replyTo);
      RecordCreation(Reserved(db, now, id, r, m), now, id, r, d, m)
  }

  /** The evidence rows of a new message. */
  function RecordCreation(db: Db, now: int, id: ExecutionId, r: ExecutionRequest, d: Decision,
                          m: Message): Transaction {
    var recorded := RecordExecution(db, now, r.delivery, id, ReceiptFor(r, m.id));
    if recorded.Err? then Abort(Failed(recorded.error))
    else
      var row := ProvenanceRow(r.principal, ReceiptFor(r, m.id), r.intent.resource, d);
      var authorized := RecordAuthority(recorded.value, now, id, row, d.consumeGrantId);
      if authorized.Err? then Abort(Failed(authorized.error)) else Commit(authorized.value, Created(m))
  }

  ghost function Attempt(h: Hash, db: Db, now: int, who: Identity, r: ExecutionRequest): Transaction {
    if !EnvelopeMatches(h, who, r) then Abort(Failed(EnvelopeMismatch))
    else
      var d := DecisionFor(db, now, r);
      var ready := EnsureChannel(db, r.channel, Some(who.instance));
      var id := ExecutionId(who.instance, r.intent.id);
      if !d.allowed then Abort(NotAuthorized)
      else if ready.channels[r.channel].status != ChannelActive then Abort(ChannelNotActive)
      else if id in db.reservations then Replay(ready, now, id, r)
      else Create(ready, now, who, id, r, d)
  }

  ghost function DecisionFor(db: Db, now: int, r: ExecutionRequest): Decision {
    Decide(db, now, r.principal, r.intent.participantId, r.intent.capability, Some(r.intent.resource),
           Some(r.intent.id))
  }

  /** The tables and the result after one execution: an aborted transaction leaves no trace. */
  ghost function Execute(h: Hash, db: Db, now: int, who: Identity, r: ExecutionRequest): (Db, ExecutionResult) {
    var t := Attempt(h, db, now, who, r);
    if t.Commit? then (t.db, t.result) else (db, t.result)
  }

  // ---- the execution boundary ---------------------------------------------------------------

  method ExecuteMessageIntent(conn: Connection, now: int, who: Identity, r: ExecutionRequest)
    returns (result: ExecutionResult)
    modifies conn
    ensures (conn.tables, result) == Execute(conn.hash, old(conn.tables), now, who, r)
  {
    hide Decide, Replay, Create, EnsureChannel;
    var expectedHash := conn.hash(r.Content());
    if r.principal != r.delivery.principal || r.delivery.intentId != r.intent.id
       || who.instance != r.intent.participantId || r.intent.capability != PostMessage
       || r.intent.resource != r.channel || r.intent.requestHash != expectedHash {
      return Failed(EnvelopeMismatch);
    }
    var saved := conn.tables;
    var d := EvaluateAuthorization(conn, now, r.principal, r.intent.participantId, r.intent.capability,
                                   Some(r.intent.resource), Some(r.intent.id));
    if !d.allowed { return NotAuthorized; }
    EnsureChannelRow(conn, r.channel, Some(who.instance));
    ChannelEnsured(saved, r.channel, Some(who.instance));
    if conn.tables.channels[r.channel].status != ChannelActive {
      conn.tables := saved;
      return ChannelNotActive;
    }
    var id := ExecutionId(who.instance, r.intent.id);
    if id in conn.tables.reservations {
      result := ReplayIntent(conn, now, id, r);
      if !result.Existing? { conn.tables := saved; }
    } else {
      result := CreateIntent(conn, now, who, id, r, d);
      if !result.Created? { conn.tables := saved; }
    }
  }

  lemma ChannelEnsured(db: Db, channel: string, creator: Option<string>)
    ensures channel in EnsureChannel(db, channel, creator).channels
    ensures EnsureChannel(db, channel, creator).reservations == db.reservations
  {
  }

  method ReplayIntent(conn: Connection, now: int, id: ExecutionId, r: ExecutionRequest)
    returns (result: ExecutionResult)
    requires id in conn.tables.reservations
    modifies conn
    ensures var t := Replay(old(conn.tables), now, id, r);
            result == t.result && (t.Commit? <==> result.Existing?) && (t.Commit? ==> conn.tables == t.db)
  {
    var stored := conn.tables.reservations[id];
    if stored.messageId !in conn.tables.messages { return Failed(MessageRowMissing); }
    var m := conn.tables.messages[stored.messageId];
    if stored.requestHash != r.intent.requestHash
       && (m.channel != r.channel || m.kind != r.kind || m.body != r.body || m.replyTo != r.replyTo
           || m.conversationRef != r.intent.conversationRef) {
      return IntentConflict;
    }
    var recorded := RecordExecutionRows(conn, now, r.delivery, id, ReceiptFor(r, m.id));
    if recorded.Err? { return Failed(recorded.error); }
    result := Existing(m);
  }

  /** Insert the message and bind the fresh reservation to it. */
  method AppendReserved(conn: Connection, now: int, who: Identity, id: ExecutionId, r: ExecutionRequest)
    returns (m: Message)
    requires id in conn.tables.reservations
    requires conn.tables.reservations[id] == Reservation(r.intent.requestHash, 0, now)
    modifies conn
    ensures m == NewMessage(old(conn.tables), now, who, r.channel, r.intent.conversationRef, r.kind, r.body, r.replyTo)
    ensures conn.tables == Reserved(old(conn.tables), now, id, r, m)
  {
    m := NewMessage(conn.tables, now, who, r.channel, r.intent.conversationRef, r.kind, r.body, r.replyTo);
    InsertMessageRow(conn, m);
    conn.tables := conn.tables.(reservations :=
      conn.tables.reservations[id := conn.tables.reservations[id].(messageId := m.id)]);
  }

  method CreateIntent(conn: Connection, now: int, who: Identity, id: ExecutionId, r: ExecutionRequest, d: Decision)
    returns (result: ExecutionResult)
    requires id !in conn.tables.reservations
    modifies conn
    ensures var t := Create(old(conn.tables), now, who, id, r, d);
            result == t.result && (t.Commit? <==> result.Created?) && (t.Commit? ==> conn.tables == t.db)
  {
    hide RecordCreation, Reserved, InsertMessage;
    var before := conn.tables;
    conn.tables := before.(reservations := before.reservations[id := Reservation(r.intent.requestHash, 0, now)]);
    if r.replyTo.Some? {
      if r.replyTo.value !in conn.tables.messages { return ReplyTargetNotFound; }
    }
    ghost var placed := conn.tables;
    var m := AppendReserved(conn, now, who, id, r);
    ReservedTwice(before, placed, now, id, r, m);
    result := RecordCreationRows(conn, now, id, r, d, m);
  }

  method RecordCreationRows(conn: Connection, now: int, id: ExecutionId, r: ExecutionRequest, d: Decision, m: Message)
    returns (result: ExecutionResult)
    modifies conn
    ensures var t := RecordCreation(old(conn.tables), now, id, r, d, m);
            result == t.result && (t.Commit? <==> result.Created?) && (t.Commit? ==> conn.tables == t.db)
  {
    hide RecordExecution, RecordAuthority, ReceiptFor, ProvenanceRow;
    var recorded := RecordExecutionRows(conn, now, r.delivery, id, ReceiptFor(r, m.id));
    if recorded.Err? { return Failed(recorded.error); }
    var row := ProvenanceRow(r.principal, ReceiptFor(r, m.id), r.intent.resource, d);
    var authorized := RecordAuthorityRows(conn, now, id, row, d.consumeGrantId);
    if authorized.Err? { return Failed(authorized.error); }
    result := Created(m);
  }

  /** Reserving with message id 0 first leaves no trace once the reservation is bound. */
  lemma ReservedTwice(before: Db, placed: Db, now: int, id: ExecutionId, r: ExecutionRequest, m: Message)
    requires placed == before.(reservations := before.reservations[id := Reservation(r.intent.requestHash, 0, now)])
    ensures Reserved(placed, now, id, r, m) == Reserved(before, now, id, r, m)
  {
    var last := Reservation(r.intent.requestHash, m.id, now);
    assert placed.reservations[id := last] == before.reservations[id := last];
  }
}
