/** What an execution writes, table by table and column by column, on arbitrary tables. */
module ExecutionTables {
  import opened Text
  import opened Tables
  import opened Authorization
  import opened Board
  import opened Execution

  /** The channels once the request's own exists. */
  function ChannelsWith(db: Db, channel: string, creator: string): map<string, Channel> {
    if channel in db.channels then db.channels
    else
      db.channels[channel := Channel(if channel == "blackboard-lounge" then Public else Private, ChannelActive,
                                     Some(creator))]
  }

  function IngressWith(db: Db, now: int, who: Identity, r: ExecutionRequest): map<string, Ingress> {
    var d := r.delivery;
    if d.deliveryId in db.ingress then db.ingress
    else
      db.ingress[d.deliveryId := Ingress(Some(who.instance), d.intentId, d.transport, d.externalRef, d.principal, now)]
  }

  function ReceiptsWith(db: Db, k: ExecutionId, r: ExecutionRequest, messageId: int): map<ExecutionId, Receipt> {
    if k in db.receipts then db.receipts
    else db.receipts[k := Receipt(r.intent.requestHash, r.intent.capability, messageId, Committed)]
  }

  function DelegatedWith(db: Db, now: int, r: ExecutionRequest, consume: Option<int>): map<int, DelegatedGrant> {
    if consume.None? || consume.value !in db.delegated then db.delegated
    else
      var g := db.delegated[consume.value];
      db.delegated[consume.value :=
        DelegatedGrant(g.principal, g.participantId, g.capability, g.resource, g.intentId, g.expiresAt, g.oneShot,
                       Some(now), Some(r.intent.id), g.status)]
  }

  /** The tables of an execution by its result: a creation writes a message, its reservation, its evidence and
      the consumption; a replay only what evidence is missing; anything else writes nothing. */
  ghost function TablesAfter(db: Db, now: int, who: Identity, r: ExecutionRequest, d: Decision,
                             result: ExecutionResult): Db {
    var k := ExecutionId(who.instance, r.intent.id);
    if result.Created? then
      var id := db.lastMessageId + 1;
      Db(db.messages[id := Message(id, now, r.channel, who.source, who.instance, r.intent.conversationRef, r.kind,
                                   r.body, r.replyTo)],
         id, ChannelsWith(db, r.channel, who.instance),
         db.reservations[k := Reservation(r.intent.requestHash, id, now)],
         ReceiptsWith(db, k, r, id),
         db.provenance[k := Provenance(Some(r.principal.provider), Some(r.principal.subject),
                                       Some(r.intent.capability), Some(r.intent.resource), d.source, d.reason,
                                       d.grantId)],
         IngressWith(db, now, who, r), db.participants, db.durable, db.lastDurableId,
         DelegatedWith(db, now, r, d.consumeGrantId), db.lastDelegatedId, db.events)
    else if result.Existing? then
      Db(db.messages, db.lastMessageId, ChannelsWith(db, r.channel, who.instance), db.reservations,
         ReceiptsWith(db, k, r, result.message.id), db.provenance, IngressWith(db, now, who, r), db.participants,
         db.durable, db.lastDurableId, db.delegated, db.lastDelegatedId, db.events)
    else db
  }

  lemma ReplayTables(db: Db, now: int, who: Identity, k: ExecutionId, r: ExecutionRequest, d: Decision)
    requires k in db.reservations && k == ExecutionId(who.instance, r.intent.id) && r.channel in db.channels
    ensures var t := Replay(db, now, k, r);
            && (t.Commit? <==> t.result.Existing?) && !t.result.Created?
            && (t.Commit? ==> t.db == TablesAfter(db, now, who, r, d, t.result))
  {
  }

  lemma RecordTables(db: Db, now: int, who: Identity, k: ExecutionId, r: ExecutionRequest, id: int)
    requires k == ExecutionId(who.instance, r.intent.id)
    ensures var recorded := RecordExecution(db, now, r.delivery, k, ReceiptFor(r, id));
            recorded.Ok? ==> recorded.value == db.(ingress := IngressWith(db, now, who, r),
                                                   receipts := ReceiptsWith(db, k, r, id))
  {
  }

  lemma AuthorityTables(db: Db, now: int, k: ExecutionId, r: ExecutionRequest, d: Decision, id: int)
    requires k.intent == r.intent.id
    ensures var written := RecordAuthority(db, now, k, ProvenanceRow(r.principal, ReceiptFor(r, id), r.intent.resource,
                                                                     d), d.consumeGrantId);
            written.Ok? ==>
              written.value == db.(provenance := db.provenance[k :=
                                     Provenance(Some(r.principal.provider), Some(r.principal.subject),
                                                Some(r.intent.capability), Some(r.intent.resource), d.source, d.reason,
                                                d.grantId)],
                                   delegated := DelegatedWith(db, now, r, d.consumeGrantId))
  {
  }

  lemma CreationTables(db: Db, now: int, who: Identity, k: ExecutionId, r: ExecutionRequest, d: Decision)
    requires k == ExecutionId(who.instance, r.intent.id) && r.channel in db.channels
    ensures var t := Create(db, now, who, k, r, d);
            && (t.Commit? <==> t.result.Created?) && !t.result.Existing?
            && (t.Commit? ==> t.db == TablesAfter(db, now, who, r, d, t.result))
  {
    hide RecordExecution, RecordAuthority, ReceiptFor, ProvenanceRow;
    var m := NewMessage(db, now, who, r.channel, r.intent.conversationRef, r.kind, r.body, r.replyTo);
    var reserved := Reserved(db, now, k, r, m);
    RecordTables(reserved, now, who, k, r, m.id);
    var recorded := RecordExecution(reserved, now, r.delivery, k, ReceiptFor(r, m.id));
    if recorded.Ok? { AuthorityTables(recorded.value, now, k, r, d, m.id); }
  }

  lemma EnsuredParts(db: Db, now: int, who: Identity, r: ExecutionRequest)
    ensures var ready := EnsureChannel(db, r.channel, Some(who.instance));
            && ready == db.(channels := ChannelsWith(db, r.channel, who.instance))
            && ChannelsWith(ready, r.channel, who.instance) == ChannelsWith(db, r.channel, who.instance)
            && IngressWith(ready, now, who, r) == IngressWith(db, now, who, r)
            && (forall k, id :: ReceiptsWith(ready, k, r, id) == ReceiptsWith(db, k, r, id))
            && (forall consume :: DelegatedWith(ready, now, r, consume) == DelegatedWith(db, now, r, consume))
            && r.channel in ready.channels
  {
  }

  lemma EnsuredTables(db: Db, now: int, who: Identity, r: ExecutionRequest, d: Decision, result: ExecutionResult)
    ensures var ready := EnsureChannel(db, r.channel, Some(who.instance));
            && r.channel in ready.channels && ready.reservations == db.reservations
            && (result.Created? || result.Existing? ==>
                  TablesAfter(ready, now, who, r, d, result) == TablesAfter(db, now, who, r, d, result))
  {
    hide ChannelsWith, IngressWith, ReceiptsWith, DelegatedWith, EnsureChannel;
    EnsuredParts(db, now, who, r);
  }

  /** The tables after an execution are those its result calls for. */
  lemma TablesExact(h: Hash, db: Db, now: int, who: Identity, r: ExecutionRequest)
    ensures var (after, result) := Execute(h, db, now, who, r);
            var d := Decide(db, now, r.principal, r.intent.participantId, r.intent.capability,
                            Some(r.intent.resource), Some(r.intent.id));
            after == TablesAfter(db, now, who, r, d, result)
  {
    hide Decide, Replay, Create, EnsureChannel, TablesAfter, EnvelopeMatches;
    var k := ExecutionId(who.instance, r.intent.id);
    var d := DecisionFor(db, now, r);
    var ready := EnsureChannel(db, r.channel, Some(who.instance));
    var (after, result) := Execute(h, db, now, who, r);
    EnsuredTables(db, now, who, r, d, result);
    Untouched(db, now, who, r, d, result);
    if k in ready.reservations { ReplayTables(ready, now, who, k, r, d); }
    CreationTables(ready, now, who, k, r, d);
  }

  lemma Untouched(db: Db, now: int, who: Identity, r: ExecutionRequest, d: Decision, result: ExecutionResult)
    ensures !result.Created? && !result.Existing? ==> TablesAfter(db, now, who, r, d, result) == db
  {
  }
}
