/** The kernel as one state machine: every committed transaction is a step, a run is any sequence of
    steps at any times, and the invariant is what holds between the tables of every reachable state. */
module Kernel {
  import opened Text
  import opened Tables
  import opened Board
  import opened Execution
  import opened ExecutionAudit
  import opened Administration
  import opened AdministrationLog
  import opened Lifecycle

  datatype Step =
    | ExecuteStep(who: Identity, request: ExecutionRequest)
    | NavigationStep(who: Identity, input: NavigationInput, conversationRef: Option<string>)
    | AppendStep(who: Identity, channel: string, kind: string, body: string, replyTo: Option<int>)
    | AdminStep(caller: Caller, command: Command)
    | LifecycleStep(change: LifecycleRequest)
    | EnsureChannelStep(channel: string, createdBy: Option<string>)
    | UpdateChannelStep(channel: string, visibility: Option<Visibility>, status: Option<ChannelStatus>)

  datatype Outcome =
    | Executed(execution: ExecutionResult)
    | Navigated(navigation: NavigationResult)
    | Appended(message: Message)
    | Administered(admin: AdminResult)
    | LifecycleDone(lifecycle: LifecycleResult)
    | ChannelDone

  ghost function Apply(h: Hash, db: Db, now: int, step: Step): (Db, Outcome) {
    match step
    case ExecuteStep(who, request) =>
      var (after, r) := Execute(h, db, now, who, request); (after, Executed(r))
    case NavigationStep(who, input, conversationRef) =>
      var (after, r) := NavigationAppend(db, now, who, input, conversationRef); (after, Navigated(r))
    case AppendStep(who, channel, kind, body, replyTo) =>
      var (after, m) := AppendMessage(db, now, who, channel, kind, body, replyTo); (after, Appended(m))
    case AdminStep(caller, command) =>
      var (after, r) := Administer(db, now, caller, command); (after, Administered(r))
    case LifecycleStep(change) =>
      var (after, r) := ChangeParticipant(db, change); (after, LifecycleDone(r))
    case EnsureChannelStep(channel, createdBy) => (EnsureChannel(db, channel, createdBy), ChannelDone)
    case UpdateChannelStep(channel, visibility, status) => (UpdateChannel(db, channel, visibility, status).0,
                                                            ChannelDone)
  }

  /** Running a step's statements on the connection is applying the step to its tables. */
  method RunStep(conn: Connection, now: int, step: Step) returns (outcome: Outcome)
    modifies conn
    ensures (conn.tables, outcome) == Apply(conn.hash, old(conn.tables), now, step)
  {
    hide Execute, NavigationAppend, AppendMessage, Administer, ChangeParticipant, EnsureChannel, UpdateChannel;
    match step {
      case ExecuteStep(who, request) =>
        var r := ExecuteMessageIntent(conn, now, who, request);
        outcome := Executed(r);
      case NavigationStep(who, input, conversationRef) =>
        var r := AppendNavigationMessage(conn, now, who, input, conversationRef);
        outcome := Navigated(r);
      case AppendStep(who, channel, kind, body, replyTo) =>
        var m := Append(conn, now, who, channel, kind, body, replyTo);
        outcome := Appended(m);
      case AdminStep(caller, command) =>
        var r := Administrate(conn, now, caller, command);
        outcome := Administered(r);
      case LifecycleStep(change) =>
        var r := ChangeParticipantRow(conn, change);
        outcome := LifecycleDone(r);
      case EnsureChannelStep(channel, createdBy) =>
        EnsureChannelRow(conn, channel, createdBy);
        outcome := ChannelDone;
      case UpdateChannelStep(channel, visibility, status) =>
        var changed := UpdateChannelRow(conn, channel, visibility, status);
        outcome := ChannelDone;
    }
  }

  /** What the adapters guarantee of an execution: a non-blank channel and non-blank delivery metadata. */
  predicate Guarded(step: Step) {
    step.ExecuteStep? ==>
      && !Blank(step.request.channel)
      && !MetadataBlank(step.request.delivery.deliveryId, IngressRow("", step.request.delivery, 0))
  }

  // ---- runs ---------------------------------------------------------------------------------

  /** A step and the time it runs at; times need not be ordered. */
  type Timed = (int, Step)

  ghost predicate GuardedRun(run: seq<Timed>) {
    forall i | 0 <= i < |run| :: Guarded(run[i].1)
  }

  /** The tables after the first n steps of a run that starts from an empty database. */
  ghost function StateAt(h: Hash, run: seq<Timed>, n: nat): Db
    requires n <= |run|
  {
    if n == 0 then EMPTY_DB else Apply(h, StateAt(h, run, n - 1), run[n - 1].0, run[n - 1].1).0
  }

  /** The outcome of step n. */
  ghost function OutcomeAt(h: Hash, run: seq<Timed>, n: nat): Outcome
    requires n < |run|
  {
    Apply(h, StateAt(h, run, n), run[n].0, run[n].1).1
  }

  // ---- the invariant ------------------------------------------------------------------------

  ghost predicate MessagesNumbered(db: Db) {
    && 0 <= db.lastMessageId
    && forall m | m in db.messages :: 1 <= m <= db.lastMessageId && db.messages[m].id == m
  }

  /** A reservation names a message its participant wrote. */
  ghost predicate ReservationsBound(db: Db) {
    forall k | k in db.reservations ::
      db.reservations[k].messageId in db.messages && db.messages[db.reservations[k].messageId].instance == k.participant
  }

  /** A receipt repeats its reservation and has a delivery. */
  ghost predicate ReceiptsBound(db: Db) {
    forall k | k in db.receipts ::
      && k in db.reservations && db.receipts[k].messageId == db.reservations[k].messageId
      && db.receipts[k].capability == PostMessage && db.receipts[k].status == Committed
      && HasDelivery(db, k)
  }

  /** Every delivery row is complete and belongs to a receipt. */
  ghost predicate IngressBound(db: Db) {
    forall d | d in db.ingress ::
      && db.ingress[d].participantId.Some? && IsParticipantId(db.ingress[d].participantId.value)
      && ExecutionId(db.ingress[d].participantId.value, db.ingress[d].intentId) in db.receipts
      && !MetadataBlank(d, db.ingress[d])
  }

  /** Whatever carries authorization provenance is coherent in the verifier's sense. */
  ghost predicate ProvenanceCoherent(h: Hash, db: Db) {
    forall k | k in db.provenance :: Coherent(h, db, k)
  }

  /** The execution a consumed grant was consumed by. */
  function Consumer(g: DelegatedGrant): ExecutionId
    requires g.consumedIntentId.Some?
  {
    ExecutionId(g.participantId, g.consumedIntentId.value)
  }

  /** Only one-shot grants are consumed, and each is cited by the provenance of its consumer. */
  ghost predicate ConsumptionBacked(db: Db) {
    forall id | id in db.delegated ::
      var g := db.delegated[id];
      && g.consumedAt.Some? == g.consumedIntentId.Some?
      && (g.consumedIntentId.Some? ==>
            && g.oneShot == 1 && Covers(g.intentId, g.consumedIntentId)
            && Consumer(g) in db.provenance
            && db.provenance[Consumer(g)].source == DelegatedGrants
            && db.provenance[Consumer(g)].grantId == Some(id))
  }

  ghost predicate ExecutionInvariant(h: Hash, db: Db) {
    && MessagesNumbered(db) && ReservationsBound(db) && ReceiptsBound(db) && IngressBound(db)
    && ProvenanceCoherent(h, db) && ConsumptionBacked(db)
  }

  ghost predicate Invariant(h: Hash, db: Db) {
    ExecutionInvariant(h, db) && PolicySound(db) && Logged(db)
  }

  // ---- what later steps may not change ------------------------------------------------------

  ghost predicate Kept<K, V>(before: map<K, V>, after: map<K, V>) {
    forall k | k in before :: k in after && after[k] == before[k]
  }

  /** Only status and first consumption of a delegated grant ever change. */
  ghost predicate GrantsKept(before: map<int, DelegatedGrant>, after: map<int, DelegatedGrant>) {
    forall id | id in before ::
      && id in after
      && DelegatedScope(after[id]) == DelegatedScope(before[id]) && after[id].oneShot == before[id].oneShot
      && (before[id].consumedAt.Some? ==>
            after[id].consumedAt == before[id].consumedAt && after[id].consumedIntentId == before[id].consumedIntentId)
  }

  /** Append-only growth: rows of the evidence tables are never changed and the log only grows. */
  ghost predicate Grows(before: Db, after: Db) {
    && Kept(before.messages, after.messages)
    && Kept(before.reservations, after.reservations)
    && Kept(before.receipts, after.receipts)
    && Kept(before.provenance, after.provenance)
    && Kept(before.ingress, after.ingress)
    && GrantsKept(before.delegated, after.delegated)
    && before.participants.Keys <= after.participants.Keys
    && before.events <= after.events
  }

  /** Growth in which no provenance is written for an execution reserved earlier. */
  ghost predicate Extends(before: Db, after: Db) {
    && Grows(before, after)
    && (forall k | k in before.reservations && k in after.provenance :: k in before.provenance)
  }

  lemma KeptTransitive<K, V>(a: map<K, V>, b: map<K, V>, c: map<K, V>)
    requires Kept(a, b) && Kept(b, c)
    ensures Kept(a, c)
  {
  }

  lemma ExtendsTransitive(a: Db, b: Db, c: Db)
    requires Extends(a, b) && Extends(b, c)
    ensures Extends(a, c)
  {
    GrowsTransitive(a, b, c);
  }

  lemma GrowsTransitive(a: Db, b: Db, c: Db)
    requires Grows(a, b) && Grows(b, c)
    ensures Grows(a, c)
  {
    KeptTransitive(a.messages, b.messages, c.messages);
    KeptTransitive(a.reservations, b.reservations, c.reservations);
    KeptTransitive(a.receipts, b.receipts, c.receipts);
    KeptTransitive(a.provenance, b.provenance, c.provenance);
    KeptTransitive(a.ingress, b.ingress, c.ingress);
  }

  lemma ExtendsReflexive(db: Db)
    ensures Extends(db, db)
  {
  }
}
