/** The exact outcome of an execution in a reachable state: a short list of conditions on the request and
    the tables, none of them internal, decides it. */
module ExecutionOutcome {
  import opened Text
  import opened Tables
  import opened Authorization
  import opened ScanOrder
  import opened Board
  import opened Execution
  import opened Kernel
  import opened Preservation
  import opened ExecutionPreservation
  import opened Runs
  import opened AuthorityRuns
  import opened ProvenanceRuns
  import opened ExecutionTables
  import opened ChannelRuns

  /** The request is the one the reservation was made for, by hash or by the five columns of its message. */
  predicate SameIntent(db: Db, k: ExecutionId, r: ExecutionRequest)
    requires k in db.reservations && db.reservations[k].messageId in db.messages
  {
    var m := db.messages[db.reservations[k].messageId];
    || db.reservations[k].requestHash == r.intent.requestHash
    || (&& m.channel == r.channel && m.kind == r.kind && m.body == r.body && m.replyTo == r.replyTo
        && m.conversationRef == r.intent.conversationRef)
  }

  ghost predicate MayPost(db: Db, now: int, r: ExecutionRequest) {
    Authorized(db, now, r.principal, r.intent.participantId, PostMessage, Some(r.channel), Some(r.intent.id))
  }

  /** What the boundary answers once the request is enveloped, authorized and its channel open. */
  ghost function AdmittedOutcome(db: Db, now: int, who: Identity, r: ExecutionRequest): ExecutionResult
    requires ReservationsBound(db)
  {
    var k := ExecutionId(who.instance, r.intent.id);
    if k in db.reservations then
      if !SameIntent(db, k, r) then IntentConflict
      else if Rebound(db, who.instance, r.delivery) then Failed(DeliveryRebound)
      else Existing(db.messages[db.reservations[k].messageId])
    else if r.replyTo.Some? && r.replyTo.value !in db.messages then ReplyTargetNotFound
    else if Rebound(db, who.instance, r.delivery) then Failed(DeliveryRebound)
    else
      Created(Message(db.lastMessageId + 1, now, r.channel, who.source, who.instance, r.intent.conversationRef,
                      r.kind, r.body, r.replyTo))
  }

  ghost function ExpectedOutcome(h: Hash, db: Db, now: int, who: Identity, r: ExecutionRequest): ExecutionResult
    requires ReservationsBound(db)
  {
    if Mismatched(h, who, r) then Failed(EnvelopeMismatch)
    else if !MayPost(db, now, r) then NotAuthorized
    else if r.channel in db.channels && db.channels[r.channel].status == ChannelArchived then ChannelNotActive
    else AdmittedOutcome(db, now, who, r)
  }

  lemma ReplayResult(db: Db, now: int, k: ExecutionId, r: ExecutionRequest)
    requires k in db.reservations && db.reservations[k].messageId in db.messages
    ensures var t := Replay(db, now, k, r);
            && (!SameIntent(db, k, r) ==> t == Abort(IntentConflict))
            && (SameIntent(db, k, r) ==> t.result != IntentConflict)
            && (SameIntent(db, k, r) && !DeliveryAccepted(db, k.participant, r.delivery) ==>
                t == Abort(Failed(DeliveryRebound)))
  {
    hide SameEvidence;
  }

  lemma CreateResult(db: Db, now: int, who: Identity, k: ExecutionId, r: ExecutionRequest, d: Decision)
    ensures var t := Create(db, now, who, k, r, d);
            && (t.result == ReplyTargetNotFound <==> !ReplyTargetExists(db, r.replyTo))
            && (ReplyTargetExists(db, r.replyTo) && !DeliveryAccepted(db, k.participant, r.delivery) ==>
                  t == Abort(Failed(DeliveryRebound)))
            && (t.Commit? ==> t.result == Created(NewMessage(db, now, who, r.channel, r.intent.conversationRef, r.kind,
                                                             r.body, r.replyTo)))
            && (t.Abort? ==> !t.result.Created?)
  {
    hide SameEvidence, RecordAuthority;
  }

  lemma AdmittedReplay(h: Hash, db: Db, now: int, who: Identity, r: ExecutionRequest)
    requires Invariant(h, db) && ReservationsBound(db) && IsParticipantId(who.instance)
    requires Guarded(ExecuteStep(who, r)) && EnvelopeMatches(h, who, r)
    requires ExecutionId(who.instance, r.intent.id) in db.reservations
    ensures var k := ExecutionId(who.instance, r.intent.id);
            Replay(EnsureChannel(db, r.channel, Some(who.instance)), now, k, r).result
                == AdmittedOutcome(db, now, who, r)
  {
    hide Invariant, EnvelopeMatches, Guarded, SameEvidence, Extends, GoodDelivery, Replay, SameIntent, IsParticipantId,
         Rebound;
    NotReboundAccepted(db, who.instance, r.delivery);
    var k := ExecutionId(who.instance, r.intent.id);
    var ready := EnsureChannel(db, r.channel, Some(who.instance));
    EnsureChannelKeeps(h, db, r.channel, Some(who.instance));
    EnvelopeParticipant(h, who, r);
    GuardedDelivery(h, who, r);
    ReplayResult(ready, now, k, r);
    ReplayKeeps(h, ready, now, k, r);
    SameIntentReady(db, ready, k, r);
  }

  lemma AdmittedCreation(h: Hash, db: Db, now: int, who: Identity, r: ExecutionRequest)
    requires Invariant(h, db) && IsParticipantId(who.instance)
    requires Guarded(ExecuteStep(who, r)) && EnvelopeMatches(h, who, r) && DecisionFor(db, now, r).allowed
    requires ExecutionId(who.instance, r.intent.id) !in db.reservations && ReservationsBound(db)
    ensures var k := ExecutionId(who.instance, r.intent.id);
            Create(EnsureChannel(db, r.channel, Some(who.instance)), now, who, k, r, DecisionFor(db, now, r)).result
            == AdmittedOutcome(db, now, who, r)
  {
    hide Invariant, EnvelopeMatches, DecisionFor, Guarded, SameEvidence, Create, ReservationsBound, IsParticipantId,
         Rebound;
    NotReboundAccepted(db, who.instance, r.delivery);
    var k := ExecutionId(who.instance, r.intent.id);
    var ready := EnsureChannel(db, r.channel, Some(who.instance));
    CreateResult(ready, now, who, k, r, DecisionFor(db, now, r));
    CreationAborts(h, db, now, who, r);
  }

  /** A creation is dropped only for a missing reply target or a rebound delivery. */
  lemma CreationAborts(h: Hash, db: Db, now: int, who: Identity, r: ExecutionRequest)
    requires Invariant(h, db) && IsParticipantId(who.instance)
    requires Guarded(ExecuteStep(who, r)) && EnvelopeMatches(h, who, r) && DecisionFor(db, now, r).allowed
    requires ExecutionId(who.instance, r.intent.id) !in db.reservations
    ensures var ready := EnsureChannel(db, r.channel, Some(who.instance));
            var t := Create(ready, now, who, ExecutionId(who.instance, r.intent.id), r, DecisionFor(db, now, r));
            t.Abort? ==> t.result == ReplyTargetNotFound || !DeliveryAccepted(ready, who.instance, r.delivery)
  {
    hide Invariant, EnvelopeMatches, DecisionFor, Guarded, SameEvidence, Extends, GoodDelivery, Create, FitsDecision,
         Blank, IsParticipantId, EnsureChannel, EvidenceUntouched;
    var k := ExecutionId(who.instance, r.intent.id);
    var ready := EnsureChannel(db, r.channel, Some(who.instance));
    EnsureChannelKeeps(h, db, r.channel, Some(who.instance));
    ChannelEnsured(db, r.channel, Some(who.instance));
    EnvelopeParticipant(h, who, r);
    GuardedDelivery(h, who, r);
    var row := ProvenanceRow(r.principal, ReceiptFor(r, 0), r.intent.resource, DecisionFor(db, now, r));
    DecisionFits(h, db, now, r, row);
    FitsDecisionSame(db, ready, k, row, DecisionFor(db, now, r).consumeGrantId);
    CreateKeeps(h, ready, now, who, k, r, DecisionFor(db, now, r));
  }

  /** The branches behind the three gates, from any invariant state. */
  lemma AdmittedExact(h: Hash, db: Db, now: int, who: Identity, r: ExecutionRequest)
    requires Invariant(h, db) && ReservationsBound(db) && Guarded(ExecuteStep(who, r)) && EnvelopeMatches(h, who, r)
    requires DecisionFor(db, now, r).allowed && ChannelOpen(db, r.channel)
    ensures Execute(h, db, now, who, r).1 == AdmittedOutcome(db, now, who, r)
  {
    hide Invariant, EnvelopeMatches, DecisionFor, Guarded, Replay, Create, ReservationsBound, AdmittedOutcome,
         IsParticipantId;
    InvariantPolicy(h, db);
    AllowedParticipant(h, db, now, r);
    EnvelopeParticipant(h, who, r);
    if ExecutionId(who.instance, r.intent.id) in db.reservations {
      AdmittedReplay(h, db, now, who, r);
    } else {
      AdmittedCreation(h, db, now, who, r);
    }
  }

  lemma SameIntentReady(a: Db, b: Db, k: ExecutionId, r: ExecutionRequest)
    requires k in a.reservations && a.reservations[k].messageId in a.messages
    requires b.reservations == a.reservations && b.messages == a.messages
    ensures SameIntent(a, k, r) <==> SameIntent(b, k, r)
  {
  }

  /** In every reachable state the outcome of an execution is the expected one: nothing else in the tables,
      and no internal check, has a say. */
  lemma OutcomeExact(h: Hash, run: seq<Timed>, n: nat, now: int, who: Identity, r: ExecutionRequest)
    requires GuardedRun(run) && n <= |run| && Guarded(ExecuteStep(who, r))
    ensures var db := StateAt(h, run, n);
            ReservationsBound(db) && Execute(h, db, now, who, r).1 == ExpectedOutcome(h, db, now, who, r)
  {
    hide Invariant, StateAt, EnvelopeMatches, Decide, Guarded, Execute, AdmittedOutcome, ReservationsBound, GuardedRun,
         Mismatched;
    MismatchedExact(h, who, r);
    var db := StateAt(h, run, n);
    RunKeeps(h, run, n);
    ReservationsAreBound(h, db);
    GatesExact(h, db, now, who, r);
    if EnvelopeMatches(h, who, r) && DecisionFor(db, now, r).allowed && ChannelOpen(db, r.channel) {
      AdmittedExact(h, db, now, who, r);
    }
  }

  lemma ReservationsAreBound(h: Hash, db: Db)
    requires Invariant(h, db)
    ensures ReservationsBound(db)
  {
  }

  lemma GatesExact(h: Hash, db: Db, now: int, who: Identity, r: ExecutionRequest)
    requires Invariant(h, db)
    ensures var result := Execute(h, db, now, who, r).1;
            && (!EnvelopeMatches(h, who, r) ==> result == Failed(EnvelopeMismatch))
            && (EnvelopeMatches(h, who, r) ==> (DecisionFor(db, now, r).allowed <==> MayPost(db, now, r)))
            && (EnvelopeMatches(h, who, r) && !MayPost(db, now, r) ==> result == NotAuthorized)
            && (EnvelopeMatches(h, who, r) && MayPost(db, now, r) && !ChannelOpen(db, r.channel) ==>
                result == ChannelNotActive)
  {
    hide Invariant, Decide, Authorized, Replay, Create, ConsumptionReceipted;
    InvariantReceipted(h, db);
    OrderFree(db, now, r.principal, r.intent.participantId, r.intent.capability, Some(r.intent.resource),
              Some(r.intent.id));
  }

  /** In every reachable state a delivery is refused as rebound exactly when the execution would otherwise
      succeed and its delivery id is stored with a different participant, intent, transport, external
      reference or principal. */
  lemma DeliveryReboundExact(h: Hash, run: seq<Timed>, n: nat, now: int, who: Identity, r: ExecutionRequest)
    requires GuardedRun(run) && n <= |run| && Guarded(ExecuteStep(who, r))
    ensures var db := StateAt(h, run, n);
            var k := ExecutionId(who.instance, r.intent.id);
            ReservationsBound(db)
            && (Execute(h, db, now, who, r).1 == Failed(DeliveryRebound)
                <==> && !Mismatched(h, who, r) && MayPost(db, now, r)
                     && (r.channel in db.channels ==> db.channels[r.channel].status == ChannelActive)
                     && (if k in db.reservations then SameIntent(db, k, r)
                         else r.replyTo.Some? ==> r.replyTo.value in db.messages)
                     && Rebound(db, who.instance, r.delivery))
  {
    hide StateAt, Execute, Mismatched, MayPost, SameIntent, Rebound, Guarded, ReservationsBound;
    OutcomeExact(h, run, n, now, who, r);
    var db := StateAt(h, run, n);
    BoundHere(db, ExecutionId(who.instance, r.intent.id));
  }

  lemma BoundHere(db: Db, k: ExecutionId)
    requires ReservationsBound(db)
    ensures k in db.reservations ==> db.reservations[k].messageId in db.messages
  {
  }

  // ---- the identical call again -------------------------------------------------------------

  /** What a success leaves for its own repetition. */
  ghost predicate Repeatable(db: Db, who: Identity, r: ExecutionRequest, m: Message) {
    var k := ExecutionId(who.instance, r.intent.id);
    && k in db.reservations && db.reservations[k].messageId == m.id && m.id in db.messages && db.messages[m.id] == m
    && SameIntent(db, k, r)
    && r.delivery.deliveryId in db.ingress && !Rebound(db, who.instance, r.delivery)
    && k in db.receipts
  }

  lemma RepeatableKept(a: Db, b: Db, who: Identity, r: ExecutionRequest, m: Message)
    requires Repeatable(a, who, r, m) && Extends(a, b)
    ensures Repeatable(b, who, r, m)
  {
  }

  /** A success was enveloped, named the message of its reservation and was the same intent. */
  lemma SuccessSame(h: Hash, run: seq<Timed>, n: nat, now: int, who: Identity, r: ExecutionRequest, m: Message)
    requires GuardedRun(run) && n <= |run| && Guarded(ExecuteStep(who, r))
    requires Execute(h, StateAt(h, run, n), now, who, r).1 in {Created(m), Existing(m)}
    ensures !Mismatched(h, who, r)
    ensures var db := StateAt(h, run, n);
            var k := ExecutionId(who.instance, r.intent.id);
            if k in db.reservations then db.reservations[k].messageId in db.messages && SameIntent(db, k, r)
            else Request(m.channel, m.kind, m.body, m.conversationRef, m.replyTo) == r.Content()
  {
    hide StateAt, Execute, Mismatched, MayPost, SameIntent, Rebound, Guarded, ReservationsBound;
    OutcomeExact(h, run, n, now, who, r);
    BoundHere(StateAt(h, run, n), ExecutionId(who.instance, r.intent.id));
  }

  lemma SuccessRepeatable(h: Hash, run: seq<Timed>, n: nat, now: int, who: Identity, r: ExecutionRequest, m: Message)
    requires GuardedRun(run) && n <= |run| && Guarded(ExecuteStep(who, r))
    requires Execute(h, StateAt(h, run, n), now, who, r).1 in {Created(m), Existing(m)}
    ensures Repeatable(Execute(h, StateAt(h, run, n), now, who, r).0, who, r, m)
  {
    hide StateAt, Execute, Mismatched, Guarded, Invariant, Extends, EnvelopeMatches;
    var db := StateAt(h, run, n);
    RunKeeps(h, run, n);
    SuccessSame(h, run, n, now, who, r, m);
    MismatchedExact(h, who, r);
    SuccessEvidenced(h, db, now, who, r, m);
    SuccessBindsExecution(h, db, now, who, r, ExecutionId(who.instance, r.intent.id), m);
    StepKeeps(h, db, now, ExecuteStep(who, r));
    SameIntentKept(h, db, Execute(h, db, now, who, r).0, who, r, m);
    EnvelopePrincipal(h, who, r);
  }

  lemma EnvelopePrincipal(h: Hash, who: Identity, r: ExecutionRequest)
    requires EnvelopeMatches(h, who, r)
    ensures r.delivery.principal == r.principal && r.delivery.intentId == r.intent.id
  {
  }

  lemma SameIntentKept(h: Hash, a: Db, b: Db, who: Identity, r: ExecutionRequest, m: Message)
    requires Extends(a, b)
    requires var k := ExecutionId(who.instance, r.intent.id);
             && k in b.reservations && b.reservations[k].messageId == m.id && m.id in b.messages
             && b.messages[m.id] == m
             && (if k in a.reservations then a.reservations[k].messageId in a.messages && SameIntent(a, k, r)
                 else Request(m.channel, m.kind, m.body, m.conversationRef, m.replyTo) == r.Content())
    ensures SameIntent(b, ExecutionId(who.instance, r.intent.id), r)
  {
  }

  /** Idempotence: after a success, the identical call with the identical delivery returns the same message at
      every later time at which the request is authorized and the channel is open, and changes nothing. */
  lemma IdenticalRetry(h: Hash, run: seq<Timed>, i: nat, j: nat, m: Message)
    requires GuardedRun(run) && i < j < |run| && run[i].1.ExecuteStep? && run[j].1 == run[i].1
    requires OutcomeAt(h, run, i) in {Executed(Created(m)), Executed(Existing(m))}
    requires MayPost(StateAt(h, run, j), run[j].0, run[j].1.request)
    requires var db := StateAt(h, run, j);
             var channel := run[j].1.request.channel;
             channel in db.channels ==> db.channels[channel].status == ChannelActive
    ensures OutcomeAt(h, run, j) == Executed(Existing(m))
    ensures StateAt(h, run, j + 1) == StateAt(h, run, j)
  {
    hide StateAt, Execute, Mismatched, MayPost, Guarded, Invariant, Extends, SameIntent, Rebound, ReservationsBound;
    var who, r := run[i].1.who, run[i].1.request;
    GuardedAt(run, i);
    OutcomeOf(h, run, i);
    OutcomeOf(h, run, j);
    NextState(h, run, i);
    SuccessSame(h, run, i, run[i].0, who, r, m);
    SuccessRepeatable(h, run, i, run[i].0, who, r, m);
    RunExtends(h, run, i + 1, j);
    RepeatableKept(StateAt(h, run, i + 1), StateAt(h, run, j), who, r, m);
    OutcomeExact(h, run, j, run[j].0, who, r);
    ChannelLeft(h, StateAt(h, run, i), run[i].0, who, r);
    RunChannels(h, run, i + 1, j);
    NextState(h, run, j);
    TablesExact(h, StateAt(h, run, j), run[j].0, who, r);
    NothingMissing(StateAt(h, run, j), run[j].0, who, r, m);
  }

  lemma ChannelLeft(h: Hash, db: Db, now: int, who: Identity, r: ExecutionRequest)
    ensures var (after, result) := Execute(h, db, now, who, r);
            result.Created? || result.Existing? ==> r.channel in after.channels
  {
    hide Execute;
    TablesExact(h, db, now, who, r);
  }

  /** A repetition finds its channel, its delivery and its receipt in place. */
  lemma NothingMissing(db: Db, now: int, who: Identity, r: ExecutionRequest, m: Message)
    requires Repeatable(db, who, r, m) && r.channel in db.channels
    ensures forall d :: TablesAfter(db, now, who, r, d, Existing(m)) == db
  {
    hide Rebound, SameIntent;
  }
}
