/** Authority in reachable states: the evaluator's order never matters, delegation only adds, and a
    replay outlives the expiry of the grant it was created under. */
module AuthorityRuns {
  import opened Text
  import opened Tables
  import opened Authorization
  import opened ScanOrder
  import opened Board
  import opened Execution
  import opened ExecutionAudit
  import opened Administration
  import opened AdministrationLog
  import opened Kernel
  import opened Preservation
  import opened ExecutionPreservation
  import opened Runs
  import opened EvidenceRuns

  // ---- the order-free rule ------------------------------------------------------------------

  lemma InvariantReceipted(h: Hash, db: Db)
    requires Invariant(h, db)
    ensures ConsumptionReceipted(db)
  {
    hide Invariant, MessagesNumbered, ReservationsBound, ReceiptsBound, IngressBound, Coherent, PolicySound,
         CommittedReceiptExists;
    ReservationsHold(h, db);
    forall k | k in db.provenance ensures CommittedReceiptExists(db, k.participant, k.intent) {
      ProvenReceipted(h, db, k);
    }
  }

  lemma ProvenReceipted(h: Hash, db: Db, k: ExecutionId)
    requires Invariant(h, db) && k in db.provenance
    ensures CommittedReceiptExists(db, k.participant, k.intent)
  {
    hide Invariant, PrincipalBound, Blank, MetadataBlank, Unbound, Delivers;
    CoherentExact(h, db, k);
    assert ExecutionId(k.participant, k.intent) == k;
  }

  /** In every reachable state, at any time, the evaluator's ordered scan agrees with the order-free rule. */
  lemma OrderFreeOverRuns(h: Hash, run: seq<Timed>, n: nat, now: int, who: Principal, participantId: string,
                          c: Capability, resource: Option<string>, intent: Option<string>)
    requires GuardedRun(run) && n <= |run|
    ensures var db := StateAt(h, run, n);
            Decide(db, now, who, participantId, c, resource, intent).allowed
            <==> Authorized(db, now, who, participantId, c, resource, intent)
  {
    hide Invariant, GuardedRun, StateAt, Decide, Authorized, ConsumptionReceipted;
    RunKeeps(h, run, n);
    InvariantReceipted(h, StateAt(h, run, n));
    OrderFree(StateAt(h, run, n), now, who, participantId, c, resource, intent);
  }

  /** The tables an authority decision reads, where only delegated grants were added. */
  ghost predicate OnlyDelegationAdded(db: Db, after: Db) {
    && after.participants == db.participants && after.durable == db.durable && after.receipts == db.receipts
    && db.delegated.Keys <= after.delegated.Keys
    && (forall id | id in db.delegated :: after.delegated[id] == db.delegated[id])
  }

  lemma DelegationShape(db: Db, now: int, caller: Caller, r: GrantRequest)
    requires PolicySound(db)
    ensures OnlyDelegationAdded(db, Administer(db, now, caller, CreateDelegated(r)).0)
  {
    hide MayAdminister, NormalizeActor, NormalizeCommand, PolicySound, OnlyDelegationAdded, ApplyChange,
         CreateDelegatedInTx, Trim, WellFormed;
    DelegationNormalized(r);
    OnlyDelegationAddedSelf(db);
    var actor, change := NormalizeActor(caller), NormalizeCommand(CreateDelegated(r));
    if actor.Ok? && change.Ok? {
      CreateDelegatedShape(db, now, actor.value, change.value.scope);
      assert ApplyChange(db, now, actor.value, change.value)
          == CreateDelegatedInTx(db, now, actor.value, change.value.scope) by {
        DelegationApplied(db, now, actor.value, change.value);
      }
    }
  }

  lemma DelegationApplied(db: Db, now: int, actor: Actor, change: Change)
    requires change.AddDelegated?
    ensures ApplyChange(db, now, actor, change) == CreateDelegatedInTx(db, now, actor, change.scope)
  {
  }

  lemma DelegationNormalized(r: GrantRequest)
    ensures NormalizeCommand(CreateDelegated(r)).Ok? ==> NormalizeCommand(CreateDelegated(r)).value.AddDelegated?
  {
    hide NormalizeDelegated;
  }

  lemma OnlyDelegationAddedSelf(db: Db)
    ensures OnlyDelegationAdded(db, db)
  {
  }

  lemma CreateDelegatedShape(db: Db, now: int, actor: Actor, s: Scope)
    requires PolicySound(db)
    ensures OnlyDelegationAdded(db, CreateDelegatedInTx(db, now, actor, s).0)
  {
    hide PolicySound, NewDelegated, OnlyDelegationAdded, ParticipantRefusal;
    NextDelegatedFree(db);
    OnlyDelegationAddedSelf(db);
    var id := db.lastDelegatedId + 1;
    DelegationAdded(db, id, NewDelegated(s),
                    db.events + [AdminEvent(DelegatedStore, id, CreateGrant, actor, s, None, Active)]);
  }

  lemma DelegationAdded(db: Db, id: int, g: DelegatedGrant, events: seq<AdminEvent>)
    requires id !in db.delegated
    ensures OnlyDelegationAdded(db, db.(delegated := db.delegated[id := g], lastDelegatedId := id, events := events))
  {
  }

  lemma NextDelegatedFree(db: Db)
    requires PolicySound(db)
    ensures db.lastDelegatedId + 1 !in db.delegated
  {
    hide WellFormedScope, IsKnown, IsParticipantId;
  }

  lemma AuthorizedMonotone(a: Db, b: Db, now: int, who: Principal, participantId: string, c: Capability,
                           resource: Option<string>, intent: Option<string>)
    requires OnlyDelegationAdded(a, b)
    requires Authorized(a, now, who, participantId, c, resource, intent)
    ensures Authorized(b, now, who, participantId, c, resource, intent)
  {
    hide ImplicitReason, HoldsDurable, HoldsDurableFor, HoldsDelegatedFor;
    SameDurable(a, b, who, participantId, c, resource);
    if intent.Some? && HoldsDelegatedFor(a, now, who, participantId, c, resource, intent.value) {
      UsableKept(a, b, now, who, participantId, c, resource, intent.value);
    }
  }

  lemma SameDurable(a: Db, b: Db, who: Principal, participantId: string, c: Capability, resource: Option<string>)
    requires b.durable == a.durable
    ensures HoldsDurable(a, who, participantId, c) <==> HoldsDurable(b, who, participantId, c)
    ensures HoldsDurableFor(a, who, participantId, c, resource) <==> HoldsDurableFor(b, who, participantId, c, resource)
  {
    hide IsExplicit;
  }

  lemma UsableKept(a: Db, b: Db, now: int, who: Principal, participantId: string, c: Capability,
                   resource: Option<string>, intent: string)
    requires OnlyDelegationAdded(a, b)
    requires HoldsDelegatedFor(a, now, who, participantId, c, resource, intent)
    ensures HoldsDelegatedFor(b, now, who, participantId, c, resource, intent)
  {
    var id :| id in a.delegated && Usable(a, now, who, participantId, c, resource, intent, a.delegated[id]);
    assert Usable(b, now, who, participantId, c, resource, intent, b.delegated[id]);
  }

  /** Creating a delegated grant, in any reachable state, never takes a permission away from anyone. */
  lemma DelegationOnlyAdds(h: Hash, run: seq<Timed>, n: nat, at: int, caller: Caller, r: GrantRequest, now: int,
                           who: Principal, participantId: string, c: Capability, resource: Option<string>,
                           intent: Option<string>)
    requires GuardedRun(run) && n <= |run|
    requires Decide(StateAt(h, run, n), now, who, participantId, c, resource, intent).allowed
    ensures var after := Administer(StateAt(h, run, n), at, caller, CreateDelegated(r)).0;
            Decide(after, now, who, participantId, c, resource, intent).allowed
  {
    hide Invariant, GuardedRun, StateAt, Decide, Authorized, ConsumptionReceipted, Administer, PolicySound, Extends,
         EvidenceUntouched;
    var db := StateAt(h, run, n);
    var after := Administer(db, at, caller, CreateDelegated(r)).0;
    RunKeeps(h, run, n);
    AdminKeeps(h, db, at, caller, CreateDelegated(r));
    InvariantReceipted(h, db);
    InvariantReceipted(h, after);
    InvariantPolicy(h, db);
    DelegationShape(db, at, caller, r);
    OrderFree(db, now, who, participantId, c, resource, intent);
    AuthorizedMonotone(db, after, now, who, participantId, c, resource, intent);
    OrderFree(after, now, who, participantId, c, resource, intent);
  }

  // ---- replay -------------------------------------------------------------------------------

  /** A delivery the boundary accepts for this participant: a new one, or the same evidence again. */
  predicate DeliveryAccepted(db: Db, participant: string, d: Delivery) {
    d.deliveryId !in db.ingress || SameEvidence(db.ingress[d.deliveryId], participant, d)
  }

  lemma NotReboundAccepted(db: Db, participant: string, d: Delivery)
    ensures DeliveryAccepted(db, participant, d) <==> !Rebound(db, participant, d)
  {
    hide SameEvidence, Rebound;
    ReboundExact(db, participant, d);
  }

  predicate ChannelOpen(db: Db, channel: string) {
    channel in db.channels ==> db.channels[channel].status == ChannelActive
  }

  /** An allowed request for an execution already reserved with its own hash returns the reserved message. */
  lemma ReplaySucceeds(h: Hash, db: Db, now: int, who: Identity, r: ExecutionRequest)
    requires Invariant(h, db) && Guarded(ExecuteStep(who, r)) && EnvelopeMatches(h, who, r)
             && DecisionFor(db, now, r).allowed
    requires ChannelOpen(db, r.channel) && DeliveryAccepted(db, who.instance, r.delivery)
    requires var k := ExecutionId(who.instance, r.intent.id);
             k in db.reservations && db.reservations[k].requestHash == r.intent.requestHash
    ensures var (after, result) := Execute(h, db, now, who, r);
            var k := ExecutionId(who.instance, r.intent.id);
            && db.reservations[k].messageId in db.messages
            && result == Existing(db.messages[db.reservations[k].messageId])
            && after.delegated == db.delegated && after.provenance == db.provenance
  {
    hide Invariant, EnvelopeMatches, DecisionFor, Guarded, ExecutionEffect, SameEvidence, Extends, GoodDelivery,
         RecordExecution;
    ExecuteKeeps(h, db, now, who, r);
    var k := ExecutionId(who.instance, r.intent.id);
    var ready := EnsureChannel(db, r.channel, Some(who.instance));
    EnsureChannelKeeps(h, db, r.channel, Some(who.instance));
    InvariantPolicy(h, db);
    AllowedParticipant(h, db, now, r);
    EnvelopeParticipant(h, who, r);
    GuardedDelivery(h, who, r);
    ReplayKeeps(h, ready, now, k, r);
    ReservationsOf(h, db);
  }

  lemma EnvelopeParticipant(h: Hash, who: Identity, r: ExecutionRequest)
    requires EnvelopeMatches(h, who, r)
    ensures who.instance == r.intent.participantId && r.intent.capability == PostMessage
  {
  }

  /** The same request again, by another or the same delivery. */
  predicate SameRequest(r: ExecutionRequest, again: ExecutionRequest) {
    again == r.(delivery := again.delivery)
  }

  /** A one-shot grant consumed by this execution lets the same request through again, expired or not. */
  lemma SpentGrantUsable(h: Hash, a: Db, b: Db, t: int, now: int, r: ExecutionRequest, id: int)
    requires Invariant(h, b) && GrantsKept(a.delegated, b.delegated)
    requires id in a.delegated && IsCandidate(a.delegated[id], r.principal, r.intent.participantId, r.intent.capability)
    requires Denial(a.delegated[id], t, Some(r.intent.resource), r.intent.id).None?
    requires CitesOneShot(b, ExecutionId(r.intent.participantId, r.intent.id), id)
    requires b.delegated[id].status == Active
    ensures Usable(b, now, r.principal, r.intent.participantId, r.intent.capability, Some(r.intent.resource),
                   r.intent.id,
                   b.delegated[id])
  {
    hide Invariant, CommittedReceiptExists;
    var k := ExecutionId(r.intent.participantId, r.intent.id);
    SpentExactly(h, b);
    ProvenReceipted(h, b, k);
    assert DelegatedScope(b.delegated[id]) == DelegatedScope(a.delegated[id]);
  }

  lemma UsableAllows(h: Hash, db: Db, now: int, r: ExecutionRequest, id: int)
    requires Invariant(h, db) && id in db.delegated
    requires r.intent.participantId in db.participants
             && db.participants[r.intent.participantId].status == ParticipantActive
    requires Usable(db, now, r.principal, r.intent.participantId, r.intent.capability, Some(r.intent.resource),
                    r.intent.id,
                    db.delegated[id])
    ensures DecisionFor(db, now, r).allowed
  {
    hide Invariant, Decide, Usable, ConsumptionReceipted, ImplicitReason;
    InvariantReceipted(h, db);
    OrderFree(db, now, r.principal, r.intent.participantId, r.intent.capability, Some(r.intent.resource),
              Some(r.intent.id));
  }

  /** Replay survives expiry: after a creation backed by a one-shot grant, the same request with any
      new or identical delivery returns the same message at every later time, as long as participant, channel and
      grant are active, whatever other grants exist, and consumes nothing. */
  lemma ReplaySurvivesExpiry(h: Hash, run: seq<Timed>, i: nat, j: nat, m: Message, id: int)
    requires GuardedRun(run) && i < j < |run| && run[i].1.ExecuteStep? && run[j].1.ExecuteStep?
    requires OutcomeAt(h, run, i) == Executed(Created(m))
    requires DecisionFor(StateAt(h, run, i), run[i].0, run[i].1.request).consumeGrantId == Some(id)
    requires run[j].1.who.instance == run[i].1.who.instance && SameRequest(run[i].1.request, run[j].1.request)
    requires !Mismatched(h, run[j].1.who, run[j].1.request)
    requires var db := StateAt(h, run, j);
             var again := run[j].1.request;
             && again.intent.participantId in db.participants
             && db.participants[again.intent.participantId].status == ParticipantActive
             && (again.channel in db.channels ==> db.channels[again.channel].status == ChannelActive)
             && !Rebound(db, run[j].1.who.instance, again.delivery)
             && (id in db.delegated ==> db.delegated[id].status == Active)
    ensures OutcomeAt(h, run, j) == Executed(Existing(m))
    ensures StateAt(h, run, j + 1).delegated == StateAt(h, run, j).delegated
  {
    hide Invariant, Execute, DecisionFor, GuardedRun, Extends, IsCandidate, Denial, CitesOneShot, Guarded,
         EnvelopeMatches, DeliveryAccepted, StateAt, Mismatched, Rebound;
    MismatchedExact(h, run[j].1.who, run[j].1.request);
    NotReboundAccepted(StateAt(h, run, j), run[j].1.who.instance, run[j].1.request.delivery);
    var a, b := StateAt(h, run, i), StateAt(h, run, j);
    var (t, step) := run[i];
    RunKeeps(h, run, i);
    RunKeeps(h, run, j);
    RunExtends(h, run, i + 1, j);
    RunExtends(h, run, i, j);
    GuardedAt(run, i);
    GuardedAt(run, j);
    NextState(h, run, i);
    NextState(h, run, j);
    ReplayAfterCreation(h, a, StateAt(h, run, i + 1), b, t, step.who, step.request, run[j].0, run[j].1.who,
                        run[j].1.request, m, id);
  }

  lemma ReplayAfterCreation(h: Hash, a: Db, mid: Db, b: Db, t: int, who: Identity, r: ExecutionRequest,
                            now: int, who': Identity, again: ExecutionRequest, m: Message, id: int)
    requires Invariant(h, a) && Invariant(h, b) && Guarded(ExecuteStep(who, r)) && Guarded(ExecuteStep(who', again))
    requires Execute(h, a, t, who, r) == (mid, Created(m)) && DecisionFor(a, t, r).consumeGrantId == Some(id)
    requires Extends(a, b) && Extends(mid, b)
    requires who'.instance == who.instance && SameRequest(r, again) && EnvelopeMatches(h, who', again)
    requires again.intent.participantId in b.participants
             && b.participants[again.intent.participantId].status == ParticipantActive
    requires ChannelOpen(b, again.channel) && DeliveryAccepted(b, who'.instance, again.delivery)
    requires id in b.delegated ==> b.delegated[id].status == Active
    ensures Execute(h, b, now, who', again).1 == Existing(m)
    ensures Execute(h, b, now, who', again).0.delegated == b.delegated
  {
    hide Invariant, Execute, DecisionFor, IsCandidate, Denial, CitesOneShot, Guarded, EnvelopeMatches, DeliveryAccepted,
         ChannelOpen, Usable;
    var k := ExecutionId(who.instance, r.intent.id);
    EnvelopeParticipant(h, who', again);
    CreationCites(h, a, t, who, r);
    CitationKept(mid, b, k, id);
    CitationGrant(b, k, id);
    SpentGrantUsable(h, a, b, t, now, again, id);
    UsableAllows(h, b, now, again, id);
    CreationReserved(h, a, t, who, r, m);
    EnvelopeHash(h, who', again);
    ReplaySucceeds(h, b, now, who', again);
  }

  lemma CitationGrant(db: Db, k: ExecutionId, id: int)
    requires CitesOneShot(db, k, id)
    ensures id in db.delegated
  {
  }

  lemma EnvelopeHash(h: Hash, who: Identity, r: ExecutionRequest)
    requires EnvelopeMatches(h, who, r)
    ensures r.intent.requestHash == h(r.Content())
  {
  }

  lemma CreationReserved(h: Hash, db: Db, now: int, who: Identity, r: ExecutionRequest, m: Message)
    requires Invariant(h, db) && Guarded(ExecuteStep(who, r)) && Execute(h, db, now, who, r).1 == Created(m)
    ensures var after := Execute(h, db, now, who, r).0;
            var k := ExecutionId(who.instance, r.intent.id);
            && k in after.reservations && after.reservations[k].messageId == m.id
            && after.reservations[k].requestHash == h(r.Content())
            && m.id in after.messages && after.messages[m.id] == m
  {
    hide Invariant, Execute, DecisionFor, Guarded, Extends;
    ExecuteKeeps(h, db, now, who, r);
  }
}
