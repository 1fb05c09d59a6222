/** Whole runs: every reachable state satisfies the invariant, and later states extend earlier ones. */
module Runs {
  import opened Text
  import opened Tables
  import opened Board
  import opened Execution
  import opened Administration
  import opened AdministrationLog
  import opened Lifecycle
  import opened Kernel
  import opened Preservation
  import opened ExecutionPreservation

  lemma EmptyInvariant(h: Hash)
    ensures Invariant(h, EMPTY_DB)
  {
    assert DurableStanding(EMPTY_DB) == map[] && DelegatedStanding(EMPTY_DB) == map[];
  }

  /** Every step of the machine keeps the invariant and extends the tables. */
  lemma StepKeeps(h: Hash, db: Db, now: int, step: Step)
    requires Invariant(h, db) && Guarded(step)
    ensures var after := Apply(h, db, now, step).0;
            Invariant(h, after) && Extends(db, after)
  {
    hide Invariant, Extends, Guarded, Execute, NavigationAppend, AppendMessage, Administer, ChangeParticipant,
         EnsureChannel, EvidenceUntouched, ExecutionEffect;
    match step {
      case ExecuteStep(who, request) => ExecuteKeeps(h, db, now, who, request);
      case NavigationStep(who, input, conversationRef) => NavigationKeeps(h, db, now, who, input, conversationRef);
      case AppendStep(who, channel, kind, body, replyTo) => AppendKeeps(h, db, now, who, channel, kind, body, replyTo);
      case AdminStep(caller, command) => AdminKeeps(h, db, now, caller, command);
      case LifecycleStep(change) => LifecycleKeeps(h, db, change);
      case EnsureChannelStep(channel, createdBy) => EnsureChannelKeeps(h, db, channel, createdBy);
      case UpdateChannelStep(channel, visibility, status) =>
        ChannelsKeep(h, db, UpdateChannel(db, channel, visibility, status).0.channels);
    }
  }

  /** The invariant holds in every state of every guarded run, at whatever times its steps happen. */
  lemma {:induction false} RunKeeps(h: Hash, run: seq<Timed>, n: nat)
    requires GuardedRun(run) && n <= |run|
    ensures Invariant(h, StateAt(h, run, n))
  {
    hide Invariant, Extends, Apply;
    if n == 0 {
      EmptyInvariant(h);
    } else {
      RunKeeps(h, run, n - 1);
      StepKeeps(h, StateAt(h, run, n - 1), run[n - 1].0, run[n - 1].1);
    }
  }

  lemma {:induction false} RunExtends(h: Hash, run: seq<Timed>, m: nat, n: nat)
    requires GuardedRun(run) && m <= n <= |run|
    ensures Extends(StateAt(h, run, m), StateAt(h, run, n))
    decreases n - m
  {
    hide Invariant, Extends, Apply;
    if m == n {
      ExtendsReflexive(StateAt(h, run, m));
    } else {
      RunExtends(h, run, m, n - 1);
      RunKeeps(h, run, n - 1);
      StepKeeps(h, StateAt(h, run, n - 1), run[n - 1].0, run[n - 1].1);
      ExtendsTransitive(StateAt(h, run, m), StateAt(h, run, n - 1), StateAt(h, run, n));
    }
  }

  lemma NextState(h: Hash, run: seq<Timed>, i: nat)
    requires i < |run|
    ensures StateAt(h, run, i + 1) == Apply(h, StateAt(h, run, i), run[i].0, run[i].1).0
  {
  }

  lemma OutcomeOf(h: Hash, run: seq<Timed>, i: nat)
    requires i < |run|
    ensures OutcomeAt(h, run, i) == Apply(h, StateAt(h, run, i), run[i].0, run[i].1).1
  {
  }

  lemma GuardedAt(run: seq<Timed>, i: nat)
    requires GuardedRun(run) && i < |run|
    ensures Guarded(run[i].1)
  {
  }

  // ---- internal failures --------------------------------------------------------------------

  /** The request contradicts its envelope in one of six places. */
  predicate Mismatched(h: Hash, who: Identity, r: ExecutionRequest) {
    || r.principal != r.delivery.principal
    || r.delivery.intentId != r.intent.id
    || who.instance != r.intent.participantId
    || r.intent.capability != PostMessage
    || r.intent.resource != r.channel
    || r.intent.requestHash != h(Request(r.channel, r.kind, r.body, r.intent.conversationRef, r.replyTo))
  }

  lemma MismatchedExact(h: Hash, who: Identity, r: ExecutionRequest)
    ensures Mismatched(h, who, r) <==> !EnvelopeMatches(h, who, r)
  {
  }

  /** The delivery id is stored for a delivery that differs in one of five columns. */
  predicate Rebound(db: Db, participant: string, d: Delivery) {
    && d.deliveryId in db.ingress
    && var row := db.ingress[d.deliveryId];
       || row.participantId != Some(participant)
       || row.intentId != d.intentId
       || row.transport != d.transport
       || row.externalRef != d.externalRef
       || row.principal != d.principal
  }

  lemma ReboundExact(db: Db, participant: string, d: Delivery)
    ensures Rebound(db, participant, d)
            <==> d.deliveryId in db.ingress && !SameEvidence(db.ingress[d.deliveryId], participant, d)
  {
  }

  /** From any reachable state an execution returns an error only for a mismatched envelope or a
      delivery id stored for a different delivery; every other internal check passes, and whatever does
      not succeed leaves all tables unchanged. */
  lemma InternalFailuresUnreachable(h: Hash, run: seq<Timed>, n: nat, now: int, who: Identity, r: ExecutionRequest)
    requires GuardedRun(run) && n <= |run| && Guarded(ExecuteStep(who, r))
    ensures var db := StateAt(h, run, n);
            var (after, result) := Execute(h, db, now, who, r);
            && (result.Failed? ==>
                  || (result.fault == EnvelopeMismatch && Mismatched(h, who, r))
                  || (result.fault == DeliveryRebound && Rebound(db, who.instance, r.delivery)))
            && (!result.Created? && !result.Existing? ==> after == db)
  {
    hide Invariant, Extends, Apply, Execute, EnvelopeMatches, SameEvidence, ExecutionEffect, StateAt, Guarded,
         Mismatched, Rebound;
    var db := StateAt(h, run, n);
    RunKeeps(h, run, n);
    ExecuteKeeps(h, db, now, who, r);
    var (after, result) := Execute(h, db, now, who, r);
    EffectFaults(h, db, now, who, r, after, result);
  }

  lemma EffectFaults(h: Hash, db: Db, now: int, who: Identity, r: ExecutionRequest, after: Db, result: ExecutionResult)
    requires ExecutionEffect(h, db, now, who, r, after, result)
    ensures result.Failed? ==>
              || (result.fault == EnvelopeMismatch && Mismatched(h, who, r))
              || (result.fault == DeliveryRebound && Rebound(db, who.instance, r.delivery))
    ensures !result.Created? && !result.Existing? ==> after == db
  {
    hide EnvelopeMatches, SameEvidence, DecisionFor, Mismatched, Rebound;
    MismatchedExact(h, who, r);
    ReboundExact(db, who.instance, r.delivery);
  }

  // ---- exactly once -------------------------------------------------------------------------

  /** The execution a writer step is about, and the message a success returns. */
  ghost predicate Succeeds(step: Step, outcome: Outcome, k: ExecutionId, m: Message) {
    match step
    case ExecuteStep(who, request) =>
      k == ExecutionId(who.instance, request.intent.id)
          && (outcome == Executed(Created(m)) || outcome == Executed(Existing(m)))
    case NavigationStep(who, input, _) =>
      k == ExecutionId(who.instance, input.nonce)
      && (outcome == Navigated(NavigationCreated(m)) || outcome == Navigated(NavigationExisting(m)))
    case _ => false
  }

  ghost predicate Creates(outcome: Outcome) {
    (outcome.Executed? && outcome.execution.Created?) || (outcome.Navigated? && outcome.navigation.NavigationCreated?)
  }

  /** A success leaves its reservation bound to the returned message, and creates it exactly when the
      execution was not reserved before. */
  lemma SuccessBinds(h: Hash, db: Db, now: int, step: Step, k: ExecutionId, m: Message)
    requires Invariant(h, db) && Guarded(step)
    requires Succeeds(step, Apply(h, db, now, step).1, k, m)
    ensures var (after, outcome) := Apply(h, db, now, step);
            && k in after.reservations && after.reservations[k].messageId == m.id
            && m.id in after.messages && after.messages[m.id] == m
            && (Creates(outcome) <==> k !in db.reservations)
  {
    hide Invariant, Guarded, Execute, NavigationAppend, AppendMessage, Administer, ChangeParticipant, EnsureChannel,
         UpdateChannel;
    var (after, outcome) := Apply(h, db, now, step);
    if step.ExecuteStep? {
      SuccessBindsExecution(h, db, now, step.who, step.request, k, m);
    } else {
      SuccessBindsNavigation(h, db, now, step.who, step.input, step.conversationRef, k, m);
    }
  }

  lemma SuccessBindsExecution(h: Hash, db: Db, now: int, who: Identity, r: ExecutionRequest, k: ExecutionId, m: Message)
    requires Invariant(h, db) && Guarded(ExecuteStep(who, r)) && k == ExecutionId(who.instance, r.intent.id)
    requires Execute(h, db, now, who, r).1 in {Created(m), Existing(m)}
    ensures var (after, result) := Execute(h, db, now, who, r);
            && k in after.reservations && after.reservations[k].messageId == m.id
            && m.id in after.messages && after.messages[m.id] == m
            && (result.Created? <==> k !in db.reservations)
  {
    hide Invariant, Execute, EnvelopeMatches, SameEvidence, DecisionFor;
    ExecuteKeeps(h, db, now, who, r);
  }

  lemma SuccessBindsNavigation(h: Hash, db: Db, now: int, who: Identity, input: NavigationInput,
                               conversationRef: Option<string>, k: ExecutionId, m: Message)
    requires Invariant(h, db) && k == ExecutionId(who.instance, input.nonce)
    requires NavigationAppend(db, now, who, input, conversationRef).1 in {NavigationCreated(m), NavigationExisting(m)}
    ensures var (after, result) := NavigationAppend(db, now, who, input, conversationRef);
            && k in after.reservations && after.reservations[k].messageId == m.id
            && m.id in after.messages && after.messages[m.id] == m
            && (result.NavigationCreated? <==> k !in db.reservations)
  {
    hide Invariant;
    ReservationsOf(h, db);
  }

  /** Exactly once, across both writers: after a success for an execution, every later success for it
      returns the same message and creates nothing. */
  lemma ExactlyOnce(h: Hash, run: seq<Timed>, i: nat, j: nat, k: ExecutionId, m: Message, m': Message)
    requires GuardedRun(run) && i < j < |run|
    requires Succeeds(run[i].1, OutcomeAt(h, run, i), k, m)
    requires Succeeds(run[j].1, OutcomeAt(h, run, j), k, m')
    ensures m' == m && !Creates(OutcomeAt(h, run, j))
  {
    hide Invariant, Apply, Creates, Succeeds;
    RunKeeps(h, run, i);
    RunKeeps(h, run, j);
    SuccessBinds(h, StateAt(h, run, i), run[i].0, run[i].1, k, m);
    SuccessBinds(h, StateAt(h, run, j), run[j].0, run[j].1, k, m');
    RunExtends(h, run, i + 1, j);
    RunExtends(h, run, j, j + 1);
    assert k in StateAt(h, run, i + 1).reservations;
    assert k in StateAt(h, run, j).reservations;
    assert StateAt(h, run, j + 1).reservations[k] == StateAt(h, run, i + 1).reservations[k];
    assert StateAt(h, run, j).messages[m.id] == m;
    assert StateAt(h, run, j + 1).messages[m.id] == m;
  }

  // ---- content ------------------------------------------------------------------------------

  function LegacyContent(m: Message): Document {
    LegacyRequest(m.channel, m.kind, m.body, m.replyTo)
  }

  /** The legacy adapter hashes the request it sends, in its own document shape. */
  ghost predicate HonestNavigation(h: Hash, step: Step) {
    step.NavigationStep? ==>
      step.input.requestHash == h(LegacyRequest(step.input.channel, step.input.kind, step.input.body,
                                                step.input.replyTo))
  }

  ghost predicate HonestRun(h: Hash, run: seq<Timed>) {
    forall i | 0 <= i < |run| :: HonestNavigation(h, run[i].1)
  }

  /** Each reservation's hash is that of its own message, in one of the two document shapes. */
  ghost predicate HashesHonest(h: Hash, db: Db) {
    forall k | k in db.reservations ::
      && db.reservations[k].messageId in db.messages
      && var m := db.messages[db.reservations[k].messageId];
         db.reservations[k].requestHash == h(m.Content()) || db.reservations[k].requestHash == h(LegacyContent(m))
  }

  lemma HonestKept(h: Hash, db: Db, after: Db)
    requires HashesHonest(h, db) && Extends(db, after) && after.reservations == db.reservations
    ensures HashesHonest(h, after)
  {
  }

  lemma StepKeepsHonest(h: Hash, db: Db, now: int, step: Step)
    requires Invariant(h, db) && Guarded(step) && HonestNavigation(h, step) && HashesHonest(h, db)
    ensures HashesHonest(h, Apply(h, db, now, step).0)
  {
    var after := Apply(h, db, now, step).0;
    StepKeeps(h, db, now, step);
    ReservationsChange(h, db, now, step);
    hide Invariant, Guarded, Apply, HashesHonest, Extends;
    if after.reservations == db.reservations {
      HonestKept(h, db, after);
    } else {
      NewReservationHonest(h, db, now, step);
    }
  }

  /** Reservations change only by a creation. */
  lemma ReservationsChange(h: Hash, db: Db, now: int, step: Step)
    requires Invariant(h, db) && Guarded(step)
    ensures var (after, outcome) := Apply(h, db, now, step);
            !Creates(outcome) ==> after.reservations == db.reservations
  {
    hide Invariant, Guarded, Execute, NavigationAppend, AppendMessage, ChangeParticipant, EnsureChannel, UpdateChannel,
         Administer, Extends;
    match step {
      case ExecuteStep(who, request) => ExecutionLeaves(h, db, now, who, request);
      case NavigationStep(who, input, conversationRef) => NavigationLeaves(db, now, who, input, conversationRef);
      case AppendStep(who, channel, kind, body, replyTo) => AppendLeaves(db, now, who, channel, kind, body, replyTo);
      case AdminStep(caller, command) => AdminKeeps(h, db, now, caller, command);
      case LifecycleStep(change) => LifecycleLeaves(db, change);
      case EnsureChannelStep(channel, createdBy) => ChannelLeaves(db, channel, createdBy, None, None);
      case UpdateChannelStep(channel, visibility, status) => ChannelLeaves(db, channel, None, visibility, status);
    }
  }

  lemma ExecutionLeaves(h: Hash, db: Db, now: int, who: Identity, r: ExecutionRequest)
    requires Invariant(h, db) && Guarded(ExecuteStep(who, r))
    ensures !Execute(h, db, now, who, r).1.Created? ==> Execute(h, db, now, who, r).0.reservations == db.reservations
  {
    hide Invariant, Execute, Guarded, EnvelopeMatches, SameEvidence, DecisionFor, Extends;
    ExecuteKeeps(h, db, now, who, r);
  }

  /** What the simpler steps leave alone. */
  ghost predicate LogAndProvenanceLeft(db: Db, after: Db) {
    after.events == db.events && after.provenance == db.provenance
  }

  lemma NavigationLeaves(db: Db, now: int, who: Identity, input: NavigationInput, conversationRef: Option<string>)
    ensures LogAndProvenanceLeft(db, NavigationAppend(db, now, who, input, conversationRef).0)
    ensures var (after, r) := NavigationAppend(db, now, who, input, conversationRef);
            !r.NavigationCreated? ==> after.reservations == db.reservations
  {
  }

  lemma AppendLeaves(db: Db, now: int, who: Identity, channel: string, kind: string, body: string, replyTo: Option<int>)
    ensures var after := AppendMessage(db, now, who, channel, kind, body, replyTo).0;
            LogAndProvenanceLeft(db, after) && after.reservations == db.reservations
  {
  }

  lemma LifecycleLeaves(db: Db, r: LifecycleRequest)
    ensures var after := ChangeParticipant(db, r).0;
            LogAndProvenanceLeft(db, after) && after.reservations == db.reservations
  {
    hide RequestValid, UpdatedRow, Trim;
  }

  lemma ChannelLeaves(db: Db, channel: string, createdBy: Option<string>, visibility: Option<Visibility>,
                      status: Option<ChannelStatus>)
    ensures var after := EnsureChannel(db, channel, createdBy);
            LogAndProvenanceLeft(db, after) && after.reservations == db.reservations
    ensures var after := UpdateChannel(db, channel, visibility, status).0;
            LogAndProvenanceLeft(db, after) && after.reservations == db.reservations
  {
  }

  lemma NewReservationHonest(h: Hash, db: Db, now: int, step: Step)
    requires Invariant(h, db) && Guarded(step) && HonestNavigation(h, step) && HashesHonest(h, db)
    requires Creates(Apply(h, db, now, step).1)
    ensures HashesHonest(h, Apply(h, db, now, step).0)
  {
    hide Invariant, Guarded, HashesHonest, Extends, Execute, NavigationAppend, HonestNavigation, Administer,
         AppendMessage, ChangeParticipant, EnsureChannel, UpdateChannel;
    StepKeeps(h, db, now, step);
    var after := Apply(h, db, now, step).0;
    if step.ExecuteStep? {
      var k, m := ExecutionReserves(h, db, now, step.who, step.request);
      OneReservationHonest(h, db, after, k, m);
    } else {
      var k, m := NavigationReserves(h, db, now, step);
      OneReservationHonest(h, db, after, k, m);
    }
  }

  lemma OneReservationHonest(h: Hash, db: Db, after: Db, k: ExecutionId, m: Message)
    requires HashesHonest(h, db) && Extends(db, after)
    requires k in after.reservations && after.reservations == db.reservations[k := after.reservations[k]]
    requires after.reservations[k].messageId in after.messages && after.messages[after.reservations[k].messageId] == m
    requires after.reservations[k].requestHash == h(m.Content())
             || after.reservations[k].requestHash == h(LegacyContent(m))
    ensures HashesHonest(h, after)
  {
  }

  lemma ExecutionReserves(h: Hash, db: Db, now: int, who: Identity, r: ExecutionRequest)
    returns (k: ExecutionId, m: Message)
    requires Invariant(h, db) && Guarded(ExecuteStep(who, r)) && Execute(h, db, now, who, r).1.Created?
    ensures var after := Execute(h, db, now, who, r).0;
            && k in after.reservations && after.reservations == db.reservations[k := after.reservations[k]]
            && after.reservations[k].messageId in after.messages && after.messages[after.reservations[k].messageId] == m
            && after.reservations[k].requestHash == h(m.Content())
  {
    hide Invariant, Execute, EnvelopeMatches, SameEvidence, DecisionFor, Extends;
    ExecuteKeeps(h, db, now, who, r);
    k, m := ExecutionId(who.instance, r.intent.id), Execute(h, db, now, who, r).1.message;
  }

  lemma NavigationReserves(h: Hash, db: Db, now: int, step: Step) returns (k: ExecutionId, m: Message)
    requires step.NavigationStep? && HonestNavigation(h, step)
    requires NavigationAppend(db, now, step.who, step.input, step.conversationRef).1.NavigationCreated?
    ensures var after := NavigationAppend(db, now, step.who, step.input, step.conversationRef).0;
            && k !in db.reservations
            && k in after.reservations && after.reservations == db.reservations[k := after.reservations[k]]
            && after.reservations[k].messageId in after.messages && after.messages[after.reservations[k].messageId] == m
            && after.reservations[k].requestHash == h(LegacyContent(m))
            && after.provenance == db.provenance
  {
    k := ExecutionId(step.who.instance, step.input.nonce);
    m := NavigationAppend(db, now, step.who, step.input, step.conversationRef).1.message;
  }

  lemma {:induction false} RunHonest(h: Hash, run: seq<Timed>, n: nat)
    requires GuardedRun(run) && HonestRun(h, run) && n <= |run|
    ensures HashesHonest(h, StateAt(h, run, n))
  {
    hide Invariant, Apply, HonestNavigation;
    if n > 0 {
      RunHonest(h, run, n - 1);
      RunKeeps(h, run, n - 1);
      StepKeepsHonest(h, StateAt(h, run, n - 1), run[n - 1].0, run[n - 1].1);
    }
  }

  /** With a collision-free hash and an honest legacy adapter, whatever a writer returns has the content
      it was asked for, including when an older hash differs but every field matches. */
  lemma SuccessReturnsRequest(h: Hash, run: seq<Timed>, i: nat, k: ExecutionId, m: Message)
    requires GuardedRun(run) && HonestRun(h, run) && Injective(h) && i < |run|
    requires Succeeds(run[i].1, OutcomeAt(h, run, i), k, m)
    ensures run[i].1.ExecuteStep? ==> m.Content() == run[i].1.request.Content()
    ensures run[i].1.NavigationStep? ==>
              var input := run[i].1.input;
              LegacyContent(m) == LegacyRequest(input.channel, input.kind, input.body, input.replyTo)
  {
    hide Invariant, HashesHonest, Execute, NavigationAppend, AppendMessage, Administer, ChangeParticipant,
         EnsureChannel, UpdateChannel, Guarded, HonestNavigation;
    var db := StateAt(h, run, i);
    RunKeeps(h, run, i);
    RunHonest(h, run, i);
    GuardedAt(run, i);
    assert HonestNavigation(h, run[i].1);
    if run[i].1.ExecuteStep? {
      ExecutionReturnsRequest(h, db, run[i].0, run[i].1.who, run[i].1.request, m);
    } else {
      NavigationReturnsRequest(h, db, run[i].0, run[i].1, m);
    }
  }

  lemma ExecutionReturnsRequest(h: Hash, db: Db, now: int, who: Identity, r: ExecutionRequest, m: Message)
    requires Invariant(h, db) && HashesHonest(h, db) && Injective(h) && Guarded(ExecuteStep(who, r))
    requires Execute(h, db, now, who, r).1 in {Created(m), Existing(m)}
    ensures m.Content() == r.Content()
  {
    hide Invariant, Execute, EnvelopeMatches, SameEvidence, DecisionFor, Extends;
    ExecuteKeeps(h, db, now, who, r);
  }

  lemma NavigationReturnsRequest(h: Hash, db: Db, now: int, step: Step, m: Message)
    requires Invariant(h, db) && HashesHonest(h, db) && Injective(h) && step.NavigationStep?
             && HonestNavigation(h, step)
    requires NavigationAppend(db, now, step.who, step.input, step.conversationRef).1
             in {NavigationCreated(m), NavigationExisting(m)}
    ensures LegacyContent(m) == LegacyRequest(step.input.channel, step.input.kind, step.input.body, step.input.replyTo)
  {
    hide Invariant;
    ReservationsOf(h, db);
  }
}
