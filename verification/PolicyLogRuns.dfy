/** The administration log over whole runs: the log is the policy, every event was appended by a step
    that was allowed, and authority can be followed back through the log to where it starts. */
module PolicyLogRuns {
  import opened Text
  import opened Tables
  import opened Authorization
  import opened Board
  import opened Execution
  import opened Administration
  import opened AdministrationLog
  import opened Lifecycle
  import opened Kernel
  import opened ExecutionPreservation
  import opened Runs

  // ---- which steps write the log ------------------------------------------------------------

  lemma RecordCreationLog(db: Db, now: int, k: ExecutionId, r: ExecutionRequest, d: Decision, m: Message)
    ensures var t := RecordCreation(db, now, k, r, d, m); t.Commit? ==> t.db.events == db.events
  {
    hide SameEvidence, Consumed;
  }

  lemma ExecuteLog(h: Hash, db: Db, now: int, who: Identity, r: ExecutionRequest)
    ensures Execute(h, db, now, who, r).0.events == db.events
  {
    hide DecisionFor, EnvelopeMatches, SameEvidence, RecordCreation;
    var id := ExecutionId(who.instance, r.intent.id);
    var ready := EnsureChannel(db, r.channel, Some(who.instance));
    var m := NewMessage(ready, now, who, r.channel, r.intent.conversationRef, r.kind, r.body, r.replyTo);
    RecordCreationLog(Reserved(ready, now, id, r, m), now, id, r, DecisionFor(db, now, r), m);
  }

  /** Only administration writes the log. */
  lemma OtherStepsLog(h: Hash, db: Db, now: int, step: Step)
    requires !step.AdminStep?
    ensures Apply(h, db, now, step).0.events == db.events
  {
    hide Execute, NavigationAppend, AppendMessage, ChangeParticipant, EnsureChannel, UpdateChannel, Administer;
    match step {
      case ExecuteStep(who, request) => ExecuteLog(h, db, now, who, request);
      case NavigationStep(who, input, conversationRef) => NavigationLeaves(db, now, who, input, conversationRef);
      case AppendStep(who, channel, kind, body, replyTo) => AppendLeaves(db, now, who, channel, kind, body, replyTo);
      case LifecycleStep(change) => LifecycleLeaves(db, change);
      case EnsureChannelStep(channel, createdBy) => ChannelLeaves(db, channel, createdBy, None, None);
      case UpdateChannelStep(channel, visibility, status) => ChannelLeaves(db, channel, None, visibility, status);
    }
  }

  /** The step changed the policy. */
  ghost predicate ChangesPolicy(outcome: Outcome) {
    outcome.Administered? && !UnchangedOutcome(outcome.admin)
  }

  /** A step either leaves the log and every grant's standing alone, or is an allowed administration
      that changes exactly one standing and appends exactly the event saying so. */
  ghost predicate StepLogged(h: Hash, db: Db, now: int, step: Step) {
    var (after, outcome) := Apply(h, db, now, step);
    if !ChangesPolicy(outcome)
    then after.events == db.events && DurableStanding(after) == DurableStanding(db)
        && DelegatedStanding(after) == DelegatedStanding(db)
    else
      && step.AdminStep? && OneLoggedChange(db, after) && MayAdminister(db, now, step.caller)
      && NormalizeActor(step.caller) == Ok(after.events[|db.events|].actor)
  }

  lemma SameLogSameStanding(h: Hash, a: Db, b: Db)
    requires Logged(a) && Logged(b) && a.events == b.events
    ensures DurableStanding(b) == DurableStanding(a) && DelegatedStanding(b) == DelegatedStanding(a)
  {
    hide LogConsistent, DurableStanding, DelegatedStanding, Fold;
  }

  lemma StepLogs(h: Hash, db: Db, now: int, step: Step)
    requires Invariant(h, db) && Guarded(step)
    ensures StepLogged(h, db, now, step)
  {
    hide Invariant, Execute, Administer, OneLoggedChange, MayAdminister, NormalizeActor, Logged, PolicySound, Guarded,
         Extends, DurableStanding, DelegatedStanding, NavigationAppend, AppendMessage, ChangeParticipant, EnsureChannel;
    var after := Apply(h, db, now, step).0;
    StepKeeps(h, db, now, step);
    InvariantPolicy(h, db);
    InvariantPolicy(h, after);
    if step.AdminStep? {
      AdministerLogged(db, now, step.caller, step.command);
    } else {
      OtherStepsLog(h, db, now, step);
    }
    if after.events == db.events { SameLogSameStanding(h, db, after); }
  }

  /** The log is the policy, in every reachable state: folding it from empty rebuilds scope and status of
      every grant, each event's before-status is the folded one and differs from its after-status, and the
      next step adds an event exactly when it changes a grant's standing. */
  lemma LogIsPolicy(h: Hash, run: seq<Timed>, n: nat)
    requires GuardedRun(run) && n <= |run|
    ensures var db := StateAt(h, run, n);
            && Fold(db.events, DurableStore) == DurableStanding(db)
            && Fold(db.events, DelegatedStore) == DelegatedStanding(db)
            && LogConsistent(db.events)
            && (n < |run| ==> StepLogged(h, db, run[n].0, run[n].1))
  {
    hide Invariant, StateAt, DurableStanding, DelegatedStanding, Fold, LogConsistent, StepLogged, Guarded;
    RunKeeps(h, run, n);
    InvariantPolicy(h, StateAt(h, run, n));
    if n < |run| { StepLogs(h, StateAt(h, run, n), run[n].0, run[n].1); }
  }

  // ---- who appended an event ----------------------------------------------------------------

  /** Step i appended event x of this log, as the event's actor, and was allowed to. */
  ghost predicate AppendedBy(h: Hash, run: seq<Timed>, events: seq<AdminEvent>, x: nat, i: nat)
    requires i < |run| && x < |events|
  {
    && StateAt(h, run, i).events == events[..x]
    && run[i].1.AdminStep?
    && MayAdminister(StateAt(h, run, i), run[i].0, run[i].1.caller)
    && NormalizeActor(run[i].1.caller) == Ok(events[x].actor)
  }

  lemma {:induction false} EventAppended(h: Hash, run: seq<Timed>, n: nat, x: nat) returns (i: nat)
    requires GuardedRun(run) && n <= |run| && x < |StateAt(h, run, n).events|
    ensures i < n && AppendedBy(h, run, StateAt(h, run, n).events, x, i)
  {
    hide Invariant, Apply, StepLogged, Guarded, StateAt, AppendedBy, GuardedRun;
    StartsEmpty(h, run);
    var events := StateAt(h, run, n).events;
    LastStepLogs(h, run, n);
    if x < |StateAt(h, run, n - 1).events| {
      i := EventAppended(h, run, n - 1, x);
      AppendedEarlier(h, run, StateAt(h, run, n - 1).events, events, x, i);
    } else {
      i := n - 1;
    }
  }

  /** The last step of a run leaves the log alone or appends one event to it. */
  lemma LastStepLogs(h: Hash, run: seq<Timed>, n: nat)
    requires GuardedRun(run) && 0 < n <= |run|
    ensures var before, events := StateAt(h, run, n - 1).events, StateAt(h, run, n).events;
            && before <= events
            && (events == before || (|events| == |before| + 1 && AppendedBy(h, run, events, |before|, n - 1)))
  {
    hide Invariant, MayAdminister, NormalizeActor, Apply, StepLogged, Guarded, StateAt;
    NextState(h, run, n - 1);
    GuardedAt(run, n - 1);
    var db := StateAt(h, run, n - 1);
    RunKeeps(h, run, n - 1);
    StepLogs(h, db, run[n - 1].0, run[n - 1].1);
    EventsGrow(h, db, run[n - 1].0, run[n - 1].1);
    assert StateAt(h, run, n).events[..|db.events|] == db.events;
  }

  lemma AppendedEarlier(h: Hash, run: seq<Timed>, before: seq<AdminEvent>, after: seq<AdminEvent>, x: nat, i: nat)
    requires i < |run| && x < |before| && before <= after && AppendedBy(h, run, before, x, i)
    ensures AppendedBy(h, run, after, x, i)
  {
    hide MayAdminister, NormalizeActor, StateAt, GuardedRun, Invariant;
    PrefixSlice(before, after, x);
  }

  lemma PrefixSlice<T>(before: seq<T>, after: seq<T>, x: nat)
    requires before <= after && x < |before|
    ensures after[..x] == before[..x] && after[x] == before[x]
  {
  }

  lemma StartsEmpty(h: Hash, run: seq<Timed>)
    ensures StateAt(h, run, 0).events == []
  {
  }

  lemma EventsGrow(h: Hash, db: Db, now: int, step: Step)
    requires StepLogged(h, db, now, step)
    ensures db.events <= Apply(h, db, now, step).0.events
    ensures |Apply(h, db, now, step).0.events| <= |db.events| + 1
    ensures Apply(h, db, now, step).0.events != db.events ==>
              && step.AdminStep? && MayAdminister(db, now, step.caller)
              && |Apply(h, db, now, step).0.events| == |db.events| + 1
              && NormalizeActor(step.caller) == Ok(Apply(h, db, now, step).0.events[|db.events|].actor)
  {
    hide MayAdminister, NormalizeActor, Apply, DurableStanding, DelegatedStanding;
  }
}
