/** The policy auditor against the administration: in a reachable state it can only report delegated
    grants for capabilities nobody knows, since delegated creation skips the known-capability check. */
module PolicyAuditRuns {
  import opened Text
  import opened Tables
  import opened Authorization
  import opened Administration
  import opened AdministrationLog
  import opened PolicyAudit
  import opened PolicyAuditOnce
  import opened Board
  import opened Execution
  import opened Lifecycle
  import opened Kernel
  import opened Preservation
  import opened ExecutionPreservation
  import opened Runs
  import opened PolicyLogRuns
  import opened AuthorityRuns

  function UnsupportedFinding(id: int, g: DelegatedGrant): Violation {
    Violation(Kind.UnsupportedCapability, DelegatedStore, id, g.participantId, CapabilityName(g.capability))
  }

  lemma CleanTexts(store: GrantStore, id: int, s: Scope)
    requires WellFormedScope(s)
    ensures TextFindings(store, id, s.principal, s.participantId, s.capability, s.resource) == []
    ensures !MalformedOptional(s.intentId)
  {
    hide CapabilityName, Blank, HasControl, Trim;
  }

  lemma DurableClean(db: Db, id: int)
    requires PolicySound(db) && id in db.durable
    ensures DurableFindings(db, id, db.durable[id]) == []
  {
    hide WellFormedScope, TextFindings, CapabilityName, StatusText, IsParticipantId;
    CleanTexts(DurableStore, id, DurableScope(db.durable[id]));
  }

  lemma ConsumptionClean(h: Hash, db: Db, id: int)
    requires Invariant(h, db) && id in db.delegated
    ensures ConsumptionFindings(db, id, db.delegated[id]) == []
  {
    hide Invariant, ProvenanceCoherent, MessagesNumbered, ReservationsBound, ReceiptsBound, IngressBound, PolicySound,
         CommittedReceiptExists, ConflictDetail;
    ReservationsHold(h, db);
    var g := db.delegated[id];
    if g.consumedIntentId.Some? { ProvenReceipted(h, db, Consumer(g)); }
  }

  lemma DelegatedFindingsExact(h: Hash, db: Db, id: int)
    requires Invariant(h, db) && id in db.delegated
    ensures DelegatedFindings(db, id, db.delegated[id])
         == When(!IsKnown(db.delegated[id].capability), UnsupportedFinding(id, db.delegated[id]))
  {
    hide Invariant, WellFormedScope, TextFindings, CapabilityName, StatusText, IsParticipantId, ConsumptionFindings,
         Decimal, MalformedOptional;
    InvariantPolicy(h, db);
    CleanTexts(DelegatedStore, id, DelegatedScope(db.delegated[id]));
    ConsumptionClean(h, db, id);
  }

  /** A durable scope, NULL resource included, never has two rows. */
  lemma NoSharedScope(db: Db, k: ScopeKey)
    requires PolicySound(db)
    ensures !Shared(db, k)
  {
    hide WellFormedScope, IsKnown, IsParticipantId;
  }

  lemma NoGroups(db: Db, k: ScopeKey)
    requires PolicySound(db)
    ensures GroupFindings(k, IdsOf(DurableTable(db), k)) == []
  {
    hide PolicySound, Shared, IdsOf, DurableTable, DuplicateDetail;
    NoSharedScope(db, k);
    SharedIffGroup(db, k);
  }

  lemma FindsExact(h: Hash, db: Db, v: Violation)
    requires Invariant(h, db)
    ensures Finds(db, v) <==> exists id | id in db.delegated ::
            !IsKnown(db.delegated[id].capability) && v == UnsupportedFinding(id, db.delegated[id])
  {
    hide Invariant, PolicySound, DurableFindings, DelegatedFindings, GroupFindings, IdsOf, DurableTable, ScopesOf,
         IsKnown, CapabilityName;
    InvariantPolicy(h, db);
    forall id | id in db.durable ensures DurableFindings(db, id, db.durable[id]) == [] { DurableClean(db, id); }
    forall k ensures GroupFindings(k, IdsOf(DurableTable(db), k)) == [] { NoGroups(db, k); }
    forall id | id in db.delegated
      ensures DelegatedFindings(db, id, db.delegated[id])
           == When(!IsKnown(db.delegated[id].capability), UnsupportedFinding(id, db.delegated[id]))
    {
      DelegatedFindingsExact(h, db, id);
    }
  }

  /** Policy auditor agreement: in every reachable state the violations are exactly one
      `unsupported_capability` for each delegated grant of an unknown capability, each listed once. */
  lemma PolicyAuditOverRuns(h: Hash, run: seq<Timed>, n: nat, v: Violation)
    requires GuardedRun(run) && n <= |run|
    ensures var db := StateAt(h, run, n);
            v in PolicyViolations(db)
            <==> exists id | id in db.delegated ::
                !IsKnown(db.delegated[id].capability) && v == UnsupportedFinding(id, db.delegated[id])
    ensures multiset(PolicyViolations(StateAt(h, run, n)))[v]
            == if v in PolicyViolations(StateAt(h, run, n)) then 1 else 0
  {
    hide Invariant, StateAt, Finds, PolicyViolations, GuardedRun, IsKnown, UnsupportedFinding;
    RunKeeps(h, run, n);
    ReportExact(StateAt(h, run, n), v);
    ReportedOnce(StateAt(h, run, n), v);
    FindsExact(h, StateAt(h, run, n), v);
  }

  // ---- exactly when the report is empty -----------------------------------------------------

  ghost predicate AllKnown(db: Db) {
    forall id | id in db.delegated :: IsKnown(db.delegated[id].capability)
  }

  /** The gap: a delegated creation for a capability that is not one of the known names. */
  predicate UnknownDelegation(step: Step) {
    && step.AdminStep? && step.command.CreateDelegated?
    && !IsKnown(ParseCapability(Trim(step.command.request.capability)))
  }

  ghost predicate DelegatesUnknown(step: Step, outcome: Outcome) {
    UnknownDelegation(step) && outcome.Administered? && outcome.admin.GrantCreated?
  }

  /** What it takes for a delegated creation to be accepted, as it can be told before the call. */
  ghost predicate DelegationAccepted(db: Db, now: int, caller: Caller, r: GrantRequest) {
    && NormalizeActor(caller).Ok? && NormalizeDelegated(r).Ok? && MayAdminister(db, now, caller)
    && Trim(r.participantId) in db.participants && db.participants[Trim(r.participantId)].status == ParticipantActive
    && (r.expiresAt.Some? ==> r.expiresAt.value > now)
  }

  /** The gap, told before the call: an acceptable delegated creation for an unknown capability. */
  ghost predicate WouldDelegateUnknown(db: Db, now: int, step: Step) {
    UnknownDelegation(step) && DelegationAccepted(db, now, step.caller, step.command.request)
  }

  lemma DelegationAcceptedExact(db: Db, now: int, caller: Caller, r: GrantRequest)
    ensures Administer(db, now, caller, CreateDelegated(r)).1.GrantCreated? <==> DelegationAccepted(db, now, caller, r)
  {
    hide MayAdminister, NormalizeActor, NormalizeDelegated, Trim;
    RequestedParticipant(r);
  }

  lemma RequestedParticipant(r: GrantRequest)
    ensures NormalizeDelegated(r).Ok? ==>
              NormalizeDelegated(r).value.participantId == Trim(r.participantId)
                  && NormalizeDelegated(r).value.expiresAt == r.expiresAt
  {
    hide Trim, ParseCapability, OptionalField;
  }

  lemma DelegatesUnknownExact(h: Hash, db: Db, now: int, step: Step)
    ensures DelegatesUnknown(step, Apply(h, db, now, step).1) <==> WouldDelegateUnknown(db, now, step)
  {
    hide Administer, DelegationAccepted, ParseCapability, Trim;
    if UnknownDelegation(step) { DelegationAcceptedExact(db, now, step.caller, step.command.request); }
  }

  lemma SameStandingSameKnown(a: Db, b: Db)
    requires DelegatedStanding(a) == DelegatedStanding(b)
    ensures AllKnown(a) <==> AllKnown(b)
  {
    hide IsKnown;
    assert DelegatedStanding(a).Keys == a.delegated.Keys && DelegatedStanding(b).Keys == b.delegated.Keys;
    forall id | id in a.delegated ensures id in b.delegated
        && a.delegated[id].capability == b.delegated[id].capability {
      assert DelegatedStanding(a)[id].scope == DelegatedStanding(b)[id].scope;
    }
  }

  /** How one change of policy moves the set of delegated capabilities. */
  lemma ChangeKnown(db: Db, now: int, actor: Actor, change: Change)
    requires PolicySound(db)
    ensures var (after, r) := ApplyChange(db, now, actor, change);
            AllKnown(after) <==> AllKnown(db) && !(change.AddDelegated? && !IsKnown(change.scope.capability)
                                                   && r.GrantCreated?)
  {
    hide PolicySound, ParticipantRefusal, IsKnown, AscendingIds, SameScope, StillActive, FirstActive,
         DeactivationEvents, Deactivated, CreateDurableInTx, DeactivateDurableInTx, CreateDelegatedInTx,
         DeactivateDelegatedInTx, AllKnown;
    match change {
      case AddDurable(s) => DurableKeepsDelegated(db, actor, s, 0);
      case DropDurable(id) => DurableKeepsDelegated(db, actor,
                                                    Scope(Principal("", ""), "", PostMessage, None, None, None, false),
                                                        id);
      case AddDelegated(s) => CreationKnown(db, now, actor, s);
      case DropDelegated(id) => DeactivationKnown(db, actor, id);
    }
  }

  lemma DurableKeepsDelegated(db: Db, actor: Actor, s: Scope, id: int)
    ensures AllKnown(CreateDurableInTx(db, actor, s).0) <==> AllKnown(db)
    ensures AllKnown(DeactivateDurableInTx(db, actor, id).0) <==> AllKnown(db)
  {
    hide CreateDurableInTx, DeactivateDurableInTx, IsKnown;
    CreationLeavesDelegated(db, actor, s);
    DeactivationLeavesDelegated(db, actor, id);
  }

  lemma CreationLeavesDelegated(db: Db, actor: Actor, s: Scope)
    ensures CreateDurableInTx(db, actor, s).0.delegated == db.delegated
  {
    hide ParticipantRefusal, AscendingIds, SameScope, FirstActive, NewDurable, ReactivateDurable, InsertDurable;
    SameScopeStored(db, s);
    forall id | id in db.durable ensures ReactivateDurable(db, actor, s, id).delegated == db.delegated {
      ReactivationLeavesDelegated(db, actor, s, id);
    }
    assert InsertDurable(db, actor, s).delegated == db.delegated by { InsertionLeavesDelegated(db, actor, s); }
  }

  lemma ReactivationLeavesDelegated(db: Db, actor: Actor, s: Scope, id: int)
    requires id in db.durable
    ensures ReactivateDurable(db, actor, s, id).delegated == db.delegated
  {
  }

  lemma InsertionLeavesDelegated(db: Db, actor: Actor, s: Scope)
    ensures InsertDurable(db, actor, s).delegated == db.delegated
  {
  }

  lemma DeactivationLeavesDelegated(db: Db, actor: Actor, id: int)
    ensures DeactivateDurableInTx(db, actor, id).0.delegated == db.delegated
  {
    hide AscendingIds, StillActive, DeactivationEvents, Deactivated, DurableScope;
  }

  lemma CreationKnown(db: Db, now: int, actor: Actor, s: Scope)
    requires PolicySound(db)
    ensures var (after, r) := CreateDelegatedInTx(db, now, actor, s);
            AllKnown(after) <==> AllKnown(db) && !(!IsKnown(s.capability) && r.GrantCreated?)
  {
    hide PolicySound, ParticipantRefusal, IsKnown;
    NextDelegatedFree(db);
    var (after, r) := CreateDelegatedInTx(db, now, actor, s);
    if r.GrantCreated? {
      var id := db.lastDelegatedId + 1;
      assert after.delegated == db.delegated[id := NewDelegated(s)];
      assert after.delegated[id].capability == s.capability;
      if AllKnown(after) {
        forall i | i in db.delegated ensures IsKnown(db.delegated[i].capability) { assert i in after.delegated; }
      }
    }
  }

  lemma DeactivationKnown(db: Db, actor: Actor, id: int)
    ensures AllKnown(DeactivateDelegatedInTx(db, actor, id).0) <==> AllKnown(db)
  {
    hide IsKnown, DelegatedScope;
    var after := DeactivateDelegatedInTx(db, actor, id).0;
    assert after.delegated.Keys == db.delegated.Keys;
    assert forall i | i in db.delegated :: after.delegated[i].capability == db.delegated[i].capability;
  }

  lemma NormalizedCapability(command: Command)
    requires NormalizeCommand(command).Ok?
    ensures NormalizeCommand(command).value.AddDelegated? <==> command.CreateDelegated?
    ensures command.CreateDelegated? ==>
              NormalizeCommand(command).value.scope.capability == ParseCapability(Trim(command.request.capability))
  {
    hide Trim, ParseCapability, OptionalField, ParticipantField, IsKnown;
  }

  lemma AdminKnown(db: Db, now: int, caller: Caller, command: Command)
    requires PolicySound(db)
    ensures var (after, r) := Administer(db, now, caller, command);
            AllKnown(after) <==> AllKnown(db) && !(UnknownDelegation(AdminStep(caller, command)) && r.GrantCreated?)
  {
    hide PolicySound, AllKnown, MayAdminister, NormalizeActor, NormalizeCommand, ApplyChange, Trim, WellFormed,
         ParseCapability, IsKnown;
    var actor, change := NormalizeActor(caller), NormalizeCommand(command);
    if actor.Ok? && change.Ok? && MayAdminister(db, now, caller) {
      NormalizedCapability(command);
      ChangeKnown(db, now, actor.value, change.value);
    }
  }

  lemma StepKnown(h: Hash, db: Db, now: int, step: Step)
    requires Invariant(h, db) && Guarded(step)
    ensures var (after, outcome) := Apply(h, db, now, step);
            AllKnown(after) <==> AllKnown(db) && !DelegatesUnknown(step, outcome)
  {
    hide Invariant, Guarded, AllKnown, Administer, Execute, NavigationAppend, AppendMessage, ChangeParticipant,
         EnsureChannel, UpdateChannel, DelegatedStanding, DurableStanding, PolicySound, Logged, ParseCapability, Trim,
         IsKnown;
    var after := Apply(h, db, now, step).0;
    if step.AdminStep? {
      InvariantPolicy(h, db);
      AdminKnown(db, now, step.caller, step.command);
    } else {
      OtherStepsLog(h, db, now, step);
      StepKeeps(h, db, now, step);
      InvariantPolicy(h, db);
      InvariantPolicy(h, after);
      SameLogSameStanding(h, db, after);
      SameStandingSameKnown(db, after);
    }
  }

  lemma {:induction false} RunKnown(h: Hash, run: seq<Timed>, n: nat)
    requires GuardedRun(run) && n <= |run|
    ensures AllKnown(StateAt(h, run, n)) <==> forall i | 0 <= i < n :: !DelegatesUnknown(run[i].1, OutcomeAt(h, run, i))
  {
    hide Invariant, Apply, DelegatesUnknown, Guarded;
    if n > 0 {
      RunKnown(h, run, n - 1);
      RunKeeps(h, run, n - 1);
      StepKnown(h, StateAt(h, run, n - 1), run[n - 1].0, run[n - 1].1);
      assert OutcomeAt(h, run, n - 1) == Apply(h, StateAt(h, run, n - 1), run[n - 1].0, run[n - 1].1).1;
      assert StateAt(h, run, n) == Apply(h, StateAt(h, run, n - 1), run[n - 1].0, run[n - 1].1).0;
    } else {
      assert AllKnown(EMPTY_DB);
    }
  }

  /** The audit of a reachable state is valid exactly when no delegated grant was ever created for a
      capability outside the known list. */
  lemma PolicyAuditValidExactly(h: Hash, run: seq<Timed>, n: nat)
    requires GuardedRun(run) && n <= |run|
    ensures PolicyViolations(StateAt(h, run, n)) == []
            <==> forall i | 0 <= i < n :: !DelegatesUnknown(run[i].1, OutcomeAt(h, run, i))
    ensures PolicyViolations(StateAt(h, run, n)) == []
            <==> forall i | 0 <= i < n :: !WouldDelegateUnknown(StateAt(h, run, i), run[i].0, run[i].1)
  {
    hide Invariant, StateAt, OutcomeAt, DelegatesUnknown, WouldDelegateUnknown, GuardedRun, PolicyViolations, IsKnown,
         UnsupportedFinding;
    forall i | 0 <= i < n
      ensures DelegatesUnknown(run[i].1, OutcomeAt(h, run, i))
              <==> WouldDelegateUnknown(StateAt(h, run, i), run[i].0, run[i].1)
    {
      OutcomeOf(h, run, i);
      DelegatesUnknownExact(h, StateAt(h, run, i), run[i].0, run[i].1);
    }
    RunKnown(h, run, n);
    var db := StateAt(h, run, n);
    var vs := PolicyViolations(db);
    if vs != [] {
      PolicyAuditOverRuns(h, run, n, vs[0]);
    }
    if !AllKnown(db) {
      var id :| id in db.delegated && !IsKnown(db.delegated[id].capability);
      PolicyAuditOverRuns(h, run, n, UnsupportedFinding(id, db.delegated[id]));
    }
  }

  /** The gap is real: two local commands lead to a state the policy audit rejects. */
  lemma UnknownCapabilityWitness(h: Hash) returns (run: seq<Timed>)
    ensures GuardedRun(run) && |run| == 2 && PolicyViolations(StateAt(h, run, 2)) != []
  {
    hide PolicyViolations, Administer, ChangeParticipant, UnknownDelegation, StateAt, OutcomeAt;
    run := [(0, LifecycleStep(Provision("p", "s"))), (0, AdminStep(Cli, CreateDelegated(WITNESS)))];
    StartState(h, run);
    NextState(h, run, 0);
    Provisioned();
    UnknownAccepted(StateAt(h, run, 1));
    OutcomeOf(h, run, 1);
    assert DelegatesUnknown(run[1].1, OutcomeAt(h, run, 1));
    PolicyAuditValidExactly(h, run, 2);
  }

  const WITNESS := GrantRequest(Principal("a", "b"), "p", "x", None, None, None, false)

  lemma StartState(h: Hash, run: seq<Timed>)
    ensures StateAt(h, run, 0) == EMPTY_DB
  {
  }

  predicate Plain(c: char) {
    !IsSpace(c) && !IsControl(c) && c as int < 0x80
  }

  lemma Single(s: string)
    requires |s| == 1 && Plain(s[0])
    ensures Trim(s) == s && Normalize(s, MAX_FIELD_BYTES) == Some(s) && Normalize(s, MAX_CAPABILITY_BYTES) == Some(s)
  {
    hide ByteLength, Trim, HasControl, Normalize, IsSpace, IsControl;
    assert s == [s[0]];
    SingleTrim(s[0]);
    SingleLength(s[0]);
    SingleControl(s[0]);
    NormalizeAccepts(s, MAX_FIELD_BYTES);
    NormalizeAccepts(s, MAX_CAPABILITY_BYTES);
  }

  lemma NormalizeAccepts(s: string, maxBytes: nat)
    requires s != [] && Trim(s) == s && ByteLength(s) <= maxBytes && !HasControl(s)
    ensures Normalize(s, maxBytes) == Some(s)
  {
    hide ByteLength, Trim, HasControl;
  }

  lemma SingleControl(c: char)
    requires !IsControl(c)
    ensures !HasControl([c])
  {
    hide IsControl;
  }

  lemma SingleTrim(c: char)
    requires !IsSpace(c)
    ensures Trim([c]) == [c]
  {
    hide IsSpace, Trim;
    TrimFixed([c]);
  }

  lemma SingleLength(c: char)
    requires c as int < 0x80
    ensures ByteLength([c]) == 1
  {
    assert [c][1..] == [];
    assert ByteLength([]) == 0;
  }

  lemma Provisioned()
    ensures var after := ChangeParticipant(EMPTY_DB, Provision("p", "s")).0;
            "p" in after.participants && after.participants["p"].status == ParticipantActive
  {
    hide Normalize, Trim;
    Single("p");
    Single("s");
    assert IsParticipantId("p") && IsName("s");
  }

  lemma WitnessNormalized()
    ensures NormalizeDelegated(WITNESS)
         == Ok(Scope(Principal("a", "b"), "p", ParseCapability("x"), None, None, None, false))
  {
    hide Normalize, Trim, ParseCapability;
    Single("a");
    Single("b");
    Single("p");
    Single("x");
    assert IsParticipantId("p");
  }

  lemma UnknownAccepted(db: Db)
    requires "p" in db.participants && db.participants["p"].status == ParticipantActive
    ensures Administer(db, 0, Cli, CreateDelegated(WITNESS)).1.GrantCreated?
    ensures UnknownDelegation(AdminStep(Cli, CreateDelegated(WITNESS)))
  {
    hide Trim, Normalize, NormalizeDelegated, ParseCapability, IsKnown;
    WitnessNormalized();
    UnknownName();
    Single("x");
  }

  lemma UnknownName()
    ensures !IsKnown(ParseCapability("x"))
  {
    assert |CapabilityName(ParseCapability("x"))| == 1;
  }
}
