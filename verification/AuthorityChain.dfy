/** The chain of authority: every remote change of policy rests on an earlier one, and following the log
    back ends at the local command line or a human web administrator. */
module AuthorityChain {
  import opened Text
  import opened Tables
  import opened Authorization
  import opened Administration
  import opened AdministrationLog
  import opened Kernel
  import opened ExecutionPreservation
  import opened Runs
  import opened PolicyLogRuns

  /** The event gives this actor a durable grant to administer the policy. */
  predicate Empowers(e: AdminEvent, actor: Actor) {
    && e.store == DurableStore && e.after == Active && actor.Remote?
    && e.scope.principal == actor.principal && e.scope.participantId == actor.participantId
    && e.scope.capability == ManageAuthorizationPolicy && Covers(e.scope.resource, Some(POLICY_ADMIN_RESOURCE))
  }

  /** No later event of the log is about this grant. */
  predicate LastWord(events: seq<AdminEvent>, y: nat) {
    y < |events| && forall z | y < z < |events| ::
        !(events[z].store == events[y].store && events[z].grantId == events[y].grantId)
  }

  /** When event x was appended, event y was the standing reason its actor was allowed to. */
  predicate Supports(events: seq<AdminEvent>, y: nat, x: nat) {
    y < x < |events| && LastWord(events[..x], y) && Empowers(events[y], events[x].actor)
  }

  predicate HumanAdmin(db: Db, actor: Actor) {
    && actor.Remote? && actor.principal.provider == HUMAN_WEB_PROVIDER && actor.principal.subject == actor.participantId
    && actor.participantId in db.participants && db.participants[actor.participantId].role == AdminRole
    && db.participants[actor.participantId].status == ParticipantActive
  }

  /** Where authority starts: the local command line, or a human web administrator at that time. */
  ghost predicate Rooted(h: Hash, run: seq<Timed>, events: seq<AdminEvent>, x: nat)
    requires x < |events|
  {
    || events[x].actor == LocalCli
    || exists i | 0 <= i < |run| :: AppendedBy(h, run, events, x, i) && HumanAdmin(StateAt(h, run, i), events[x].actor)
  }

  // ---- one link -----------------------------------------------------------------------------

  /** The fold's entry for a grant is what the last event about it says. */
  lemma {:induction false} FoldIsLastWord(events: seq<AdminEvent>, store: GrantStore, id: int) returns (y: nat)
    requires id in Fold(events, store)
    ensures LastWord(events, y) && events[y].store == store && events[y].grantId == id
    ensures Fold(events, store)[id] == Standing(events[y].scope, events[y].after)
  {
    var n := |events| - 1;
    if events[n].store == store && events[n].grantId == id {
      y := n;
    } else {
      y := FoldIsLastWord(events[..n], store, id);
      forall z | y < z < |events| ensures !(events[z].store == store && events[z].grantId == id) {
        if z < n { assert events[..n][z] == events[z]; }
      }
    }
  }

  lemma HumanWebTrimmed()
    ensures Trim(HUMAN_WEB_PROVIDER) == HUMAN_WEB_PROVIDER
  {
    hide Trim, TextStart, TextEnd;
    assert HUMAN_WEB_PROVIDER[0] == 'h' && HUMAN_WEB_PROVIDER[8] == 'b';
    TrimFixed(HUMAN_WEB_PROVIDER);
  }

  /** The one implicit way to administer the policy. */
  lemma ImplicitAdministrator(who: Principal, participantId: string, resource: Option<string>, row: Participant)
    requires ImplicitReason(who, participantId, ManageAuthorizationPolicy, resource, row).Some?
    ensures who.provider == HUMAN_WEB_PROVIDER && who.subject == participantId && row.role == AdminRole
  {
  }

  /** How a remote caller came to be allowed: an active durable grant, or being a human web administrator.
      Delegated grants play no part, since the check names no intent. */
  lemma AdministratorAuthority(db: Db, now: int, caller: Caller) returns (id: int)
    requires caller.RemoteCaller? && MayAdminister(db, now, caller)
    ensures caller.participantId in db.participants && db.participants[caller.participantId].status == ParticipantActive
    ensures || (&& id in db.durable && IsExplicit(db.durable[id], caller.principal, caller.participantId,
                                                  ManageAuthorizationPolicy)
                && Covers(db.durable[id].resource, Some(POLICY_ADMIN_RESOURCE)))
            || (&& caller.principal.provider == HUMAN_WEB_PROVIDER && caller.principal.subject == caller.participantId
                && db.participants[caller.participantId].role == AdminRole)
  {
    hide Decide, ImplicitReason, HoldsDurableFor, HoldsDurable, IsExplicit;
    id := 0;
    var d := Decide(db, now, caller.principal, caller.participantId, ManageAuthorizationPolicy,
                    Some(POLICY_ADMIN_RESOURCE), None);
    ReadAuthority(db, now, caller.principal, caller.participantId, ManageAuthorizationPolicy,
                  Some(POLICY_ADMIN_RESOURCE));
    if d.source == PrincipalGrants {
      id := d.grantId.value;
    } else {
      ImplicitAdministrator(caller.principal, caller.participantId, Some(POLICY_ADMIN_RESOURCE),
                            db.participants[caller.participantId]);
    }
  }

  lemma ActorOf(caller: Caller, actor: Actor)
    requires NormalizeActor(caller) == Ok(actor) && caller.RemoteCaller?
    ensures actor.Remote? && actor.participantId == Trim(caller.participantId)
    ensures actor.principal == Principal(Trim(caller.principal.provider), Trim(caller.principal.subject))
  {
    hide Field, ParticipantField, Trim;
  }

  lemma DurableRowTrimmed(db: Db, id: int)
    requires PolicySound(db) && id in db.durable
    ensures Trim(db.durable[id].principal.provider) == db.durable[id].principal.provider
    ensures Trim(db.durable[id].principal.subject) == db.durable[id].principal.subject
  {
    hide IsKnown, Trim, Blank, HasControl, IsParticipantId;
    assert WellFormedScope(DurableScope(db.durable[id]));
  }

  lemma ParticipantTrimmed(db: Db, p: string)
    requires PolicySound(db) && p in db.participants
    ensures Trim(p) == p
  {
    hide IsKnown, Trim, WellFormedScope, IsParticipantId;
    ParticipantIdWellFormed(p);
  }

  /** The check sees the caller as given and the event names it trimmed: for whoever is allowed these agree. */
  lemma AllowedCallerIsActor(db: Db, now: int, caller: Caller, actor: Actor)
    requires PolicySound(db) && caller.RemoteCaller? && MayAdminister(db, now, caller)
             && NormalizeActor(caller) == Ok(actor)
    ensures actor.Remote? && actor.principal == caller.principal && actor.participantId == caller.participantId
  {
    hide PolicySound, MayAdminister, NormalizeActor, Trim;
    var id := AdministratorAuthority(db, now, caller);
    ActorOf(caller, actor);
    ParticipantTrimmed(db, caller.participantId);
    if id in db.durable { DurableRowTrimmed(db, id); }
    HumanWebTrimmed();
  }

  /** Each appended event is supported by an earlier one, or its actor is a human web administrator. */
  lemma Link(db: Db, now: int, caller: Caller, actor: Actor) returns (y: nat)
    requires PolicySound(db) && Logged(db)
    requires MayAdminister(db, now, caller) && NormalizeActor(caller) == Ok(actor) && actor.Remote?
    ensures HumanAdmin(db, actor) || (LastWord(db.events, y) && Empowers(db.events[y], actor))
  {
    hide PolicySound, MayAdminister, NormalizeActor, LogConsistent, LastWord, Fold;
    y := 0;
    LocalActor(caller, actor);
    AllowedCallerIsActor(db, now, caller, actor);
    var id := AdministratorAuthority(db, now, caller);
    if !HumanAdmin(db, actor) {
      assert DurableStanding(db)[id] == Standing(DurableScope(db.durable[id]), Active);
      y := FoldIsLastWord(db.events, DurableStore, id);
    }
  }

  lemma LocalActor(caller: Caller, actor: Actor)
    requires NormalizeActor(caller) == Ok(actor)
    ensures actor.Remote? <==> caller.RemoteCaller?
  {
    hide Trim;
  }

  // ---- the chain ----------------------------------------------------------------------------

  /** A chain of events from x back to a root, each supported by the next; event ids strictly decrease. */
  ghost predicate IsChain(h: Hash, run: seq<Timed>, events: seq<AdminEvent>, x: nat, chain: seq<nat>) {
    && chain != [] && chain[0] == x
    && (forall i | 0 <= i < |chain| :: chain[i] < |events|)
    && (forall i | 0 <= i < |chain| - 1 :: Supports(events, chain[i + 1], chain[i]))
    && Rooted(h, run, events, chain[|chain| - 1])
  }

  /** Chain of authority: in every reachable log every event was appended by a step whose caller was
      allowed at the time, and rests on a strictly descending chain of activations of durable policy
      grants that ends at the local command line or at a human web administrator. */
  lemma {:induction false} ChainOfAuthority(h: Hash, run: seq<Timed>, n: nat, x: nat) returns (i: nat, chain: seq<nat>)
    requires GuardedRun(run) && n <= |run| && x < |StateAt(h, run, n).events|
    ensures i < n && AppendedBy(h, run, StateAt(h, run, n).events, x, i)
    ensures IsChain(h, run, StateAt(h, run, n).events, x, chain)
    decreases x
  {
    hide Invariant, StateAt, AppendedBy, Rooted, IsChain, GuardedRun, Supports;
    var events := StateAt(h, run, n).events;
    i := EventAppended(h, run, n, x);
    RunKeeps(h, run, i);
    var y := NextLink(h, run, events, x, i);
    if Rooted(h, run, events, x) {
      chain := [x];
      ChainStarts(h, run, events, x);
    } else {
      SupportsEarlier(events, y, x);
      var j, rest := ChainOfAuthority(h, run, n, y);
      chain := [x] + rest;
      ChainGrows(h, run, events, x, y, rest);
    }
  }

  lemma NextLink(h: Hash, run: seq<Timed>, events: seq<AdminEvent>, x: nat, i: nat) returns (y: nat)
    requires i < |run| && x < |events| && AppendedBy(h, run, events, x, i) && Invariant(h, StateAt(h, run, i))
    ensures Rooted(h, run, events, x) || Supports(events, y, x)
  {
    hide Invariant, StateAt, MayAdminister, NormalizeActor, HumanAdmin, Empowers, LastWord, Logged, PolicySound;
    y := 0;
    var before := StateAt(h, run, i);
    InvariantPolicy(h, before);
    LocalActor(run[i].1.caller, events[x].actor);
    if events[x].actor.Remote? {
      y := Link(before, run[i].0, run[i].1.caller, events[x].actor);
      if !HumanAdmin(before, events[x].actor) { SupportsHere(events, x, y); }
    }
  }

  lemma SupportsHere(events: seq<AdminEvent>, x: nat, y: nat)
    requires x < |events| && LastWord(events[..x], y) && Empowers(events[..x][y], events[x].actor)
    ensures Supports(events, y, x)
  {
  }

  lemma SupportsEarlier(events: seq<AdminEvent>, y: nat, x: nat)
    requires Supports(events, y, x)
    ensures y < x < |events|
  {
  }

  lemma ChainStarts(h: Hash, run: seq<Timed>, events: seq<AdminEvent>, x: nat)
    requires x < |events| && Rooted(h, run, events, x)
    ensures IsChain(h, run, events, x, [x])
  {
    hide Rooted, Supports;
  }

  lemma ChainGrows(h: Hash, run: seq<Timed>, events: seq<AdminEvent>, x: nat, y: nat, rest: seq<nat>)
    requires x < |events| && Supports(events, y, x) && IsChain(h, run, events, y, rest)
    ensures IsChain(h, run, events, x, [x] + rest)
  {
    hide Rooted, Supports;
    var chain := [x] + rest;
    forall i | 0 <= i < |chain| - 1 ensures Supports(events, chain[i + 1], chain[i]) {
      if i > 0 { assert chain[i] == rest[i - 1] && chain[i + 1] == rest[i]; }
    }
    assert chain[|chain| - 1] == rest[|rest| - 1];
  }
}
