/** The administration log against the grant tables: folding the events from empty rebuilds the scope
    and status of every grant, and every change of standing is one event. */
module AdministrationLog {
  import opened Text
  import opened Order
  import opened Tables
  import opened Authorization
  import opened Administration

  /** What the log says about one grant. */
  datatype Standing = Standing(scope: Scope, status: GrantStatus)

  /** Replaying the log of one store. */
  ghost function Fold(events: seq<AdminEvent>, store: GrantStore): map<int, Standing> {
    if events == [] then map[]
    else
      var before := Fold(events[..|events| - 1], store);
      var e := events[|events| - 1];
      if e.store == store then before[e.grantId := Standing(e.scope, e.after)] else before
  }

  ghost function DurableStanding(db: Db): map<int, Standing> {
    map id | id in db.durable :: Standing(DurableScope(db.durable[id]), db.durable[id].status)
  }

  ghost function DelegatedStanding(db: Db): map<int, Standing> {
    map id | id in db.delegated :: Standing(DelegatedScope(db.delegated[id]), db.delegated[id].status)
  }

  /** An event names the status its grant had, changes it, and keeps the grant's scope. */
  ghost predicate EventFits(before: map<int, Standing>, e: AdminEvent) {
    && e.before == (if e.grantId in before then Some(before[e.grantId].status) else None)
    && e.before != Some(e.after)
    && (e.grantId in before ==> before[e.grantId].scope == e.scope)
  }

  ghost predicate LogConsistent(events: seq<AdminEvent>) {
    forall i | 0 <= i < |events| :: EventFits(Fold(events[..i], events[i].store), events[i])
  }

  /** The log is the policy. */
  ghost predicate Logged(db: Db) {
    && Fold(db.events, DurableStore) == DurableStanding(db)
    && Fold(db.events, DelegatedStore) == DelegatedStanding(db)
    && LogConsistent(db.events)
  }

  predicate KnownStatus(s: GrantStatus) {
    s == Active || s == Inactive
  }

  /** Grant rows as the administration writes them; a durable scope, NULL resource included, has one row. */
  ghost predicate PolicySound(db: Db) {
    && (forall id | id in db.durable ::
          && 1 <= id <= db.lastDurableId
          && WellFormedScope(DurableScope(db.durable[id])) && IsKnown(db.durable[id].capability)
          && db.durable[id].participantId in db.participants && KnownStatus(db.durable[id].status))
    && (forall i, j | i in db.durable && j in db.durable
        && DurableScope(db.durable[i]) == DurableScope(db.durable[j]) :: i == j)
    && (forall id | id in db.delegated ::
          && 1 <= id <= db.lastDelegatedId
          && WellFormedScope(DelegatedScope(db.delegated[id]))
          && db.delegated[id].participantId in db.participants && KnownStatus(db.delegated[id].status)
          && (db.delegated[id].oneShot == 0 || db.delegated[id].oneShot == 1))
    && (forall p | p in db.participants :: IsParticipantId(p))
    && 0 <= db.lastDurableId && 0 <= db.lastDelegatedId
  }

  /** Exactly one grant changed standing, and the log gained exactly the event saying so. */
  ghost predicate OneLoggedChange(db: Db, after: Db) {
    && |after.events| == |db.events| + 1 && after.events[..|db.events|] == db.events
    && var e := after.events[|db.events|];
    && var durable, delegated := DurableStanding(db), DelegatedStanding(db);
    && (e.store == DurableStore ==>
          && EventFits(durable, e) && DurableStanding(after) == durable[e.grantId := Standing(e.scope, e.after)]
          && DelegatedStanding(after) == delegated)
    && (e.store == DelegatedStore ==>
          && EventFits(delegated, e) && DelegatedStanding(after) == delegated[e.grantId := Standing(e.scope, e.after)]
          && DurableStanding(after) == durable)
  }

  lemma LoggedChangeKeepsLog(db: Db, after: Db)
    requires Logged(db) && OneLoggedChange(db, after)
    ensures Logged(after)
  {
    hide DurableStanding, DelegatedStanding, EventFits;
    var n := |db.events|;
    var e := after.events[n];
    assert after.events[..|after.events| - 1] == db.events;
    forall i | 0 <= i < |after.events| ensures EventFits(Fold(after.events[..i], after.events[i].store),
                                                         after.events[i]) {
      if i < n {
        assert after.events[..i] == db.events[..i];
        assert after.events[i] == db.events[..n][i];
      }
    }
  }

  // ---- the shape of one committed change ----------------------------------------------------

  lemma AscendingSingleton(id: int)
    ensures AscendingIds({id}) == [id]
  {
    SelectionUnique(AscendingIds({id}), [id], {id}, IdKey);
  }

  lemma AscendingEmpty()
    ensures AscendingIds({}) == []
  {
  }

  lemma SameScopeUnique(db: Db, s: Scope, id: int)
    requires PolicySound(db) && id in db.durable && DurableScope(db.durable[id]) == s
    ensures SameScope(db, s) == {id}
    ensures StillActive(db, s) == if db.durable[id].status == Active then {id} else {}
  {
    hide WellFormedScope, IsParticipantId, IsKnown;
    forall i ensures i in SameScope(db, s) <==> i in {id} {}
    var active: set<int> := if db.durable[id].status == Active then {id} else {};
    forall i ensures i in StillActive(db, s) <==> i in active {}
  }

  ghost predicate UnchangedOutcome(r: AdminResult) {
    r.Refused? || r.GrantExisting? || r.GrantMissing? || r == GrantDeactivated(0)
  }

  /** Either nothing happened, or one grant changed standing and one event by this actor says so. */
  ghost predicate LoggedOutcome(db: Db, actor: Actor, result: (Db, AdminResult)) {
    && PolicySound(result.0)
    && (if UnchangedOutcome(result.1) then result.0 == db
        else OneLoggedChange(db, result.0) && result.0.events[|db.events|].actor == actor)
  }

  lemma UnchangedLogged(db: Db, actor: Actor, r: AdminResult)
    requires PolicySound(db) && UnchangedOutcome(r)
    ensures LoggedOutcome(db, actor, (db, r))
  {
  }

  lemma ScopeRows(db: Db, s: Scope)
    ensures forall id | id in SameScope(db, s) :: id in db.durable && DurableScope(db.durable[id]) == s
    ensures SameScope(db, s) == {} ==> forall i | i in db.durable :: DurableScope(db.durable[i]) != s
  {
    forall i | i in db.durable && DurableScope(db.durable[i]) == s ensures i in SameScope(db, s) {}
  }

  lemma CreateDurableChanges(db: Db, actor: Actor, s: Scope)
    requires PolicySound(db) && WellFormedScope(s) && IsKnown(s.capability)
    requires s == Scope(s.principal, s.participantId, s.capability, s.resource, None, None, false)
    ensures LoggedOutcome(db, actor, CreateDurableInTx(db, actor, s))
  {
    hide PolicySound, LoggedOutcome, WellFormedScope, IsKnown, SameScope, StillActive, AscendingIds, DurableScope,
         ReactivateDurable, InsertDurable;
    ScopeRows(db, s);
    var result := CreateDurableInTx(db, actor, s);
    if UnchangedOutcome(result.1) {
      UnchangedLogged(db, actor, result.1);
    } else if SameScope(db, s) == {} {
      AscendingEmpty();
      InsertChanges(db, actor, s);
    } else {
      var id := result.1.id;
      assert id in SameScope(db, s);
      SameScopeUnique(db, s, id);
      AscendingSingleton(id);
      ReactivateChanges(db, actor, s, id);
    }
  }

  lemma ReactivateChanges(db: Db, actor: Actor, s: Scope, id: int)
    requires PolicySound(db) && id in db.durable && DurableScope(db.durable[id]) == s && db.durable[id].status != Active
    ensures LoggedOutcome(db, actor,
              (ReactivateDurable(db, actor, s, id), GrantReactivated(id)))
  {
    hide PolicySound;
    var after := ReactivateDurable(db, actor, s, id);
    assert after.durable == db.durable[id := db.durable[id].(status := Active)];
    DurableRowSet(db, after, id, s, Active);
    ReactivatedSound(db, actor, s, id);
  }

  lemma ReactivatedSound(db: Db, actor: Actor, s: Scope, id: int)
    requires PolicySound(db) && id in db.durable
    ensures PolicySound(ReactivateDurable(db, actor, s, id))
    ensures db.durable[id].status == Active || db.durable[id].status == Inactive
  {
    hide WellFormedScope, IsParticipantId, IsKnown;
  }

  /** Writing one durable row moves one standing. */
  lemma DurableRowSet(db: Db, after: Db, id: int, s: Scope, status: GrantStatus)
    requires id in after.durable && after.durable == db.durable[id := after.durable[id]]
             && after.delegated == db.delegated
    requires DurableScope(after.durable[id]) == s && after.durable[id].status == status
    ensures DurableStanding(after) == DurableStanding(db)[id := Standing(s, status)]
    ensures DelegatedStanding(after) == DelegatedStanding(db)
  {
    hide DurableScope, DelegatedScope;
  }

  lemma InsertChanges(db: Db, actor: Actor, s: Scope)
    requires PolicySound(db) && WellFormedScope(s) && IsKnown(s.capability) && s.participantId in db.participants
    requires s == Scope(s.principal, s.participantId, s.capability, s.resource, None, None, false)
    requires forall i | i in db.durable :: DurableScope(db.durable[i]) != s
    ensures LoggedOutcome(db, actor, (InsertDurable(db, actor, s), GrantCreated(db.lastDurableId + 1)))
  {
    hide PolicySound, WellFormedScope, IsKnown;
    var id := db.lastDurableId + 1;
    var after := InsertDurable(db, actor, s);
    assert DurableScope(NewDurable(s)) == s;
    assert after.durable == db.durable[id := NewDurable(s)];
    DurableRowSet(db, after, id, s, Active);
    InsertedSound(db, actor, s);
  }

  lemma InsertedSound(db: Db, actor: Actor, s: Scope)
    requires PolicySound(db) && WellFormedScope(s) && IsKnown(s.capability) && s.participantId in db.participants
    requires DurableScope(NewDurable(s)) == s
    requires forall i | i in db.durable :: DurableScope(db.durable[i]) != s
    ensures PolicySound(InsertDurable(db, actor, s)) && db.lastDurableId + 1 !in db.durable
  {
    hide WellFormedScope, IsParticipantId, IsKnown;
  }

  lemma DeactivateDurableChanges(db: Db, actor: Actor, id: int)
    requires PolicySound(db)
    ensures LoggedOutcome(db, actor, DeactivateDurableInTx(db, actor, id))
  {
    hide PolicySound, LoggedOutcome, StillActive, AscendingIds, DurableScope, Deactivated, DeactivationEvents;
    var r := DeactivateDurableInTx(db, actor, id).1;
    if id > 0 && id in db.durable {
      var s := DurableScope(db.durable[id]);
      SameScopeUnique(db, s, id);
      if db.durable[id].status == Active {
        ActiveDropped(db, actor, s, id);
      } else {
        NothingDropped(db, actor, s);
        UnchangedLogged(db, actor, r);
      }
    } else {
      UnchangedLogged(db, actor, r);
    }
  }

  /** Dropping no row is no change. */
  lemma NothingDropped(db: Db, actor: Actor, s: Scope)
    ensures Deactivated(db.durable, {}) == db.durable
    ensures db.events + DeactivationEvents(actor, s, AscendingIds({})) == db.events
    ensures db.(durable := Deactivated(db.durable, {}),
                events := db.events + DeactivationEvents(actor, s, AscendingIds({}))) == db
  {
    AscendingEmpty();
    assert DeactivationEvents(actor, s, []) == [];
  }

  lemma ActiveDropped(db: Db, actor: Actor, s: Scope, id: int)
    requires PolicySound(db) && id in db.durable && DurableScope(db.durable[id]) == s && db.durable[id].status == Active
    ensures LoggedOutcome(db, actor,
              (db.(durable := Deactivated(db.durable, {id}),
                   events := db.events + DeactivationEvents(actor, s, AscendingIds({id}))),
               GrantDeactivated(1)))
  {
    hide PolicySound, DurableScope, AscendingIds;
    var after := db.(durable := Deactivated(db.durable, {id}),
                     events := db.events + DeactivationEvents(actor, s, AscendingIds({id})));
    AscendingSingleton(id);
    RowDropped(db, s, id);
    DurableRowSet(db, after, id, s, Inactive);
    DroppedSound(db, after, id);
  }

  lemma RowDropped(db: Db, s: Scope, id: int)
    requires id in db.durable && DurableScope(db.durable[id]) == s
    ensures var dropped := db.durable[id].(status := Inactive);
            DurableScope(dropped) == s && Deactivated(db.durable, {id}) == db.durable[id := dropped]
  {
  }

  lemma DroppedSound(db: Db, after: Db, id: int)
    requires PolicySound(db) && id in db.durable && after == db.(durable := after.durable, events := after.events)
    requires after.durable == db.durable[id := db.durable[id].(status := Inactive)]
    ensures PolicySound(after)
  {
    hide WellFormedScope, IsParticipantId, IsKnown;
  }

  /** Writing one delegated row moves one standing. */
  lemma DelegatedRowSet(db: Db, after: Db, id: int, s: Scope, status: GrantStatus)
    requires id in after.delegated && after.delegated == db.delegated[id := after.delegated[id]]
             && after.durable == db.durable
    requires DelegatedScope(after.delegated[id]) == s && after.delegated[id].status == status
    ensures DelegatedStanding(after) == DelegatedStanding(db)[id := Standing(s, status)]
    ensures DurableStanding(after) == DurableStanding(db)
  {
    hide DurableScope, DelegatedScope;
  }

  lemma CreateDelegatedChanges(db: Db, now: int, actor: Actor, s: Scope)
    requires PolicySound(db) && WellFormedScope(s)
    ensures LoggedOutcome(db, actor, CreateDelegatedInTx(db, now, actor, s))
  {
    hide PolicySound, WellFormedScope, NewDelegated, DelegatedScope, ParticipantRefusal;
    var (after, r) := CreateDelegatedInTx(db, now, actor, s);
    if UnchangedOutcome(r) {
      UnchangedLogged(db, actor, r);
    } else {
      NewDelegatedScope(s);
      DelegatedRowSet(db, after, db.lastDelegatedId + 1, s, Active);
      DelegatedCreatedSound(db, now, actor, s);
    }
  }

  lemma NewDelegatedScope(s: Scope)
    ensures DelegatedScope(NewDelegated(s)) == s && NewDelegated(s).status == Active
  {
  }

  lemma DelegatedCreatedSound(db: Db, now: int, actor: Actor, s: Scope)
    requires PolicySound(db) && WellFormedScope(s)
    ensures PolicySound(CreateDelegatedInTx(db, now, actor, s).0) && db.lastDelegatedId + 1 !in db.delegated
  {
    hide WellFormedScope, IsParticipantId, IsKnown;
    NewDelegatedScope(s);
  }

  lemma DeactivateDelegatedChanges(db: Db, actor: Actor, id: int)
    requires PolicySound(db)
    ensures LoggedOutcome(db, actor, DeactivateDelegatedInTx(db, actor, id))
  {
    hide PolicySound;
    var (after, r) := DeactivateDelegatedInTx(db, actor, id);
    if UnchangedOutcome(r) {
      UnchangedLogged(db, actor, r);
    } else {
      DelegatedRowSet(db, after, id, DelegatedScope(db.delegated[id]), Inactive);
      DelegatedDroppedSound(db, actor, id);
    }
  }

  lemma DelegatedDroppedSound(db: Db, actor: Actor, id: int)
    requires PolicySound(db)
    ensures PolicySound(DeactivateDelegatedInTx(db, actor, id).0)
  {
    hide WellFormedScope, IsParticipantId, IsKnown;
  }

  lemma ApplyChangeLogged(db: Db, now: int, actor: Actor, change: Change)
    requires PolicySound(db) && WellFormedChange(change)
    ensures LoggedOutcome(db, actor, ApplyChange(db, now, actor, change))
  {
    hide PolicySound, LoggedOutcome, CreateDurableInTx, DeactivateDurableInTx, CreateDelegatedInTx,
         DeactivateDelegatedInTx, WellFormedScope, IsKnown;
    match change {
      case AddDurable(s) => CreateDurableChanges(db, actor, s);
      case DropDurable(id) => DeactivateDurableChanges(db, actor, id);
      case AddDelegated(s) => CreateDelegatedChanges(db, now, actor, s);
      case DropDelegated(id) => DeactivateDelegatedChanges(db, actor, id);
    }
  }

  /** Nothing happened, or the caller was allowed and one logged change names it as the actor. */
  ghost predicate LoggedRequest(db: Db, now: int, caller: Caller, result: (Db, AdminResult)) {
    && PolicySound(result.0)
    && (if UnchangedOutcome(result.1) then result.0 == db
        else && NormalizeActor(caller).Ok? && MayAdminister(db, now, caller)
             && LoggedOutcome(db, NormalizeActor(caller).value, result))
  }

  /** One request, one of two shapes: nothing at all happened, or one grant changed standing and one
      event by the normalized caller, who was allowed, says so. Refusals and repetitions are of the
      first shape. */
  lemma AdministerLogged(db: Db, now: int, caller: Caller, command: Command)
    requires PolicySound(db)
    ensures LoggedRequest(db, now, caller, Administer(db, now, caller, command))
  {
    hide PolicySound, OneLoggedChange, ApplyChange, NormalizeActor, NormalizeCommand, MayAdminister, Trim, WellFormed;
    var actor := NormalizeActor(caller);
    var change := NormalizeCommand(command);
    if actor.Ok? && change.Ok? && MayAdminister(db, now, caller) {
      NormalizedWellFormed(command);
      ApplyChangeLogged(db, now, actor.value, change.value);
    }
  }
}
