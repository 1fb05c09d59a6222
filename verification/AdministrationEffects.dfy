/** What an accepted administration command means: the row it leaves is the one requested, and the
    evaluator honours it from the next request on. */
module AdministrationEffects {
  import opened Text
  import opened Tables
  import opened Authorization
  import opened ScanOrder
  import opened AuthorizationPreference
  import opened Administration
  import opened AdministrationLog
  import opened AdministrationExact
  import opened Kernel
  import opened Preservation
  import opened ExecutionPreservation
  import opened AuthorityRuns

  function RequestedPrincipal(r: GrantRequest): Principal {
    Principal(Trim(r.principal.provider), Trim(r.principal.subject))
  }

  /** The columns both grant tables share are the trimmed ones of the request. */
  predicate Requested(s: Scope, r: GrantRequest) {
    && s.principal == RequestedPrincipal(r) && s.participantId == Trim(r.participantId)
    && CapabilityName(s.capability) == Trim(r.capability) && s.resource == TrimmedOption(r.resource)
  }

  lemma NormalizedIsRequest(r: GrantRequest)
    ensures var s := NormalizeDurable(r);
            s.Ok? ==> Requested(s.value, r) && s.value.intentId.None? && s.value.expiresAt.None? && !s.value.oneShot
                      && IsKnown(s.value.capability)
    ensures var s := NormalizeDelegated(r);
            s.Ok? ==> && Requested(s.value, r) && s.value.intentId == TrimmedOption(r.intentId)
                      && s.value.expiresAt == r.expiresAt && s.value.oneShot == r.oneShot
  {
    hide Trim, ParseCapability, CapabilityName, WellFormed, IsKnown, Normalize, ValidateParticipantId;
  }

  /** The grant a result is about. */
  function Subject(r: AdminResult): Option<int> {
    if r.GrantCreated? || r.GrantExisting? || r.GrantReactivated? then Some(r.id) else None
  }

  lemma {:induction false} FirstActiveExact(db: Db, ids: seq<int>)
    ensures FirstActive(db, ids).Some? ==>
              FirstActive(db, ids).value in ids && FirstActive(db, ids).value in db.durable
              && db.durable[FirstActive(db, ids).value].status == Active
  {
    if ids != [] { FirstActiveExact(db, ids[1..]); }
  }

  lemma CreateDurableRow(db: Db, actor: Actor, s: Scope)
    requires s == Scope(s.principal, s.participantId, s.capability, s.resource, None, None, false)
    ensures var (after, r) := CreateDurableInTx(db, actor, s);
            Subject(r).Some? ==>
              && s.participantId in db.participants && db.participants[s.participantId].status == ParticipantActive
              && after.participants == db.participants
              && Subject(r).value in after.durable && after.durable[Subject(r).value] == NewDurable(s)
  {
    hide AscendingIds;
    var ids := AscendingIds(SameScope(db, s));
    FirstActiveExact(db, ids);
    ScopeRows(db, s);
    forall id | id in ids ensures id in db.durable && db.durable[id].(status := Active) == NewDurable(s) {
      assert id in SameScope(db, s);
      assert DurableScope(db.durable[id]) == s;
    }
  }

  /** An accepted durable creation, whether it inserts, reactivates or finds, leaves the requested grant
      active under the reported id. */
  lemma CreateDurableEffect(db: Db, now: int, caller: Caller, r: GrantRequest)
    ensures var (after, result) := Administer(db, now, caller, CreateDurable(r));
            Subject(result).Some? ==>
              && after.participants == db.participants && Subject(result).value in after.durable
              && var g := after.durable[Subject(result).value];
              && g.status == Active && g.principal == RequestedPrincipal(r) && g.participantId == Trim(r.participantId)
              && CapabilityName(g.capability) == Trim(r.capability) && IsKnown(g.capability)
              && g.resource == TrimmedOption(r.resource)
              && g.participantId in db.participants && db.participants[g.participantId].status == ParticipantActive
  {
    hide MayAdminister, NormalizeActor, NormalizeDurable, CreateDurableInTx, Trim, CapabilityName, IsKnown;
    var actor, s := NormalizeActor(caller), NormalizeDurable(r);
    if actor.Ok? && s.Ok? {
      NormalizedIsRequest(r);
      CreateDurableRow(db, actor.value, s.value);
    }
  }

  /** An accepted delegated creation leaves a new, unconsumed grant as requested. */
  lemma CreateDelegatedEffect(db: Db, now: int, caller: Caller, r: GrantRequest)
    requires PolicySound(db)
    ensures var (after, result) := Administer(db, now, caller, CreateDelegated(r));
            result.GrantCreated? ==>
              && result.id !in db.delegated && result.id in after.delegated
              && var g := after.delegated[result.id];
              && g.status == Active && g.principal == RequestedPrincipal(r) && g.participantId == Trim(r.participantId)
              && CapabilityName(g.capability) == Trim(r.capability) && g.resource == TrimmedOption(r.resource)
              && g.intentId == TrimmedOption(r.intentId) && g.expiresAt == r.expiresAt
              && g.oneShot == (if r.oneShot then 1 else 0)
              && g.consumedAt.None? && g.consumedIntentId.None?
              && (r.expiresAt.Some? ==> r.expiresAt.value > now)
  {
    hide MayAdminister, NormalizeActor, NormalizeDelegated, Trim, CapabilityName, IsKnown, PolicySound;
    NormalizedIsRequest(r);
    NextDelegatedFree(db);
  }

  /** A deactivation is accepted exactly from an admitted caller for a stored grant; it leaves the grant
      inactive and counts the rows it changed. */
  lemma DeactivationEffect(db: Db, now: int, caller: Caller, id: int)
    requires PolicySound(db)
    ensures var (after, result) := Administer(db, now, caller, DeactivateDurable(id));
            && (result.GrantDeactivated? <==> Admitted(db, now, caller) && id in db.durable)
            && (result.GrantDeactivated? ==>
                  && id in after.durable && after.durable[id].status == Inactive
                  && result.rowsChanged == (if db.durable[id].status == Active then 1 else 0))
    ensures var (after, result) := Administer(db, now, caller, DeactivateDelegated(id));
            && (result.GrantDeactivated? <==> Admitted(db, now, caller) && id in db.delegated)
            && (result.GrantDeactivated? ==>
                  && id in after.delegated && after.delegated[id].status == Inactive
                  && result.rowsChanged == (if db.delegated[id].status == Active then 1 else 0))
  {
    hide PolicySound, Administer, Answers, Leaves, Admitted;
    AdministerExact(db, now, caller, DeactivateDurable(id));
    AdministerExact(db, now, caller, DeactivateDelegated(id));
    var a, b := Administer(db, now, caller, DeactivateDurable(id)),
        Administer(db, now, caller, DeactivateDelegated(id));
    DurableDeactivated(db, now, caller, id, a.1, a.0);
    DelegatedDeactivated(db, now, caller, id, b.1, b.0);
  }

  lemma DurableDeactivated(db: Db, now: int, caller: Caller, id: int, result: AdminResult, after: Db)
    requires PolicySound(db) && Answers(db, now, caller, DeactivateDurable(id), result)
    requires Leaves(db, caller, DeactivateDurable(id), result, after)
    ensures result.GrantDeactivated? <==> Admitted(db, now, caller) && id in db.durable
    ensures result.GrantDeactivated? ==>
              && id in after.durable && after.durable[id].status == Inactive
              && result.rowsChanged == (if db.durable[id].status == Active then 1 else 0)
  {
    hide PolicySound, CallerFault, Authorized, ActorOf;
    if id in db.durable {
      DurableIdPositive(db, id);
      StatusOfDurable(db, id);
    }
  }

  lemma DelegatedDeactivated(db: Db, now: int, caller: Caller, id: int, result: AdminResult, after: Db)
    requires PolicySound(db) && Answers(db, now, caller, DeactivateDelegated(id), result)
    requires Leaves(db, caller, DeactivateDelegated(id), result, after)
    ensures result.GrantDeactivated? <==> Admitted(db, now, caller) && id in db.delegated
    ensures result.GrantDeactivated? ==>
              && id in after.delegated && after.delegated[id].status == Inactive
              && result.rowsChanged == (if db.delegated[id].status == Active then 1 else 0)
  {
    hide PolicySound, CallerFault, Authorized, ActorOf;
    if id in db.delegated {
      DelegatedIdPositive(db, id);
      StatusOfDelegated(db, id);
    }
  }

  lemma DelegatedIdPositive(db: Db, id: int)
    requires PolicySound(db) && id in db.delegated
    ensures id > 0
  {
    hide WellFormedScope, IsKnown, IsParticipantId, KnownStatus, DurableScope, DelegatedScope;
  }

  lemma DeactivationNormalized(id: int)
    ensures NormalizeCommand(DeactivateDurable(id)) == Ok(DropDurable(id))
    ensures NormalizeCommand(DeactivateDelegated(id)) == Ok(DropDelegated(id))
  {
  }

  lemma DeactivationApplied(db: Db, now: int, actor: Actor, id: int)
    ensures ApplyChange(db, now, actor, DropDurable(id)) == DeactivateDurableInTx(db, actor, id)
    ensures ApplyChange(db, now, actor, DropDelegated(id)) == DeactivateDelegatedInTx(db, actor, id)
  {
  }

  // ---- and the evaluator --------------------------------------------------------------------

  /** A durable grant works from the moment its creation is accepted, whatever else the tables hold: at any
      time, with or without an intent, on every resource it covers. */
  lemma GrantTakesEffect(h: Hash, db: Db, at: int, caller: Caller, r: GrantRequest, now: int, resource: Option<string>,
                         intent: Option<string>)
    requires Invariant(h, db) && Subject(Administer(db, at, caller, CreateDurable(r)).1).Some?
    requires Covers(TrimmedOption(r.resource), resource)
    ensures var (after, result) := Administer(db, at, caller, CreateDurable(r));
            && Subject(result).value in after.durable
            && Decide(after, now, RequestedPrincipal(r), Trim(r.participantId),
                      after.durable[Subject(result).value].capability,
                      resource, intent).allowed
  {
    hide Invariant, Administer, Trim, Decide, CapabilityName, IsKnown, ConsumptionReceipted, EvidenceUntouched, Extends,
         ImplicitReason;
    var (after, result) := Administer(db, at, caller, CreateDurable(r));
    AdminKeeps(h, db, at, caller, CreateDurable(r));
    InvariantReceipted(h, after);
    CreateDurableEffect(db, at, caller, r);
    var g := after.durable[Subject(result).value];
    assert IsExplicit(g, RequestedPrincipal(r), Trim(r.participantId), g.capability);
    OrderFree(after, now, RequestedPrincipal(r), Trim(r.participantId), g.capability, resource, intent);
  }

  /** An inactive grant is never what an allowed decision rests on. */
  lemma InactiveNotCited(db: Db, now: int, who: Principal, participantId: string, c: Capability,
                         resource: Option<string>, intent: string)
    requires Decide(db, now, who, participantId, c, resource, Some(intent)).allowed
    ensures var d := Decide(db, now, who, participantId, c, resource, Some(intent));
            && (d.source == PrincipalGrants ==>
                  d.grantId.Some? && d.grantId.value in db.durable && db.durable[d.grantId.value].status == Active)
            && (d.source == DelegatedGrants ==>
                  d.grantId.Some? && d.grantId.value in db.delegated && db.delegated[d.grantId.value].status == Active)
  {
    hide Decide, DurableRows, Denial, CommittedReceiptExists;
    var d := Decide(db, now, who, participantId, c, resource, Some(intent));
    if d.source == PrincipalGrants {
      DecidedByDurable(db, now, who, participantId, c, resource, Some(intent));
      DurablePart(db, who, participantId, c, resource);
    } else {
      DecisionRestsOn(db, now, who, participantId, c, resource, intent);
    }
  }

  /** Revocation works from the moment it is accepted: no allowed decision cites the deactivated grant. */
  lemma RevocationTakesEffect(db: Db, at: int, caller: Caller, id: int, now: int, who: Principal, participantId: string,
                              c: Capability, resource: Option<string>, intent: string)
    requires PolicySound(db)
    ensures var (after, result) := Administer(db, at, caller, DeactivateDurable(id));
            var d := Decide(after, now, who, participantId, c, resource, Some(intent));
            result.GrantDeactivated? && d.allowed && d.source == PrincipalGrants ==> d.grantId != Some(id)
    ensures var (after, result) := Administer(db, at, caller, DeactivateDelegated(id));
            var d := Decide(after, now, who, participantId, c, resource, Some(intent));
            result.GrantDeactivated? && d.allowed && d.source == DelegatedGrants ==> d.grantId != Some(id)
  {
    hide Decide, Administer, PolicySound;
    DeactivationEffect(db, at, caller, id);
    var a, b := Administer(db, at, caller, DeactivateDurable(id)).0,
        Administer(db, at, caller, DeactivateDelegated(id)).0;
    if Decide(a, now, who, participantId, c, resource, Some(intent)).allowed {
      InactiveNotCited(a, now, who, participantId, c, resource, intent);
    }
    if Decide(b, now, who, participantId, c, resource, Some(intent)).allowed {
      InactiveNotCited(b, now, who, participantId, c, resource, intent);
    }
  }

  // ---- what remains after a revocation ------------------------------------------------------

  /** The tables an authority decision reads, with one durable or one delegated grant inactive. */
  ghost predicate OnlyInactive(db: Db, after: Db, durable: Option<int>, delegated: Option<int>) {
    && after.participants == db.participants && after.receipts == db.receipts
    && after.durable.Keys == db.durable.Keys && after.delegated.Keys == db.delegated.Keys
    && (forall j | j in db.durable ::
          after.durable[j] == if durable == Some(j) then db.durable[j].(status := Inactive) else db.durable[j])
    && (forall u | u in db.delegated ::
          after.delegated[u] == if delegated == Some(u) then db.delegated[u].(status := Inactive) else db.delegated[u])
  }

  lemma DurableRevocationShape(db: Db, actor: Actor, id: int)
    requires PolicySound(db) && DeactivateDurableInTx(db, actor, id).1.GrantDeactivated?
    ensures OnlyInactive(db, DeactivateDurableInTx(db, actor, id).0, Some(id), None)
  {
    hide PolicySound, AscendingIds, DeactivationEvents, StillActive, DurableScope;
    var s := DurableScope(db.durable[id]);
    SameScopeUnique(db, s, id);
    StatusOfDurable(db, id);
    assert DeactivateDurableInTx(db, actor, id).0.durable == Deactivated(db.durable, StillActive(db, s));
  }

  lemma DelegatedRevocationShape(db: Db, actor: Actor, id: int)
    requires DeactivateDelegatedInTx(db, actor, id).1.GrantDeactivated?
    ensures OnlyInactive(db, DeactivateDelegatedInTx(db, actor, id).0, None, Some(id))
  {
    hide DelegatedScope, OnlyInactive;
    var after := DeactivateDelegatedInTx(db, actor, id).0;
    var g := db.delegated[id];
    assert g.status == Inactive ==> db.delegated == db.delegated[id := g.(status := Inactive)];
    OneInactive(db, after, id);
  }

  lemma OneInactive(db: Db, after: Db, id: int)
    requires id in db.delegated && after.delegated == db.delegated[id := db.delegated[id].(status := Inactive)]
    requires after.participants == db.participants && after.receipts == db.receipts && after.durable == db.durable
    ensures OnlyInactive(db, after, None, Some(id))
  {
  }

  lemma DeactivationShape(db: Db, at: int, caller: Caller, id: int)
    requires PolicySound(db)
    ensures var (after, result) := Administer(db, at, caller, DeactivateDurable(id));
            result.GrantDeactivated? ==> OnlyInactive(db, after, Some(id), None)
    ensures var (after, result) := Administer(db, at, caller, DeactivateDelegated(id));
            result.GrantDeactivated? ==> OnlyInactive(db, after, None, Some(id))
  {
    hide MayAdminister, NormalizeActor, NormalizeCommand, ApplyChange, PolicySound, DeactivateDurableInTx,
         DeactivateDelegatedInTx, Trim, WellFormed, OnlyInactive;
    DeactivationNormalized(id);
    var actor := NormalizeActor(caller);
    if actor.Ok? {
      DeactivationApplied(db, at, actor.value, id);
      if DeactivateDurableInTx(db, actor.value, id).1.GrantDeactivated? { DurableRevocationShape(db, actor.value, id); }
      if DeactivateDelegatedInTx(db, actor.value, id).1.GrantDeactivated? {
        DelegatedRevocationShape(db, actor.value, id);
      }
    }
  }

  ghost predicate HoldsOtherDurable(db: Db, who: Principal, participantId: string, c: Capability,
                                    without: Option<int>) {
    exists j | j in db.durable :: without != Some(j) && IsExplicit(db.durable[j], who, participantId, c)
  }

  ghost predicate HoldsOtherDurableFor(db: Db, who: Principal, participantId: string, c: Capability,
                                       resource: Option<string>, without: Option<int>) {
    exists j | j in db.durable ::
      without != Some(j) && IsExplicit(db.durable[j], who, participantId, c) && Covers(db.durable[j].resource, resource)
  }

  ghost predicate HoldsOtherDelegatedFor(db: Db, now: int, who: Principal, participantId: string, c: Capability,
                                         resource: Option<string>, intent: string, without: Option<int>) {
    exists u | u in db.delegated ::
      without != Some(u) && Usable(db, now, who, participantId, c, resource, intent, db.delegated[u])
  }

  /** The order-free rule on these tables with one grant left out. */
  ghost predicate AuthorizedWithout(db: Db, now: int, who: Principal, participantId: string, c: Capability,
                                    resource: Option<string>, intent: Option<string>,
                                    durable: Option<int>, delegated: Option<int>) {
    && participantId in db.participants && db.participants[participantId].status == ParticipantActive
    && (|| HoldsOtherDurableFor(db, who, participantId, c, resource, durable)
        || (&& !HoldsOtherDurable(db, who, participantId, c, durable)
            && ImplicitReason(who, participantId, c, resource, db.participants[participantId]).Some?)
        || (intent.Some? && HoldsOtherDelegatedFor(db, now, who, participantId, c, resource, intent.value, delegated)))
  }

  lemma InactiveDurable(db: Db, after: Db, who: Principal, participantId: string, c: Capability,
                        resource: Option<string>,
                        durable: Option<int>, delegated: Option<int>)
    requires OnlyInactive(db, after, durable, delegated)
    ensures HoldsDurable(after, who, participantId, c) <==> HoldsOtherDurable(db, who, participantId, c, durable)
    ensures HoldsDurableFor(after, who, participantId, c, resource)
            <==> HoldsOtherDurableFor(db, who, participantId, c, resource, durable)
  {
    hide OnlyInactive, HoldsDurable, HoldsOtherDurable, HoldsDurableFor, HoldsOtherDurableFor, IsExplicit;
    InactiveRows(db, after, who, participantId, c, durable, delegated);
    InactiveHolds(db, after.durable, after, who, participantId, c, durable);
    InactiveHoldsFor(db, after.durable, after, who, participantId, c, resource, durable);
  }

  lemma InactiveHolds(db: Db, rows: map<int, DurableGrant>, after: Db, who: Principal, participantId: string,
                      c: Capability,
                      durable: Option<int>)
    requires rows == after.durable && rows.Keys == db.durable.Keys
    requires forall j | j in rows :: IsExplicit(rows[j], who, participantId, c)
                                     <==> durable != Some(j) && IsExplicit(db.durable[j], who, participantId, c)
    ensures HoldsDurable(after, who, participantId, c) <==> HoldsOtherDurable(db, who, participantId, c, durable)
  {
    hide IsExplicit;
  }

  lemma InactiveHoldsFor(db: Db, rows: map<int, DurableGrant>, after: Db, who: Principal, participantId: string,
                         c: Capability,
                         resource: Option<string>, durable: Option<int>)
    requires rows == after.durable && rows.Keys == db.durable.Keys
    requires forall j | j in rows :: rows[j].resource == db.durable[j].resource
    requires forall j | j in rows :: IsExplicit(rows[j], who, participantId, c)
                                     <==> durable != Some(j) && IsExplicit(db.durable[j], who, participantId, c)
    ensures HoldsDurableFor(after, who, participantId, c, resource)
            <==> HoldsOtherDurableFor(db, who, participantId, c, resource, durable)
  {
    hide IsExplicit, Covers;
  }

  lemma InactiveRows(db: Db, after: Db, who: Principal, participantId: string, c: Capability,
                     durable: Option<int>, delegated: Option<int>)
    requires OnlyInactive(db, after, durable, delegated)
    ensures after.durable.Keys == db.durable.Keys
    ensures forall j | j in after.durable ::
              && after.durable[j].resource == db.durable[j].resource
              && (IsExplicit(after.durable[j], who, participantId, c)
                  <==> durable != Some(j) && IsExplicit(db.durable[j], who, participantId, c))
  {
    hide IsExplicit;
    forall j | j in after.durable
      ensures after.durable[j].resource == db.durable[j].resource
      ensures IsExplicit(after.durable[j], who, participantId, c)
              <==> durable != Some(j) && IsExplicit(db.durable[j], who, participantId, c)
    {
      ExplicitRow(db.durable[j], after.durable[j], who, participantId, c, durable == Some(j));
    }
  }

  lemma ExplicitRow(g: DurableGrant, g': DurableGrant, who: Principal, participantId: string, c: Capability,
                    revoked: bool)
    requires g' == if revoked then g.(status := Inactive) else g
    ensures IsExplicit(g', who, participantId, c) <==> !revoked && IsExplicit(g, who, participantId, c)
    ensures g'.resource == g.resource
  {
  }

  lemma InactiveDelegated(db: Db, after: Db, now: int, who: Principal, participantId: string, c: Capability,
                          resource: Option<string>, intent: string, durable: Option<int>, delegated: Option<int>)
    requires OnlyInactive(db, after, durable, delegated)
    ensures HoldsDelegatedFor(after, now, who, participantId, c, resource, intent)
            <==> HoldsOtherDelegatedFor(db, now, who, participantId, c, resource, intent, delegated)
  {
    hide Usable;
    forall u | u in db.delegated
      ensures Usable(after, now, who, participantId, c, resource, intent, after.delegated[u])
              <==> delegated != Some(u) && Usable(db, now, who, participantId, c, resource, intent, db.delegated[u])
    {
      UsableRow(db, after, db.delegated[u], after.delegated[u], now, who, participantId, c, resource, intent,
                delegated == Some(u));
    }
  }

  lemma UsableRow(db: Db, after: Db, g: DelegatedGrant, g': DelegatedGrant, now: int, who: Principal,
                  participantId: string,
                  c: Capability, resource: Option<string>, intent: string, revoked: bool)
    requires after.receipts == db.receipts && g' == if revoked then g.(status := Inactive) else g
    ensures Usable(after, now, who, participantId, c, resource, intent, g')
            <==> !revoked && Usable(db, now, who, participantId, c, resource, intent, g)
  {
  }

  lemma InactiveAuthorized(db: Db, after: Db, now: int, who: Principal, participantId: string, c: Capability,
                           resource: Option<string>, intent: Option<string>, durable: Option<int>,
                           delegated: Option<int>)
    requires OnlyInactive(db, after, durable, delegated)
    ensures Authorized(after, now, who, participantId, c, resource, intent)
            <==> AuthorizedWithout(db, now, who, participantId, c, resource, intent, durable, delegated)
  {
    hide HoldsDurable, HoldsDurableFor, HoldsDelegatedFor, HoldsOtherDurable, HoldsOtherDurableFor,
         HoldsOtherDelegatedFor, ImplicitReason;
    InactiveDurable(db, after, who, participantId, c, resource, durable, delegated);
    if intent.Some? {
      InactiveDelegated(db, after, now, who, participantId, c, resource, intent.value, durable, delegated);
    }
  }

  /** The exact decision after a revocation, for every request, with or without an intent: what the order-free
      rule gives on the tables before it with the revoked grant left out. */
  lemma RevocationExact(h: Hash, db: Db, at: int, caller: Caller, id: int, now: int, who: Principal,
                        participantId: string, c: Capability, resource: Option<string>, intent: Option<string>)
    requires Invariant(h, db)
    ensures var (after, result) := Administer(db, at, caller, DeactivateDurable(id));
            result.GrantDeactivated? ==>
              (Decide(after, now, who, participantId, c, resource, intent).allowed
               <==> AuthorizedWithout(db, now, who, participantId, c, resource, intent, Some(id), None))
    ensures var (after, result) := Administer(db, at, caller, DeactivateDelegated(id));
            result.GrantDeactivated? ==>
              (Decide(after, now, who, participantId, c, resource, intent).allowed
               <==> AuthorizedWithout(db, now, who, participantId, c, resource, intent, None, Some(id)))
  {
    hide Invariant, Administer, Decide, Authorized, AuthorizedWithout, ConsumptionReceipted, OnlyInactive,
         EvidenceUntouched, Extends, PolicySound;
    InvariantPolicy(h, db);
    DeactivationShape(db, at, caller, id);
    var a, b := Administer(db, at, caller, DeactivateDurable(id)), Administer(db, at, caller, DeactivateDelegated(id));
    AdminKeeps(h, db, at, caller, DeactivateDurable(id));
    AdminKeeps(h, db, at, caller, DeactivateDelegated(id));
    InvariantReceipted(h, a.0);
    InvariantReceipted(h, b.0);
    OrderFree(a.0, now, who, participantId, c, resource, intent);
    OrderFree(b.0, now, who, participantId, c, resource, intent);
    if a.1.GrantDeactivated? {
      InactiveAuthorized(db, a.0, now, who, participantId, c, resource, intent, Some(id), None);
    }
    if b.1.GrantDeactivated? {
      InactiveAuthorized(db, b.0, now, who, participantId, c, resource, intent, None, Some(id));
    }
  }

  /** Revoking the last durable grant for a capability, by any admitted caller, is accepted and revives the
      implicit authority the grant suppressed. */
  lemma RevocationRevivesImplicit(h: Hash, db: Db, at: int, caller: Caller, id: int, now: int, who: Principal,
                                  participantId: string, c: Capability, resource: Option<string>,
                                  intent: Option<string>)
    requires Invariant(h, db) && Admitted(db, at, caller) && id in db.durable
    requires participantId in db.participants && db.participants[participantId].status == ParticipantActive
    requires ImplicitReason(who, participantId, c, resource, db.participants[participantId]).Some?
    requires forall j | j in db.durable && IsExplicit(db.durable[j], who, participantId, c) :: j == id
    ensures Decide(Administer(db, at, caller, DeactivateDurable(id)).0, now, who, participantId, c, resource,
                   intent).allowed
  {
    hide Invariant, Administer, Decide, ImplicitReason, HoldsOtherDurableFor, HoldsOtherDelegatedFor, IsExplicit,
         Admitted, PolicySound;
    InvariantPolicy(h, db);
    DeactivationEffect(db, at, caller, id);
    RevocationExact(h, db, at, caller, id, now, who, participantId, c, resource, intent);
  }
}
