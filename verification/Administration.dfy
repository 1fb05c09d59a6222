/** src/authorization_admin.rs: creating, reactivating and deactivating grants, each together with
    its event in one transaction. */
module Administration {
  import opened Text
  import opened Order
  import opened Tables
  import opened Authorization

  const MAX_FIELD_BYTES := 256
  const MAX_CAPABILITY_BYTES := 128
  const MAX_SURFACE_BYTES := 64

  datatype AdminError =
    | InvalidActorSurface | InvalidActorProvider | InvalidActorSubject | InvalidActorParticipant
    | InvalidPrincipalProvider | InvalidPrincipalSubject | InvalidParticipantId
    | InvalidCapability | UnsupportedCapability | InvalidResource | InvalidIntentId
    | AuthorizationDenied | UnknownParticipant | ParticipantNotActive
    | ExpiryNotInFuture | GrantIdNotPositive

  /** Who asks: the local command line, or a remote principal speaking for a participant. */
  datatype Caller = Cli | RemoteCaller(surface: string, principal: Principal, participantId: string)

  /** A creation request as received; a durable grant leaves the last three columns empty. */
  datatype GrantRequest = GrantRequest(
    principal: Principal, participantId: string, capability: string, resource: Option<string>,
    intentId: Option<string>, expiresAt: Option<int>, oneShot: bool)

  datatype Command =
    | CreateDurable(request: GrantRequest)
    | DeactivateDurable(grantId: int)
    | CreateDelegated(request: GrantRequest)
    | DeactivateDelegated(grantId: int)

  datatype AdminResult =
    | GrantCreated(id: int)
    | GrantExisting(id: int)
    | GrantReactivated(id: int)
    | GrantDeactivated(rowsChanged: nat)
    | GrantMissing
    | Refused(error: AdminError)

  // ---- normalization ------------------------------------------------------------------------

  /** The capability a stored text names: a known one, found by its name, or an unknown one. */
  function ParseCapability(text: string): (c: Capability)
    ensures CapabilityName(c) == text
  {
    NamedIn(text, KNOWN_CAPABILITIES)
  }

  function NamedIn(text: string, candidates: seq<Capability>): (c: Capability)
    ensures CapabilityName(c) == text
  {
    if candidates == [] then OtherCapability(text)
    else if CapabilityName(candidates[0]) == text then candidates[0]
    else NamedIn(text, candidates[1..])
  }

  lemma {:induction false} NamedInExact(text: string, candidates: seq<Capability>)
    requires forall k | k in candidates :: IsKnown(k)
    ensures IsKnown(NamedIn(text, candidates)) <==> exists k | k in candidates :: CapabilityName(k) == text
  {
    hide CapabilityName;
    if candidates != [] { NamedInExact(text, candidates[1..]); }
  }

  /** A stored text is read as an unknown capability only if it is none of the known names. */
  lemma ParseCapabilityExact(text: string)
    ensures IsKnown(ParseCapability(text)) <==> exists k | k in KNOWN_CAPABILITIES :: CapabilityName(k) == text
  {
    hide CapabilityName;
    NamedInExact(text, KNOWN_CAPABILITIES);
  }

  function Field(value: string, maxBytes: nat, invalid: AdminError): (r: Result<string, AdminError>)
    ensures r.Ok? ==> WellFormed(r.value) && r.value == Trim(value)
  {
    var v := Normalize(value, maxBytes);
    if v.None? then Err(invalid) else Ok(v.value)
  }

  function OptionalField(value: Option<string>, invalid: AdminError): (r: Result<Option<string>, AdminError>)
    ensures r.Ok? ==> WellFormedOptional(r.value)
  {
    if value.None? then Ok(None)
    else
      var v :- Field(value.value, MAX_FIELD_BYTES, invalid);
      Ok(Some(v))
  }

  function ParticipantField(value: string, invalid: AdminError): (r: Result<string, AdminError>)
    ensures r.Ok? ==> WellFormed(r.value) && r.value == Trim(value)
  {
    var v := ValidateParticipantId(value);
    if v.None? then Err(invalid) else Ok(v.value)
  }

  function NormalizeActor(caller: Caller): (r: Result<Actor, AdminError>)
    ensures r.Ok? && caller.RemoteCaller? ==>
              && r.value.Remote? && r.value.surface == Trim(caller.surface)
              && r.value.principal == Principal(Trim(caller.principal.provider), Trim(caller.principal.subject))
              && r.value.participantId == Trim(caller.participantId)
    ensures r.Ok? && caller.Cli? ==> r.value == LocalCli
  {
    match caller
    case Cli => Ok(LocalCli)
    case RemoteCaller(surface, principal, participantId) =>
      var s :- Field(surface, MAX_SURFACE_BYTES, InvalidActorSurface);
      var provider :- Field(principal.provider, MAX_FIELD_BYTES, InvalidActorProvider);
      var subject :- Field(principal.subject, MAX_FIELD_BYTES, InvalidActorSubject);
      var p :- ParticipantField(participantId, InvalidActorParticipant);
      Ok(Remote(s, Principal(provider, subject), p))
  }

  predicate WellFormedOptional(value: Option<string>) {
    value.Some? ==> WellFormed(value.value)
  }

  /** Every text column of a normalized scope may be stored. */
  predicate WellFormedScope(s: Scope) {
    && WellFormed(s.principal.provider) && WellFormed(s.principal.subject)
    && WellFormed(s.participantId) && WellFormed(CapabilityName(s.capability))
    && WellFormedOptional(s.resource) && WellFormedOptional(s.intentId)
  }

  function NormalizeDurable(r: GrantRequest): Result<Scope, AdminError> {
    var provider :- Field(r.principal.provider, MAX_FIELD_BYTES, InvalidPrincipalProvider);
    var subject :- Field(r.principal.subject, MAX_FIELD_BYTES, InvalidPrincipalSubject);
    var p :- ParticipantField(r.participantId, InvalidParticipantId);
    var c :- Field(r.capability, MAX_CAPABILITY_BYTES, InvalidCapability);
    if !IsKnown(ParseCapability(c)) then Err(UnsupportedCapability)
    else
      var resource :- OptionalField(r.resource, InvalidResource);
      Ok(Scope(Principal(provider, subject), p, ParseCapability(c), resource, None, None, false))
  }

  /** A delegated grant may name a capability nothing knows: the known-capability test is missing. */
  function NormalizeDelegated(r: GrantRequest): Result<Scope, AdminError> {
    var provider :- Field(r.principal.provider, MAX_FIELD_BYTES, InvalidPrincipalProvider);
    var subject :- Field(r.principal.subject, MAX_FIELD_BYTES, InvalidPrincipalSubject);
    var p :- ParticipantField(r.participantId, InvalidParticipantId);
    var c :- Field(r.capability, MAX_CAPABILITY_BYTES, InvalidCapability);
    var resource :- OptionalField(r.resource, InvalidResource);
    var intent :- OptionalField(r.intentId, InvalidIntentId);
    Ok(Scope(Principal(provider, subject), p, ParseCapability(c), resource, intent, r.expiresAt, r.oneShot))
  }

  /** What is left of a request once it is normalized. */
  datatype Change =
    | AddDurable(scope: Scope)
    | DropDurable(grantId: int)
    | AddDelegated(scope: Scope)
    | DropDelegated(grantId: int)

  function NormalizeCommand(command: Command): Result<Change, AdminError> {
    match command
    case CreateDurable(r) => var s :- NormalizeDurable(r); Ok(AddDurable(s))
    case CreateDelegated(r) => var s :- NormalizeDelegated(r); Ok(AddDelegated(s))
    case DeactivateDurable(id) => Ok(DropDurable(id))
    case DeactivateDelegated(id) => Ok(DropDelegated(id))
  }

  /** Only well-formed text, and for a durable grant only a known capability, reaches the tables. */
  ghost predicate WellFormedChange(change: Change) {
    && (change.AddDurable? ==> && WellFormedScope(change.scope) && IsKnown(change.scope.capability)
                               && change.scope == Scope(change.scope.principal, change.scope.participantId,
                                    change.scope.capability, change.scope.resource, None, None, false))
    && (change.AddDelegated? ==> WellFormedScope(change.scope))
  }

  lemma NormalizedWellFormed(command: Command)
    requires NormalizeCommand(command).Ok?
    ensures WellFormedChange(NormalizeCommand(command).value)
  {
    hide CapabilityName, ParseCapability, Trim, WellFormed, Field, OptionalField, ParticipantField;
  }

  // ---- the transactions ---------------------------------------------------------------------

  function ParticipantRefusal(db: Db, participantId: string): Option<AdminError> {
    if participantId !in db.participants then Some(UnknownParticipant)
    else if db.participants[participantId].status != ParticipantActive then Some(ParticipantNotActive)
    else None
  }

  function IdKey(id: int): Key { [Num(id)] }

  lemma IdsDistinct(ids: set<int>)
    ensures Distinct(ids, IdKey)
  {
    forall x, y | x in ids && y in ids && IdKey(x) == IdKey(y) ensures x == y {
      assert IdKey(x)[0] == IdKey(y)[0];
    }
  }

  ghost function AscendingIds(ids: set<int>): (r: seq<int>)
    ensures forall id | id in r :: id in ids
    ensures forall i | 0 <= i < |r| :: r[i] in ids
    ensures forall id | id in ids :: id in r
    ensures Distinct(ids, IdKey)
  {
    IdsDistinct(ids);
    Select(ids, IdKey)
  }

  /** Rows of one scope; `resource IS ?` treats NULL as equal to NULL. */
  function SameScope(db: Db, s: Scope): set<int> {
    set id | id in db.durable && DurableScope(db.durable[id]) == s
  }

  function StillActive(db: Db, s: Scope): set<int> {
    set id | id in db.durable && DurableScope(db.durable[id]) == s && db.durable[id].status != Inactive
  }

  function FirstActive(db: Db, ids: seq<int>): Option<int> {
    if ids == [] then None
    else if ids[0] in db.durable && db.durable[ids[0]].status == Active then Some(ids[0])
    else FirstActive(db, ids[1..])
  }

  function NewDurable(s: Scope): DurableGrant {
    DurableGrant(s.principal, s.participantId, s.capability, s.resource, Active)
  }

  function NewDelegated(s: Scope): DelegatedGrant {
    DelegatedGrant(s.principal, s.participantId, s.capability, s.resource, s.intentId, s.expiresAt,
                   if s.oneShot then 1 else 0, None, None, Active)
  }

  function WithEvent(db: Db, e: AdminEvent): Db {
    db.(events := db.events + [e])
  }

  ghost function CreateDurableInTx(db: Db, actor: Actor, s: Scope): (Db, AdminResult) {
    var refusal := ParticipantRefusal(db, s.participantId);
    if refusal.Some? then (db, Refused(refusal.value))
    else PlaceDurable(db, actor, s, AscendingIds(SameScope(db, s)))
  }

  /** The rows of the scope decide: an active one exists, an inactive one is reactivated, or one is added. */
  function PlaceDurable(db: Db, actor: Actor, s: Scope, ids: seq<int>): (Db, AdminResult)
    requires forall i | 0 <= i < |ids| :: ids[i] in db.durable
  {
    var active := FirstActive(db, ids);
    if active.Some? then (db, GrantExisting(active.value))
    else if ids != [] then (ReactivateDurable(db, actor, s, ids[0]), GrantReactivated(ids[0]))
    else (InsertDurable(db, actor, s), GrantCreated(db.lastDurableId + 1))
  }

  function ReactivateDurable(db: Db, actor: Actor, s: Scope, id: int): Db
    requires id in db.durable
  {
    WithEvent(db.(durable := db.durable[id := db.durable[id].(status := Active)]),
              AdminEvent(DurableStore, id, ReactivateGrant, actor, s, Some(Inactive), Active))
  }

  function InsertDurable(db: Db, actor: Actor, s: Scope): Db {
    var id := db.lastDurableId + 1;
    WithEvent(db.(durable := db.durable[id := NewDurable(s)], lastDurableId := id),
              AdminEvent(DurableStore, id, CreateGrant, actor, s, None, Active))
  }

  function DeactivationEvents(actor: Actor, s: Scope, ids: seq<int>): seq<AdminEvent> {
    seq(|ids|, i requires 0 <= i < |ids| =>
      AdminEvent(DurableStore, ids[i], DeactivateGrant, actor, s, Some(Active), Inactive))
  }

  function Deactivated(durable: map<int, DurableGrant>, ids: set<int>): map<int, DurableGrant> {
    map id | id in durable :: if id in ids then durable[id].(status := Inactive) else durable[id]
  }

  ghost function DeactivateDurableInTx(db: Db, actor: Actor, grantId: int): (Db, AdminResult) {
    if grantId <= 0 then (db, Refused(GrantIdNotPositive))
    else if grantId !in db.durable then (db, GrantMissing)
    else
      var s := DurableScope(db.durable[grantId]);
      var ids := StillActive(db, s);
      (db.(durable := Deactivated(db.durable, ids),
           events := db.events + DeactivationEvents(actor, s, AscendingIds(ids))),
       GrantDeactivated(|ids|))
  }

  function CreateDelegatedInTx(db: Db, now: int, actor: Actor, s: Scope): (Db, AdminResult) {
    var refusal := ParticipantRefusal(db, s.participantId);
    if refusal.Some? then (db, Refused(refusal.value))
    else if s.expiresAt.Some? && s.expiresAt.value <= now then (db, Refused(ExpiryNotInFuture))
    else
      var id := db.lastDelegatedId + 1;
      (WithEvent(db.(delegated := db.delegated[id := NewDelegated(s)], lastDelegatedId := id),
                 AdminEvent(DelegatedStore, id, CreateGrant, actor, s, None, Active)),
       GrantCreated(id))
  }

  function DeactivateDelegatedInTx(db: Db, actor: Actor, grantId: int): (Db, AdminResult) {
    if grantId <= 0 then (db, Refused(GrantIdNotPositive))
    else if grantId !in db.delegated then (db, GrantMissing)
    else
      var g := db.delegated[grantId];
      if g.status == Inactive then (db, GrantDeactivated(0))
      else
        (WithEvent(db.(delegated := db.delegated[grantId := g.(status := Inactive)]),
                   AdminEvent(DelegatedStore, grantId, DeactivateGrant, actor, DelegatedScope(g), Some(g.status),
                              Inactive)),
         GrantDeactivated(1))
  }

  /** The caller may administer the policy: locally always, remotely by the policy itself. */
  ghost predicate MayAdminister(db: Db, now: int, caller: Caller) {
    caller.RemoteCaller? ==>
      Decide(db, now, caller.principal, caller.participantId, ManageAuthorizationPolicy,
             Some(POLICY_ADMIN_RESOURCE), None).allowed
  }

  ghost function ApplyChange(db: Db, now: int, actor: Actor, change: Change): (Db, AdminResult) {
    match change
    case AddDurable(s) => CreateDurableInTx(db, actor, s)
    case DropDurable(id) => DeactivateDurableInTx(db, actor, id)
    case AddDelegated(s) => CreateDelegatedInTx(db, now, actor, s)
    case DropDelegated(id) => DeactivateDelegatedInTx(db, actor, id)
  }

  /** One administration request, from raw input to committed tables. */
  ghost function Administer(db: Db, now: int, caller: Caller, command: Command): (Db, AdminResult) {
    var actor := NormalizeActor(caller);
    var change := NormalizeCommand(command);
    if actor.Err? then (db, Refused(actor.error))
    else if change.Err? then (db, Refused(change.error))
    else if !MayAdminister(db, now, caller) then (db, Refused(AuthorizationDenied))
    else ApplyChange(db, now, actor.value, change.value)
  }

  // ---- the statements -----------------------------------------------------------------------

  method RecordEvent(conn: Connection, e: AdminEvent)
    modifies conn
    ensures conn.tables == WithEvent(old(conn.tables), e)
  {
    conn.tables := conn.tables.(events := conn.tables.events + [e]);
  }

  method CreateDurableGrantInTx(conn: Connection, actor: Actor, s: Scope) returns (r: AdminResult)
    modifies conn
    ensures (conn.tables, r) == CreateDurableInTx(old(conn.tables), actor, s)
  {
    hide PlaceDurable, SameScope;
    var db := conn.tables;
    if s.participantId !in db.participants { return Refused(UnknownParticipant); }
    if db.participants[s.participantId].status != ParticipantActive { return Refused(ParticipantNotActive); }
    IdsDistinct(SameScope(db, s));
    SameScopeStored(db, s);
    var ids := OrderRows(SameScope(db, s), IdKey);
    assert ids == AscendingIds(SameScope(db, s));
    r := PlaceDurableGrant(conn, actor, s, ids);
  }

  lemma SameScopeStored(db: Db, s: Scope)
    ensures forall id | id in SameScope(db, s) :: id in db.durable
  {
  }

  /** Looping over the rows of the scope for an active one, then updating or inserting. */
  method PlaceDurableGrant(conn: Connection, actor: Actor, s: Scope, ids: seq<int>) returns (r: AdminResult)
    requires forall i | 0 <= i < |ids| :: ids[i] in conn.tables.durable
    modifies conn
    ensures (conn.tables, r) == PlaceDurable(old(conn.tables), actor, s, ids)
  {
    hide NewDurable;
    var db := conn.tables;
    for i := 0 to |ids|
      invariant conn.tables == db
      invariant FirstActive(db, ids) == FirstActive(db, ids[i..])
    {
      assert ids[i..][1..] == ids[i + 1..];
      if db.durable[ids[i]].status == Active { return GrantExisting(ids[i]); }
    }
    if ids != [] {
      var id := ids[0];
      conn.tables := db.(durable := db.durable[id := db.durable[id].(status := Active)]);
      RecordEvent(conn, AdminEvent(DurableStore, id, ReactivateGrant, actor, s, Some(Inactive), Active));
      return GrantReactivated(id);
    }
    var id := db.lastDurableId + 1;
    conn.tables := db.(durable := db.durable[id := NewDurable(s)], lastDurableId := id);
    RecordEvent(conn, AdminEvent(DurableStore, id, CreateGrant, actor, s, None, Active));
    r := GrantCreated(id);
  }

  method DeactivateDurableGrantInTx(conn: Connection, actor: Actor, grantId: int) returns (r: AdminResult)
    modifies conn
    ensures (conn.tables, r) == DeactivateDurableInTx(old(conn.tables), actor, grantId)
  {
    hide DeactivationEvents, Deactivated, StillActive;
    if grantId <= 0 { return Refused(GrantIdNotPositive); }
    var db := conn.tables;
    if grantId !in db.durable { return GrantMissing; }
    var s := DurableScope(db.durable[grantId]);
    IdsDistinct(StillActive(db, s));
    var activeIds := OrderRows(StillActive(db, s), IdKey);
    assert activeIds == AscendingIds(StillActive(db, s));
    var updated := |StillActive(db, s)|;
    conn.tables := db.(durable := Deactivated(db.durable, StillActive(db, s)));
    RecordDeactivations(conn, actor, s, activeIds);
    r := GrantDeactivated(updated);
  }

  /** One event for each row that was active. */
  method RecordDeactivations(conn: Connection, actor: Actor, s: Scope, activeIds: seq<int>)
    modifies conn
    ensures conn.tables == old(conn.tables).(events := old(conn.tables).events
                                             + DeactivationEvents(actor, s, activeIds))
  {
    var db := conn.tables;
    for i := 0 to |activeIds|
      invariant conn.tables == db.(events := db.events + DeactivationEvents(actor, s, activeIds)[..i])
    {
      RecordEvent(conn, AdminEvent(DurableStore, activeIds[i], DeactivateGrant, actor, s, Some(Active), Inactive));
      assert DeactivationEvents(actor, s, activeIds)[..i + 1]
          == DeactivationEvents(actor, s, activeIds)[..i] + [DeactivationEvents(actor, s, activeIds)[i]];
    }
    assert DeactivationEvents(actor, s, activeIds)[..|activeIds|] == DeactivationEvents(actor, s, activeIds);
  }

  method CreateDelegatedGrantInTx(conn: Connection, now: int, actor: Actor, s: Scope) returns (r: AdminResult)
    modifies conn
    ensures (conn.tables, r) == CreateDelegatedInTx(old(conn.tables), now, actor, s)
  {
    var db := conn.tables;
    if s.participantId !in db.participants { return Refused(UnknownParticipant); }
    if db.participants[s.participantId].status != ParticipantActive { return Refused(ParticipantNotActive); }
    if s.expiresAt.Some? {
      if s.expiresAt.value <= now { return Refused(ExpiryNotInFuture); }
    }
    var id := db.lastDelegatedId + 1;
    conn.tables := db.(delegated := db.delegated[id := NewDelegated(s)], lastDelegatedId := id);
    RecordEvent(conn, AdminEvent(DelegatedStore, id, CreateGrant, actor, s, None, Active));
    r := GrantCreated(id);
  }

  method DeactivateDelegatedGrantInTx(conn: Connection, actor: Actor, grantId: int) returns (r: AdminResult)
    modifies conn
    ensures (conn.tables, r) == DeactivateDelegatedInTx(old(conn.tables), actor, grantId)
  {
    if grantId <= 0 { return Refused(GrantIdNotPositive); }
    var db := conn.tables;
    if grantId !in db.delegated { return GrantMissing; }
    var g := db.delegated[grantId];
    var updated := 0;
    if g.status != Inactive {
      conn.tables := db.(delegated := db.delegated[grantId := g.(status := Inactive)]);
      updated := 1;
    }
    if updated == 1 {
      RecordEvent(conn, AdminEvent(DelegatedStore, grantId, DeactivateGrant, actor, DelegatedScope(g),
                                   Some(g.status), Inactive));
    }
    r := GrantDeactivated(updated);
  }

  method Administrate(conn: Connection, now: int, caller: Caller, command: Command) returns (r: AdminResult)
    modifies conn
    ensures (conn.tables, r) == Administer(old(conn.tables), now, caller, command)
  {
    hide Decide, NormalizeCommand, NormalizeActor, CreateDurableInTx, DeactivateDurableInTx, CreateDelegatedInTx,
         DeactivateDelegatedInTx, Trim;
    var actor := NormalizeActor(caller);
    if actor.Err? { return Refused(actor.error); }
    var change := NormalizeCommand(command);
    if change.Err? { return Refused(change.error); }
    if caller.RemoteCaller? {
      var d := EvaluateAuthorization(conn, now, caller.principal, caller.participantId, ManageAuthorizationPolicy,
                                     Some(POLICY_ADMIN_RESOURCE), None);
      if !d.allowed { return Refused(AuthorizationDenied); }
    }
    match change.value {
      case AddDurable(s) => r := CreateDurableGrantInTx(conn, actor.value, s);
      case DropDurable(id) => r := DeactivateDurableGrantInTx(conn, actor.value, id);
      case AddDelegated(s) => r := CreateDelegatedGrantInTx(conn, now, actor.value, s);
      case DropDelegated(id) => r := DeactivateDelegatedGrantInTx(conn, actor.value, id);
    }
  }
}
