/** The answer to every administration command and the tables it leaves, in the fields of the request and the
    columns of the tables. */
module AdministrationExact {
  import opened Text
  import opened Tables
  import opened Authorization
  import opened Administration
  import opened AdministrationLog

  // ---- fields -------------------------------------------------------------------------------

  /** Trimmed, the text is neither empty nor too long and has no control character. */
  predicate Fits(text: string, maxBytes: nat) {
    var t := Trim(text);
    t != "" && ByteLength(t) <= maxBytes && !(exists i | 0 <= i < |t| :: IsControl(t[i]))
  }

  predicate OptionalFits(text: Option<string>) {
    text.None? || Fits(text.value, 256)
  }

  /** The names of the twelve capabilities. */
  predicate IsCapabilityName(name: string) {
    || name == "read_messages" || name == "post_message" || name == "reply"
    || name == "read_execution_receipt" || name == "read_execution_audit" || name == "read_execution_audit_sweep"
    || name == "read_authorization_policy_integrity" || name == "read_authorization_policy"
    || name == "read_authorization_decision" || name == "manage_authorization_policy"
    || name == "read_authorization_administration_history" || name == "manage_channels"
  }

  /** The first field of the caller that is refused, in the order they are looked at. */
  function CallerFault(caller: Caller): Option<AdminError> {
    match caller
    case Cli => None
    case RemoteCaller(surface, principal, participantId) =>
      if !Fits(surface, 64) then Some(InvalidActorSurface)
      else if !Fits(principal.provider, 256) then Some(InvalidActorProvider)
      else if !Fits(principal.subject, 256) then Some(InvalidActorSubject)
      else if !IsParticipantId(Trim(participantId)) then Some(InvalidActorParticipant)
      else None
  }

  /** The first field of a request that is refused; only a durable grant needs a known capability, only a
      delegated one has an intent. */
  function RequestFault(r: GrantRequest, store: GrantStore): Option<AdminError> {
    if !Fits(r.principal.provider, 256) then Some(InvalidPrincipalProvider)
    else if !Fits(r.principal.subject, 256) then Some(InvalidPrincipalSubject)
    else if !IsParticipantId(Trim(r.participantId)) then Some(InvalidParticipantId)
    else if !Fits(r.capability, 128) then Some(InvalidCapability)
    else if store == DurableStore && !IsCapabilityName(Trim(r.capability)) then Some(UnsupportedCapability)
    else if !OptionalFits(r.resource) then Some(InvalidResource)
    else if store == DelegatedStore && !OptionalFits(r.intentId) then Some(InvalidIntentId)
    else None
  }

  function CommandFault(command: Command): Option<AdminError> {
    match command
    case CreateDurable(r) => RequestFault(r, DurableStore)
    case CreateDelegated(r) => RequestFault(r, DelegatedStore)
    case DeactivateDurable(_) => None
    case DeactivateDelegated(_) => None
  }

  function TrimmedOption(text: Option<string>): Option<string> {
    if text.Some? then Some(Trim(text.value)) else None
  }

  // ---- the answer ---------------------------------------------------------------------------

  /** A local caller, or a remote one with acceptable fields whom the policy lets administer it. */
  ghost predicate Admitted(db: Db, now: int, caller: Caller) {
    && CallerFault(caller).None?
    && (caller.RemoteCaller? ==>
          Authorized(db, now, caller.principal, caller.participantId, ManageAuthorizationPolicy,
                     Some("authorization-policy-administration"), None))
  }

  /** A durable row with exactly the columns asked for. */
  predicate RowFor(db: Db, r: GrantRequest, i: int) {
    && i in db.durable
    && db.durable[i].principal == Principal(Trim(r.principal.provider), Trim(r.principal.subject))
    && db.durable[i].participantId == Trim(r.participantId)
    && CapabilityName(db.durable[i].capability) == Trim(r.capability)
    && db.durable[i].resource == TrimmedOption(r.resource)
  }

  ghost predicate SomeRowFor(db: Db, r: GrantRequest) {
    exists i :: RowFor(db, r, i)
  }

  ghost predicate AnswersCreateDurable(db: Db, r: GrantRequest, result: AdminResult) {
    if Trim(r.participantId) !in db.participants then result == Refused(UnknownParticipant)
    else if db.participants[Trim(r.participantId)].status == ParticipantDisabled then
      result == Refused(ParticipantNotActive)
    else if SomeRowFor(db, r) then
      exists i :: && RowFor(db, r, i)
                  && result == if db.durable[i].status == Active then GrantExisting(i) else GrantReactivated(i)
    else result == GrantCreated(db.lastDurableId + 1)
  }

  predicate AnswersCreateDelegated(db: Db, now: int, r: GrantRequest, result: AdminResult) {
    if Trim(r.participantId) !in db.participants then result == Refused(UnknownParticipant)
    else if db.participants[Trim(r.participantId)].status == ParticipantDisabled then
      result == Refused(ParticipantNotActive)
    else if r.expiresAt.Some? && r.expiresAt.value <= now then result == Refused(ExpiryNotInFuture)
    else result == GrantCreated(db.lastDelegatedId + 1)
  }

  predicate AnswersDeactivation(grants: map<int, GrantStatus>, id: int, result: AdminResult) {
    if id <= 0 then result == Refused(GrantIdNotPositive)
    else if id !in grants then result == GrantMissing
    else result == GrantDeactivated(if grants[id] == Active then 1 else 0)
  }

  function DurableStatuses(db: Db): map<int, GrantStatus> {
    map id | id in db.durable :: db.durable[id].status
  }

  function DelegatedStatuses(db: Db): map<int, GrantStatus> {
    map id | id in db.delegated :: db.delegated[id].status
  }

  /** What every command is answered. */
  ghost predicate Answers(db: Db, now: int, caller: Caller, command: Command, result: AdminResult) {
    if CallerFault(caller).Some? then result == Refused(CallerFault(caller).value)
    else if CommandFault(command).Some? then result == Refused(CommandFault(command).value)
    else if !Admitted(db, now, caller) then result == Refused(AuthorizationDenied)
    else
      match command
      case CreateDurable(r) => AnswersCreateDurable(db, r, result)
      case CreateDelegated(r) => AnswersCreateDelegated(db, now, r, result)
      case DeactivateDurable(id) => AnswersDeactivation(DurableStatuses(db), id, result)
      case DeactivateDelegated(id) => AnswersDeactivation(DelegatedStatuses(db), id, result)
  }

  // ---- the tables ---------------------------------------------------------------------------

  function ActorOf(caller: Caller): Actor {
    match caller
    case Cli => LocalCli
    case RemoteCaller(surface, principal, participantId) =>
      Remote(Trim(surface), Principal(Trim(principal.provider), Trim(principal.subject)), Trim(participantId))
  }

  function ScopeOf(r: GrantRequest, store: GrantStore): Scope {
    var principal := Principal(Trim(r.principal.provider), Trim(r.principal.subject));
    var c := ParseCapability(Trim(r.capability));
    match store
    case DurableStore => Scope(principal, Trim(r.participantId), c, TrimmedOption(r.resource), None, None, false)
    case DelegatedStore =>
      Scope(principal, Trim(r.participantId), c, TrimmedOption(r.resource), TrimmedOption(r.intentId), r.expiresAt,
            r.oneShot)
  }

  function Noted(db: Db, store: GrantStore, id: int, operation: Operation, caller: Caller, scope: Scope,
                 before: Option<GrantStatus>, after: GrantStatus): seq<AdminEvent> {
    db.events + [AdminEvent(store, id, operation, ActorOf(caller), scope, before, after)]
  }

  /** The tables after a command, by its result: the row it is about and one event, or nothing. */
  ghost predicate Leaves(db: Db, caller: Caller, command: Command, result: AdminResult, after: Db) {
    match (command, result)
    case (CreateDurable(r), GrantCreated(id)) =>
      var s := ScopeOf(r, DurableStore);
      after == db.(durable := db.durable[id := DurableGrant(s.principal, s.participantId, s.capability, s.resource,
                                                            Active)],
                   lastDurableId := id,
                   events := Noted(db, DurableStore, id, CreateGrant, caller, s, None, Active))
    case (CreateDurable(r), GrantReactivated(id)) =>
      && id in db.durable
      && after == db.(durable := db.durable[id := db.durable[id].(status := Active)],
                      events := Noted(db, DurableStore, id, ReactivateGrant, caller, ScopeOf(r, DurableStore),
                                      Some(Inactive), Active))
    case (CreateDelegated(r), GrantCreated(id)) =>
      var s := ScopeOf(r, DelegatedStore);
      after == db.(delegated := db.delegated[id := DelegatedGrant(s.principal, s.participantId, s.capability,
                                                                  s.resource, s.intentId, s.expiresAt,
                                                                  if s.oneShot then 1 else 0, None, None, Active)],
                   lastDelegatedId := id,
                   events := Noted(db, DelegatedStore, id, CreateGrant, caller, s, None, Active))
    case (DeactivateDurable(id), GrantDeactivated(rows)) =>
      && id in db.durable
      && var g := db.durable[id];
      if rows == 0 then after == db
      else
        after == db.(durable := db.durable[id := g.(status := Inactive)],
                     events := Noted(db, DurableStore, id, DeactivateGrant, caller,
                                     Scope(g.principal, g.participantId, g.capability, g.resource, None, None, false),
                                     Some(Active), Inactive))
    case (DeactivateDelegated(id), GrantDeactivated(rows)) =>
      && id in db.delegated
      && var g := db.delegated[id];
      if rows == 0 then after == db
      else
        after == db.(delegated := db.delegated[id := g.(status := Inactive)],
                     events := Noted(db, DelegatedStore, id, DeactivateGrant, caller,
                                     Scope(g.principal, g.participantId, g.capability, g.resource, g.intentId,
                                           g.expiresAt, g.oneShot != 0),
                                     Some(Active), Inactive))
    case _ => after == db
  }

  // ---- normalization ------------------------------------------------------------------------

  lemma FieldExact(text: string, maxBytes: nat, invalid: AdminError)
    ensures Field(text, maxBytes, invalid) == if Fits(text, maxBytes) then Ok(Trim(text)) else Err(invalid)
  {
    hide Trim, ByteLength, IsControl;
  }

  lemma OptionalExact(text: Option<string>, invalid: AdminError)
    ensures OptionalField(text, invalid) == if OptionalFits(text) then Ok(TrimmedOption(text)) else Err(invalid)
  {
    hide Fits, Field, Trim;
    if text.Some? { FieldExact(text.value, 256, invalid); }
  }

  lemma ParticipantExact(text: string, invalid: AdminError)
    ensures ParticipantField(text, invalid) == if IsParticipantId(Trim(text)) then Ok(Trim(text)) else Err(invalid)
  {
    hide Trim, IsParticipantId;
  }

  lemma ActorExact(caller: Caller)
    ensures NormalizeActor(caller)
         == if CallerFault(caller).Some? then Err(CallerFault(caller).value) else Ok(ActorOf(caller))
  {
    hide Fits, Field, ParticipantField, Trim, IsParticipantId;
    if caller.RemoteCaller? {
      FieldExact(caller.surface, 64, InvalidActorSurface);
      FieldExact(caller.principal.provider, 256, InvalidActorProvider);
      FieldExact(caller.principal.subject, 256, InvalidActorSubject);
      ParticipantExact(caller.participantId, InvalidActorParticipant);
    }
  }

  lemma KnownNames(name: string)
    ensures IsKnown(ParseCapability(name)) <==> IsCapabilityName(name)
  {
    ParseCapabilityExact(name);
    var ks := KNOWN_CAPABILITIES;
    if IsCapabilityName(name) {
      assert CapabilityName(ks[0]) == name || CapabilityName(ks[1]) == name || CapabilityName(ks[2]) == name
             || CapabilityName(ks[3]) == name || CapabilityName(ks[4]) == name || CapabilityName(ks[5]) == name
             || CapabilityName(ks[6]) == name || CapabilityName(ks[7]) == name || CapabilityName(ks[8]) == name
             || CapabilityName(ks[9]) == name || CapabilityName(ks[10]) == name || CapabilityName(ks[11]) == name;
    }
  }

  /** Each name stands for its own capability. */
  lemma NamesExact()
    ensures ParseCapability("read_messages") == ReadMessages
    ensures ParseCapability("post_message") == PostMessage
    ensures ParseCapability("reply") == Reply
    ensures ParseCapability("read_execution_receipt") == ReadExecutionReceipt
    ensures ParseCapability("read_execution_audit") == ReadExecutionAudit
    ensures ParseCapability("read_execution_audit_sweep") == ReadExecutionAuditSweep
    ensures ParseCapability("read_authorization_policy_integrity") == ReadAuthorizationPolicyIntegrity
    ensures ParseCapability("read_authorization_policy") == ReadAuthorizationPolicy
    ensures ParseCapability("read_authorization_decision") == ReadAuthorizationDecision
    ensures ParseCapability("manage_authorization_policy") == ManageAuthorizationPolicy
    ensures ParseCapability("read_authorization_administration_history") == ReadAuthorizationAdministrationHistory
    ensures ParseCapability("manage_channels") == ManageChannels
  {
    hide NamedIn;
    NameParsed(ReadMessages);
    NameParsed(PostMessage);
    NameParsed(Reply);
    NameParsed(ReadExecutionReceipt);
    NameParsed(ReadExecutionAudit);
    NameParsed(ReadExecutionAuditSweep);
    NameParsed(ReadAuthorizationPolicyIntegrity);
    NameParsed(ReadAuthorizationPolicy);
    NameParsed(ReadAuthorizationDecision);
    NameParsed(ManageAuthorizationPolicy);
    NameParsed(ReadAuthorizationAdministrationHistory);
    NameParsed(ManageChannels);
  }

  lemma NameParsed(c: Capability)
    requires IsKnown(c)
    ensures ParseCapability(CapabilityName(c)) == c
  {
    hide CapabilityName, ParseCapability;
    var name := CapabilityName(c);
    ParseCapabilityExact(name);
    KnownListed(c);
    SameName(c, ParseCapability(name));
    ParsedName(name);
  }

  lemma ParsedName(name: string)
    ensures CapabilityName(ParseCapability(name)) == name
  {
  }

  lemma KnownListed(c: Capability)
    requires IsKnown(c)
    ensures c in KNOWN_CAPABILITIES
  {
    var ks := KNOWN_CAPABILITIES;
    assert c == ks[0] || c == ks[1] || c == ks[2] || c == ks[3] || c == ks[4] || c == ks[5] || c == ks[6]
           || c == ks[7] || c == ks[8] || c == ks[9] || c == ks[10] || c == ks[11];
  }

  lemma DurableRequestExact(r: GrantRequest)
    ensures NormalizeDurable(r) == if RequestFault(r, DurableStore).Some? then Err(RequestFault(r, DurableStore).value)
                                   else Ok(ScopeOf(r, DurableStore))
  {
    hide Fits, OptionalFits, Field, OptionalField, ParticipantField, Trim, IsParticipantId, IsCapabilityName,
         ParseCapability, TrimmedOption;
    FieldExact(r.principal.provider, 256, InvalidPrincipalProvider);
    FieldExact(r.principal.subject, 256, InvalidPrincipalSubject);
    ParticipantExact(r.participantId, InvalidParticipantId);
    FieldExact(r.capability, 128, InvalidCapability);
    KnownNames(Trim(r.capability));
    OptionalExact(r.resource, InvalidResource);
  }

  lemma DelegatedRequestExact(r: GrantRequest)
    ensures NormalizeDelegated(r)
         == if RequestFault(r, DelegatedStore).Some? then Err(RequestFault(r, DelegatedStore).value)
            else Ok(ScopeOf(r, DelegatedStore))
  {
    hide Fits, OptionalFits, Field, OptionalField, ParticipantField, Trim, IsParticipantId, IsCapabilityName,
         ParseCapability, TrimmedOption;
    FieldExact(r.principal.provider, 256, InvalidPrincipalProvider);
    FieldExact(r.principal.subject, 256, InvalidPrincipalSubject);
    ParticipantExact(r.participantId, InvalidParticipantId);
    FieldExact(r.capability, 128, InvalidCapability);
    OptionalExact(r.resource, InvalidResource);
    OptionalExact(r.intentId, InvalidIntentId);
  }

  function ChangeOf(command: Command): Change {
    match command
    case CreateDurable(r) => AddDurable(ScopeOf(r, DurableStore))
    case CreateDelegated(r) => AddDelegated(ScopeOf(r, DelegatedStore))
    case DeactivateDurable(id) => DropDurable(id)
    case DeactivateDelegated(id) => DropDelegated(id)
  }

  lemma CommandExact(command: Command)
    ensures NormalizeCommand(command)
         == if CommandFault(command).Some? then Err(CommandFault(command).value) else Ok(ChangeOf(command))
  {
    hide NormalizeDurable, NormalizeDelegated, RequestFault, ScopeOf;
    match command {
      case CreateDurable(r) => DurableRequestExact(r);
      case CreateDelegated(r) => DelegatedRequestExact(r);
      case _ =>
    }
  }

  // ---- the transactions ---------------------------------------------------------------------

  lemma RowForExact(db: Db, r: GrantRequest, i: int)
    requires PolicySound(db) && RequestFault(r, DurableStore).None?
    ensures RowFor(db, r, i) <==> i in db.durable && DurableScope(db.durable[i]) == ScopeOf(r, DurableStore)
  {
    hide Trim, WellFormedScope, IsParticipantId, RequestFault, Fits, ParseCapability, CapabilityName, KnownStatus;
    if RowFor(db, r, i) {
      SameName(db.durable[i].capability, ParseCapability(Trim(r.capability)));
      KnownRequest(r);
    }
  }

  lemma KnownRequest(r: GrantRequest)
    requires RequestFault(r, DurableStore).None?
    ensures IsKnown(ParseCapability(Trim(r.capability)))
  {
    hide Trim, Fits, ParseCapability, IsParticipantId, IsCapabilityName, OptionalFits;
    KnownNames(Trim(r.capability));
  }

  /** Known capabilities have different names. */
  lemma SameName(c: Capability, d: Capability)
    ensures IsKnown(c) && IsKnown(d) && CapabilityName(c) == CapabilityName(d) ==> c == d
  {
    if IsKnown(c) && IsKnown(d) { NameLength(c); NameLength(d); }
  }

  lemma NameLength(c: Capability)
    requires IsKnown(c)
    ensures |CapabilityName(c)| == match c
      case ReadMessages => 13
      case PostMessage => 12
      case Reply => 5
      case ReadExecutionReceipt => 22
      case ReadExecutionAudit => 20
      case ReadExecutionAuditSweep => 26
      case ReadAuthorizationPolicyIntegrity => 35
      case ReadAuthorizationPolicy => 25
      case ReadAuthorizationDecision => 27
      case ManageAuthorizationPolicy => 27
      case ReadAuthorizationAdministrationHistory => 41
      case ManageChannels => 15
      case OtherCapability(_) => 0
  {
  }

  lemma CreateDurableAnswered(db: Db, caller: Caller, r: GrantRequest)
    requires PolicySound(db) && RequestFault(r, DurableStore).None?
    ensures var (after, result) := CreateDurableInTx(db, ActorOf(caller), ScopeOf(r, DurableStore));
            AnswersCreateDurable(db, r, result) && Leaves(db, caller, CreateDurable(r), result, after)
  {
    hide PolicySound, RowFor, RequestFault, Trim, ParseCapability, SameScope, AscendingIds, ActorOf, DurableScope;
    var s := ScopeOf(r, DurableStore);
    ScopeRows(db, s);
    forall i ensures RowFor(db, r, i) <==> i in db.durable && DurableScope(db.durable[i]) == s {
      RowForExact(db, r, i);
    }
    if i :| i in db.durable && DurableScope(db.durable[i]) == s {
      SameScopeUnique(db, s, i);
      AscendingSingleton(i);
      FirstOfOne(db, i);
      assert RowFor(db, r, i);
    } else {
      NoSameScope(db, s);
      AscendingEmpty();
    }
  }

  lemma NoSameScope(db: Db, s: Scope)
    requires forall i | i in db.durable :: DurableScope(db.durable[i]) != s
    ensures SameScope(db, s) == {}
  {
    hide DurableScope;
    var none: set<int> := {};
    forall i ensures i in SameScope(db, s) <==> i in none {}
  }

  lemma FirstOfOne(db: Db, i: int)
    requires i in db.durable
    ensures FirstActive(db, [i]) == if db.durable[i].status == Active then Some(i) else None
  {
  }

  lemma CreateDelegatedAnswered(db: Db, now: int, caller: Caller, r: GrantRequest)
    ensures var (after, result) := CreateDelegatedInTx(db, now, ActorOf(caller), ScopeOf(r, DelegatedStore));
            AnswersCreateDelegated(db, now, r, result) && Leaves(db, caller, CreateDelegated(r), result, after)
  {
    hide Trim, ParseCapability, ActorOf;
  }

  lemma DeactivateDurableAnswered(db: Db, caller: Caller, id: int)
    requires PolicySound(db)
    ensures var (after, result) := DeactivateDurableInTx(db, ActorOf(caller), id);
            && AnswersDeactivation(DurableStatuses(db), id, result)
            && Leaves(db, caller, DeactivateDurable(id), result, after)
  {
    hide PolicySound, Deactivated, StillActive, AscendingIds, ActorOf;
    if id in db.durable {
      var s := DurableScope(db.durable[id]);
      SameScopeUnique(db, s, id);
      StatusOfDurable(db, id);
      DurableIdPositive(db, id);
      DeactivatedOne(db, id);
      if db.durable[id].status == Active {
        AscendingSingleton(id);
        assert DeactivationEvents(ActorOf(caller), s, [id])
            == [AdminEvent(DurableStore, id, DeactivateGrant, ActorOf(caller), s, Some(Active), Inactive)];
      } else {
        AscendingEmpty();
        assert DeactivationEvents(ActorOf(caller), s, []) == [];
        assert db.events + [] == db.events;
      }
    }
  }

  lemma StatusOfDurable(db: Db, id: int)
    requires PolicySound(db) && id in db.durable
    ensures db.durable[id].status == Active || db.durable[id].status == Inactive
  {
    hide WellFormedScope, IsKnown, IsParticipantId;
    assert KnownStatus(db.durable[id].status);
  }

  lemma DurableIdPositive(db: Db, id: int)
    requires PolicySound(db) && id in db.durable
    ensures id > 0
  {
    hide WellFormedScope, IsKnown, IsParticipantId, KnownStatus, DurableScope, DelegatedScope;
  }

  lemma DeactivatedOne(db: Db, id: int)
    requires id in db.durable
    ensures Deactivated(db.durable, {id}) == db.durable[id := db.durable[id].(status := Inactive)]
    ensures Deactivated(db.durable, {}) == db.durable
  {
  }

  lemma DeactivateDelegatedAnswered(db: Db, caller: Caller, id: int)
    requires PolicySound(db)
    ensures var (after, result) := DeactivateDelegatedInTx(db, ActorOf(caller), id);
            && AnswersDeactivation(DelegatedStatuses(db), id, result)
            && Leaves(db, caller, DeactivateDelegated(id), result, after)
  {
    hide PolicySound, ActorOf;
    if id in db.delegated { StatusOfDelegated(db, id); }
  }

  lemma StatusOfDelegated(db: Db, id: int)
    requires PolicySound(db) && id in db.delegated
    ensures db.delegated[id].status == Active || db.delegated[id].status == Inactive
  {
    hide WellFormedScope, IsKnown, IsParticipantId;
    assert KnownStatus(db.delegated[id].status);
  }

  lemma RefusedLeaves(db: Db, caller: Caller, command: Command, error: AdminError)
    ensures Leaves(db, caller, command, Refused(error), db)
  {
  }

  /** Every command is answered as its fields and the tables call for, and leaves the tables its answer calls
      for. */
  lemma AdministerExact(db: Db, now: int, caller: Caller, command: Command)
    requires PolicySound(db)
    ensures var (after, result) := Administer(db, now, caller, command);
            Answers(db, now, caller, command, result) && Leaves(db, caller, command, result, after)
  {
    hide PolicySound, NormalizeActor, NormalizeCommand, CallerFault, RequestFault, Decide, Authorized, Leaves,
         AnswersCreateDurable, AnswersCreateDelegated, AnswersDeactivation, CreateDurableInTx, CreateDelegatedInTx,
         DeactivateDurableInTx, DeactivateDelegatedInTx, ScopeOf, ActorOf;
    ActorExact(caller);
    CommandExact(command);
    if caller.RemoteCaller? {
      ReadAuthority(db, now, caller.principal, caller.participantId, ManageAuthorizationPolicy,
                    Some("authorization-policy-administration"));
    }
    if CallerFault(caller).None? && CommandFault(command).None? && MayAdminister(db, now, caller) {
      match command {
        case CreateDurable(r) => CreateDurableAnswered(db, caller, r);
        case CreateDelegated(r) => CreateDelegatedAnswered(db, now, caller, r);
        case DeactivateDurable(id) => DeactivateDurableAnswered(db, caller, id);
        case DeactivateDelegated(id) => DeactivateDelegatedAnswered(db, caller, id);
      }
    } else {
      RefusedLeaves(db, caller, command, Administer(db, now, caller, command).1.error);
    }
  }

  /** The answer is the only one called for. */
  lemma AnswerUnique(db: Db, now: int, caller: Caller, command: Command, a: AdminResult, b: AdminResult)
    requires PolicySound(db) && Answers(db, now, caller, command, a) && Answers(db, now, caller, command, b)
    ensures a == b
  {
    hide PolicySound, CallerFault, RequestFault, Admitted, AnswersCreateDurable, Trim;
    if command.CreateDurable? && CommandFault(command).None? && AnswersCreateDurable(db, command.request, a)
       && AnswersCreateDurable(db, command.request, b) {
      CreationUnique(db, command.request, a, b);
    }
  }

  lemma CreationUnique(db: Db, r: GrantRequest, a: AdminResult, b: AdminResult)
    requires PolicySound(db) && RequestFault(r, DurableStore).None?
    requires AnswersCreateDurable(db, r, a) && AnswersCreateDurable(db, r, b)
    ensures a == b
  {
    hide PolicySound, RequestFault, RowFor, Trim;
    forall i, j | RowFor(db, r, i) && RowFor(db, r, j) ensures i == j { RowOnce(db, r, i, j); }
  }

  lemma RowOnce(db: Db, r: GrantRequest, i: int, j: int)
    requires PolicySound(db) && RequestFault(r, DurableStore).None? && RowFor(db, r, i) && RowFor(db, r, j)
    ensures i == j
  {
    hide RowFor, RequestFault, WellFormedScope, IsParticipantId, Trim, ParseCapability;
    RowForExact(db, r, i);
    RowForExact(db, r, j);
  }
}
