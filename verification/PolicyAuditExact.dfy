/** The policy audit kind by kind: for every kind exactly the rows it is reported for and what the report says
    about them, the order of the report, and how many rows were looked at. */
module PolicyAuditExact {
  import opened Text
  import opened Order
  import opened Tables
  import opened Authorization
  import opened AuthorizationPreference
  import opened PolicyAudit
  import opened PolicyAuditOnce

  // ---- one condition per kind ---------------------------------------------------------------

  predicate Unfit(text: string) {
    AllSpace(text) || exists i | 0 <= i < |text| :: IsControl(text[i])
  }

  predicate OptionalUnfit(text: Option<string>) {
    text.Some? && Unfit(text.value)
  }

  const UNFIT := "value is blank or contains control characters"

  /** Another row grants the very same. */
  predicate Twin(db: Db, i: int, j: int) {
    && i in db.durable && j in db.durable
    && db.durable[j].principal == db.durable[i].principal
    && db.durable[j].participantId == db.durable[i].participantId
    && db.durable[j].capability == db.durable[i].capability && db.durable[j].resource == db.durable[i].resource
  }

  /** Numbers with commas between them. */
  function Commas(ids: seq<int>): string {
    if ids == [] then ""
    else if |ids| == 1 then Decimal(ids[0])
    else Commas(ids[..|ids| - 1]) + "," + Decimal(ids[|ids| - 1])
  }

  /** The twins of a row, itself included, in ascending order. */
  ghost predicate TwinList(db: Db, id: int, ids: seq<int>) {
    && (forall i, j | 0 <= i < j < |ids| :: ids[i] < ids[j])
    && (forall j :: j in ids <==> Twin(db, id, j))
  }

  /** The first of several twins, with all of them in the detail. */
  ghost predicate FirstOfTwins(db: Db, id: int, detail: string)
    requires id in db.durable
  {
    exists ids: seq<int> ::
      && TwinList(db, id, ids) && |ids| > 1 && ids[0] == id
      && detail == "principal=" + db.durable[id].principal.provider + ":" + db.durable[id].principal.subject
                   + ";capability=" + CapabilityName(db.durable[id].capability)
                   + ";resource=" + (if db.durable[id].resource.Some? then db.durable[id].resource.value else "*")
                   + ";grant_ids=" + Commas(ids)
  }

  ghost predicate DurableCalls(db: Db, id: int, v: Violation)
    requires id in db.durable
  {
    var g := db.durable[id];
    && v.grantId == id && v.participantId == g.participantId
    && match v.kind
       case MalformedPrincipalProvider => Unfit(g.principal.provider) && v.detail == UNFIT
       case MalformedPrincipalSubject => Unfit(g.principal.subject) && v.detail == UNFIT
       case MalformedParticipantId => Unfit(g.participantId) && v.detail == UNFIT
       case MalformedCapability => Unfit(CapabilityName(g.capability)) && v.detail == UNFIT
       case MalformedResource => OptionalUnfit(g.resource) && v.detail == UNFIT
       case MissingParticipant =>
         g.participantId !in db.participants && v.detail == "grant references no durable participant"
       case UnsupportedCapability => g.capability.OtherCapability? && v.detail == g.capability.name
       case InvalidStatus => g.status.OtherGrantStatus? && v.detail == g.status.text
       case DuplicateDurableScope => FirstOfTwins(db, id, v.detail)
       case _ => false
  }

  predicate CommittedFor(db: Db, participantId: string, intent: string) {
    && ExecutionId(participantId, intent) in db.receipts
    && db.receipts[ExecutionId(participantId, intent)].status == Committed
  }

  ghost predicate DelegatedCalls(db: Db, id: int, v: Violation)
    requires id in db.delegated
  {
    var g := db.delegated[id];
    && v.grantId == id && v.participantId == g.participantId
    && match v.kind
       case MalformedPrincipalProvider => Unfit(g.principal.provider) && v.detail == UNFIT
       case MalformedPrincipalSubject => Unfit(g.principal.subject) && v.detail == UNFIT
       case MalformedParticipantId => Unfit(g.participantId) && v.detail == UNFIT
       case MalformedCapability => Unfit(CapabilityName(g.capability)) && v.detail == UNFIT
       case MalformedResource => OptionalUnfit(g.resource) && v.detail == UNFIT
       case MalformedIntentId => OptionalUnfit(g.intentId) && v.detail == UNFIT
       case MissingParticipant =>
         g.participantId !in db.participants && v.detail == "grant references no durable participant"
       case UnsupportedCapability => g.capability.OtherCapability? && v.detail == g.capability.name
       case InvalidStatus => g.status.OtherGrantStatus? && v.detail == g.status.text
       case InvalidOneShotFlag => g.oneShot != 0 && g.oneShot != 1 && v.detail == Decimal(g.oneShot)
       case PartialConsumptionMetadata =>
         && ((g.consumedAt.Some? && g.consumedIntentId.None?) || (g.consumedAt.None? && g.consumedIntentId.Some?))
         && v.detail == "consumed_at and consumed_intent_id must appear together"
       case NonOneShotConsumptionMetadata =>
         && g.oneShot == 0 && (g.consumedAt.Some? || g.consumedIntentId.Some?)
         && v.detail == "only one-shot grants may carry consumption metadata"
       case ConsumedIntentConflictsWithBinding =>
         && g.intentId.Some? && g.consumedIntentId.Some? && g.intentId.value != g.consumedIntentId.value
         && v.detail == "bound=" + g.intentId.value + ";consumed=" + g.consumedIntentId.value
       case ConsumedOneShotWithoutCommittedReceipt =>
         && g.oneShot == 1 && g.consumedAt.Some? && g.consumedIntentId.Some?
         && !CommittedFor(db, g.participantId, g.consumedIntentId.value)
         && v.detail == g.consumedIntentId.value
       case DuplicateDurableScope => false
  }

  /** The rows call for this violation. */
  ghost predicate CalledFor(db: Db, v: Violation) {
    match v.store
    case DurableStore => v.grantId in db.durable && DurableCalls(db, v.grantId, v)
    case DelegatedStore => v.grantId in db.delegated && DelegatedCalls(db, v.grantId, v)
  }

  // ---- the rows -----------------------------------------------------------------------------

  lemma WhenMember(condition: bool, x: Violation, v: Violation)
    ensures v in When(condition, x) <==> condition && v == x
  {
  }

  lemma MalformedSpelled(text: string)
    ensures Malformed(text) <==> Unfit(text)
  {
    hide Blank, AllSpace, IsControl;
    BlankExact(text);
  }

  ghost predicate TextCalls(store: GrantStore, id: int, who: Principal, p: string, c: Capability,
                            resource: Option<string>, v: Violation) {
    && v.store == store && v.grantId == id && v.participantId == p && v.detail == UNFIT
    && match v.kind
       case MalformedPrincipalProvider => Unfit(who.provider)
       case MalformedPrincipalSubject => Unfit(who.subject)
       case MalformedParticipantId => Unfit(p)
       case MalformedCapability => Unfit(CapabilityName(c))
       case MalformedResource => OptionalUnfit(resource)
       case _ => false
  }

  lemma TextSpelled(store: GrantStore, id: int, who: Principal, p: string, c: Capability, resource: Option<string>,
                    v: Violation)
    ensures v in TextFindings(store, id, who, p, c, resource) <==> TextCalls(store, id, who, p, c, resource, v)
  {
    hide When, Malformed, Unfit, CapabilityName;
    MalformedSpelled(who.provider);
    MalformedSpelled(who.subject);
    MalformedSpelled(p);
    MalformedSpelled(CapabilityName(c));
    if resource.Some? { MalformedSpelled(resource.value); }
    WhenMember(Malformed(who.provider), Violation(MalformedPrincipalProvider, store, id, p, UNFIT), v);
    WhenMember(Malformed(who.subject), Violation(MalformedPrincipalSubject, store, id, p, UNFIT), v);
    WhenMember(Malformed(p), Violation(MalformedParticipantId, store, id, p, UNFIT), v);
    WhenMember(Malformed(CapabilityName(c)), Violation(MalformedCapability, store, id, p, UNFIT), v);
    WhenMember(MalformedOptional(resource), Violation(MalformedResource, store, id, p, UNFIT), v);
  }

  lemma DurableShapeSpelled(db: Db, id: int, v: Violation)
    requires id in db.durable
    ensures v in DurableShapeFindings(db, id, db.durable[id])
            <==> && v.store == DurableStore && DurableCalls(db, id, v)
                 && v.kind in {MissingParticipant, UnsupportedCapability, InvalidStatus}
  {
    hide Unfit, FirstOfTwins;
  }

  lemma DurableTextSpelled(db: Db, id: int, v: Violation)
    requires id in db.durable
    ensures var g := db.durable[id];
            TextCalls(DurableStore, id, g.principal, g.participantId, g.capability, g.resource, v)
            <==> && v.store == DurableStore && DurableCalls(db, id, v)
                 && v.kind in {MalformedPrincipalProvider, MalformedPrincipalSubject, MalformedParticipantId,
                               MalformedCapability, MalformedResource}
  {
    hide Unfit, FirstOfTwins, CapabilityName;
  }

  lemma DurableRowSpelled(db: Db, id: int, v: Violation)
    requires id in db.durable
    ensures v in DurableFindings(db, id, db.durable[id])
            <==> v.store == DurableStore && DurableCalls(db, id, v) && v.kind != DuplicateDurableScope
  {
    hide TextFindings, DurableShapeFindings, TextCalls, DurableCalls;
    var g := db.durable[id];
    TextSpelled(DurableStore, id, g.principal, g.participantId, g.capability, g.resource, v);
    DurableTextSpelled(db, id, v);
    DurableShapeSpelled(db, id, v);
    if DurableCalls(db, id, v) { DurableKinds(db, id, v); }
  }

  lemma DurableKinds(db: Db, id: int, v: Violation)
    requires id in db.durable && DurableCalls(db, id, v)
    ensures v.kind in {MalformedPrincipalProvider, MalformedPrincipalSubject, MalformedParticipantId,
                       MalformedCapability, MalformedResource, MissingParticipant, UnsupportedCapability, InvalidStatus,
                       DuplicateDurableScope}
  {
    hide Unfit, FirstOfTwins, CapabilityName;
  }

  lemma DelegatedShapeSpelled(db: Db, id: int, v: Violation)
    requires id in db.delegated
    ensures v in DelegatedShapeFindings(db, id, db.delegated[id])
            <==> && v.store == DelegatedStore && DelegatedCalls(db, id, v)
                 && v.kind in {MissingParticipant, UnsupportedCapability, InvalidStatus, InvalidOneShotFlag}
  {
    hide Unfit, CommittedFor, When, Decimal;
    var g := db.delegated[id];
    var p := g.participantId;
    WhenMember(p !in db.participants, Violation(MissingParticipant, DelegatedStore, id, p, PARTICIPANT_DETAIL), v);
    WhenMember(!IsKnown(g.capability), Violation(UnsupportedCapability, DelegatedStore, id, p,
                                                 CapabilityName(g.capability)), v);
    WhenMember(g.status.OtherGrantStatus?, Violation(InvalidStatus, DelegatedStore, id, p, StatusText(g.status)), v);
    WhenMember(g.oneShot != 0 && g.oneShot != 1,
               Violation(InvalidOneShotFlag, DelegatedStore, id, p, Decimal(g.oneShot)), v);
  }

  lemma ConsumptionSpelled(db: Db, id: int, v: Violation)
    requires id in db.delegated
    ensures v in ConsumptionFindings(db, id, db.delegated[id])
            <==> && v.store == DelegatedStore && DelegatedCalls(db, id, v)
                 && v.kind in {PartialConsumptionMetadata, NonOneShotConsumptionMetadata,
                               ConsumedIntentConflictsWithBinding, ConsumedOneShotWithoutCommittedReceipt}
  {
    hide Unfit, When, Decimal, CapabilityName;
    var g := db.delegated[id];
    var p := g.participantId;
    WhenMember(g.consumedAt.Some? != g.consumedIntentId.Some?,
               Violation(PartialConsumptionMetadata, DelegatedStore, id, p, PARTIAL_DETAIL), v);
    WhenMember(g.oneShot == 0 && (g.consumedAt.Some? || g.consumedIntentId.Some?),
               Violation(NonOneShotConsumptionMetadata, DelegatedStore, id, p, NON_ONE_SHOT_DETAIL), v);
    WhenMember(ConsumptionConflict(g),
               Violation(ConsumedIntentConflictsWithBinding, DelegatedStore, id, p, ConflictDetail(g)), v);
    WhenMember(ConsumedUnreceipted(db, g),
               Violation(ConsumedOneShotWithoutCommittedReceipt, DelegatedStore, id, p,
                         if g.consumedIntentId.Some? then g.consumedIntentId.value else ""), v);
  }

  lemma DelegatedTextSpelled(db: Db, id: int, v: Violation)
    requires id in db.delegated
    ensures var g := db.delegated[id];
            TextCalls(DelegatedStore, id, g.principal, g.participantId, g.capability, g.resource, v)
            <==> && v.store == DelegatedStore && DelegatedCalls(db, id, v)
                 && v.kind in {MalformedPrincipalProvider, MalformedPrincipalSubject, MalformedParticipantId,
                               MalformedCapability, MalformedResource}
    ensures var g := db.delegated[id];
            v in When(MalformedOptional(g.intentId), Violation(MalformedIntentId, DelegatedStore, id, g.participantId,
                                                               BLANK_DETAIL))
            <==> v.store == DelegatedStore && DelegatedCalls(db, id, v) && v.kind == MalformedIntentId
  {
    hide Unfit, CommittedFor, CapabilityName, Decimal, Malformed;
    var g := db.delegated[id];
    if g.intentId.Some? { MalformedSpelled(g.intentId.value); }
  }

  lemma DelegatedRowSpelled(db: Db, id: int, v: Violation)
    requires id in db.delegated
    ensures v in DelegatedFindings(db, id, db.delegated[id]) <==> v.store == DelegatedStore && DelegatedCalls(db, id, v)
  {
    hide TextFindings, DelegatedShapeFindings, ConsumptionFindings, TextCalls, DelegatedCalls, When, MalformedOptional;
    var g := db.delegated[id];
    TextSpelled(DelegatedStore, id, g.principal, g.participantId, g.capability, g.resource, v);
    DelegatedTextSpelled(db, id, v);
    DelegatedShapeSpelled(db, id, v);
    ConsumptionSpelled(db, id, v);
    if DelegatedCalls(db, id, v) { DelegatedKinds(db, id, v); }
  }

  lemma DelegatedKinds(db: Db, id: int, v: Violation)
    requires id in db.delegated && DelegatedCalls(db, id, v)
    ensures v.kind != DuplicateDurableScope
  {
    hide Unfit, CommittedFor, CapabilityName, Decimal;
  }

  // ---- the groups ---------------------------------------------------------------------------

  lemma {:induction false} CommasFront(ids: seq<int>, last: int)
    requires ids != []
    ensures JoinIds(ids + [last]) == JoinIds(ids) + "," + Decimal(last)
  {
    hide Decimal;
    var all := ids + [last];
    assert all[0] == ids[0] && all[1..] == ids[1..] + [last];
    if |ids| == 1 {
      assert all[1..] == [last];
    } else {
      CommasFront(ids[1..], last);
    }
  }

  lemma {:induction false} CommasExact(ids: seq<int>)
    ensures JoinIds(ids) == Commas(ids)
  {
    hide Decimal;
    if |ids| > 1 {
      var front, last := ids[..|ids| - 1], ids[|ids| - 1];
      CommasExact(front);
      CommasFront(front, last);
      assert ids == front + [last];
    }
  }

  /** The ids grouped under the scope of a row are its twins. */
  lemma GroupTwins(db: Db, id: int)
    requires id in db.durable
    ensures TwinList(db, id, IdsOf(DurableTable(db), KeyOf(db.durable[id])))
  {
    hide DurableTable, IdsOf;
    var rows := DurableTable(db);
    var k := KeyOf(db.durable[id]);
    DurableTableFacts(db);
    IdsAscending(rows, k);
    forall j ensures j in IdsOf(rows, k) <==> Twin(db, id, j) {
      IdsOfFacts(rows, k, j);
      if Twin(db, id, j) {
        var n :| 0 <= n < |rows| && rows[n] == (j, db.durable[j]);
        assert rows[n].0 == j && KeyOf(rows[n].1) == k;
      }
    }
  }

  lemma {:induction false} AscendingUnique(a: seq<int>, b: seq<int>)
    requires forall i, j | 0 <= i < j < |a| :: a[i] < a[j]
    requires forall i, j | 0 <= i < j < |b| :: b[i] < b[j]
    requires forall x :: x in a <==> x in b
    ensures a == b
    decreases |a|
  {
    assert a != [] ==> a[0] in a;
    assert b != [] ==> b[0] in b;
    if a != [] && b != [] {
      assert a[0] in b && b[0] in a;
      assert a[0] == b[0];
      forall x ensures x in a[1..] <==> x in b[1..] {
        assert x in a <==> x == a[0] || x in a[1..];
        assert x in b <==> x == b[0] || x in b[1..];
        assert a[0] !in a[1..] && b[0] !in b[1..];
      }
      AscendingUnique(a[1..], b[1..]);
      assert a == [a[0]] + a[1..] && b == [b[0]] + b[1..];
    }
  }

  lemma TwinListOnce(db: Db, id: int, a: seq<int>, b: seq<int>)
    requires TwinList(db, id, a) && TwinList(db, id, b)
    ensures a == b
  {
    hide Twin;
    AscendingUnique(a, b);
  }

  lemma GroupCalls(db: Db, id: int, v: Violation)
    requires id in db.durable
    ensures var k := KeyOf(db.durable[id]);
            v.grantId == id && v in GroupFindings(k, IdsOf(DurableTable(db), k))
            <==> v.store == DurableStore && v.kind == DuplicateDurableScope && DurableCalls(db, id, v)
  {
    hide DurableTable, IdsOf, Commas, JoinIds, TwinList, CapabilityName;
    var k := KeyOf(db.durable[id]);
    var ids := IdsOf(DurableTable(db), k);
    GroupTwins(db, id);
    CommasExact(ids);
    forall other | TwinList(db, id, other) ensures other == ids { TwinListOnce(db, id, other, ids); }
  }

  lemma GroupsSpelled(db: Db, v: Violation)
    ensures (exists k | k in ScopesOf(DurableTable(db)) :: v in GroupFindings(k, IdsOf(DurableTable(db), k)))
            <==> && v.store == DurableStore && v.grantId in db.durable && v.kind == DuplicateDurableScope
                 && DurableCalls(db, v.grantId, v)
  {
    hide DurableTable, IdsOf, ScopesOf, GroupFindings, DurableCalls;
    if k :| k in ScopesOf(DurableTable(db)) && v in GroupFindings(k, IdsOf(DurableTable(db), k)) {
      GroupFindingsShape(db, k, v);
      GroupCalls(db, v.grantId, v);
    }
    if v.store == DurableStore && v.grantId in db.durable && v.kind == DuplicateDurableScope
       && DurableCalls(db, v.grantId, v) {
      GroupCalls(db, v.grantId, v);
      IdGrouped(db, KeyOf(db.durable[v.grantId]), v.grantId);
    }
  }

  // ---- order --------------------------------------------------------------------------------

  function ViolationName(k: Kind): string {
    match k
    case ConsumedIntentConflictsWithBinding => "consumed_intent_conflicts_with_binding"
    case ConsumedOneShotWithoutCommittedReceipt => "consumed_one_shot" + "_without_committed_receipt"
    case DuplicateDurableScope => "duplicate_durable_scope"
    case InvalidOneShotFlag => "invalid_one_shot_flag"
    case InvalidStatus => "invalid_status"
    case MalformedCapability => "malformed_capability"
    case MalformedIntentId => "malformed_intent_id"
    case MalformedParticipantId => "malformed_participant_id"
    case MalformedPrincipalProvider => "malformed_principal_provider"
    case MalformedPrincipalSubject => "malformed_principal_subject"
    case MalformedResource => "malformed_resource"
    case MissingParticipant => "missing_participant"
    case NonOneShotConsumptionMetadata => "non_one_shot_consumption_metadata"
    case PartialConsumptionMetadata => "partial_consumption_metadata"
    case UnsupportedCapability => "unsupported_capability"
  }

  function StoreName(store: GrantStore): string {
    match store
    case DelegatedStore => "delegated_grants"
    case DurableStore => "principal_grants"
  }

  /** By the names of the stores, then grant id, then the names of the kinds, then detail. */
  predicate ViolationLeq(a: Violation, b: Violation) {
    if a.store != b.store then TextLeq(StoreName(a.store), StoreName(b.store))
    else if a.grantId != b.grantId then a.grantId < b.grantId
    else if a.kind != b.kind then TextLeq(ViolationName(a.kind), ViolationName(b.kind))
    else TextLeq(a.detail, b.detail)
  }

  function KindAt(rank: nat): Kind {
    match rank
    case 0 => ConsumedIntentConflictsWithBinding
    case 1 => ConsumedOneShotWithoutCommittedReceipt
    case 2 => DuplicateDurableScope
    case 3 => InvalidOneShotFlag
    case 4 => InvalidStatus
    case 5 => MalformedCapability
    case 6 => MalformedIntentId
    case 7 => MalformedParticipantId
    case 8 => MalformedPrincipalProvider
    case 9 => MalformedPrincipalSubject
    case 10 => MalformedResource
    case 11 => MissingParticipant
    case 12 => NonOneShotConsumptionMetadata
    case 13 => PartialConsumptionMetadata
    case _ => UnsupportedCapability
  }

  lemma MalformedNames()
    ensures TextLeq("malformed_capability", "malformed_intent_id")
    ensures TextLeq("malformed_intent_id", "malformed_participant_id")
    ensures TextLeq("malformed_participant_id", "malformed_principal_provider")
    ensures TextLeq("malformed_principal_provider", "malformed_principal_subject")
    ensures TextLeq("malformed_principal_subject", "malformed_resource")
  {
    hide TextLeq;
    FirstDifference("malformed_capability", "malformed_intent_id", 10);
    FirstDifference("malformed_intent_id", "malformed_participant_id", 10);
    FirstDifference("malformed_participant_id", "malformed_principal_provider", 11);
    FirstDifference("malformed_principal_subject", "malformed_resource", 10);
    PrincipalNames();
  }

  lemma PrincipalNames()
    ensures TextLeq("malformed_principal_provider", "malformed_principal_subject")
  {
    hide TextLeq;
    FirstDifference("malformed_principal_provider", "malformed_principal_subject", 20);
  }

  lemma ConsumedNames()
    ensures TextLeq("consumed_intent_conflicts_with_binding", "consumed_one_shot" + "_without_committed_receipt")
  {
    hide TextLeq;
    var a, b := "consumed_intent_conflicts_with_binding", "consumed_one_shot" + "_without_committed_receipt";
    assert a[..9] == "consumed_";
    assert b[..9] == "consumed_one_shot"[..9] == "consumed_";
    FirstDifference(a, b, 9);
  }

  lemma OtherNames()
    ensures TextLeq("consumed_intent_conflicts_with_binding", "consumed_one_shot" + "_without_committed_receipt")
    ensures TextLeq("consumed_one_shot" + "_without_committed_receipt", "duplicate_durable_scope")
    ensures TextLeq("duplicate_durable_scope", "invalid_one_shot_flag")
    ensures TextLeq("invalid_one_shot_flag", "invalid_status")
    ensures TextLeq("invalid_status", "malformed_capability")
    ensures TextLeq("malformed_resource", "missing_participant")
    ensures TextLeq("missing_participant", "non_one_shot_consumption_metadata")
    ensures TextLeq("non_one_shot_consumption_metadata", "partial_consumption_metadata")
    ensures TextLeq("partial_consumption_metadata", "unsupported_capability")
  {
    hide TextLeq;
    ConsumedNames();
    FirstDifference("consumed_one_shot" + "_without_committed_receipt", "duplicate_durable_scope", 0);
    FirstDifference("duplicate_durable_scope", "invalid_one_shot_flag", 0);
    FirstDifference("invalid_one_shot_flag", "invalid_status", 8);
    FirstDifference("invalid_status", "malformed_capability", 0);
    FirstDifference("malformed_resource", "missing_participant", 1);
    FirstDifference("missing_participant", "non_one_shot_consumption_metadata", 0);
    FirstDifference("non_one_shot_consumption_metadata", "partial_consumption_metadata", 0);
    FirstDifference("partial_consumption_metadata", "unsupported_capability", 0);
  }

  lemma NextKind(rank: nat)
    requires rank < 14
    ensures TextLeq(ViolationName(KindAt(rank)), ViolationName(KindAt(rank + 1)))
  {
    hide TextLeq;
    MalformedNames();
    OtherNames();
  }

  lemma {:induction false} KindsAscend(j: nat, k: nat)
    requires j <= k <= 14
    ensures TextLeq(ViolationName(KindAt(j)), ViolationName(KindAt(k)))
    decreases k - j
  {
    hide TextLeq, ViolationName, KindAt;
    if j == k {
      TextReflexive(ViolationName(KindAt(j)));
    } else {
      KindsAscend(j, k - 1);
      NextKind(k - 1);
      TextLinear(ViolationName(KindAt(j)), ViolationName(KindAt(k - 1)), ViolationName(KindAt(k)));
    }
  }

  lemma RankedKind(k: Kind)
    ensures ViolationRank(k) <= 14 && KindAt(ViolationRank(k)) == k
  {
  }

  lemma ViolationKeySpelled(a: Violation, b: Violation)
    requires Leq(ViolationKey(a), ViolationKey(b))
    ensures ViolationLeq(a, b)
  {
    hide Leq, TextLeq, ViolationName, ViolationRank, KindAt;
    var x, y := ViolationKey(a), ViolationKey(b);
    LeqHead(x, y);
    if x[0] == y[0] {
      LeqHead(x[1..], y[1..]);
      if x[1] == y[1] {
        LeqHead(x[1..][1..], y[1..][1..]);
        RankedKind(a.kind);
        RankedKind(b.kind);
        if a.kind != b.kind {
          KindsAscend(ViolationRank(a.kind), ViolationRank(b.kind));
        } else {
          LeqHead(x[1..][1..][1..], y[1..][1..][1..]);
          TextReflexive(a.detail);
        }
      }
    } else {
      FirstDifference("delegated_grants", "principal_grants", 0);
    }
  }

  // ---- the report ---------------------------------------------------------------------------

  lemma ScannedExact(db: Db)
    ensures |DurableTable(db)| == |db.durable| && |DelegatedTable(db)| == |db.delegated|
  {
    hide DurableTable, DelegatedTable;
    var rows, drows := DurableTable(db), DelegatedTable(db);
    DurableTableFacts(db);
    DelegatedTableFacts(db);
    DelegatedTableAscends(db);
    var ids := seq(|rows|, i requires 0 <= i < |rows| => rows[i].0);
    var dids := seq(|drows|, i requires 0 <= i < |drows| => drows[i].0);
    forall id ensures id in ids <==> id in db.durable.Keys {
      if id in db.durable {
        var i :| 0 <= i < |rows| && rows[i] == (id, db.durable[id]);
        assert ids[i] == id;
      }
    }
    forall id ensures id in dids <==> id in db.delegated.Keys {
      if id in db.delegated {
        var i :| 0 <= i < |drows| && drows[i] == (id, db.delegated[id]);
        assert dids[i] == id;
      }
    }
    RowsCounted(ids, db.durable.Keys);
    RowsCounted(dids, db.delegated.Keys);
  }

  /** The report on arbitrary tables: it lists each violation the rows call for once, and no other, in the
      order of store name, id, kind name and detail. */
  lemma ViolationsExact(db: Db)
    ensures forall v :: v in PolicyViolations(db) <==> CalledFor(db, v)
    ensures forall v :: multiset(PolicyViolations(db))[v] <= 1
    ensures var found := PolicyViolations(db);
            forall i, j | 0 <= i < j < |found| :: ViolationLeq(found[i], found[j])
  {
    hide PolicyViolations, ViolationLeq, ViolationKey, Leq, CalledFor, Finds;
    forall v ensures v in PolicyViolations(db) <==> CalledFor(db, v)
             ensures multiset(PolicyViolations(db))[v] <= 1
    {
      ReportExact(db, v);
      FindsSpelled(db, v);
      ReportedOnce(db, v);
    }
    var found := PolicyViolations(db);
    forall i, j | 0 <= i < j < |found| ensures ViolationLeq(found[i], found[j]) {
      ViolationKeySpelled(found[i], found[j]);
    }
  }

  lemma FindsSpelled(db: Db, v: Violation)
    ensures Finds(db, v) <==> CalledFor(db, v)
  {
    hide DurableFindings, DelegatedFindings, DurableCalls, DelegatedCalls, GroupFindings, IdsOf, DurableTable, ScopesOf;
    if v.grantId in db.durable { DurableRowSpelled(db, v.grantId, v); }
    if v.grantId in db.delegated { DelegatedRowSpelled(db, v.grantId, v); }
    GroupsSpelled(db, v);
  }
}
