/** src/authorization.rs, `audit_authorization_integrity`: the offline audit of both grant tables. */
module PolicyAudit {
  import opened Text
  import opened Order
  import opened Tables
  import opened Authorization

  /** Declared in alphabetical order of the stored names, the order the report is sorted in. */
  datatype Kind =
    | ConsumedIntentConflictsWithBinding
    | ConsumedOneShotWithoutCommittedReceipt
    | DuplicateDurableScope
    | InvalidOneShotFlag
    | InvalidStatus
    | MalformedCapability
    | MalformedIntentId
    | MalformedParticipantId
    | MalformedPrincipalProvider
    | MalformedPrincipalSubject
    | MalformedResource
    | MissingParticipant
    | NonOneShotConsumptionMetadata
    | PartialConsumptionMetadata
    | UnsupportedCapability

  function ViolationRank(k: Kind): nat {
    match k
    case ConsumedIntentConflictsWithBinding => 0
    case ConsumedOneShotWithoutCommittedReceipt => 1
    case DuplicateDurableScope => 2
    case InvalidOneShotFlag => 3
    case InvalidStatus => 4
    case MalformedCapability => 5
    case MalformedIntentId => 6
    case MalformedParticipantId => 7
    case MalformedPrincipalProvider => 8
    case MalformedPrincipalSubject => 9
    case MalformedResource => 10
    case MissingParticipant => 11
    case NonOneShotConsumptionMetadata => 12
    case PartialConsumptionMetadata => 13
    case UnsupportedCapability => 14
  }

  datatype Violation = Violation(kind: Kind, store: GrantStore, grantId: int, participantId: string, detail: string)

  datatype PolicyReport = PolicyReport(
    valid: bool, durableScanned: nat, delegatedScanned: nat, violations: seq<Violation>)

  /** (store, grant_id, kind, detail); "delegated_grants" sorts before "principal_grants". */
  function ViolationKey(v: Violation): Key {
    [Num(if v.store == DelegatedStore then 0 else 1), Num(v.grantId), Num(ViolationRank(v.kind)), Str(v.detail)]
  }

  const BLANK_DETAIL := "value is blank or contains control characters"
  const PARTICIPANT_DETAIL := "grant references no durable participant"
  const PARTIAL_DETAIL := "consumed_at and consumed_intent_id must appear together"
  const NON_ONE_SHOT_DETAIL := "only one-shot grants may carry consumption metadata"

  function StatusText(s: GrantStatus): string {
    match s
    case Active => "active"
    case Inactive => "inactive"
    case OtherGrantStatus(text) => text
  }

  // ---- what each row is reported for --------------------------------------------------------

  function When(condition: bool, v: Violation): (r: seq<Violation>)
    ensures forall x | x in r :: x == v && condition
  {
    if condition then [v] else []
  }

  predicate Malformed(value: string) {
    Blank(value) || HasControl(value)
  }

  predicate MalformedOptional(value: Option<string>) {
    value.Some? && Malformed(value.value)
  }

  function DurableFindings(db: Db, id: int, g: DurableGrant): seq<Violation> {
    TextFindings(DurableStore, id, g.principal, g.participantId, g.capability, g.resource)
    + DurableShapeFindings(db, id, g)
  }

  /** The text columns both grant tables have. */
  function TextFindings(store: GrantStore, id: int, who: Principal, p: string, c: Capability,
                        resource: Option<string>): seq<Violation> {
    When(Malformed(who.provider), Violation(MalformedPrincipalProvider, store, id, p, BLANK_DETAIL))
    + When(Malformed(who.subject), Violation(MalformedPrincipalSubject, store, id, p, BLANK_DETAIL))
    + When(Malformed(p), Violation(MalformedParticipantId, store, id, p, BLANK_DETAIL))
    + When(Malformed(CapabilityName(c)), Violation(MalformedCapability, store, id, p, BLANK_DETAIL))
    + When(MalformedOptional(resource), Violation(MalformedResource, store, id, p, BLANK_DETAIL))
  }

  function DurableShapeFindings(db: Db, id: int, g: DurableGrant): seq<Violation> {
    var p := g.participantId;
    When(p !in db.participants, Violation(MissingParticipant, DurableStore, id, p, PARTICIPANT_DETAIL))
    + When(!IsKnown(g.capability), Violation(UnsupportedCapability, DurableStore, id, p, CapabilityName(g.capability)))
    + When(g.status.OtherGrantStatus?, Violation(InvalidStatus, DurableStore, id, p, StatusText(g.status)))
  }

  predicate ConsumptionConflict(g: DelegatedGrant) {
    g.intentId.Some? && g.consumedIntentId.Some? && g.intentId != g.consumedIntentId
  }

  predicate ConsumedUnreceipted(db: Db, g: DelegatedGrant) {
    g.oneShot == 1 && g.consumedAt.Some? && g.consumedIntentId.Some?
    && !CommittedReceiptExists(db, g.participantId, g.consumedIntentId.value)
  }

  function ConflictDetail(g: DelegatedGrant): string {
    if g.intentId.Some? && g.consumedIntentId.Some?
    then "bound=" + g.intentId.value + ";consumed=" + g.consumedIntentId.value else ""
  }

  function DelegatedFindings(db: Db, id: int, g: DelegatedGrant): seq<Violation> {
    TextFindings(DelegatedStore, id, g.principal, g.participantId, g.capability, g.resource)
    + When(MalformedOptional(g.intentId), Violation(MalformedIntentId, DelegatedStore, id, g.participantId,
                                                    BLANK_DETAIL))
    + DelegatedShapeFindings(db, id, g)
    + ConsumptionFindings(db, id, g)
  }

  function DelegatedShapeFindings(db: Db, id: int, g: DelegatedGrant): seq<Violation> {
    var p := g.participantId;
    When(p !in db.participants, Violation(MissingParticipant, DelegatedStore, id, p, PARTICIPANT_DETAIL))
    + When(!IsKnown(g.capability), Violation(UnsupportedCapability, DelegatedStore, id, p,
                                             CapabilityName(g.capability)))
    + When(g.status.OtherGrantStatus?, Violation(InvalidStatus, DelegatedStore, id, p, StatusText(g.status)))
    + When(g.oneShot != 0 && g.oneShot != 1, Violation(InvalidOneShotFlag, DelegatedStore, id, p, Decimal(g.oneShot)))
  }

  function ConsumptionFindings(db: Db, id: int, g: DelegatedGrant): seq<Violation> {
    var p := g.participantId;
    When(g.consumedAt.Some? != g.consumedIntentId.Some?,
         Violation(PartialConsumptionMetadata, DelegatedStore, id, p, PARTIAL_DETAIL))
    + When(g.oneShot == 0 && (g.consumedAt.Some? || g.consumedIntentId.Some?),
           Violation(NonOneShotConsumptionMetadata, DelegatedStore, id, p, NON_ONE_SHOT_DETAIL))
    + When(ConsumptionConflict(g),
           Violation(ConsumedIntentConflictsWithBinding, DelegatedStore, id, p, ConflictDetail(g)))
    + When(ConsumedUnreceipted(db, g),
           Violation(ConsumedOneShotWithoutCommittedReceipt, DelegatedStore, id, p,
                     if g.consumedIntentId.Some? then g.consumedIntentId.value else ""))
  }

  // ---- duplicate durable scopes -------------------------------------------------------------

  datatype ScopeKey = ScopeKey(principal: Principal, participantId: string, capability: Capability,
                               resource: Option<string>)

  function KeyOf(g: DurableGrant): ScopeKey {
    ScopeKey(g.principal, g.participantId, g.capability, g.resource)
  }

  /** Ids of the rows with this scope, in row order. */
  function IdsOf(rows: seq<DurableRow>, k: ScopeKey): seq<int> {
    if rows == [] then []
    else
      var ids := IdsOf(rows[..|rows| - 1], k);
      var last := rows[|rows| - 1];
      if KeyOf(last.1) == k then ids + [last.0] else ids
  }

  function JoinIds(ids: seq<int>): string {
    if ids == [] then ""
    else if |ids| == 1 then Decimal(ids[0])
    else Decimal(ids[0]) + "," + JoinIds(ids[1..])
  }

  function DuplicateDetail(k: ScopeKey, ids: seq<int>): string {
    "principal=" + k.principal.provider + ":" + k.principal.subject + ";capability=" + CapabilityName(k.capability)
    + ";resource=" + (if k.resource.Some? then k.resource.value else "*") + ";grant_ids=" + JoinIds(ids)
  }

  function GroupFindings(k: ScopeKey, ids: seq<int>): seq<Violation> {
    if |ids| > 1
    then [Violation(DuplicateDurableScope, DurableStore, ids[0], k.participantId, DuplicateDetail(k, ids))]
    else []
  }

  lemma {:induction false} IdsOfFacts(rows: seq<DurableRow>, k: ScopeKey, id: int)
    ensures id in IdsOf(rows, k) <==> exists i | 0 <= i < |rows| :: rows[i].0 == id && KeyOf(rows[i].1) == k
  {
    if rows != [] {
      var front := rows[..|rows| - 1];
      IdsOfFacts(front, k, id);
      if i :| 0 <= i < |rows| && rows[i].0 == id && KeyOf(rows[i].1) == k {
        if i < |front| { assert front[i] == rows[i]; }
      }
      if id in IdsOf(front, k) {
        var i :| 0 <= i < |front| && front[i].0 == id && KeyOf(front[i].1) == k;
        assert rows[i] == front[i];
      }
    }
  }

  /** Ids of a selection in id order are strictly ascending, so a group of two names two rows. */
  lemma {:induction false} IdsAscending(rows: seq<DurableRow>, k: ScopeKey)
    requires forall i, j | 0 <= i < j < |rows| :: rows[i].0 < rows[j].0
    ensures forall i, j | 0 <= i < j < |IdsOf(rows, k)| :: IdsOf(rows, k)[i] < IdsOf(rows, k)[j]
  {
    if rows != [] {
      var front := rows[..|rows| - 1];
      IdsAscending(front, k);
      var ids := IdsOf(front, k);
      forall i | 0 <= i < |ids| ensures ids[i] < rows[|rows| - 1].0 {
        IdsOfFacts(front, k, ids[i]);
        var n :| 0 <= n < |front| && front[n].0 == ids[i] && KeyOf(front[n].1) == k;
        assert rows[n] == front[n];
      }
    }
  }

  // ---- the rows in the order the audit reads them -------------------------------------------

  function DurableById(row: DurableRow): Key { [Num(row.0)] }
  function DelegatedById(row: DelegatedRow): Key { [Num(row.0)] }

  function AllDurable(db: Db): set<DurableRow> {
    set id | id in db.durable :: (id, db.durable[id])
  }

  function AllDelegated(db: Db): set<DelegatedRow> {
    set id | id in db.delegated :: (id, db.delegated[id])
  }

  lemma ByIdDistinct(db: Db)
    ensures Distinct(AllDurable(db), DurableById)
    ensures Distinct(AllDelegated(db), DelegatedById)
  {
    forall x: DurableRow, y: DurableRow | DurableById(x) == DurableById(y) ensures x.0 == y.0 {
      assert DurableById(x)[0] == DurableById(y)[0];
    }
    forall x: DelegatedRow, y: DelegatedRow | DelegatedById(x) == DelegatedById(y) ensures x.0 == y.0 {
      assert DelegatedById(x)[0] == DelegatedById(y)[0];
    }
  }

  ghost function DurableTable(db: Db): (rows: seq<DurableRow>)
    ensures Distinct(AllDurable(db), DurableById)
  {
    ByIdDistinct(db);
    Select(AllDurable(db), DurableById)
  }

  ghost function DelegatedTable(db: Db): (rows: seq<DelegatedRow>)
    ensures Distinct(AllDelegated(db), DelegatedById)
  {
    ByIdDistinct(db);
    Select(AllDelegated(db), DelegatedById)
  }

  lemma DurableTableFacts(db: Db)
    ensures var rows := DurableTable(db);
            && (forall i | 0 <= i < |rows| :: rows[i].0 in db.durable && rows[i].1 == db.durable[rows[i].0])
            && (forall i, j | 0 <= i < j < |rows| :: rows[i].0 < rows[j].0)
            && (forall id | id in db.durable :: exists i | 0 <= i < |rows| :: rows[i] == (id, db.durable[id]))
  {
    var rows := DurableTable(db);
    forall i | 0 <= i < |rows| ensures rows[i].0 in db.durable && rows[i].1 == db.durable[rows[i].0] {
      assert rows[i] in AllDurable(db);
    }
    forall i, j | 0 <= i < j < |rows| ensures rows[i].0 < rows[j].0 {
      assert Less(DurableById(rows[i]), DurableById(rows[j]));
      assert DurableById(rows[i])[0] == Num(rows[i].0) && DurableById(rows[j])[0] == Num(rows[j].0);
    }
    forall id | id in db.durable ensures exists i | 0 <= i < |rows| :: rows[i] == (id, db.durable[id]) {
      assert (id, db.durable[id]) in AllDurable(db);
      assert (id, db.durable[id]) in rows;
    }
  }

  lemma DelegatedTableFacts(db: Db)
    ensures var rows := DelegatedTable(db);
            && (forall i | 0 <= i < |rows| :: rows[i].0 in db.delegated && rows[i].1 == db.delegated[rows[i].0])
            && (forall id | id in db.delegated :: exists i | 0 <= i < |rows| :: rows[i] == (id, db.delegated[id]))
  {
    var rows := DelegatedTable(db);
    forall i | 0 <= i < |rows| ensures rows[i].0 in db.delegated && rows[i].1 == db.delegated[rows[i].0] {
      assert rows[i] in AllDelegated(db);
    }
    forall id | id in db.delegated ensures exists i | 0 <= i < |rows| :: rows[i] == (id, db.delegated[id]) {
      assert (id, db.delegated[id]) in AllDelegated(db);
      assert (id, db.delegated[id]) in rows;
    }
  }

  ghost function FlatDurable(db: Db, rows: seq<DurableRow>): seq<Violation> {
    if rows == [] then []
    else FlatDurable(db, rows[..|rows| - 1]) + DurableFindings(db, rows[|rows| - 1].0, rows[|rows| - 1].1)
  }

  ghost function FlatDelegated(db: Db, rows: seq<DelegatedRow>): seq<Violation> {
    if rows == [] then []
    else FlatDelegated(db, rows[..|rows| - 1]) + DelegatedFindings(db, rows[|rows| - 1].0, rows[|rows| - 1].1)
  }

  ghost function ScopesOf(rows: seq<DurableRow>): set<ScopeKey> {
    set i | 0 <= i < |rows| :: KeyOf(rows[i].1)
  }

  /** The findings of a set of groups, without any order among the groups. */
  ghost function GroupBag(rows: seq<DurableRow>, scopes: set<ScopeKey>): multiset<Violation>
    decreases |scopes|
  {
    if scopes == {} then multiset{}
    else var k :| k in scopes; GroupBag(rows, scopes - {k}) + multiset(GroupFindings(k, IdsOf(rows, k)))
  }

  lemma {:induction false} GroupBagRemove(rows: seq<DurableRow>, scopes: set<ScopeKey>, k: ScopeKey)
    requires k in scopes
    ensures GroupBag(rows, scopes) == GroupBag(rows, scopes - {k}) + multiset(GroupFindings(k, IdsOf(rows, k)))
    decreases |scopes|
  {
    var m :| m in scopes && GroupBag(rows, scopes)
                            == GroupBag(rows, scopes - {m}) + multiset(GroupFindings(m, IdsOf(rows, m)));
    if m != k {
      GroupBagRemove(rows, scopes - {m}, k);
      assert scopes - {m} - {k} == scopes - {k} - {m};
      GroupBagRemove(rows, scopes - {k}, m);
    }
  }

  lemma GroupBagEmpty(rows: seq<DurableRow>)
    ensures GroupBag(rows, {}) == multiset{}
  {
  }

  ghost function Findings(db: Db): multiset<Violation> {
    var rows := DurableTable(db);
    multiset(FlatDurable(db, rows)) + GroupBag(rows, ScopesOf(rows)) + multiset(FlatDelegated(db, DelegatedTable(db)))
  }

  // ---- the audit ----------------------------------------------------------------------------

  method AuditRequiredText(found: seq<Violation>, store: GrantStore, id: int, participantId: string, kind: Kind,
                           value: string) returns (out: seq<Violation>)
    ensures out == found + When(Malformed(value), Violation(kind, store, id, participantId, BLANK_DETAIL))
  {
    out := found;
    if Blank(value) || HasControl(value) {
      out := out + [Violation(kind, store, id, participantId, BLANK_DETAIL)];
    }
  }

  method AuditTexts(store: GrantStore, id: int, who: Principal, p: string, c: Capability, resource: Option<string>)
    returns (found: seq<Violation>)
    ensures found == TextFindings(store, id, who, p, c, resource)
  {
    hide Malformed, CapabilityName;
    found := AuditRequiredText([], store, id, p, MalformedPrincipalProvider, who.provider);
    found := AuditRequiredText(found, store, id, p, MalformedPrincipalSubject, who.subject);
    found := AuditRequiredText(found, store, id, p, MalformedParticipantId, p);
    found := AuditRequiredText(found, store, id, p, MalformedCapability, CapabilityName(c));
    if resource.Some? {
      found := AuditRequiredText(found, store, id, p, MalformedResource, resource.value);
    }
  }

  method AuditDurableRow(conn: Connection, id: int, g: DurableGrant) returns (found: seq<Violation>)
    ensures found == DurableFindings(conn.tables, id, g)
  {
    hide TextFindings, DurableShapeFindings;
    found := AuditTexts(DurableStore, id, g.principal, g.participantId, g.capability, g.resource);
    var shape := AuditDurableShape(conn, id, g);
    found := found + shape;
  }

  method AuditDurableShape(conn: Connection, id: int, g: DurableGrant) returns (found: seq<Violation>)
    ensures found == DurableShapeFindings(conn.tables, id, g)
  {
    hide CapabilityName, StatusText;
    var p := g.participantId;
    found := [];
    if p !in conn.tables.participants {
      found := found + [Violation(MissingParticipant, DurableStore, id, p, PARTICIPANT_DETAIL)];
    }
    if !IsKnown(g.capability) {
      found := found + [Violation(UnsupportedCapability, DurableStore, id, p, CapabilityName(g.capability))];
    }
    if g.status != Active && g.status != Inactive {
      found := found + [Violation(InvalidStatus, DurableStore, id, p, StatusText(g.status))];
    }
  }

  method AuditDelegatedRow(conn: Connection, id: int, g: DelegatedGrant) returns (found: seq<Violation>)
    ensures found == DelegatedFindings(conn.tables, id, g)
  {
    hide TextFindings, DelegatedShapeFindings, ConsumptionFindings, Malformed;
    found := AuditTexts(DelegatedStore, id, g.principal, g.participantId, g.capability, g.resource);
    if g.intentId.Some? {
      found := AuditRequiredText(found, DelegatedStore, id, g.participantId, MalformedIntentId, g.intentId.value);
    }
    var shape := AuditDelegatedShape(conn, id, g);
    var consumption := AuditConsumption(conn, id, g);
    found := found + shape + consumption;
  }

  method AuditDelegatedShape(conn: Connection, id: int, g: DelegatedGrant) returns (found: seq<Violation>)
    ensures found == DelegatedShapeFindings(conn.tables, id, g)
  {
    var p := g.participantId;
    found := [];
    if p !in conn.tables.participants {
      found := found + [Violation(MissingParticipant, DelegatedStore, id, p, PARTICIPANT_DETAIL)];
    }
    if !IsKnown(g.capability) {
      found := found + [Violation(UnsupportedCapability, DelegatedStore, id, p, CapabilityName(g.capability))];
    }
    if g.status != Active && g.status != Inactive {
      found := found + [Violation(InvalidStatus, DelegatedStore, id, p, StatusText(g.status))];
    }
    if !(g.oneShot == 0 || g.oneShot == 1) {
      found := found + [Violation(InvalidOneShotFlag, DelegatedStore, id, p, Decimal(g.oneShot))];
    }
  }

  method AuditConsumption(conn: Connection, id: int, g: DelegatedGrant) returns (found: seq<Violation>)
    ensures found == ConsumptionFindings(conn.tables, id, g)
  {
    var p := g.participantId;
    found := [];
    var hasConsumedAt, hasConsumedIntent := g.consumedAt.Some?, g.consumedIntentId.Some?;
    if hasConsumedAt != hasConsumedIntent {
      found := found + [Violation(PartialConsumptionMetadata, DelegatedStore, id, p, PARTIAL_DETAIL)];
    }
    if g.oneShot == 0 && (hasConsumedAt || hasConsumedIntent) {
      found := found + [Violation(NonOneShotConsumptionMetadata, DelegatedStore, id, p, NON_ONE_SHOT_DETAIL)];
    }
    if g.intentId.Some? && hasConsumedIntent {
      if g.intentId.value != g.consumedIntentId.value {
        found := found + [Violation(ConsumedIntentConflictsWithBinding, DelegatedStore, id, p, ConflictDetail(g))];
      }
    }
    if g.oneShot == 1 && hasConsumedAt && hasConsumedIntent {
      if !CommittedReceiptExists(conn.tables, p, g.consumedIntentId.value) {
        found := found + [Violation(ConsumedOneShotWithoutCommittedReceipt, DelegatedStore, id, p,
                                    g.consumedIntentId.value)];
      }
    }
  }

  /** First pass: per-row findings, and the hash map from scope to row ids. */
  method AuditDurableRows(conn: Connection, rows: seq<DurableRow>)
    returns (violations: seq<Violation>, scopes: map<ScopeKey, seq<int>>)
    ensures violations == FlatDurable(conn.tables, rows)
    ensures scopes.Keys == ScopesOf(rows)
    ensures forall k | k in scopes :: scopes[k] == IdsOf(rows, k)
  {
    hide DurableFindings, ScopesOf;
    violations, scopes := [], map[];
    ScopesOfNone();
    for i := 0 to |rows|
      invariant violations == FlatDurable(conn.tables, rows[..i])
      invariant scopes.Keys == ScopesOf(rows[..i])
      invariant forall k | k in scopes :: scopes[k] == IdsOf(rows[..i], k)
    {
      var (id, g) := rows[i];
      var found := AuditDurableRow(conn, id, g);
      assert rows[..i + 1][..i] == rows[..i];
      violations := violations + found;
      var k := KeyOf(g);
      NewScopeEmpty(rows[..i], k);
      ScopesOfNext(rows, i);
      scopes := scopes[k := (if k in scopes then scopes[k] else []) + [id]];
    }
    assert rows[..|rows|] == rows;
  }

  lemma NewScopeEmpty(rows: seq<DurableRow>, k: ScopeKey)
    ensures k !in ScopesOf(rows) ==> IdsOf(rows, k) == []
  {
    if IdsOf(rows, k) != [] {
      var id := IdsOf(rows, k)[0];
      IdsOfFacts(rows, k, id);
      var i :| 0 <= i < |rows| && rows[i].0 == id && KeyOf(rows[i].1) == k;
      assert KeyOf(rows[i].1) in ScopesOf(rows);
    }
  }

  lemma ScopesOfNone()
    ensures ScopesOf([]) == {}
  {
  }

  lemma ScopesOfNext(rows: seq<DurableRow>, i: nat)
    requires i < |rows|
    ensures ScopesOf(rows[..i + 1]) == ScopesOf(rows[..i]) + {KeyOf(rows[i].1)}
  {
    var a, b := rows[..i + 1], rows[..i];
    forall k | k in ScopesOf(b) ensures k in ScopesOf(a) {
      var j :| 0 <= j < |b| && KeyOf(b[j].1) == k;
      assert a[j] == b[j];
    }
    forall k | k in ScopesOf(a) ensures k in ScopesOf(b) + {KeyOf(rows[i].1)} {
      var j :| 0 <= j < |a| && KeyOf(a[j].1) == k;
      if j < i { assert a[j] == b[j]; }
    }
    assert a[i] == rows[i];
  }

  /** Second pass: iterate the hash map, whatever order it yields its entries in. */
  method AuditScopes(rows: seq<DurableRow>, scopes: map<ScopeKey, seq<int>>) returns (found: seq<Violation>)
    requires scopes.Keys == ScopesOf(rows)
    requires forall k | k in scopes :: scopes[k] == IdsOf(rows, k)
    ensures multiset(found) == GroupBag(rows, ScopesOf(rows))
  {
    GroupBagEmpty(rows);
    hide GroupBag, IdsOf, ScopesOf, DuplicateDetail;
    found := [];
    var rest := scopes.Keys;
    ghost var done: set<ScopeKey> := {};
    while rest != {}
      invariant done + rest == scopes.Keys && done !! rest
      invariant multiset(found) == GroupBag(rows, done)
      decreases |rest|
    {
      var k :| k in rest;
      rest := rest - {k};
      GroupBagRemove(rows, done + {k}, k);
      assert done + {k} - {k} == done;
      done := done + {k};
      var ids := scopes[k];
      if |ids| > 1 {
        found := found + [Violation(DuplicateDurableScope, DurableStore, ids[0], k.participantId,
                                    DuplicateDetail(k, ids))];
      }
    }
    assert done == scopes.Keys;
  }

  method AuditDelegatedRows(conn: Connection, rows: seq<DelegatedRow>) returns (violations: seq<Violation>)
    ensures violations == FlatDelegated(conn.tables, rows)
  {
    hide DelegatedFindings;
    violations := [];
    for i := 0 to |rows|
      invariant violations == FlatDelegated(conn.tables, rows[..i])
    {
      var found := AuditDelegatedRow(conn, rows[i].0, rows[i].1);
      assert rows[..i + 1][..i] == rows[..i];
      violations := violations + found;
    }
    assert rows[..|rows|] == rows;
  }

  /** The whole audit. The report is fixed by `PolicyViolations`, a function of the tables alone. */
  method AuditAuthorizationIntegrity(conn: Connection) returns (report: PolicyReport)
    ensures report.violations == PolicyViolations(conn.tables)
    ensures report.valid <==> report.violations == []
    ensures report.durableScanned == |DurableTable(conn.tables)|
    ensures report.delegatedScanned == |DelegatedTable(conn.tables)|
  {
    ByIdDistinct(conn.tables);
    var durableRows := OrderRows(AllDurable(conn.tables), DurableById);
    assert durableRows == DurableTable(conn.tables);
    var violations, scopes := AuditDurableRows(conn, durableRows);
    var groups := AuditScopes(durableRows, scopes);
    var delegatedRows := OrderRows(AllDelegated(conn.tables), DelegatedById);
    assert delegatedRows == DelegatedTable(conn.tables);
    var delegated := AuditDelegatedRows(conn, delegatedRows);
    violations := violations + groups + delegated;
    SortedFindingsUnique(conn.tables, violations, PolicyViolations(conn.tables));
    violations := SortBy(violations, ViolationKey);
    report := PolicyReport(violations == [], |durableRows|, |delegatedRows|, violations);
  }

  // ---- what the report says -----------------------------------------------------------------

  /** A violation the tables call for, stated row by row. */
  ghost predicate Finds(db: Db, v: Violation) {
    || (v.store == DurableStore && v.grantId in db.durable
        && v in DurableFindings(db, v.grantId, db.durable[v.grantId]))
    || (v.store == DelegatedStore && v.grantId in db.delegated
        && v in DelegatedFindings(db, v.grantId, db.delegated[v.grantId]))
    || (exists k | k in ScopesOf(DurableTable(db)) :: v in GroupFindings(k, IdsOf(DurableTable(db), k)))
  }

  /** The report's list: all findings, in key order. */
  ghost function PolicyViolations(db: Db): (r: seq<Violation>)
    ensures multiset(r) == Findings(db) && Sorted(r, ViolationKey)
  {
    var rows := DurableTable(db);
    var groups := Enumerate(GroupBag(rows, ScopesOf(rows)));
    SortBy(FlatDurable(db, rows) + groups + FlatDelegated(db, DelegatedTable(db)), ViolationKey)
  }

  ghost function Enumerate(bag: multiset<Violation>): (r: seq<Violation>)
    ensures multiset(r) == bag
    decreases |bag|
  {
    if bag == multiset{} then [] else var v :| v in bag; [v] + Enumerate(bag - multiset{v})
  }

  lemma DurableFindingsShape(db: Db, id: int, g: DurableGrant, v: Violation)
    requires v in DurableFindings(db, id, g)
    ensures v.store == DurableStore && v.grantId == id && v.participantId == g.participantId
    ensures v.kind != DuplicateDurableScope
  {
    hide TextFindings, DurableShapeFindings;
    TextFindingsShape(DurableStore, id, g.principal, g.participantId, g.capability, g.resource, v);
    DurableShapeShape(db, id, g, v);
  }

  lemma DurableShapeShape(db: Db, id: int, g: DurableGrant, v: Violation)
    ensures v in DurableShapeFindings(db, id, g) ==>
              v.store == DurableStore && v.grantId == id && v.participantId == g.participantId
                  && v.kind != DuplicateDurableScope
  {
    hide CapabilityName, IsKnown, StatusText;
  }

  lemma DelegatedFindingsShape(db: Db, id: int, g: DelegatedGrant, v: Violation)
    requires v in DelegatedFindings(db, id, g)
    ensures v.store == DelegatedStore && v.grantId == id && v.participantId == g.participantId
    ensures v.kind != DuplicateDurableScope
  {
    hide TextFindings, DelegatedShapeFindings, ConsumptionFindings;
    TextFindingsShape(DelegatedStore, id, g.principal, g.participantId, g.capability, g.resource, v);
    ShapeFindingsShape(db, id, g, v);
    ConsumptionFindingsShape(db, id, g, v);
  }

  lemma TextFindingsShape(store: GrantStore, id: int, who: Principal, p: string, c: Capability,
                          resource: Option<string>, v: Violation)
    ensures v in TextFindings(store, id, who, p, c, resource) ==>
              v.store == store && v.grantId == id && v.participantId == p && v.kind != DuplicateDurableScope
  {
    hide When, Malformed, MalformedOptional, CapabilityName;
  }

  lemma ShapeFindingsShape(db: Db, id: int, g: DelegatedGrant, v: Violation)
    ensures v in DelegatedShapeFindings(db, id, g) ==>
              v.store == DelegatedStore && v.grantId == id && v.participantId == g.participantId
                  && v.kind != DuplicateDurableScope
  {
    hide When, CapabilityName, IsKnown, StatusText, Decimal;
  }

  lemma ConsumptionFindingsShape(db: Db, id: int, g: DelegatedGrant, v: Violation)
    ensures v in ConsumptionFindings(db, id, g) ==>
              v.store == DelegatedStore && v.grantId == id && v.participantId == g.participantId
                  && v.kind != DuplicateDurableScope
  {
    hide When, ConsumptionConflict, ConsumedUnreceipted, ConflictDetail;
  }

  lemma GroupFindingsShape(db: Db, k: ScopeKey, v: Violation)
    requires v in GroupFindings(k, IdsOf(DurableTable(db), k))
    ensures v.store == DurableStore && v.grantId in db.durable && v.participantId == db.durable[v.grantId].participantId
    ensures v.kind == DuplicateDurableScope && KeyOf(db.durable[v.grantId]) == k
  {
    var rows := DurableTable(db);
    IdsOfFacts(rows, k, v.grantId);
    DurableTableFacts(db);
  }

  lemma {:induction false} FlatDurableMember(db: Db, rows: seq<DurableRow>, v: Violation)
    ensures v in FlatDurable(db, rows)
            <==> exists i | 0 <= i < |rows| :: v in DurableFindings(db, rows[i].0, rows[i].1)
  {
    hide DurableFindings, DelegatedFindings;
    if rows != [] {
      var front := rows[..|rows| - 1];
      FlatDurableMember(db, front, v);
      if i :| 0 <= i < |rows| && v in DurableFindings(db, rows[i].0, rows[i].1) {
        if i < |front| { assert front[i] == rows[i]; }
      }
      if i :| 0 <= i < |front| && v in DurableFindings(db, front[i].0, front[i].1) {
        assert rows[i] == front[i];
      }
    }
  }

  lemma {:induction false} FlatDelegatedMember(db: Db, rows: seq<DelegatedRow>, v: Violation)
    ensures v in FlatDelegated(db, rows)
            <==> exists i | 0 <= i < |rows| :: v in DelegatedFindings(db, rows[i].0, rows[i].1)
  {
    hide DurableFindings, DelegatedFindings;
    if rows != [] {
      var front := rows[..|rows| - 1];
      FlatDelegatedMember(db, front, v);
      if i :| 0 <= i < |rows| && v in DelegatedFindings(db, rows[i].0, rows[i].1) {
        if i < |front| { assert front[i] == rows[i]; }
      }
      if i :| 0 <= i < |front| && v in DelegatedFindings(db, front[i].0, front[i].1) {
        assert rows[i] == front[i];
      }
    }
  }

  lemma {:induction false} GroupBagMember(rows: seq<DurableRow>, scopes: set<ScopeKey>, v: Violation)
    ensures v in GroupBag(rows, scopes) <==> exists k | k in scopes :: v in GroupFindings(k, IdsOf(rows, k))
    decreases |scopes|
  {
    if k :| k in scopes {
      GroupBagRemove(rows, scopes, k);
      GroupBagMember(rows, scopes - {k}, v);
    }
  }

  /** Soundness and completeness: the report lists exactly the violations the rows call for. */
  lemma ReportExact(db: Db, v: Violation)
    ensures v in PolicyViolations(db) <==> Finds(db, v)
  {
    hide DurableTable, DelegatedTable, FlatDurable, FlatDelegated, DurableFindings, DelegatedFindings, GroupBag,
         GroupFindings, IdsOf, ScopesOf, PolicyViolations;
    var rows, drows := DurableTable(db), DelegatedTable(db);
    ReportMembers(db, v);
    DurablePartExact(db, v);
    DelegatedPartExact(db, v);
    GroupBagMember(rows, ScopesOf(rows), v);
  }

  lemma ReportMembers(db: Db, v: Violation)
    ensures var rows := DurableTable(db);
            v in PolicyViolations(db)
            <==> || v in FlatDurable(db, rows) || v in GroupBag(rows, ScopesOf(rows))
                 || v in FlatDelegated(db, DelegatedTable(db))
  {
    hide DurableTable, DelegatedTable, FlatDurable, FlatDelegated, GroupBag, ScopesOf;
    assert v in PolicyViolations(db) <==> v in multiset(PolicyViolations(db));
  }

  lemma DurablePartExact(db: Db, v: Violation)
    ensures v in FlatDurable(db, DurableTable(db))
            <==> && v.store == DurableStore && v.grantId in db.durable
                 && v in DurableFindings(db, v.grantId, db.durable[v.grantId])
  {
    var rows := DurableTable(db);
    FlatDurableMember(db, rows, v);
    DurableTableFacts(db);
    hide DurableTable, FlatDurable, DurableFindings;
    if i :| 0 <= i < |rows| && v in DurableFindings(db, rows[i].0, rows[i].1) {
      DurableFindingsShape(db, rows[i].0, rows[i].1, v);
    }
    if v.store == DurableStore && v.grantId in db.durable
        && v in DurableFindings(db, v.grantId, db.durable[v.grantId]) {
      var i :| 0 <= i < |rows| && rows[i] == (v.grantId, db.durable[v.grantId]);
      assert v in DurableFindings(db, rows[i].0, rows[i].1);
    }
  }

  lemma DelegatedPartExact(db: Db, v: Violation)
    ensures v in FlatDelegated(db, DelegatedTable(db))
            <==> && v.store == DelegatedStore && v.grantId in db.delegated
                 && v in DelegatedFindings(db, v.grantId, db.delegated[v.grantId])
  {
    var rows := DelegatedTable(db);
    FlatDelegatedMember(db, rows, v);
    DelegatedTableFacts(db);
    hide DelegatedTable, FlatDelegated, DelegatedFindings;
    if i :| 0 <= i < |rows| && v in DelegatedFindings(db, rows[i].0, rows[i].1) {
      DelegatedFindingsShape(db, rows[i].0, rows[i].1, v);
    }
    if v.store == DelegatedStore && v.grantId in db.delegated
       && v in DelegatedFindings(db, v.grantId, db.delegated[v.grantId]) {
      var i :| 0 <= i < |rows| && rows[i] == (v.grantId, db.delegated[v.grantId]);
      assert v in DelegatedFindings(db, rows[i].0, rows[i].1);
    }
  }

  /** Two findings with the same sort key are the same violation. */
  lemma KeyDeterminesFinding(db: Db, x: Violation, y: Violation)
    requires Finds(db, x) && Finds(db, y) && ViolationKey(x) == ViolationKey(y)
    ensures x == y
  {
    FindingParticipant(db, x);
    FindingParticipant(db, y);
    ViolationRankInjective(x.kind, y.kind);
    hide Finds, ViolationRank;
    assert ViolationKey(x)[0] == ViolationKey(y)[0];
    assert ViolationKey(x)[1] == ViolationKey(y)[1];
    assert ViolationKey(x)[2] == ViolationKey(y)[2];
    assert ViolationKey(x)[3] == ViolationKey(y)[3];
  }

  lemma ViolationRankInjective(j: Kind, k: Kind)
    ensures ViolationRank(j) == ViolationRank(k) ==> j == k
  {
  }

  lemma FindingParticipant(db: Db, v: Violation)
    requires Finds(db, v)
    ensures v.store == DurableStore ==>
            v.grantId in db.durable && v.participantId == db.durable[v.grantId].participantId
    ensures v.store == DelegatedStore ==>
              v.grantId in db.delegated && v.participantId == db.delegated[v.grantId].participantId
  {
    hide DurableFindings, DelegatedFindings, GroupFindings, IdsOf, DurableTable, ScopesOf;
    if v.store == DurableStore && v.grantId in db.durable
        && v in DurableFindings(db, v.grantId, db.durable[v.grantId]) {
      DurableFindingsShape(db, v.grantId, db.durable[v.grantId], v);
    } else if v.store == DelegatedStore && v.grantId in db.delegated
              && v in DelegatedFindings(db, v.grantId, db.delegated[v.grantId]) {
      DelegatedFindingsShape(db, v.grantId, db.delegated[v.grantId], v);
    } else {
      var k :| k in ScopesOf(DurableTable(db)) && v in GroupFindings(k, IdsOf(DurableTable(db), k));
      GroupFindingsShape(db, k, v);
    }
  }

  /** Sorting removes every trace of the order in which the findings were pushed. */
  lemma SortedFindingsUnique(db: Db, pushed: seq<Violation>, report: seq<Violation>)
    requires multiset(pushed) == Findings(db)
    requires multiset(report) == Findings(db) && Sorted(report, ViolationKey)
    ensures SortBy(pushed, ViolationKey) == report
  {
    forall x, y | x in report && y in report && ViolationKey(x) == ViolationKey(y) ensures x == y {
      assert x in multiset(report) && y in multiset(report);
      var r := PolicyViolations(db);
      assert x in multiset(r) && y in multiset(r);
      ReportExact(db, x);
      ReportExact(db, y);
      KeyDeterminesFinding(db, x, y);
    }
    SortedUnique(report, SortBy(pushed, ViolationKey), ViolationKey);
  }

  ghost predicate Flagged(db: Db, k: ScopeKey) {
    exists v | v in PolicyViolations(db) ::
      v.kind == DuplicateDurableScope && v.grantId in db.durable && KeyOf(db.durable[v.grantId]) == k
  }

  ghost predicate Shared(db: Db, k: ScopeKey) {
    exists i, j | i in db.durable && j in db.durable :: i != j && KeyOf(db.durable[i]) == k && KeyOf(db.durable[j]) == k
  }

  lemma SharedIffGroup(db: Db, k: ScopeKey)
    ensures Shared(db, k) <==> |IdsOf(DurableTable(db), k)| > 1
    ensures Shared(db, k) ==> k in ScopesOf(DurableTable(db))
  {
    hide DurableTable, IdsOf, ScopesOf, Shared;
    if |IdsOf(DurableTable(db), k)| > 1 { GroupShared(db, k); }
    if Shared(db, k) { SharedGroup(db, k); }
  }

  lemma GroupShared(db: Db, k: ScopeKey)
    requires |IdsOf(DurableTable(db), k)| > 1
    ensures Shared(db, k)
  {
    hide DurableTable, IdsOf;
    var rows := DurableTable(db);
    var ids := IdsOf(rows, k);
    DurableTableFacts(db);
    IdsAscending(rows, k);
    assert ids[0] in ids && ids[1] in ids;
    IdsOfFacts(rows, k, ids[0]);
    IdsOfFacts(rows, k, ids[1]);
    assert ids[0] != ids[1];
  }

  lemma SharedGroup(db: Db, k: ScopeKey)
    requires Shared(db, k)
    ensures |IdsOf(DurableTable(db), k)| > 1 && k in ScopesOf(DurableTable(db))
  {
    hide DurableTable, IdsOf;
    var rows := DurableTable(db);
    var i, j :| i in db.durable && j in db.durable && i != j && KeyOf(db.durable[i]) == k && KeyOf(db.durable[j]) == k;
    IdGrouped(db, k, i);
    IdGrouped(db, k, j);
  }

  lemma IdGrouped(db: Db, k: ScopeKey, id: int)
    requires id in db.durable && KeyOf(db.durable[id]) == k
    ensures id in IdsOf(DurableTable(db), k) && k in ScopesOf(DurableTable(db))
  {
    hide DurableTable, IdsOf;
    var rows := DurableTable(db);
    DurableTableFacts(db);
    var n :| 0 <= n < |rows| && rows[n] == (id, db.durable[id]);
    assert KeyOf(rows[n].1) == k;
    IdsOfFacts(rows, k, id);
  }

  /** A durable scope is flagged exactly when two distinct rows share it, NULL resources included. */
  lemma DuplicateScopeExact(db: Db, k: ScopeKey)
    ensures Flagged(db, k) <==> Shared(db, k)
  {
    hide Flagged, Shared, IdsOf, DurableTable;
    SharedIffGroup(db, k);
    if Flagged(db, k) { FlaggedGroup(db, k); }
    if Shared(db, k) { GroupFlagged(db, k); }
  }

  lemma FlaggedGroup(db: Db, k: ScopeKey)
    requires Flagged(db, k)
    ensures |IdsOf(DurableTable(db), k)| > 1
  {
    hide IdsOf, DurableTable, PolicyViolations, Finds;
    var v :| v in PolicyViolations(db) && v.kind == DuplicateDurableScope && v.grantId in db.durable
             && KeyOf(db.durable[v.grantId]) == k;
    ReportExact(db, v);
    DuplicateNamesGroup(db, v);
  }

  lemma GroupFlagged(db: Db, k: ScopeKey)
    requires Shared(db, k)
    ensures Flagged(db, k)
  {
    SharedIffGroup(db, k);
    hide Shared, IdsOf, DurableTable, PolicyViolations, ScopesOf, DurableFindings, DelegatedFindings, DuplicateDetail;
    var v := GroupFindings(k, IdsOf(DurableTable(db), k))[0];
    GroupFindingsShape(db, k, v);
    ReportExact(db, v);
  }

  lemma DuplicateNamesGroup(db: Db, v: Violation)
    requires Finds(db, v) && v.kind == DuplicateDurableScope && v.grantId in db.durable
    ensures |IdsOf(DurableTable(db), KeyOf(db.durable[v.grantId]))| > 1
  {
    hide DurableFindings, DelegatedFindings, IdsOf, DurableTable, ScopesOf, DuplicateDetail;
    if v.store == DurableStore && v in DurableFindings(db, v.grantId, db.durable[v.grantId]) {
      DurableFindingsShape(db, v.grantId, db.durable[v.grantId], v);
    } else if v.store == DelegatedStore && v.grantId in db.delegated
              && v in DelegatedFindings(db, v.grantId, db.delegated[v.grantId]) {
      DelegatedFindingsShape(db, v.grantId, db.delegated[v.grantId], v);
    } else {
      var k :| k in ScopesOf(DurableTable(db)) && v in GroupFindings(k, IdsOf(DurableTable(db), k));
      GroupFindingsShape(db, k, v);
    }
  }
}
