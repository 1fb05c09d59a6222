/** src/authorization.rs, `effective_grants`: the list a participant is shown of what a principal may do. */
module EffectiveGrants {
  import opened Text
  import opened Order
  import opened Tables
  import opened Authorization
  import opened AuthorizationPreference
  import opened DecisionExact

  datatype Origin = Explicit | Implicit
  datatype EffectiveGrant = EffectiveGrant(capability: Capability, resource: Option<string>, origin: Origin)

  function EffectiveKey(g: EffectiveGrant): Key {
    [Str(CapabilityName(g.capability)), TextColumn(g.resource)]
  }

  /** The capability is listed, for every resource or for exactly the one asked for. */
  ghost predicate Lists(grants: seq<EffectiveGrant>, c: Capability, resource: Option<string>) {
    exists g | g in grants :: g.capability == c && Covers(g.resource, resource)
  }

  function HeldRows(db: Db, who: Principal, participantId: string): set<DurableRow> {
    set id | id in db.durable && IsExplicit(db.durable[id], who, participantId, db.durable[id].capability)
      :: (id, db.durable[id])
  }

  /** `ORDER BY capability, resource`, ties by row id. */
  function HeldOrder(row: DurableRow): Key {
    [Str(CapabilityName(row.1.capability)), TextColumn(row.1.resource), Num(row.0)]
  }

  lemma HeldOrderDistinct(db: Db, who: Principal, participantId: string)
    ensures Distinct(HeldRows(db, who, participantId), HeldOrder)
  {
    var rows := HeldRows(db, who, participantId);
    forall x, y | x in rows && y in rows && HeldOrder(x) == HeldOrder(y) ensures x == y {
      assert HeldOrder(x)[2] == HeldOrder(y)[2];
    }
  }

  /** Implicit authority over a capability is authority over its administrative resource, or over
      every resource when it has none. */
  lemma ImplicitScope(who: Principal, participantId: string, c: Capability, resource: Option<string>, row: Participant)
    ensures ImplicitReason(who, participantId, c, resource, row).Some?
            <==> && IsKnown(c)
                 && ImplicitReason(who, participantId, c, AdminResource(c), row).Some?
                 && Covers(AdminResource(c), resource)
  {
  }

  lemma KnownCapabilitiesComplete(c: Capability)
    ensures IsKnown(c) <==> c in KNOWN_CAPABILITIES
  {
    assert KNOWN_CAPABILITIES[0] == ReadMessages && KNOWN_CAPABILITIES[1] == PostMessage
        && KNOWN_CAPABILITIES[2] == Reply && KNOWN_CAPABILITIES[3] == ReadExecutionReceipt
        && KNOWN_CAPABILITIES[4] == ReadExecutionAudit && KNOWN_CAPABILITIES[5] == ReadExecutionAuditSweep
        && KNOWN_CAPABILITIES[6] == ReadAuthorizationPolicyIntegrity && KNOWN_CAPABILITIES[7] == ReadAuthorizationPolicy
        && KNOWN_CAPABILITIES[8] == ReadAuthorizationDecision && KNOWN_CAPABILITIES[9] == ManageAuthorizationPolicy
        && KNOWN_CAPABILITIES[10] == ReadAuthorizationAdministrationHistory && KNOWN_CAPABILITIES[11] == ManageChannels;
  }

  /** The explicit part lists exactly the durable grants held. */
  ghost predicate ListsHeld(db: Db, who: Principal, participantId: string, explicit: seq<EffectiveGrant>) {
    && (forall c, resource :: Lists(explicit, c, resource) <==> HoldsDurableFor(db, who, participantId, c, resource))
    && (forall c :: (exists g | g in explicit :: g.capability == c) <==> HoldsDurable(db, who, participantId, c))
    && (forall g | g in explicit :: g.origin == Explicit)
  }

  function AsExplicit(g: DurableGrant): EffectiveGrant {
    EffectiveGrant(g.capability, g.resource, Explicit)
  }

  lemma HeldRowFacts(db: Db, who: Principal, participantId: string, id: int, g: DurableGrant)
    ensures (id, g) in HeldRows(db, who, participantId)
            <==> id in db.durable && g == db.durable[id] && IsExplicit(g, who, participantId, g.capability)
  {
  }

  lemma HeldGrantListed(db: Db, who: Principal, participantId: string, rows: seq<DurableRow>,
                        explicit: seq<EffectiveGrant>, id: int)
    requires IsSelection(rows, HeldRows(db, who, participantId), HeldOrder)
    requires |explicit| == |rows| && forall j | 0 <= j < |rows| :: explicit[j] == AsExplicit(rows[j].1)
    requires id in db.durable && IsExplicit(db.durable[id], who, participantId, db.durable[id].capability)
    ensures AsExplicit(db.durable[id]) in explicit
  {
    HeldRowFacts(db, who, participantId, id, db.durable[id]);
    var j :| 0 <= j < |rows| && rows[j] == (id, db.durable[id]);
    assert explicit[j] == AsExplicit(db.durable[id]);
  }

  lemma ListedGrantHeld(db: Db, who: Principal, participantId: string, rows: seq<DurableRow>,
                        explicit: seq<EffectiveGrant>, g: EffectiveGrant) returns (id: int)
    requires IsSelection(rows, HeldRows(db, who, participantId), HeldOrder)
    requires |explicit| == |rows| && forall j | 0 <= j < |rows| :: explicit[j] == AsExplicit(rows[j].1)
    requires g in explicit
    ensures id in db.durable && IsExplicit(db.durable[id], who, participantId, g.capability)
    ensures g == AsExplicit(db.durable[id])
  {
    var j :| 0 <= j < |explicit| && explicit[j] == g;
    id := rows[j].0;
    HeldRowFacts(db, who, participantId, id, rows[j].1);
  }

  lemma HeldGrantsListed(db: Db, who: Principal, participantId: string, rows: seq<DurableRow>,
                         explicit: seq<EffectiveGrant>)
    requires IsSelection(rows, HeldRows(db, who, participantId), HeldOrder)
    requires |explicit| == |rows| && forall j | 0 <= j < |rows| :: explicit[j] == AsExplicit(rows[j].1)
    ensures ListsHeld(db, who, participantId, explicit)
  {
    forall c, resource
      ensures Lists(explicit, c, resource) <==> HoldsDurableFor(db, who, participantId, c, resource)
    {
      if Lists(explicit, c, resource) {
        var g :| g in explicit && g.capability == c && Covers(g.resource, resource);
        var id := ListedGrantHeld(db, who, participantId, rows, explicit, g);
      }
      if HoldsDurableFor(db, who, participantId, c, resource) {
        var id :| id in db.durable && IsExplicit(db.durable[id], who, participantId, c)
                  && Covers(db.durable[id].resource, resource);
        HeldGrantListed(db, who, participantId, rows, explicit, id);
      }
    }
    forall c ensures (exists g | g in explicit :: g.capability == c) <==> HoldsDurable(db, who, participantId, c) {
      if g :| g in explicit && g.capability == c {
        var id := ListedGrantHeld(db, who, participantId, rows, explicit, g);
      }
      if HoldsDurable(db, who, participantId, c) {
        var id :| id in db.durable && IsExplicit(db.durable[id], who, participantId, c);
        HeldGrantListed(db, who, participantId, rows, explicit, id);
      }
    }
    forall g | g in explicit ensures g.origin == Explicit {
      var id := ListedGrantHeld(db, who, participantId, rows, explicit, g);
    }
  }

  /** The rows that give this capability on this resource. */
  function HeldIds(db: Db, who: Principal, participantId: string, c: Capability, resource: Option<string>): set<int> {
    set id | id in db.durable && db.durable[id] == DurableGrant(who, participantId, c, resource, Active)
  }

  function RowIds(rows: seq<DurableRow>, g: EffectiveGrant): set<int> {
    set i | 0 <= i < |rows| && AsExplicit(rows[i].1) == g :: rows[i].0
  }

  lemma {:induction false} RowsPerEntry(rows: seq<DurableRow>, explicit: seq<EffectiveGrant>, g: EffectiveGrant)
    requires forall i, j | 0 <= i < j < |rows| :: rows[i].0 != rows[j].0
    requires |explicit| == |rows| && forall j | 0 <= j < |rows| :: explicit[j] == AsExplicit(rows[j].1)
    ensures multiset(explicit)[g] == |RowIds(rows, g)|
  {
    hide AsExplicit;
    if rows == [] {
      assert RowIds(rows, g) == {};
    } else {
      var n := |rows| - 1;
      RowsPerEntry(rows[..n], explicit[..n], g);
      assert explicit == explicit[..n] + [explicit[n]];
      LastRow(rows, g);
    }
  }

  lemma LastRow(rows: seq<DurableRow>, g: EffectiveGrant)
    requires rows != [] && forall i, j | 0 <= i < j < |rows| :: rows[i].0 != rows[j].0
    ensures var n := |rows| - 1;
            |RowIds(rows, g)| == |RowIds(rows[..n], g)| + if AsExplicit(rows[n].1) == g then 1 else 0
  {
    hide AsExplicit;
    var n := |rows| - 1;
    var front, last := RowIds(rows[..n], g), rows[n].0;
    assert last !in front;
    forall id ensures id in RowIds(rows, g) <==> id in front || (AsExplicit(rows[n].1) == g && id == last) {
      if id in RowIds(rows, g) {
        var i :| 0 <= i < |rows| && AsExplicit(rows[i].1) == g && rows[i].0 == id;
        if i < n { assert rows[..n][i] == rows[i]; }
      }
      if id in front {
        var i :| 0 <= i < n && AsExplicit(rows[..n][i].1) == g && rows[..n][i].0 == id;
        assert rows[i].0 == id;
      }
    }
    assert RowIds(rows, g) == if AsExplicit(rows[n].1) == g then front + {last} else front;
  }

  /** Each entry stands for its rows, and is repeated as often as there are such rows. */
  ghost predicate CountsHeld(db: Db, who: Principal, participantId: string, explicit: seq<EffectiveGrant>) {
    forall g :: multiset(explicit)[g]
      == if g.origin == Explicit then |HeldIds(db, who, participantId, g.capability, g.resource)| else 0
  }

  lemma HeldGrantsCounted(db: Db, who: Principal, participantId: string, rows: seq<DurableRow>,
                          explicit: seq<EffectiveGrant>)
    requires IsSelection(rows, HeldRows(db, who, participantId), HeldOrder)
    requires |explicit| == |rows| && forall j | 0 <= j < |rows| :: explicit[j] == AsExplicit(rows[j].1)
    ensures CountsHeld(db, who, participantId, explicit)
  {
    hide Leq, HeldOrder;
    forall i, j | 0 <= i < j < |rows| ensures rows[i].0 != rows[j].0 {
      assert rows[i] in HeldRows(db, who, participantId) && rows[j] in HeldRows(db, who, participantId);
      assert Less(HeldOrder(rows[i]), HeldOrder(rows[j]));
    }
    forall g ensures multiset(explicit)[g]
                  == if g.origin == Explicit then |HeldIds(db, who, participantId, g.capability, g.resource)| else 0
    {
      RowsPerEntry(rows, explicit, g);
      RowIdsHeld(db, who, participantId, rows, g);
    }
  }

  lemma RowIdsHeld(db: Db, who: Principal, participantId: string, rows: seq<DurableRow>, g: EffectiveGrant)
    requires IsSelection(rows, HeldRows(db, who, participantId), HeldOrder)
    ensures RowIds(rows, g)
         == if g.origin == Explicit then HeldIds(db, who, participantId, g.capability, g.resource) else {}
  {
    hide Leq, HeldOrder;
    forall id ensures id in RowIds(rows, g)
                   <==> g.origin == Explicit && id in HeldIds(db, who, participantId, g.capability, g.resource)
    {
      if id in RowIds(rows, g) {
        var i :| 0 <= i < |rows| && AsExplicit(rows[i].1) == g && rows[i].0 == id;
        HeldRowFacts(db, who, participantId, rows[i].0, rows[i].1);
      }
      if g.origin == Explicit && id in HeldIds(db, who, participantId, g.capability, g.resource) {
        HeldRowFacts(db, who, participantId, id, db.durable[id]);
        var i :| 0 <= i < |rows| && rows[i] == (id, db.durable[id]);
        assert AsExplicit(rows[i].1) == g;
      }
    }
  }

  method ReadHeldGrants(conn: Connection, who: Principal, participantId: string) returns (explicit: seq<EffectiveGrant>)
    ensures ListsHeld(conn.tables, who, participantId, explicit)
    ensures CountsHeld(conn.tables, who, participantId, explicit)
  {
    hide ListsHeld, CountsHeld, AsExplicit, HeldRows;
    var db := conn.tables;
    HeldOrderDistinct(db, who, participantId);
    var rows := OrderRows(HeldRows(db, who, participantId), HeldOrder);
    explicit := [];
    for i := 0 to |rows|
      invariant |explicit| == i
      invariant forall j | 0 <= j < i :: explicit[j] == AsExplicit(rows[j].1)
    {
      explicit := explicit + [AsExplicit(rows[i].1)];
    }
    HeldGrantsListed(db, who, participantId, rows, explicit);
    HeldGrantsCounted(db, who, participantId, rows, explicit);
  }

  /** The implicit part: capabilities of `upTo` not held durably but held implicitly. */
  ghost predicate ListsImplicit(db: Db, who: Principal, participantId: string, implicit: seq<EffectiveGrant>,
                                upTo: seq<Capability>)
    requires participantId in db.participants
  {
    && (forall g | g in implicit ::
          && g.origin == Implicit && g.capability in upTo && g.resource == AdminResource(g.capability)
          && !HoldsDurable(db, who, participantId, g.capability)
          && ImplicitReason(who, participantId, g.capability, g.resource, db.participants[participantId]).Some?)
    && (forall c | c in upTo && !HoldsDurable(db, who, participantId, c)
                   && ImplicitReason(who, participantId, c, AdminResource(c), db.participants[participantId]).Some? ::
          EffectiveGrant(c, AdminResource(c), Implicit) in implicit)
  }

  lemma KnownOnce(i: nat)
    requires i < |KNOWN_CAPABILITIES|
    ensures KNOWN_CAPABILITIES[i] !in KNOWN_CAPABILITIES[..i]
  {
  }

  method ReadImplicitGrants(conn: Connection, now: int, who: Principal, participantId: string,
                            explicit: seq<EffectiveGrant>) returns (implicit: seq<EffectiveGrant>)
    requires participantId in conn.tables.participants
    requires conn.tables.participants[participantId].status == ParticipantActive
    requires ListsHeld(conn.tables, who, participantId, explicit)
    ensures ListsImplicit(conn.tables, who, participantId, implicit, KNOWN_CAPABILITIES)
    ensures forall g :: multiset(implicit)[g] <= 1
  {
    implicit := [];
    for i := 0 to |KNOWN_CAPABILITIES|
      invariant ListsImplicit(conn.tables, who, participantId, implicit, KNOWN_CAPABILITIES[..i])
      invariant forall g :: multiset(implicit)[g] <= 1
    {
      var c := KNOWN_CAPABILITIES[i];
      KnownOnce(i);
      assert KNOWN_CAPABILITIES[..i + 1] == KNOWN_CAPABILITIES[..i] + [c];
      if exists g | g in explicit :: g.capability == c {
        assert HoldsDurable(conn.tables, who, participantId, c);
        continue;
      }
      assert !HoldsDurable(conn.tables, who, participantId, c);
      assert !HoldsDurableFor(conn.tables, who, participantId, c, AdminResource(c));
      var d := EvaluateAuthorization(conn, now, who, participantId, c, AdminResource(c), None);
      ReadAuthority(conn.tables, now, who, participantId, c, AdminResource(c));
      if d.allowed {
        assert EffectiveGrant(c, AdminResource(c), Implicit) !in implicit;
        implicit := implicit + [EffectiveGrant(c, AdminResource(c), Implicit)];
      }
    }
    assert KNOWN_CAPABILITIES[..|KNOWN_CAPABILITIES|] == KNOWN_CAPABILITIES;
  }

  lemma ListsAppend(a: seq<EffectiveGrant>, b: seq<EffectiveGrant>, c: Capability, resource: Option<string>)
    ensures Lists(SortBy(a + b, EffectiveKey), c, resource) <==> Lists(a, c, resource) || Lists(b, c, resource)
  {
    var all := SortBy(a + b, EffectiveKey);
    forall g: EffectiveGrant ensures g in all <==> g in a || g in b {
      SortByMembers(a + b, EffectiveKey, g);
    }
  }

  /** Both parts together decide every read of an active participant. */
  lemma PartsDecide(db: Db, who: Principal, participantId: string, explicit: seq<EffectiveGrant>,
                    implicit: seq<EffectiveGrant>, c: Capability, resource: Option<string>)
    requires participantId in db.participants && db.participants[participantId].status == ParticipantActive
    requires ListsHeld(db, who, participantId, explicit)
    requires ListsImplicit(db, who, participantId, implicit, KNOWN_CAPABILITIES)
    ensures Authorized(db, 0, who, participantId, c, resource, None)
            <==> Lists(explicit, c, resource) || Lists(implicit, c, resource)
  {
    var row := db.participants[participantId];
    ImplicitScope(who, participantId, c, resource, row);
    KnownCapabilitiesComplete(c);
    if !HoldsDurable(db, who, participantId, c) && ImplicitReason(who, participantId, c, resource, row).Some? {
      var g := EffectiveGrant(c, AdminResource(c), Implicit);
      assert g in implicit;
    }
    if Lists(implicit, c, resource) {
      var g :| g in implicit && g.capability == c && Covers(g.resource, resource);
    }
  }

  // ---- the summary entry by entry -----------------------------------------------------------

  /** The resource a capability is listed with when nobody granted it. */
  function ListedResource(c: Capability): Option<string> {
    match c
    case ReadExecutionAuditSweep => Some("execution-audit-sweep")
    case ReadAuthorizationPolicyIntegrity => Some("authorization-policy-integrity")
    case ReadAuthorizationPolicy => Some("authorization-policy")
    case ReadAuthorizationDecision => Some("authorization-decision")
    case ManageAuthorizationPolicy => Some("authorization-policy-administration")
    case ReadAuthorizationAdministrationHistory => Some("authorization-administration-history")
    case _ => None
  }

  /** A capability held implicitly on its resource, with no durable grant for it in the way. */
  ghost predicate GivenImplicitly(db: Db, who: Principal, participantId: string, g: EffectiveGrant)
    requires participantId in db.participants
  {
    var q := Question(who, participantId, g.capability, g.resource, None);
    g.origin == Implicit && g.resource == ListedResource(g.capability) && !SomeDurable(db, q) && SomeImplicit(db, q)
  }

  /** By the name of the capability, then by resource, none first. */
  predicate EffectiveLeq(a: EffectiveGrant, b: EffectiveGrant) {
    var x, y := CapabilityName(a.capability), CapabilityName(b.capability);
    if x != y then TextLeq(x, y)
    else a.resource.None? || (b.resource.Some? && TextLeq(a.resource.value, b.resource.value))
  }

  /** Nothing for a participant that is missing or inactive; otherwise an explicit entry for every active row of
      the principal, an implicit one for every capability held without a grant, and no other, in order. */
  ghost predicate IsSummary(db: Db, who: Principal, participantId: string, grants: seq<EffectiveGrant>) {
    if participantId !in db.participants || db.participants[participantId].status == ParticipantDisabled then
      grants == []
    else
      && (forall g :: multiset(grants)[g] == match g.origin
            case Explicit => |HeldIds(db, who, participantId, g.capability, g.resource)|
            case Implicit => if GivenImplicitly(db, who, participantId, g) then 1 else 0)
      && (forall i, j | 0 <= i < j < |grants| :: EffectiveLeq(grants[i], grants[j]))
  }

  lemma EffectiveKeySpelled(a: EffectiveGrant, b: EffectiveGrant)
    requires Leq(EffectiveKey(a), EffectiveKey(b))
    ensures EffectiveLeq(a, b)
  {
    hide Leq, TextLeq, CapabilityName;
    var x, y := EffectiveKey(a), EffectiveKey(b);
    LeqHead(x, y);
    if x[0] == y[0] {
      LeqHead(x[1..], y[1..]);
      if a.resource.Some? { TextReflexive(a.resource.value); }
    }
  }

  lemma GivenExact(db: Db, who: Principal, participantId: string, implicit: seq<EffectiveGrant>, g: EffectiveGrant)
    requires participantId in db.participants
    requires ListsImplicit(db, who, participantId, implicit, KNOWN_CAPABILITIES)
    ensures g in implicit <==> GivenImplicitly(db, who, participantId, g)
  {
    hide ImplicitReason, Implies, HoldsDurable, SomeDurable, Conversational;
    var q := Question(who, participantId, g.capability, g.resource, None);
    var row := db.participants[participantId];
    DurableHeldSame(db, q);
    forall reason ensures ImplicitReason(who, participantId, g.capability, g.resource, row) == Some(reason)
                       <==> Implies(row, q, reason) { ImplicitSpelled(row, q, reason); }
    ListedKnown(who, participantId, g.capability, g.resource, row);
    assert g == EffectiveGrant(g.capability, g.resource, g.origin);
  }

  lemma ListedKnown(who: Principal, participantId: string, c: Capability, resource: Option<string>, row: Participant)
    ensures AdminResource(c) == ListedResource(c)
    ensures ImplicitReason(who, participantId, c, resource, row).Some? ==> c in KNOWN_CAPABILITIES
  {
    KnownCapabilitiesComplete(c);
  }

  lemma SummaryExact(db: Db, who: Principal, participantId: string, explicit: seq<EffectiveGrant>,
                     implicit: seq<EffectiveGrant>)
    requires participantId in db.participants && db.participants[participantId].status == ParticipantActive
    requires CountsHeld(db, who, participantId, explicit) && forall g :: multiset(implicit)[g] <= 1
    requires ListsImplicit(db, who, participantId, implicit, KNOWN_CAPABILITIES)
    ensures IsSummary(db, who, participantId, SortBy(explicit + implicit, EffectiveKey))
  {
    hide ListsImplicit, GivenImplicitly, HeldIds, EffectiveKey, EffectiveLeq, Leq;
    var grants := SortBy(explicit + implicit, EffectiveKey);
    forall g: EffectiveGrant ensures multiset(grants)[g] == match g.origin
                       case Explicit => |HeldIds(db, who, participantId, g.capability, g.resource)|
                       case Implicit => if GivenImplicitly(db, who, participantId, g) then 1 else 0
    {
      assert multiset(grants) == multiset(explicit) + multiset(implicit);
      GivenExact(db, who, participantId, implicit, g);
      assert g in implicit <==> multiset(implicit)[g] > 0;
      GivenOrigin(db, who, participantId, g);
    }
    forall i, j | 0 <= i < j < |grants| ensures EffectiveLeq(grants[i], grants[j]) {
      EffectiveKeySpelled(grants[i], grants[j]);
    }
  }

  lemma GivenOrigin(db: Db, who: Principal, participantId: string, g: EffectiveGrant)
    requires participantId in db.participants
    ensures GivenImplicitly(db, who, participantId, g) ==> g.origin == Implicit
  {
  }

  /** The summary agrees with the evaluator on every capability and resource, at any time: an
      evaluation without intent allows exactly what the list covers. */
  method ReadEffectiveGrants(conn: Connection, now: int, who: Principal, participantId: string)
    returns (grants: seq<EffectiveGrant>)
    ensures forall t, c, resource ::
              Decide(conn.tables, t, who, participantId, c, resource, None).allowed <==> Lists(grants, c, resource)
    ensures IsSummary(conn.tables, who, participantId, grants)
  {
    hide CountsHeld;
    if participantId !in conn.tables.participants
       || conn.tables.participants[participantId].status != ParticipantActive {
      return [];
    }
    var explicit := ReadHeldGrants(conn, who, participantId);
    var implicit := ReadImplicitGrants(conn, now, who, participantId, explicit);
    grants := SortBy(explicit + implicit, EffectiveKey);
    SummaryExact(conn.tables, who, participantId, explicit, implicit);
    forall t, c, resource
      ensures Decide(conn.tables, t, who, participantId, c, resource, None).allowed <==> Lists(grants, c, resource)
    {
      ReadAuthority(conn.tables, t, who, participantId, c, resource);
      PartsDecide(conn.tables, who, participantId, explicit, implicit, c, resource);
      ListsAppend(explicit, implicit, c, resource);
    }
  }
}
