/** The policy audit lists no violation twice, on any tables. */
module PolicyAuditOnce {
  import opened Text
  import opened Order
  import opened Tables
  import opened Authorization
  import opened PolicyAudit

  /** How often a list names a violation. */
  ghost function Times(found: seq<Violation>, v: Violation): (n: nat)
    ensures n == multiset(found)[v]
    ensures n > 0 <==> v in found
  {
    multiset(found)[v]
  }

  lemma TimesJoin(a: seq<Violation>, b: seq<Violation>, v: Violation)
    ensures Times(a + b, v) == Times(a, v) + Times(b, v)
  {
    assert multiset(a + b) == multiset(a) + multiset(b);
  }

  lemma TimesWhen(condition: bool, x: Violation, v: Violation)
    ensures Times(When(condition, x), v) == if condition && v == x then 1 else 0
  {
  }

  /** Two lists whose violations differ in kind, each without repetition. */
  lemma JoinOnce(a: seq<Violation>, b: seq<Violation>, v: Violation)
    requires Times(a, v) <= 1 && Times(b, v) <= 1 && (v in a ==> v !in b)
    ensures Times(a + b, v) <= 1
  {
    TimesJoin(a, b, v);
  }

  /** One more possible violation of a kind the list does not have. */
  lemma WhenOnce(a: seq<Violation>, condition: bool, x: Violation, v: Violation)
    requires Times(a, v) <= 1 && (v in a ==> v.kind != x.kind)
    ensures Times(a + When(condition, x), v) <= 1
    ensures v in a + When(condition, x) <==> v in a || (condition && v == x)
  {
    TimesWhen(condition, x, v);
    TimesJoin(a, When(condition, x), v);
  }

  /** A list without repetition of v, whose violations are of these kinds. */
  ghost predicate OnceAmong(found: seq<Violation>, kinds: set<Kind>, v: Violation) {
    Times(found, v) <= 1 && (v in found ==> v.kind in kinds)
  }

  lemma StartOnce(condition: bool, x: Violation, v: Violation)
    ensures OnceAmong(When(condition, x), {x.kind}, v)
  {
    TimesWhen(condition, x, v);
  }

  lemma AddOnce(found: seq<Violation>, kinds: set<Kind>, condition: bool, x: Violation, v: Violation)
    requires OnceAmong(found, kinds, v) && x.kind !in kinds
    ensures OnceAmong(found + When(condition, x), kinds + {x.kind}, v)
  {
    hide When, Times;
    WhenOnce(found, condition, x, v);
  }

  lemma TextOnce(store: GrantStore, id: int, who: Principal, p: string, c: Capability, resource: Option<string>,
                 v: Violation)
    ensures OnceAmong(TextFindings(store, id, who, p, c, resource),
                      {MalformedPrincipalProvider} + {MalformedPrincipalSubject} + {MalformedParticipantId}
                      + {MalformedCapability} + {MalformedResource}, v)
  {
    hide When, OnceAmong, Malformed, MalformedOptional, CapabilityName;
    var x := Violation(MalformedPrincipalProvider, store, id, p, BLANK_DETAIL);
    var y := x.(kind := MalformedPrincipalSubject);
    var z := x.(kind := MalformedParticipantId);
    var w := x.(kind := MalformedCapability);
    var a := When(Malformed(who.provider), x);
    var b := a + When(Malformed(who.subject), y);
    var d := b + When(Malformed(p), z);
    var e := d + When(Malformed(CapabilityName(c)), w);
    StartOnce(Malformed(who.provider), x, v);
    AddOnce(a, {x.kind}, Malformed(who.subject), y, v);
    AddOnce(b, {x.kind} + {y.kind}, Malformed(p), z, v);
    AddOnce(d, {x.kind} + {y.kind} + {z.kind}, Malformed(CapabilityName(c)), w, v);
    AddOnce(e, {x.kind} + {y.kind} + {z.kind} + {w.kind}, MalformedOptional(resource), x.(kind := MalformedResource),
            v);
  }

  lemma DurableShapeOnce(db: Db, id: int, g: DurableGrant, v: Violation)
    ensures var found := DurableShapeFindings(db, id, g);
            Times(found, v) <= 1 && (v in found ==>
                                     v.kind in {MissingParticipant, UnsupportedCapability, InvalidStatus})
  {
    hide When, Times, IsKnown, CapabilityName, StatusText;
    var p := g.participantId;
    var x := Violation(MissingParticipant, DurableStore, id, p, PARTICIPANT_DETAIL);
    var y := Violation(UnsupportedCapability, DurableStore, id, p, CapabilityName(g.capability));
    TimesWhen(p !in db.participants, x, v);
    WhenOnce(When(p !in db.participants, x), !IsKnown(g.capability), y, v);
    WhenOnce(When(p !in db.participants, x) + When(!IsKnown(g.capability), y), g.status.OtherGrantStatus?,
             Violation(InvalidStatus, DurableStore, id, p, StatusText(g.status)), v);
  }

  lemma DelegatedShapeOnce(db: Db, id: int, g: DelegatedGrant, v: Violation)
    ensures var found := DelegatedShapeFindings(db, id, g);
            && Times(found, v) <= 1
            && (v in found ==> v.kind in {MissingParticipant, UnsupportedCapability, InvalidStatus, InvalidOneShotFlag})
  {
    hide When, Times, IsKnown, CapabilityName, StatusText, Decimal;
    var p := g.participantId;
    var x := Violation(MissingParticipant, DelegatedStore, id, p, PARTICIPANT_DETAIL);
    var y := Violation(UnsupportedCapability, DelegatedStore, id, p, CapabilityName(g.capability));
    var z := Violation(InvalidStatus, DelegatedStore, id, p, StatusText(g.status));
    var a := When(p !in db.participants, x);
    TimesWhen(p !in db.participants, x, v);
    WhenOnce(a, !IsKnown(g.capability), y, v);
    var b := a + When(!IsKnown(g.capability), y);
    WhenOnce(b, g.status.OtherGrantStatus?, z, v);
    WhenOnce(b + When(g.status.OtherGrantStatus?, z), g.oneShot != 0 && g.oneShot != 1,
             Violation(InvalidOneShotFlag, DelegatedStore, id, p, Decimal(g.oneShot)), v);
  }

  lemma ConsumptionOnce(db: Db, id: int, g: DelegatedGrant, v: Violation)
    ensures OnceAmong(ConsumptionFindings(db, id, g),
                      {PartialConsumptionMetadata} + {NonOneShotConsumptionMetadata}
                          + {ConsumedIntentConflictsWithBinding}
                      + {ConsumedOneShotWithoutCommittedReceipt}, v)
  {
    hide When, OnceAmong, ConsumptionConflict, ConsumedUnreceipted, ConflictDetail;
    var p := g.participantId;
    var partial := g.consumedAt.Some? != g.consumedIntentId.Some?;
    var marked := g.oneShot == 0 && (g.consumedAt.Some? || g.consumedIntentId.Some?);
    var x := Violation(PartialConsumptionMetadata, DelegatedStore, id, p, PARTIAL_DETAIL);
    var y := Violation(NonOneShotConsumptionMetadata, DelegatedStore, id, p, NON_ONE_SHOT_DETAIL);
    var z := Violation(ConsumedIntentConflictsWithBinding, DelegatedStore, id, p, ConflictDetail(g));
    var w := Violation(ConsumedOneShotWithoutCommittedReceipt, DelegatedStore, id, p,
                       if g.consumedIntentId.Some? then g.consumedIntentId.value else "");
    var a := When(partial, x);
    var b := a + When(marked, y);
    StartOnce(partial, x, v);
    AddOnce(a, {x.kind}, marked, y, v);
    AddOnce(b, {x.kind} + {y.kind}, ConsumptionConflict(g), z, v);
    AddOnce(b + When(ConsumptionConflict(g), z), {x.kind} + {y.kind} + {z.kind}, ConsumedUnreceipted(db, g), w, v);
  }

  lemma DurableRowOnce(db: Db, id: int, g: DurableGrant, v: Violation)
    ensures Times(DurableFindings(db, id, g), v) <= 1
  {
    hide Times, TextFindings, DurableShapeFindings;
    TextOnce(DurableStore, id, g.principal, g.participantId, g.capability, g.resource, v);
    DurableShapeOnce(db, id, g, v);
    JoinOnce(TextFindings(DurableStore, id, g.principal, g.participantId, g.capability, g.resource),
             DurableShapeFindings(db, id, g), v);
  }

  lemma DelegatedRowOnce(db: Db, id: int, g: DelegatedGrant, v: Violation)
    ensures Times(DelegatedFindings(db, id, g), v) <= 1
  {
    hide Times, TextFindings, DelegatedShapeFindings, ConsumptionFindings, When, MalformedOptional;
    var text := TextFindings(DelegatedStore, id, g.principal, g.participantId, g.capability, g.resource);
    var x := Violation(MalformedIntentId, DelegatedStore, id, g.participantId, BLANK_DETAIL);
    TextOnce(DelegatedStore, id, g.principal, g.participantId, g.capability, g.resource, v);
    WhenOnce(text, MalformedOptional(g.intentId), x, v);
    var a := text + When(MalformedOptional(g.intentId), x);
    DelegatedShapeOnce(db, id, g, v);
    JoinOnce(a, DelegatedShapeFindings(db, id, g), v);
    ConsumptionOnce(db, id, g, v);
    JoinOnce(a + DelegatedShapeFindings(db, id, g), ConsumptionFindings(db, id, g), v);
  }

  // ---- the three parts of the report --------------------------------------------------------

  lemma {:induction false} FlatDurableOnce(db: Db, rows: seq<DurableRow>, v: Violation)
    requires forall i, j | 0 <= i < j < |rows| :: rows[i].0 < rows[j].0
    ensures Times(FlatDurable(db, rows), v) <= 1
  {
    hide Times, DurableFindings;
    if rows != [] {
      var front, last := rows[..|rows| - 1], rows[|rows| - 1];
      FlatDurableOnce(db, front, v);
      DurableRowOnce(db, last.0, last.1, v);
      FlatDurableMember(db, front, v);
      if v in FlatDurable(db, front) && v in DurableFindings(db, last.0, last.1) {
        var i :| 0 <= i < |front| && v in DurableFindings(db, front[i].0, front[i].1);
        assert rows[i].0 < last.0;
        DurableFindingsShape(db, front[i].0, front[i].1, v);
        DurableFindingsShape(db, last.0, last.1, v);
        assert false;
      }
      JoinOnce(FlatDurable(db, front), DurableFindings(db, last.0, last.1), v);
    }
  }

  lemma {:induction false} FlatDelegatedOnce(db: Db, rows: seq<DelegatedRow>, v: Violation)
    requires forall i, j | 0 <= i < j < |rows| :: rows[i].0 < rows[j].0
    ensures Times(FlatDelegated(db, rows), v) <= 1
  {
    hide Times, DelegatedFindings;
    if rows != [] {
      var front, last := rows[..|rows| - 1], rows[|rows| - 1];
      FlatDelegatedOnce(db, front, v);
      DelegatedRowOnce(db, last.0, last.1, v);
      FlatDelegatedMember(db, front, v);
      if v in FlatDelegated(db, front) && v in DelegatedFindings(db, last.0, last.1) {
        var i :| 0 <= i < |front| && v in DelegatedFindings(db, front[i].0, front[i].1);
        assert rows[i].0 < last.0;
        DelegatedFindingsShape(db, front[i].0, front[i].1, v);
        DelegatedFindingsShape(db, last.0, last.1, v);
        assert false;
      }
      JoinOnce(FlatDelegated(db, front), DelegatedFindings(db, last.0, last.1), v);
    }
  }

  lemma {:induction false} GroupBagOnce(db: Db, scopes: set<ScopeKey>, v: Violation)
    ensures GroupBag(DurableTable(db), scopes)[v] <= 1
    decreases |scopes|
  {
    hide DurableTable, IdsOf, GroupFindings;
    var rows := DurableTable(db);
    if k :| k in scopes {
      GroupBagRemove(rows, scopes, k);
      GroupBagOnce(db, scopes - {k}, v);
      GroupBagMember(rows, scopes - {k}, v);
      GroupOnce(k, IdsOf(rows, k), v);
      if v in GroupFindings(k, IdsOf(rows, k)) && v in GroupBag(rows, scopes - {k}) {
        var j :| j in scopes - {k} && v in GroupFindings(j, IdsOf(rows, j));
        GroupFindingsShape(db, k, v);
        GroupFindingsShape(db, j, v);
        assert false;
      }
    } else {
      assert scopes == {};
      GroupBagEmpty(rows);
    }
  }

  lemma GroupOnce(k: ScopeKey, ids: seq<int>, v: Violation)
    ensures multiset(GroupFindings(k, ids))[v] <= 1
    ensures v in GroupFindings(k, ids) <==> multiset(GroupFindings(k, ids))[v] > 0
  {
  }

  lemma DelegatedTableAscends(db: Db)
    ensures forall i, j | 0 <= i < j < |DelegatedTable(db)| :: DelegatedTable(db)[i].0 < DelegatedTable(db)[j].0
  {
    var rows := DelegatedTable(db);
    forall i, j | 0 <= i < j < |rows| ensures rows[i].0 < rows[j].0 {
      assert Less(DelegatedById(rows[i]), DelegatedById(rows[j]));
      assert DelegatedById(rows[i])[0] == Num(rows[i].0) && DelegatedById(rows[j])[0] == Num(rows[j].0);
    }
  }

  /** On arbitrary tables the report lists every violation the rows call for exactly once, and no other. */
  lemma ReportedOnce(db: Db, v: Violation)
    ensures multiset(PolicyViolations(db))[v] == if Finds(db, v) then 1 else 0
  {
    hide PolicyViolations, Finds, FlatDurable, FlatDelegated, GroupBag, DurableTable, DelegatedTable, ScopesOf, Times;
    var rows := DurableTable(db);
    DurableTableFacts(db);
    DelegatedTableAscends(db);
    FlatDurableOnce(db, rows, v);
    FlatDelegatedOnce(db, DelegatedTable(db), v);
    GroupBagOnce(db, ScopesOf(rows), v);
    DurablePartExact(db, v);
    DelegatedPartExact(db, v);
    GroupBagMember(rows, ScopesOf(rows), v);
    GroupsApart(db, v);
    ReportExact(db, v);
    assert v in PolicyViolations(db) <==> multiset(PolicyViolations(db))[v] > 0;
  }

  /** A violation comes from one of the three parts only. */
  lemma GroupsApart(db: Db, v: Violation)
    ensures v in FlatDurable(db, DurableTable(db)) ==> v.store == DurableStore && v.kind != DuplicateDurableScope
    ensures v in FlatDelegated(db, DelegatedTable(db)) ==> v.store == DelegatedStore
    ensures v in GroupBag(DurableTable(db), ScopesOf(DurableTable(db))) ==>
            v.store == DurableStore && v.kind == DuplicateDurableScope
  {
    hide FlatDurable, FlatDelegated, GroupBag, DurableTable, DelegatedTable, ScopesOf, DurableFindings,
         DelegatedFindings, GroupFindings, IdsOf;
    var rows := DurableTable(db);
    DurablePartExact(db, v);
    DelegatedPartExact(db, v);
    GroupBagMember(rows, ScopesOf(rows), v);
    if v in FlatDurable(db, rows) { DurableFindingsShape(db, v.grantId, db.durable[v.grantId], v); }
    if k :| k in ScopesOf(rows) && v in GroupFindings(k, IdsOf(rows, k)) { GroupFindingsShape(db, k, v); }
  }
}
