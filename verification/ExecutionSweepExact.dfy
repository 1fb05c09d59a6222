/** The sweep's two lists: how they are ordered, that nothing is listed twice, and how many receipts were
    looked at. */
module ExecutionSweepExact {
  import opened Text
  import opened Order
  import opened Tables
  import opened ExecutionAudit
  import opened ExecutionSweep
  import opened AuthorizationPreference

  // ---- order --------------------------------------------------------------------------------

  function KindName(kind: OrphanKind): string {
    match kind
    case OrphanAuthorizationProvenance => "orphan_authorization_provenance"
    case OrphanIngressProvenance => "orphan_ingress_provenance"
    case OrphanNavigationReservation => "orphan_navigation_reservation"
    case UnboundLegacyIngress => "unbound_legacy_ingress"
  }

  /** An absent text comes before every other. */
  predicate OptionLeq(a: Option<string>, b: Option<string>) {
    a.None? || (b.Some? && TextLeq(a.value, b.value))
  }

  /** By the name of the kind, then participant, intent and reference. */
  predicate OrphanLeq(a: Orphan, b: Orphan) {
    if a.kind != b.kind then TextLeq(KindName(a.kind), KindName(b.kind))
    else if a.participant != b.participant then OptionLeq(a.participant, b.participant)
    else if a.intent != b.intent then TextLeq(a.intent, b.intent)
    else OptionLeq(a.reference, b.reference)
  }

  /** The ranks of the kinds are the order of their names. */
  lemma KindsRanked(a: OrphanKind, b: OrphanKind)
    requires OrphanRank(a) < OrphanRank(b)
    ensures TextLeq(KindName(a), KindName(b))
  {
    var x, y := KindName(a), KindName(b);
    if b == UnboundLegacyIngress {
      FirstDifference(x, y, 0);
    } else {
      assert x[..7] == "orphan_" && y[..7] == "orphan_";
      FirstDifference(x, y, 7);
    }
  }

  lemma OptionRanked(a: Option<string>, b: Option<string>)
    requires AtomLeq(TextColumn(a), TextColumn(b))
    ensures OptionLeq(a, b)
  {
  }

  lemma LastLeq(a: Key, b: Key)
    requires |a| == 1 && |b| == 1 && Leq(a, b)
    ensures AtomLeq(a[0], b[0])
  {
    AtomLinear(a[0], b[0], a[0]);
  }

  lemma OrphanKeySpelled(a: Orphan, b: Orphan)
    requires Leq(OrphanKey(a), OrphanKey(b))
    ensures OrphanLeq(a, b)
  {
    hide Leq, KindName, TextLeq, OptionLeq;
    var x, y := OrphanKey(a), OrphanKey(b);
    LeqHead(x, y);
    if a.kind != b.kind {
      KindsRanked(a.kind, b.kind);
    } else {
      LeqHead(x[1..], y[1..]);
      if a.participant != b.participant {
        OptionRanked(a.participant, b.participant);
      } else {
        LeqHead(x[1..][1..], y[1..][1..]);
        if a.intent == b.intent {
          LastLeq(x[1..][1..][1..], y[1..][1..][1..]);
          OptionRanked(a.reference, b.reference);
        }
      }
    }
  }

  lemma OrphansOrdered(db: Db, i: nat, j: nat)
    requires i < j < |SortBy(OrphanList(db), OrphanKey)|
    ensures OrphanLeq(SortBy(OrphanList(db), OrphanKey)[i], SortBy(OrphanList(db), OrphanKey)[j])
  {
    hide OrphanList, OrphanKey, OrphanLeq, Leq;
    var found := SortBy(OrphanList(db), OrphanKey);
    OrphanKeySpelled(found[i], found[j]);
  }

  // ---- nothing twice ------------------------------------------------------------------------

  ghost predicate NoneTwice<T>(a: seq<T>) {
    forall i, j | 0 <= i < j < |a| :: a[i] != a[j]
  }

  lemma JoinNoneTwice<T>(a: seq<T>, b: seq<T>)
    requires NoneTwice(a) && NoneTwice(b) && forall x | x in a :: x !in b
    ensures NoneTwice(a + b)
  {
    forall i, j | 0 <= i < j < |a + b| ensures (a + b)[i] != (a + b)[j] {
      if i < |a| <= j { assert a[i] in a && b[j - |a|] in b; }
    }
  }

  lemma {:induction false} NoneTwiceCounts<T>(a: seq<T>)
    requires NoneTwice(a)
    ensures forall x :: multiset(a)[x] <= 1
  {
    if a != [] {
      var front := a[..|a| - 1];
      var last := a[|a| - 1];
      assert a == front + [last];
      NoneTwiceCounts(front);
      assert last !in front;
      assert multiset(a) == multiset(front) + multiset{last};
    }
  }

  lemma CountsNoneTwice<T>(a: seq<T>)
    requires forall x :: multiset(a)[x] <= 1
    ensures NoneTwice(a)
  {
    forall i, j | 0 <= i < j < |a| ensures a[i] != a[j] {
      assert a == a[..j] + a[j..] && a[i] == a[..j][i] && a[j] == a[j..][0];
      assert multiset(a) == multiset(a[..j]) + multiset(a[j..]);
      assert a[i] in a[..j] && a[j] in a[j..];
      assert multiset(a[..j])[a[i]] >= 1 && multiset(a[j..])[a[j]] >= 1;
      assert multiset(a)[a[i]] == multiset(a[..j])[a[i]] + multiset(a[j..])[a[i]];
    }
  }

  lemma SortNoneTwice<T>(a: seq<T>, key: T -> Key)
    requires NoneTwice(a)
    ensures NoneTwice(SortBy(a, key))
  {
    NoneTwiceCounts(a);
    CountsNoneTwice(SortBy(a, key));
  }

  lemma SelectNoneTwice(ids: set<ExecutionId>)
    ensures NoneTwice(InOrder(ids))
  {
    hide Leq;
  }

  lemma KeyedNoneTwice(db: Db)
    ensures NoneTwice(ProvenanceOrphans(db, InOrder(UnreceiptedProvenance(db))))
    ensures NoneTwice(ReservationOrphans(db, InOrder(UnreceiptedReservations(db))))
  {
    hide InOrder, UnreceiptedProvenance, UnreceiptedReservations, Decimal;
    SelectNoneTwice(UnreceiptedProvenance(db));
    SelectNoneTwice(UnreceiptedReservations(db));
  }

  lemma {:induction false} IngressNoneTwice(db: Db, rows: seq<DeliveryRow>)
    requires forall i, j | 0 <= i < j < |rows| :: rows[i].0 != rows[j].0
    ensures NoneTwice(FlatIngress(db, rows))
    ensures forall o | o in FlatIngress(db, rows) ::
              && (o.kind == UnboundLegacyIngress || o.kind == OrphanIngressProvenance)
              && exists i | 0 <= i < |rows| :: o.reference == Some(rows[i].0)
  {
    hide Blank;
    if rows != [] {
      var front, last := rows[..|rows| - 1], rows[|rows| - 1];
      IngressNoneTwice(db, front);
      forall o | o in FlatIngress(db, front) ensures o !in IngressOrphans(db, last.0, last.1) {
        var i :| 0 <= i < |front| && o.reference == Some(front[i].0);
        assert rows[i] == front[i];
      }
      JoinNoneTwice(FlatIngress(db, front), IngressOrphans(db, last.0, last.1));
      forall o | o in FlatIngress(db, rows) ensures exists i | 0 <= i < |rows| :: o.reference == Some(rows[i].0) {
        if o in FlatIngress(db, front) {
          var i :| 0 <= i < |front| && o.reference == Some(front[i].0);
          assert rows[i] == front[i];
        } else {
          assert o.reference == Some(rows[|rows| - 1].0);
        }
      }
    }
  }

  lemma IngressTableNoneTwice(db: Db)
    ensures NoneTwice(FlatIngress(db, IngressTable(db)))
    ensures forall o | o in FlatIngress(db, IngressTable(db)) ::
              o.kind == UnboundLegacyIngress || o.kind == OrphanIngressProvenance
  {
    hide Leq, FlatIngress;
    var rows := IngressTable(db);
    forall i, j | 0 <= i < j < |rows| ensures rows[i].0 != rows[j].0 {
      assert rows[i] in AllIngress(db) && rows[j] in AllIngress(db);
      assert Less(IngressOrder(rows[i]), IngressOrder(rows[j]));
    }
    IngressNoneTwice(db, rows);
  }

  lemma OrphansOnce(db: Db)
    ensures NoneTwice(SortBy(OrphanList(db), OrphanKey))
  {
    hide FlatIngress, IngressTable, NoneTwice, InOrder, UnreceiptedProvenance, UnreceiptedReservations, OrphanKey,
         Decimal;
    var a := ProvenanceOrphans(db, InOrder(UnreceiptedProvenance(db)));
    var b := FlatIngress(db, IngressTable(db));
    var c := ReservationOrphans(db, InOrder(UnreceiptedReservations(db)));
    KeyedNoneTwice(db);
    IngressTableNoneTwice(db);
    assert forall o | o in a :: o.kind == OrphanAuthorizationProvenance;
    assert forall o | o in c :: o.kind == OrphanNavigationReservation;
    JoinNoneTwice(a, b);
    JoinNoneTwice(a + b, c);
    SortNoneTwice(OrphanList(db), OrphanKey);
  }

  // ---- the invalid executions ---------------------------------------------------------------

  predicate IdLess(a: ExecutionId, b: ExecutionId) {
    a != b && (if a.participant != b.participant then TextLeq(a.participant, b.participant)
               else TextLeq(a.intent, b.intent))
  }

  ghost predicate Rising(ids: seq<ExecutionId>) {
    forall i, j | 0 <= i < j < |ids| :: IdLess(ids[i], ids[j])
  }

  lemma InOrderRises(ids: set<ExecutionId>)
    ensures Rising(InOrder(ids))
  {
    hide Leq, TextLeq;
    var r := InOrder(ids);
    forall i, j | 0 <= i < j < |r| ensures IdLess(r[i], r[j]) {
      assert Less(IdOrder(r[i]), IdOrder(r[j]));
      var x, y := IdOrder(r[i]), IdOrder(r[j]);
      LeqHead(x, y);
      if x[0] == y[0] { LastLeq(x[1..], y[1..]); }
    }
  }

  ghost predicate Among(ids: seq<ExecutionId>, id: ExecutionId) {
    exists n | 0 <= n < |ids| :: ids[n] == id
  }

  ghost predicate ReportsRise(found: seq<AuditReport>, ids: seq<ExecutionId>) {
    && (forall i | 0 <= i < |found| :: Among(ids, found[i].id))
    && (forall i, j | 0 <= i < j < |found| :: IdLess(found[i].id, found[j].id))
  }

  lemma OneMoreReport(found: seq<AuditReport>, ids: seq<ExecutionId>, last: AuditReport)
    requires Rising(ids + [last.id]) && ReportsRise(found, ids)
    ensures ReportsRise(found, ids + [last.id]) && ReportsRise(found + [last], ids + [last.id])
  {
    hide IdLess;
    var all := ids + [last.id];
    forall i | 0 <= i < |found| ensures Among(all, found[i].id) && IdLess(found[i].id, last.id) {
      var n :| 0 <= n < |ids| && ids[n] == found[i].id;
      assert all[n] == found[i].id && all[|ids|] == last.id;
    }
    assert all[|ids|] == last.id;
  }

  /** The reports come in the order of the ids. */
  lemma {:induction false} InvalidRise(h: Hash, db: Db, ids: seq<ExecutionId>)
    requires Rising(ids)
    ensures ReportsRise(InvalidReports(h, db, ids), ids)
  {
    hide Defects, Passed, IdLess, ReportsRise;
    if ids == [] {
      assert ReportsRise([], ids) by { NoReports(ids); }
    } else {
      var front, last := ids[..|ids| - 1], Report(h, db, ids[|ids| - 1]);
      assert ids == front + [last.id];
      InvalidRise(h, db, front);
      OneMoreReport(InvalidReports(h, db, front), front, last);
      assert InvalidReports(h, db, front) + [] == InvalidReports(h, db, front);
      assert ReportsRise(InvalidReports(h, db, front) + (if last.valid then [] else [last]), ids);
    }
  }

  lemma NoReports(ids: seq<ExecutionId>)
    ensures ReportsRise([], ids)
  {
  }

  /** The shape of the sweep on arbitrary tables: orphans in the order of kind name, participant, intent and
      reference, none twice; invalid executions in the order of participant and intent; as many receipts
      scanned as there are. */
  lemma SweepShape(h: Hash, db: Db)
    ensures var orphans := SortBy(OrphanList(db), OrphanKey);
            && (forall i, j | 0 <= i < j < |orphans| :: orphans[i] != orphans[j] && OrphanLeq(orphans[i], orphans[j]))
    ensures var invalid := InvalidReports(h, db, InOrder(db.receipts.Keys));
            forall i, j | 0 <= i < j < |invalid| :: IdLess(invalid[i].id, invalid[j].id)
    ensures |InOrder(db.receipts.Keys)| == |db.receipts|
  {
    hide OrphanList, OrphanKey, OrphanLeq, InvalidReports, IdLess;
    var orphans := SortBy(OrphanList(db), OrphanKey);
    OrphansOnce(db);
    forall i, j | 0 <= i < j < |orphans| ensures orphans[i] != orphans[j] && OrphanLeq(orphans[i], orphans[j]) {
      OrphansOrdered(db, i, j);
    }
    InOrderRises(db.receipts.Keys);
    InvalidRise(h, db, InOrder(db.receipts.Keys));
    SelectNoneTwice(db.receipts.Keys);
    RowsCounted(InOrder(db.receipts.Keys), db.receipts.Keys);
  }
}
