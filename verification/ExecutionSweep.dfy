/** src/execution.rs, `sweep_execution_audit_integrity`: verify every receipt and list every evidence
    row that no receipt accounts for. */
module ExecutionSweep {
  import opened Text
  import opened Order
  import opened Tables
  import opened ExecutionAudit

  datatype OrphanKind =
    | OrphanAuthorizationProvenance
    | OrphanIngressProvenance
    | OrphanNavigationReservation
    | UnboundLegacyIngress

  datatype Orphan = Orphan(kind: OrphanKind, participant: Option<string>, intent: string, reference: Option<string>)

  datatype SweepReport = SweepReport(
    valid: bool, scanned: nat, invalid: seq<AuditReport>, orphans: seq<Orphan>)

  function OrphanRank(k: OrphanKind): nat {
    match k
    case OrphanAuthorizationProvenance => 0
    case OrphanIngressProvenance => 1
    case OrphanNavigationReservation => 2
    case UnboundLegacyIngress => 3
  }

  function OrphanKey(o: Orphan): Key {
    [Num(OrphanRank(o.kind)), TextColumn(o.participant), Str(o.intent), TextColumn(o.reference)]
  }

  // ---- the rows examined --------------------------------------------------------------------

  function IdOrder(id: ExecutionId): Key {
    [Str(id.participant), Str(id.intent)]
  }

  lemma IdOrderDistinct(ids: set<ExecutionId>)
    ensures Distinct(ids, IdOrder)
  {
    forall x, y | x in ids && y in ids && IdOrder(x) == IdOrder(y) ensures x == y {
      assert IdOrder(x)[0] == IdOrder(y)[0] && IdOrder(x)[1] == IdOrder(y)[1];
    }
  }

  ghost function InOrder(ids: set<ExecutionId>): (r: seq<ExecutionId>)
    ensures forall id :: id in r <==> id in ids
    ensures Distinct(ids, IdOrder)
  {
    IdOrderDistinct(ids);
    Select(ids, IdOrder)
  }

  function UnreceiptedProvenance(db: Db): set<ExecutionId> {
    set k | k in db.provenance && k !in db.receipts
  }

  function UnreceiptedReservations(db: Db): set<ExecutionId> {
    set k | k in db.reservations && k !in db.receipts
  }

  function GrantReference(grantId: Option<int>): Option<string> {
    if grantId.Some? then Some("grant_id=" + Decimal(grantId.value)) else None
  }

  function ProvenanceOrphan(db: Db, k: ExecutionId): Orphan {
    Orphan(OrphanAuthorizationProvenance, Some(k.participant), k.intent,
           if k in db.provenance then GrantReference(db.provenance[k].grantId) else None)
  }

  function ReservationOrphan(db: Db, k: ExecutionId): Orphan {
    Orphan(OrphanNavigationReservation, Some(k.participant), k.intent,
           if k in db.reservations then Some("message_id=" + Decimal(db.reservations[k].messageId)) else None)
  }

  /** What one ingress row contributes: unbound, orphaned, or nothing. */
  function IngressOrphans(db: Db, d: string, row: Ingress): seq<Orphan> {
    if row.participantId.None? || Blank(row.participantId.value)
    then [Orphan(UnboundLegacyIngress, None, row.intentId, Some(d))]
    else if ExecutionId(row.participantId.value, row.intentId) !in db.receipts
    then [Orphan(OrphanIngressProvenance, row.participantId, row.intentId, Some(d))]
    else []
  }

  function AllIngress(db: Db): set<DeliveryRow> {
    set d | d in db.ingress :: (d, db.ingress[d])
  }

  function IngressOrder(row: DeliveryRow): Key {
    [Str(row.1.intentId), Str(row.0)]
  }

  lemma IngressOrderDistinct(db: Db)
    ensures Distinct(AllIngress(db), IngressOrder)
  {
    forall x: DeliveryRow, y: DeliveryRow | IngressOrder(x) == IngressOrder(y) ensures x.0 == y.0 {
      assert IngressOrder(x)[1] == IngressOrder(y)[1];
    }
  }

  ghost function IngressTable(db: Db): (rows: seq<DeliveryRow>)
    ensures Distinct(AllIngress(db), IngressOrder)
  {
    IngressOrderDistinct(db);
    Select(AllIngress(db), IngressOrder)
  }

  ghost function FlatIngress(db: Db, rows: seq<DeliveryRow>): seq<Orphan> {
    if rows == [] then []
    else FlatIngress(db, rows[..|rows| - 1]) + IngressOrphans(db, rows[|rows| - 1].0, rows[|rows| - 1].1)
  }

  ghost function ProvenanceOrphans(db: Db, ids: seq<ExecutionId>): seq<Orphan> {
    seq(|ids|, i requires 0 <= i < |ids| => ProvenanceOrphan(db, ids[i]))
  }

  ghost function ReservationOrphans(db: Db, ids: seq<ExecutionId>): seq<Orphan> {
    seq(|ids|, i requires 0 <= i < |ids| => ReservationOrphan(db, ids[i]))
  }

  /** Every orphan, once per row, before sorting. */
  ghost function OrphanList(db: Db): seq<Orphan> {
    ProvenanceOrphans(db, InOrder(UnreceiptedProvenance(db)))
    + FlatIngress(db, IngressTable(db))
    + ReservationOrphans(db, InOrder(UnreceiptedReservations(db)))
  }

  ghost function InvalidReports(h: Hash, db: Db, ids: seq<ExecutionId>): seq<AuditReport> {
    if ids == [] then []
    else
      var last := Report(h, db, ids[|ids| - 1]);
      InvalidReports(h, db, ids[..|ids| - 1]) + (if last.valid then [] else [last])
  }

  // ---- the sweep ----------------------------------------------------------------------------

  /** Nothing to report: no invalid execution and no orphan. */
  ghost predicate SweepValid(h: Hash, db: Db) {
    InvalidReports(h, db, InOrder(db.receipts.Keys)) == [] && SortBy(OrphanList(db), OrphanKey) == []
  }

  method SweepReceipts(conn: Connection, ids: seq<ExecutionId>) returns (invalid: seq<AuditReport>)
    ensures invalid == InvalidReports(conn.hash, conn.tables, ids)
  {
    hide Report;
    invalid := [];
    for i := 0 to |ids|
      invariant invalid == InvalidReports(conn.hash, conn.tables, ids[..i])
    {
      var report := VerifyExecutionAudit(conn, ids[i]);
      assert ids[..i + 1][..i] == ids[..i];
      if !report.valid {
        invalid := invalid + [report];
      }
    }
    assert ids[..|ids|] == ids;
  }

  method SweepProvenance(conn: Connection) returns (orphans: seq<Orphan>)
    ensures orphans == ProvenanceOrphans(conn.tables, InOrder(UnreceiptedProvenance(conn.tables)))
  {
    hide UnreceiptedProvenance, ProvenanceOrphan;
    IdOrderDistinct(UnreceiptedProvenance(conn.tables));
    var ids := OrderRows(UnreceiptedProvenance(conn.tables), IdOrder);
    orphans := [];
    for i := 0 to |ids|
      invariant orphans == ProvenanceOrphans(conn.tables, ids[..i])
    {
      orphans := orphans + [ProvenanceOrphan(conn.tables, ids[i])];
    }
    assert ids[..|ids|] == ids;
  }

  method SweepReservations(conn: Connection) returns (orphans: seq<Orphan>)
    ensures orphans == ReservationOrphans(conn.tables, InOrder(UnreceiptedReservations(conn.tables)))
  {
    hide UnreceiptedReservations, ReservationOrphan;
    IdOrderDistinct(UnreceiptedReservations(conn.tables));
    var ids := OrderRows(UnreceiptedReservations(conn.tables), IdOrder);
    orphans := [];
    for i := 0 to |ids|
      invariant orphans == ReservationOrphans(conn.tables, ids[..i])
    {
      orphans := orphans + [ReservationOrphan(conn.tables, ids[i])];
    }
    assert ids[..|ids|] == ids;
  }

  method SweepIngress(conn: Connection) returns (orphans: seq<Orphan>)
    ensures orphans == FlatIngress(conn.tables, IngressTable(conn.tables))
  {
    hide IngressOrphans, AllIngress;
    IngressOrderDistinct(conn.tables);
    var rows := OrderRows(AllIngress(conn.tables), IngressOrder);
    assert rows == IngressTable(conn.tables);
    orphans := [];
    for i := 0 to |rows|
      invariant orphans == FlatIngress(conn.tables, rows[..i])
    {
      var (d, row) := rows[i];
      assert rows[..i + 1][..i] == rows[..i];
      orphans := SweepDelivery(conn, d, row, orphans);
    }
    assert rows[..|rows|] == rows;
  }

  method SweepDelivery(conn: Connection, d: string, row: Ingress, orphans0: seq<Orphan>) returns (orphans: seq<Orphan>)
    ensures orphans == orphans0 + IngressOrphans(conn.tables, d, row)
  {
    hide Blank;
    orphans := orphans0;
    match row.participantId {
      case None => orphans := orphans + [Orphan(UnboundLegacyIngress, None, row.intentId, Some(d))];
      case Some(p) =>
        var matched := ExecutionId(p, row.intentId) in conn.tables.receipts;
        if Blank(p) {
          orphans := orphans + [Orphan(UnboundLegacyIngress, None, row.intentId, Some(d))];
        } else if !matched {
          orphans := orphans + [Orphan(OrphanIngressProvenance, Some(p), row.intentId, Some(d))];
        }
    }
  }

  method SweepExecutionAudit(conn: Connection) returns (report: SweepReport)
    ensures report.invalid == InvalidReports(conn.hash, conn.tables, InOrder(conn.tables.receipts.Keys))
    ensures report.orphans == SortBy(OrphanList(conn.tables), OrphanKey)
    ensures report.valid <==> SweepValid(conn.hash, conn.tables)
    ensures report.scanned == |InOrder(conn.tables.receipts.Keys)|
  {
    hide InvalidReports, ProvenanceOrphans, ReservationOrphans, FlatIngress, UnreceiptedProvenance,
         UnreceiptedReservations, OrphanKey, IngressTable;
    IdOrderDistinct(conn.tables.receipts.Keys);
    var ids := OrderRows(conn.tables.receipts.Keys, IdOrder);
    var invalid := SweepReceipts(conn, ids);
    var provenance := SweepProvenance(conn);
    var ingress := SweepIngress(conn);
    var reservations := SweepReservations(conn);
    var orphans := SortBy(provenance + ingress + reservations, OrphanKey);
    report := SweepReport(invalid == [] && orphans == [], |ids|, invalid, orphans);
  }

  // ---- what the sweep lists -----------------------------------------------------------------

  /** An evidence row without a receipt of its own, or an ingress row bound to nobody, with what the sweep
      says about it. */
  ghost predicate Orphaned(db: Db, o: Orphan) {
    || (exists k | k in db.provenance ::
          && k !in db.receipts
          && o == Orphan(OrphanAuthorizationProvenance, Some(k.participant), k.intent,
                         match db.provenance[k].grantId
                         case None => None
                         case Some(id) => Some("grant_id=" + Decimal(id))))
    || (exists k | k in db.reservations ::
          && k !in db.receipts
          && o == Orphan(OrphanNavigationReservation, Some(k.participant), k.intent,
                         Some("message_id=" + Decimal(db.reservations[k].messageId))))
    || (exists d | d in db.ingress :: OrphanedDelivery(db, d, db.ingress[d], o))
  }

  ghost predicate OrphanedDelivery(db: Db, d: string, row: Ingress, o: Orphan) {
    match row.participantId
    case None => o == Orphan(UnboundLegacyIngress, None, row.intentId, Some(d))
    case Some(p) =>
      if AllSpace(p) then o == Orphan(UnboundLegacyIngress, None, row.intentId, Some(d))
      else
        && !(exists k | k in db.receipts :: k.participant == p && k.intent == row.intentId)
        && o == Orphan(OrphanIngressProvenance, Some(p), row.intentId, Some(d))
  }

  lemma DeliverySpelled(db: Db, d: string, row: Ingress, o: Orphan)
    ensures o in IngressOrphans(db, d, row) <==> OrphanedDelivery(db, d, row, o)
  {
    hide Blank, AllSpace;
    if row.participantId.Some? {
      BlankExact(row.participantId.value);
      if k :| k in db.receipts && k.participant == row.participantId.value && k.intent == row.intentId {
        assert k == ExecutionId(row.participantId.value, row.intentId);
      }
    }
  }

  lemma OrphanedSpelled(db: Db, o: Orphan)
    ensures Orphaned(db, o)
            <==> || (exists k | k in db.provenance :: k !in db.receipts && o == ProvenanceOrphan(db, k))
                 || (exists k | k in db.reservations :: k !in db.receipts && o == ReservationOrphan(db, k))
                 || (exists d | d in db.ingress :: o in IngressOrphans(db, d, db.ingress[d]))
  {
    hide IngressOrphans, OrphanedDelivery, Decimal;
    forall d | d in db.ingress
      ensures o in IngressOrphans(db, d, db.ingress[d]) <==> OrphanedDelivery(db, d, db.ingress[d], o)
    {
      DeliverySpelled(db, d, db.ingress[d], o);
    }
    forall k | k in db.provenance
      ensures ProvenanceOrphan(db, k) == Orphan(OrphanAuthorizationProvenance, Some(k.participant), k.intent,
                                                match db.provenance[k].grantId
                                                case None => None
                                                case Some(id) => Some("grant_id=" + Decimal(id))) {}
    forall k | k in db.reservations
      ensures ReservationOrphan(db, k) == Orphan(OrphanNavigationReservation, Some(k.participant), k.intent,
                                                 Some("message_id=" + Decimal(db.reservations[k].messageId))) {}
  }

  lemma {:induction false} InvalidReportsExact(h: Hash, db: Db, ids: seq<ExecutionId>, report: AuditReport)
    ensures report in InvalidReports(h, db, ids)
            <==> exists id | id in ids :: report == Report(h, db, id) && !Coherent(h, db, id)
  {
    hide Report, Coherent;
    if ids != [] {
      var front := ids[..|ids| - 1];
      var last := ids[|ids| - 1];
      assert ids == front + [last];
      InvalidReportsExact(h, db, front, report);
      ReportValidIffCoherent(h, db, last);
      if id :| id in ids && report == Report(h, db, id) && !Coherent(h, db, id) {
        ReportValidIffCoherent(h, db, id);
      }
    }
  }

  lemma {:induction false} FlatIngressMember(db: Db, rows: seq<DeliveryRow>, o: Orphan)
    ensures o in FlatIngress(db, rows) <==> exists i | 0 <= i < |rows| :: o in IngressOrphans(db, rows[i].0, rows[i].1)
  {
    hide IngressOrphans;
    if rows != [] {
      var front := rows[..|rows| - 1];
      FlatIngressMember(db, front, o);
      if i :| 0 <= i < |rows| && o in IngressOrphans(db, rows[i].0, rows[i].1) {
        if i < |front| { assert front[i] == rows[i]; }
      }
      if i :| 0 <= i < |front| && o in IngressOrphans(db, front[i].0, front[i].1) {
        assert rows[i] == front[i];
      }
    }
  }

  lemma IngressOrphansExact(db: Db, o: Orphan)
    ensures o in FlatIngress(db, IngressTable(db))
            <==> exists d | d in db.ingress :: o in IngressOrphans(db, d, db.ingress[d])
  {
    hide IngressOrphans;
    var rows := IngressTable(db);
    FlatIngressMember(db, rows, o);
    if i :| 0 <= i < |rows| && o in IngressOrphans(db, rows[i].0, rows[i].1) {
      assert rows[i] in AllIngress(db);
    }
    if d :| d in db.ingress && o in IngressOrphans(db, d, db.ingress[d]) {
      assert (d, db.ingress[d]) in AllIngress(db);
      assert (d, db.ingress[d]) in rows;
      var i :| 0 <= i < |rows| && rows[i] == (d, db.ingress[d]);
      assert o in IngressOrphans(db, rows[i].0, rows[i].1);
    }
  }

  lemma KeyedOrphansExact(db: Db, o: Orphan)
    ensures o in ProvenanceOrphans(db, InOrder(UnreceiptedProvenance(db)))
            <==> exists k | k in db.provenance :: k !in db.receipts && o == ProvenanceOrphan(db, k)
    ensures o in ReservationOrphans(db, InOrder(UnreceiptedReservations(db)))
            <==> exists k | k in db.reservations :: k !in db.receipts && o == ReservationOrphan(db, k)
  {
    hide ProvenanceOrphans, ReservationOrphans, ProvenanceOrphan, ReservationOrphan;
    ProvenanceOrphansExact(db, o);
    ReservationOrphansExact(db, o);
  }

  lemma ProvenanceOrphansExact(db: Db, o: Orphan)
    ensures o in ProvenanceOrphans(db, InOrder(UnreceiptedProvenance(db)))
            <==> exists k | k in db.provenance :: k !in db.receipts && o == ProvenanceOrphan(db, k)
  {
    hide ProvenanceOrphan, InOrder;
    var ps := InOrder(UnreceiptedProvenance(db));
    if k :| k in db.provenance && k !in db.receipts && o == ProvenanceOrphan(db, k) {
      assert k in ps;
      var i :| 0 <= i < |ps| && ps[i] == k;
      assert ProvenanceOrphans(db, ps)[i] == o;
    }
    if o in ProvenanceOrphans(db, ps) {
      var i :| 0 <= i < |ps| && ProvenanceOrphans(db, ps)[i] == o;
      assert ps[i] in UnreceiptedProvenance(db);
    }
  }

  lemma ReservationOrphansExact(db: Db, o: Orphan)
    ensures o in ReservationOrphans(db, InOrder(UnreceiptedReservations(db)))
            <==> exists k | k in db.reservations :: k !in db.receipts && o == ReservationOrphan(db, k)
  {
    hide ReservationOrphan, InOrder;
    var ns := InOrder(UnreceiptedReservations(db));
    if k :| k in db.reservations && k !in db.receipts && o == ReservationOrphan(db, k) {
      assert k in ns;
      var i :| 0 <= i < |ns| && ns[i] == k;
      assert ReservationOrphans(db, ns)[i] == o;
    }
    if o in ReservationOrphans(db, ns) {
      var i :| 0 <= i < |ns| && ReservationOrphans(db, ns)[i] == o;
      assert ns[i] in UnreceiptedReservations(db);
    }
  }

  /** Exactness of the sweep on arbitrary tables: the listed orphans are exactly the evidence rows no
      receipt accounts for, and the listed reports are exactly those of the incoherent receipts. */
  lemma SweepExact(h: Hash, db: Db, o: Orphan, report: AuditReport)
    ensures o in SortBy(OrphanList(db), OrphanKey) <==> Orphaned(db, o)
    ensures report in InvalidReports(h, db, InOrder(db.receipts.Keys))
            <==> exists id | id in db.receipts :: report == Report(h, db, id) && !Coherent(h, db, id)
  {
    hide ProvenanceOrphans, ReservationOrphans, FlatIngress, IngressTable, InvalidReports, Report, Coherent,
         UnreceiptedProvenance, UnreceiptedReservations, ProvenanceOrphan, ReservationOrphan, IngressOrphans, OrphanKey,
         Orphaned;
    OrphanedSpelled(db, o);
    SortByMembers(OrphanList(db), OrphanKey, o);
    KeyedOrphansExact(db, o);
    IngressOrphansExact(db, o);
    InvalidReportsExact(h, db, InOrder(db.receipts.Keys), report);
  }

  /** Every receipt coherent and every evidence row accounted for. */
  ghost predicate AllAccounted(h: Hash, db: Db) {
    && (forall id | id in db.receipts :: Coherent(h, db, id))
    && (forall k | k in db.provenance :: k in db.receipts)
    && (forall k | k in db.reservations :: k in db.receipts)
    && (forall d | d in db.ingress ::
          && db.ingress[d].participantId.Some? && !Blank(db.ingress[d].participantId.value)
          && ExecutionId(db.ingress[d].participantId.value, db.ingress[d].intentId) in db.receipts)
  }

  /** The sweep is valid exactly when all evidence is accounted for. */
  lemma SweepValidExact(h: Hash, db: Db)
    ensures SweepValid(h, db) <==> AllAccounted(h, db)
  {
    hide AllAccounted, InvalidReports, OrphanList, OrphanKey;
    if SweepValid(h, db) {
      NothingListed(h, db);
    }
    if AllAccounted(h, db) {
      NothingToList(h, db);
    }
  }

  lemma NothingListed(h: Hash, db: Db)
    requires SweepValid(h, db)
    ensures AllAccounted(h, db)
  {
    hide InvalidReports, OrphanList, OrphanKey, Report, Coherent, IngressOrphans, Blank, Orphaned;
    var none := Orphan(UnboundLegacyIngress, None, "", None);
    forall id | id in db.receipts ensures Coherent(h, db, id) {
      SweepExact(h, db, none, Report(h, db, id));
    }
    forall k | k in db.provenance ensures k in db.receipts {
      SweepExact(h, db, ProvenanceOrphan(db, k), Report(h, db, k));
      OrphanedSpelled(db, ProvenanceOrphan(db, k));
    }
    forall k | k in db.reservations ensures k in db.receipts {
      SweepExact(h, db, ReservationOrphan(db, k), Report(h, db, k));
      OrphanedSpelled(db, ReservationOrphan(db, k));
    }
    forall d | d in db.ingress ensures IngressOrphans(db, d, db.ingress[d]) == [] {
      var os := IngressOrphans(db, d, db.ingress[d]);
      if os != [] {
        assert os[0] in os;
        SweepExact(h, db, os[0], Report(h, db, ExecutionId("", "")));
        OrphanedSpelled(db, os[0]);
      }
    }
    forall d | d in db.ingress
      ensures && db.ingress[d].participantId.Some? && !Blank(db.ingress[d].participantId.value)
              && ExecutionId(db.ingress[d].participantId.value, db.ingress[d].intentId) in db.receipts
    {
      DeliveryAccounted(db, d, db.ingress[d]);
    }
  }

  lemma DeliveryAccounted(db: Db, d: string, row: Ingress)
    ensures IngressOrphans(db, d, row) == []
            <==> && row.participantId.Some? && !Blank(row.participantId.value)
                 && ExecutionId(row.participantId.value, row.intentId) in db.receipts
  {
    hide Blank;
  }

  lemma NothingToList(h: Hash, db: Db)
    requires AllAccounted(h, db)
    ensures SweepValid(h, db)
  {
    hide InvalidReports, OrphanList, OrphanKey, Report, Coherent, IngressOrphans, Orphaned, Blank;
    var invalid, orphans := InvalidReports(h, db, InOrder(db.receipts.Keys)), SortBy(OrphanList(db), OrphanKey);
    if invalid != [] {
      SweepExact(h, db, Orphan(UnboundLegacyIngress, None, "", None), invalid[0]);
    }
    forall d | d in db.ingress ensures IngressOrphans(db, d, db.ingress[d]) == [] {
      DeliveryAccounted(db, d, db.ingress[d]);
    }
    if orphans != [] {
      SweepExact(h, db, orphans[0], Report(h, db, ExecutionId("", "")));
      OrphanedSpelled(db, orphans[0]);
    }
  }
}
