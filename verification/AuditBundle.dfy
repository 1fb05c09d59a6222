/** src/execution.rs, `get_execution_audit_bundle`: receipt, provenance and deliveries of one execution,
    and what time does to them. */
module AuditBundle {
  import opened Text
  import opened Order
  import opened Tables
  import opened ExecutionAudit
  import opened AuthorizationPreference
  import opened Kernel
  import opened EvidenceRuns

  datatype Bundle = Bundle(receipt: Receipt, authorization: Option<Provenance>, deliveries: seq<DeliveryRow>)

  function DeliveriesFor(db: Db, id: ExecutionId): set<DeliveryRow> {
    set d | d in db.ingress && db.ingress[d].participantId == Some(id.participant)
        && db.ingress[d].intentId == id.intent
      :: (d, db.ingress[d])
  }

  lemma DeliveriesForDistinct(db: Db, id: ExecutionId)
    ensures Distinct(DeliveriesFor(db, id), DeliveryOrder)
  {
    forall x: DeliveryRow, y: DeliveryRow | DeliveryOrder(x) == DeliveryOrder(y) ensures x.0 == y.0 {
      assert DeliveryOrder(x)[1] == DeliveryOrder(y)[1];
    }
  }

  ghost function BundleOf(db: Db, id: ExecutionId): Option<Bundle> {
    if id !in db.receipts then None
    else
      DeliveriesForDistinct(db, id);
      Some(Bundle(db.receipts[id], if id in db.provenance then Some(db.provenance[id]) else None,
                  Select(DeliveriesFor(db, id), DeliveryOrder)))
  }

  method GetExecutionAuditBundle(conn: Connection, id: ExecutionId) returns (bundle: Option<Bundle>)
    ensures bundle == BundleOf(conn.tables, id)
  {
    if id !in conn.tables.receipts { return None; }
    DeliveriesForDistinct(conn.tables, id);
    var deliveries := OrderRows(DeliveriesFor(conn.tables, id), DeliveryOrder);
    bundle := Some(Bundle(conn.tables.receipts[id],
                          if id in conn.tables.provenance then Some(conn.tables.provenance[id]) else None, deliveries));
  }

  /** A later bundle keeps receipt and provenance, and keeps the deliveries in order among added ones. */
  ghost predicate Continues(before: Bundle, after: Bundle) {
    && after.receipt == before.receipt && after.authorization == before.authorization
    && (forall row | row in before.deliveries :: row in after.deliveries)
    && StrictlySorted(before.deliveries, DeliveryOrder) && StrictlySorted(after.deliveries, DeliveryOrder)
    && (forall row | row in after.deliveries && row !in before.deliveries ::
          forall first | first in before.deliveries :: first.0 != row.0)
  }

  lemma DeliveriesKept(a: Db, b: Db, k: ExecutionId, row: DeliveryRow)
    requires Kept(a.ingress, b.ingress)
    ensures row in DeliveriesFor(a, k) ==> row in DeliveriesFor(b, k)
    ensures row in DeliveriesFor(b, k) && row.0 in a.ingress ==> row in DeliveriesFor(a, k)
  {
    assert row == (row.0, row.1);
  }

  /** The bundle of an execution is only ever added to: the same receipt, the same provenance, and every
      delivery it ever listed, in the same order. */
  lemma BundleStable(h: Hash, run: seq<Timed>, m: nat, n: nat, k: ExecutionId)
    requires GuardedRun(run) && m <= n <= |run| && BundleOf(StateAt(h, run, m), k).Some?
    ensures BundleOf(StateAt(h, run, n), k).Some?
    ensures Continues(BundleOf(StateAt(h, run, m), k).value, BundleOf(StateAt(h, run, n), k).value)
  {
    hide StateAt, Report, GuardedRun, Kept, DeliveriesFor, DeliveryOrder;
    var a, b := StateAt(h, run, m), StateAt(h, run, n);
    HistoryStable(h, run, m, n, k);
    forall row ensures (row in DeliveriesFor(a, k) ==> row in DeliveriesFor(b, k))
                    && (row in DeliveriesFor(b, k) && row.0 in a.ingress ==> row in DeliveriesFor(a, k)) {
      DeliveriesKept(a, b, k, row);
    }
    forall row | row in DeliveriesFor(a, k) ensures row.0 in a.ingress { DeliveryStored(a, k, row); }
  }

  lemma DeliveryStored(db: Db, k: ExecutionId, row: DeliveryRow)
    requires row in DeliveriesFor(db, k)
    ensures row.0 in db.ingress
  {
  }

  // ---- the bundle against the tables --------------------------------------------------------

  /** Older first, then by delivery id. */
  predicate DeliveryLess(a: DeliveryRow, b: DeliveryRow) {
    a.1.createdAt < b.1.createdAt || (a.1.createdAt == b.1.createdAt && a.0 != b.0 && TextLeq(a.0, b.0))
  }

  lemma DeliveryKeySpelled(a: DeliveryRow, b: DeliveryRow)
    requires Less(DeliveryOrder(a), DeliveryOrder(b))
    ensures DeliveryLess(a, b)
  {
    hide TextLeq, Leq;
    var x, y := DeliveryOrder(a), DeliveryOrder(b);
    LeqHead(x, y);
    if x[0] == y[0] {
      assert x[1..] == [Str(a.0)] && y[1..] == [Str(b.0)];
      LeqHead(x[1..], y[1..]);
    }
  }

  /** The bundle of an execution on arbitrary tables: none without a receipt; otherwise its receipt, its
      provenance if there is one, and every stored delivery of its participant and intent, oldest first. */
  lemma BundleExact(db: Db, k: ExecutionId)
    ensures var found := BundleOf(db, k);
            && (found.Some? <==> k in db.receipts)
            && (found.Some? ==>
                  var deliveries := found.value.deliveries;
                  && found.value.receipt == db.receipts[k]
                  && (found.value.authorization.Some? <==> k in db.provenance)
                  && (k in db.provenance ==> found.value.authorization == Some(db.provenance[k]))
                  && (forall i | 0 <= i < |deliveries| ::
                        && deliveries[i].0 in db.ingress && deliveries[i].1 == db.ingress[deliveries[i].0]
                        && deliveries[i].1.participantId == Some(k.participant)
                        && deliveries[i].1.intentId == k.intent)
                  && (forall d | d in db.ingress && db.ingress[d].participantId == Some(k.participant)
                                 && db.ingress[d].intentId == k.intent ::
                        exists i | 0 <= i < |deliveries| :: deliveries[i] == (d, db.ingress[d]))
                  && (forall i, j | 0 <= i < j < |deliveries| :: DeliveryLess(deliveries[i], deliveries[j])))
  {
    hide DeliveryOrder, DeliveryLess, Leq;
    if k in db.receipts {
      var deliveries := BundleOf(db, k).value.deliveries;
      forall i | 0 <= i < |deliveries|
        ensures && deliveries[i].0 in db.ingress && deliveries[i].1 == db.ingress[deliveries[i].0]
                && deliveries[i].1.participantId == Some(k.participant) && deliveries[i].1.intentId == k.intent
      {
        assert deliveries[i] in DeliveriesFor(db, k);
      }
      forall d | d in db.ingress && db.ingress[d].participantId == Some(k.participant)
                 && db.ingress[d].intentId == k.intent
        ensures exists i | 0 <= i < |deliveries| :: deliveries[i] == (d, db.ingress[d])
      {
        assert (d, db.ingress[d]) in DeliveriesFor(db, k);
        assert (d, db.ingress[d]) in deliveries;
      }
      forall i, j | 0 <= i < j < |deliveries| ensures DeliveryLess(deliveries[i], deliveries[j]) {
        DeliveryKeySpelled(deliveries[i], deliveries[j]);
      }
    }
  }
}
