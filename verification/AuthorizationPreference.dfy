/** Which grant a decision cites: the evaluator's two `ORDER BY` clauses, said without keys or sorting. */
module AuthorizationPreference {
  import opened Text
  import opened Order
  import opened Tables
  import opened Authorization

  /** More specific first, then older. */
  predicate DurablePreferred(a: DurableRow, b: DurableRow) {
    || (a.1.resource.Some? && b.1.resource.None?)
    || (a.1.resource.Some? == b.1.resource.Some? && a.0 <= b.0)
  }

  /** Bound to an intent first, then bound to a resource, then one-shot, then older. */
  predicate DelegatedPreferred(a: DelegatedRow, b: DelegatedRow) {
    if a.1.intentId.Some? != b.1.intentId.Some? then a.1.intentId.Some?
    else if a.1.resource.Some? != b.1.resource.Some? then a.1.resource.Some?
    else if a.1.oneShot != b.1.oneShot then a.1.oneShot > b.1.oneShot
    else a.0 <= b.0
  }

  lemma DurableRank(a: DurableRow, b: DurableRow)
    requires Leq(DurablePreference(a), DurablePreference(b))
    ensures DurablePreferred(a, b)
  {
    var x, y := DurablePreference(a), DurablePreference(b);
    LeqHead(x, y);
    if x[0] == y[0] { LeqHead(x[1..], y[1..]); }
  }

  lemma LeqHead(a: Key, b: Key)
    requires a != [] && b != [] && Leq(a, b)
    ensures if a[0] == b[0] then Leq(a[1..], b[1..]) else AtomLeq(a[0], b[0])
  {
  }

  lemma DelegatedRank(a: DelegatedRow, b: DelegatedRow)
    requires Leq(DelegatedPreference(a), DelegatedPreference(b))
    ensures DelegatedPreferred(a, b)
  {
    hide Leq;
    var x, y := DelegatedPreference(a), DelegatedPreference(b);
    LeqHead(x, y);
    if x[0] == y[0] {
      LeqHead(x[1..], y[1..]);
      if x[1] == y[1] {
        LeqHead(x[1..][1..], y[1..][1..]);
        if x[2] == y[2] { LeqHead(x[1..][1..][1..], y[1..][1..][1..]); }
      }
    }
  }

  /** The rows of the scan are in order of preference. */
  lemma DelegatedOrder(db: Db, who: Principal, participantId: string, c: Capability, i: nat, j: nat)
    requires i < j < |DelegatedRows(db, who, participantId, c)|
    ensures DelegatedPreferred(DelegatedRows(db, who, participantId, c)[i], DelegatedRows(db, who, participantId, c)[j])
  {
    var rows := DelegatedRows(db, who, participantId, c);
    assert Less(DelegatedPreference(rows[i]), DelegatedPreference(rows[j]));
    DelegatedRank(rows[i], rows[j]);
  }

  /** The durable grant cited is preferred to every other that matches. */
  lemma CitedDurable(db: Db, now: int, who: Principal, participantId: string, c: Capability, resource: Option<string>,
                     intent: Option<string>, id: int)
    requires var d := Decide(db, now, who, participantId, c, resource, intent); d.allowed && d.source == PrincipalGrants
    requires id in db.durable && IsExplicit(db.durable[id], who, participantId, c)
             && Covers(db.durable[id].resource, resource)
    ensures var cited := Decide(db, now, who, participantId, c, resource, intent).grantId;
            cited.Some? && cited.value in db.durable
                && DurablePreferred((cited.value, db.durable[cited.value]), (id, db.durable[id]))
  {
    hide ImplicitReason, IsExplicit, Leq, DurablePreferred, Denial;
    var rows := DurableRows(db, who, participantId, c, resource);
    DecidedByDurable(db, now, who, participantId, c, resource, intent);
    DurablePart(db, who, participantId, c, resource);
    assert (id, db.durable[id]) in ExplicitMatches(db, who, participantId, c, resource);
    HeadIsLeast(rows, ExplicitMatches(db, who, participantId, c, resource), DurablePreference, (id, db.durable[id]));
    DurableRank(rows[0], (id, db.durable[id]));
    assert rows[0] == (rows[0].0, rows[0].1);
  }

  /** A decision that cites a durable grant cites the first of the matching rows. */
  lemma DecidedByDurable(db: Db, now: int, who: Principal, participantId: string, c: Capability,
                         resource: Option<string>,
                         intent: Option<string>)
    requires var d := Decide(db, now, who, participantId, c, resource, intent); d.allowed && d.source == PrincipalGrants
    ensures var rows := DurableRows(db, who, participantId, c, resource);
            rows != [] && Decide(db, now, who, participantId, c, resource, intent).grantId == Some(rows[0].0)
  {
    hide ImplicitReason, Denial, DurableRows, DelegatedRows, ExplicitGrants;
    if intent.Some? {
      ScanSource(db, now, participantId, resource, intent.value, DelegatedRows(db, who, participantId, c), None);
    }
  }

  lemma {:induction false} ScanSource(db: Db, now: int, participantId: string, resource: Option<string>, intent: string,
                                      rows: seq<DelegatedRow>, firstDenial: Option<Decision>)
    requires firstDenial.Some? ==> firstDenial.value.source == DelegatedGrants
    ensures var d := Scan(db, now, participantId, resource, intent, rows, firstDenial); d.Some? ==>
            d.value.source == DelegatedGrants
  {
    if rows != [] {
      var denial := Denial(rows[0].1, now, resource, intent);
      if denial.Some? {
        var d := Deny(DelegatedGrants, denial.value, Some(rows[0].0));
        ScanSource(db, now, participantId, resource, intent, rows[1..],
                   if firstDenial.None? then Some(d) else firstDenial);
      }
    }
  }

  /** A decision that cites the delegated store is the scan's. */
  lemma DecidedByScan(db: Db, now: int, who: Principal, participantId: string, c: Capability, resource: Option<string>,
                      intent: string)
    requires Decide(db, now, who, participantId, c, resource, Some(intent)).source == DelegatedGrants
    ensures Scan(db, now, participantId, resource, intent, DelegatedRows(db, who, participantId, c), None)
         == Some(Decide(db, now, who, participantId, c, resource, Some(intent)))
  {
    hide ImplicitReason, Denial, DurableRows, DelegatedRows, ExplicitGrants;
  }

  /** The delegated grant a decision cites: the most preferred that applies, and when none does, the most
      preferred candidate of all with its own reason. */
  lemma CitedDelegated(db: Db, now: int, who: Principal, participantId: string, c: Capability, resource: Option<string>,
                       intent: string, id: int)
    requires Decide(db, now, who, participantId, c, resource, Some(intent)).source == DelegatedGrants
    requires id in db.delegated && IsCandidate(db.delegated[id], who, participantId, c)
    ensures var d := Decide(db, now, who, participantId, c, resource, Some(intent));
            && d.grantId.Some? && d.grantId.value in db.delegated
            && var cited := d.grantId.value;
            && (Denial(db.delegated[cited], now, resource, intent).None? ==>
                  Denial(db.delegated[id], now, resource, intent).None? ==>
                    DelegatedPreferred((cited, db.delegated[cited]), (id, db.delegated[id])))
            && (Denial(db.delegated[cited], now, resource, intent).Some? ==>
                  && Denial(db.delegated[id], now, resource, intent).Some?
                  && Denial(db.delegated[cited], now, resource, intent) == Some(d.reason)
                  && DelegatedPreferred((cited, db.delegated[cited]), (id, db.delegated[id])))
  {
    hide Denial, DelegatedPreferred, DelegatedRows, IsCandidate, Decide;
    DecidedByScan(db, now, who, participantId, c, resource, intent);
    var rows := DelegatedRows(db, who, participantId, c);
    DelegatedRowFacts(db, who, participantId, c, id, db.delegated[id]);
    var j :| 0 <= j < |rows| && rows[j] == (id, db.delegated[id]);
    if SomeApplies(now, resource, intent, rows) {
      ScanDecides(db, now, participantId, resource, intent, rows, None);
      var i :| && 0 <= i < |rows| && Denial(rows[i].1, now, resource, intent).None?
               && (forall n | 0 <= n < i :: Denial(rows[n].1, now, resource, intent).Some?)
               && Scan(db, now, participantId, resource, intent, rows, None)
                     == Some(DecideAt(db, rows[i], participantId, intent));
      PreferredRow(db, who, participantId, c, i, j);
    } else {
      assert forall i | 0 <= i < |rows| :: Denial(rows[i].1, now, resource, intent).Some?;
      ScanExhausted(db, now, participantId, resource, intent, rows, None);
      PreferredRow(db, who, participantId, c, 0, j);
    }
  }

  lemma PreferredRow(db: Db, who: Principal, participantId: string, c: Capability, i: nat, j: nat)
    requires i < |DelegatedRows(db, who, participantId, c)| && j < |DelegatedRows(db, who, participantId, c)|
    ensures var rows := DelegatedRows(db, who, participantId, c);
            && rows[i].0 in db.delegated && rows[i].1 == db.delegated[rows[i].0]
            && (i <= j ==> DelegatedPreferred((rows[i].0, db.delegated[rows[i].0]), rows[j]))
  {
    hide DelegatedRows, IsCandidate;
    var rows := DelegatedRows(db, who, participantId, c);
    assert rows[i] in rows && rows[i] == (rows[i].0, rows[i].1);
    DelegatedRowFacts(db, who, participantId, c, rows[i].0, rows[i].1);
    if i < j { DelegatedOrder(db, who, participantId, c, i, j); }
  }

  /** A scan in which nothing applies ends with the first denial. */
  lemma {:induction false} ScanExhausted(db: Db, now: int, participantId: string, resource: Option<string>,
                                         intent: string,
                                         rows: seq<DelegatedRow>, firstDenial: Option<Decision>)
    requires forall i | 0 <= i < |rows| :: Denial(rows[i].1, now, resource, intent).Some?
    ensures Scan(db, now, participantId, resource, intent, rows, firstDenial)
         == if firstDenial.Some? || rows == [] then firstDenial
            else Some(Deny(DelegatedGrants, Denial(rows[0].1, now, resource, intent).value, Some(rows[0].0)))
  {
    hide Denial;
    if rows != [] {
      var d := Deny(DelegatedGrants, Denial(rows[0].1, now, resource, intent).value, Some(rows[0].0));
      assert forall i | 0 <= i < |rows[1..]| :: rows[1..][i] == rows[i + 1];
      ScanExhausted(db, now, participantId, resource, intent, rows[1..],
                    if firstDenial.None? then Some(d) else firstDenial);
    }
  }
}
