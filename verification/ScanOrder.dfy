/** When the order of the delegated scan matters: the evaluator on arbitrary tables, said without order,
    and the order-free rule wherever no consumed grant without a receipt stands in the way. */
module ScanOrder {
  import opened Text
  import opened Order
  import opened Tables
  import opened Authorization
  import opened AuthorizationPreference

  /** A stale grant the scan meets before every usable one. */
  ghost predicate Hides(db: Db, now: int, who: Principal, participantId: string, c: Capability,
                        resource: Option<string>, intent: string, s: int)
    requires s in db.delegated
  {
    && IsCandidate(db.delegated[s], who, participantId, c)
    && Denial(db.delegated[s], now, resource, intent).None?
    && Stale(db, db.delegated[s], participantId, intent)
    && forall u | u in db.delegated && Usable(db, now, who, participantId, c, resource, intent, db.delegated[u]) ::
         DelegatedPreferred((s, db.delegated[s]), (u, db.delegated[u]))
  }

  ghost predicate ScanHides(db: Db, now: int, who: Principal, participantId: string, c: Capability,
                            resource: Option<string>, intent: string)
  {
    exists s | s in db.delegated :: Hides(db, now, who, participantId, c, resource, intent, s)
  }

  lemma UsableExact(db: Db, now: int, who: Principal, participantId: string, c: Capability,
                    resource: Option<string>, intent: string, g: DelegatedGrant)
    requires IsCandidate(g, who, participantId, c)
    ensures Usable(db, now, who, participantId, c, resource, intent, g)
            <==> Denial(g, now, resource, intent).None? && !Stale(db, g, participantId, intent)
  {
  }

  lemma DecideAtExact(db: Db, row: DelegatedRow, participantId: string, intent: string)
    ensures DecideAt(db, row, participantId, intent).allowed <==> !Stale(db, row.1, participantId, intent)
  {
  }

  lemma PreferenceAntisymmetric(a: DelegatedRow, b: DelegatedRow)
    requires DelegatedPreferred(a, b) && DelegatedPreferred(b, a)
    ensures a.0 == b.0
  {
  }

  /** A candidate that applies is no earlier in the scan than the first that does. */
  lemma AppliesFrom(db: Db, now: int, who: Principal, participantId: string, c: Capability, resource: Option<string>,
                    intent: string, k: nat, id: int) returns (j: nat)
    requires var rows := DelegatedRows(db, who, participantId, c);
             k < |rows| && forall n | 0 <= n < k :: Denial(rows[n].1, now, resource, intent).Some?
    requires id in db.delegated && IsCandidate(db.delegated[id], who, participantId, c)
    requires Denial(db.delegated[id], now, resource, intent).None?
    ensures k <= j < |DelegatedRows(db, who, participantId, c)|
    ensures DelegatedRows(db, who, participantId, c)[j] == (id, db.delegated[id])
  {
    hide DelegatedRows, Denial, IsCandidate;
    var rows := DelegatedRows(db, who, participantId, c);
    DelegatedRowFacts(db, who, participantId, c, id, db.delegated[id]);
    j :| 0 <= j < |rows| && rows[j] == (id, db.delegated[id]);
  }

  /** The first applicable candidate is stale: it hides every usable one. */
  lemma StaleFirstHides(db: Db, now: int, who: Principal, participantId: string, c: Capability,
                        resource: Option<string>,
                        intent: string, k: nat)
    requires var rows := DelegatedRows(db, who, participantId, c);
             && k < |rows| && Denial(rows[k].1, now, resource, intent).None?
             && (forall n | 0 <= n < k :: Denial(rows[n].1, now, resource, intent).Some?)
             && Stale(db, rows[k].1, participantId, intent)
    ensures ScanHides(db, now, who, participantId, c, resource, intent)
  {
    hide DelegatedRows, Denial, IsCandidate, DelegatedPreferred, Stale, Usable;
    var rows := DelegatedRows(db, who, participantId, c);
    assert rows[k] in rows && rows[k] == (rows[k].0, rows[k].1);
    DelegatedRowFacts(db, who, participantId, c, rows[k].0, rows[k].1);
    var s := rows[k].0;
    forall u | u in db.delegated && Usable(db, now, who, participantId, c, resource, intent, db.delegated[u])
      ensures DelegatedPreferred((s, db.delegated[s]), (u, db.delegated[u]))
    {
      UsableCandidate(db, now, who, participantId, c, resource, intent, db.delegated[u]);
      UsableExact(db, now, who, participantId, c, resource, intent, db.delegated[u]);
      var j := AppliesFrom(db, now, who, participantId, c, resource, intent, k, u);
      PreferredRow(db, who, participantId, c, k, j);
    }
    assert Hides(db, now, who, participantId, c, resource, intent, s);
  }

  lemma UsableCandidate(db: Db, now: int, who: Principal, participantId: string, c: Capability,
                        resource: Option<string>, intent: string, g: DelegatedGrant)
    requires Usable(db, now, who, participantId, c, resource, intent, g)
    ensures IsCandidate(g, who, participantId, c)
  {
  }

  /** The first applicable candidate is not stale: it is usable and nothing hides it. */
  lemma FreshFirstShows(db: Db, now: int, who: Principal, participantId: string, c: Capability,
                        resource: Option<string>,
                        intent: string, k: nat)
    requires var rows := DelegatedRows(db, who, participantId, c);
             && k < |rows| && Denial(rows[k].1, now, resource, intent).None?
             && (forall n | 0 <= n < k :: Denial(rows[n].1, now, resource, intent).Some?)
             && !Stale(db, rows[k].1, participantId, intent)
    ensures HoldsDelegatedFor(db, now, who, participantId, c, resource, intent)
    ensures !ScanHides(db, now, who, participantId, c, resource, intent)
  {
    hide DelegatedRows, Denial, IsCandidate, DelegatedPreferred, Stale, Usable;
    var rows := DelegatedRows(db, who, participantId, c);
    assert rows[k] in rows && rows[k] == (rows[k].0, rows[k].1);
    DelegatedRowFacts(db, who, participantId, c, rows[k].0, rows[k].1);
    UsableExact(db, now, who, participantId, c, resource, intent, rows[k].1);
    if s :| s in db.delegated && Hides(db, now, who, participantId, c, resource, intent, s) {
      var j := AppliesFrom(db, now, who, participantId, c, resource, intent, k, s);
      PreferredRow(db, who, participantId, c, k, j);
      PreferenceAntisymmetric(rows[k], rows[j]);
      assert false;
    }
  }

  /** The scan on arbitrary tables: it allows exactly when some grant is usable and no stale one hides the
      usable ones. */
  lemma ScanExact(db: Db, now: int, who: Principal, participantId: string, c: Capability, resource: Option<string>,
                  intent: string)
    ensures var d := Scan(db, now, participantId, resource, intent, DelegatedRows(db, who, participantId, c), None);
            (d.Some? && d.value.allowed)
            <==> && HoldsDelegatedFor(db, now, who, participantId, c, resource, intent)
                 && !ScanHides(db, now, who, participantId, c, resource, intent)
  {
    hide DelegatedRows, Denial, HoldsDelegatedFor, ScanHides, Stale, DecideAt;
    var rows := DelegatedRows(db, who, participantId, c);
    ScanDecides(db, now, participantId, resource, intent, rows, None);
    if SomeApplies(now, resource, intent, rows) {
      var k :| && 0 <= k < |rows| && Denial(rows[k].1, now, resource, intent).None?
               && (forall n | 0 <= n < k :: Denial(rows[n].1, now, resource, intent).Some?)
               && Scan(db, now, participantId, resource, intent, rows, None)
                     == Some(DecideAt(db, rows[k], participantId, intent));
      DecideAtExact(db, rows[k], participantId, intent);
      if Stale(db, rows[k].1, participantId, intent) {
        StaleFirstHides(db, now, who, participantId, c, resource, intent, k);
      } else {
        FreshFirstShows(db, now, who, participantId, c, resource, intent, k);
      }
    } else if HoldsDelegatedFor(db, now, who, participantId, c, resource, intent) {
      UsableApplies(db, now, who, participantId, c, resource, intent);
    }
  }

  /** Allowed before any delegated grant is looked at. */
  ghost predicate AuthorizedDirectly(db: Db, who: Principal, participantId: string, c: Capability,
                                     resource: Option<string>)
    requires participantId in db.participants
  {
    || HoldsDurableFor(db, who, participantId, c, resource)
    || (&& !HoldsDurable(db, who, participantId, c)
        && ImplicitReason(who, participantId, c, resource, db.participants[participantId]).Some?)
  }

  /** The request rests on delegated grants alone, and a stale one hides the usable ones. */
  ghost predicate OrderMatters(db: Db, now: int, who: Principal, participantId: string, c: Capability,
                               resource: Option<string>, intent: Option<string>)
    requires participantId in db.participants
  {
    && !AuthorizedDirectly(db, who, participantId, c, resource)
    && intent.Some? && ScanHides(db, now, who, participantId, c, resource, intent.value)
  }

  /** The evaluator on arbitrary tables, damaged ones included: it allows exactly what the order-free rule
      allows, except where a stale grant hides all usable ones from a request resting on them. */
  lemma DecideExact(db: Db, now: int, who: Principal, participantId: string, c: Capability,
                    resource: Option<string>, intent: Option<string>)
    ensures Decide(db, now, who, participantId, c, resource, intent).allowed
            <==> && Authorized(db, now, who, participantId, c, resource, intent)
                 && !OrderMatters(db, now, who, participantId, c, resource, intent)
  {
    hide Scan, DurableRows, DelegatedRows, ExplicitGrants, ImplicitReason, HoldsDurable, HoldsDurableFor,
         HoldsDelegatedFor, ScanHides;
    if participantId in db.participants && db.participants[participantId].status == ParticipantActive {
      DurablePart(db, who, participantId, c, resource);
      if intent.Some? {
        ScanExact(db, now, who, participantId, c, resource, intent.value);
      }
    }
  }

  /** The order-free rule is met exactly where order does not matter to a request it allows. */
  lemma OrderFreeExactly(db: Db, now: int, who: Principal, participantId: string, c: Capability,
                         resource: Option<string>, intent: Option<string>)
    ensures (Decide(db, now, who, participantId, c, resource, intent).allowed
             <==> Authorized(db, now, who, participantId, c, resource, intent))
            <==> !(&& Authorized(db, now, who, participantId, c, resource, intent)
                   && OrderMatters(db, now, who, participantId, c, resource, intent))
  {
    hide Decide, OrderMatters, AuthorizedDirectly;
    DecideExact(db, now, who, participantId, c, resource, intent);
  }

  // ---- tables in which consumption is receipted ---------------------------------------------

  /** A consumed one-shot grant names an intent its participant has a committed receipt for. */
  ghost predicate ConsumptionReceipted(db: Db) {
    forall id | id in db.delegated ::
      db.delegated[id].oneShot != 0 && db.delegated[id].consumedAt.Some? && db.delegated[id].consumedIntentId.Some? ==>
        CommittedReceiptExists(db, db.delegated[id].participantId, db.delegated[id].consumedIntentId.value)
  }

  /** No candidate is consumed without a receipt for the very intent it was consumed by. */
  lemma ReceiptedNeverHides(db: Db, now: int, who: Principal, participantId: string, c: Capability,
                            resource: Option<string>, intent: string)
    requires ConsumptionReceipted(db)
    ensures !ScanHides(db, now, who, participantId, c, resource, intent)
  {
    hide DelegatedPreferred, Usable, CommittedReceiptExists;
  }

  /** Refinement of the ordered scan by the order-free rule, on any tables in which consumption is
      receipted: `ORDER BY` picks which grant is cited, never whether the request is allowed. */
  lemma OrderFree(db: Db, now: int, who: Principal, participantId: string, c: Capability,
                  resource: Option<string>, intent: Option<string>)
    requires ConsumptionReceipted(db)
    ensures Decide(db, now, who, participantId, c, resource, intent).allowed
            <==> Authorized(db, now, who, participantId, c, resource, intent)
  {
    hide Decide, Authorized, AuthorizedDirectly, ScanHides, ConsumptionReceipted;
    DecideExact(db, now, who, participantId, c, resource, intent);
    if intent.Some? { ReceiptedNeverHides(db, now, who, participantId, c, resource, intent.value); }
    if Authorized(db, now, who, participantId, c, resource, intent) {
      AuthorizedParticipant(db, now, who, participantId, c, resource, intent);
    }
  }

  lemma AuthorizedParticipant(db: Db, now: int, who: Principal, participantId: string, c: Capability,
                              resource: Option<string>, intent: Option<string>)
    requires Authorized(db, now, who, participantId, c, resource, intent)
    ensures participantId in db.participants
  {
  }

  // ---- one more delegated grant -------------------------------------------------------------

  function WithGrant(db: Db, id: int, g: DelegatedGrant): Db {
    db.(delegated := db.delegated[id := g])
  }

  lemma UsableStays(db: Db, now: int, who: Principal, participantId: string, c: Capability, resource: Option<string>,
                    intent: string, id: int, g: DelegatedGrant, u: int)
    requires id !in db.delegated && u in db.delegated
    ensures Usable(WithGrant(db, id, g), now, who, participantId, c, resource, intent,
                   WithGrant(db, id, g).delegated[u])
            <==> Usable(db, now, who, participantId, c, resource, intent, db.delegated[u])
    ensures Stale(WithGrant(db, id, g), WithGrant(db, id, g).delegated[u], participantId, intent)
            <==> Stale(db, db.delegated[u], participantId, intent)
  {
  }

  lemma AuthorizedStays(db: Db, now: int, who: Principal, participantId: string, c: Capability,
                        resource: Option<string>,
                        intent: Option<string>, id: int, g: DelegatedGrant)
    requires id !in db.delegated && Authorized(db, now, who, participantId, c, resource, intent)
    ensures Authorized(WithGrant(db, id, g), now, who, participantId, c, resource, intent)
  {
    hide ImplicitReason, IsExplicit, Usable;
    var after := WithGrant(db, id, g);
    if intent.Some? && HoldsDelegatedFor(db, now, who, participantId, c, resource, intent.value) {
      var u :| u in db.delegated && Usable(db, now, who, participantId, c, resource, intent.value, db.delegated[u]);
      UsableStays(db, now, who, participantId, c, resource, intent.value, id, g, u);
      assert Usable(after, now, who, participantId, c, resource, intent.value, after.delegated[u]);
    }
  }

  lemma DirectStays(db: Db, who: Principal, participantId: string, c: Capability, resource: Option<string>, id: int,
                    g: DelegatedGrant)
    requires participantId in db.participants
    ensures AuthorizedDirectly(WithGrant(db, id, g), who, participantId, c, resource)
            <==> AuthorizedDirectly(db, who, participantId, c, resource)
  {
    hide ImplicitReason, IsExplicit;
  }

  /** What one more delegated grant of any kind does to a request that was allowed, on any tables: it stays
      allowed exactly if it does not rest on delegation or the new tables hide nothing from it. */
  lemma AddingDelegatedGrantExactly(db: Db, now: int, who: Principal, participantId: string, c: Capability,
                                    resource: Option<string>, intent: Option<string>, id: int, g: DelegatedGrant)
    requires id !in db.delegated && Decide(db, now, who, participantId, c, resource, intent).allowed
    ensures participantId in db.participants
    ensures Decide(WithGrant(db, id, g), now, who, participantId, c, resource, intent).allowed
            <==> || AuthorizedDirectly(db, who, participantId, c, resource)
                 || (intent.Some? && !ScanHides(WithGrant(db, id, g), now, who, participantId, c, resource,
                                                intent.value))
  {
    hide Decide, Authorized, AuthorizedDirectly, ScanHides;
    DecideExact(db, now, who, participantId, c, resource, intent);
    AuthorizedParticipant(db, now, who, participantId, c, resource, intent);
    AuthorizedStays(db, now, who, participantId, c, resource, intent, id, g);
    DirectStays(db, who, participantId, c, resource, id, g);
    DecideExact(WithGrant(db, id, g), now, who, participantId, c, resource, intent);
    AuthorizedHow(db, now, who, participantId, c, resource, intent);
  }

  lemma AuthorizedHow(db: Db, now: int, who: Principal, participantId: string, c: Capability, resource: Option<string>,
                      intent: Option<string>)
    requires Authorized(db, now, who, participantId, c, resource, intent)
    ensures participantId in db.participants
            && (AuthorizedDirectly(db, who, participantId, c, resource) || intent.Some?)
  {
    hide ImplicitReason, HoldsDurable, HoldsDurableFor;
  }

  /** A fresh grant hides nothing that was not hidden before. */
  lemma FreshGrantHidesNothing(db: Db, now: int, who: Principal, participantId: string, c: Capability,
                               resource: Option<string>, intent: string, id: int, g: DelegatedGrant)
    requires id !in db.delegated && g.consumedAt.None?
    requires ScanHides(WithGrant(db, id, g), now, who, participantId, c, resource, intent)
    ensures ScanHides(db, now, who, participantId, c, resource, intent)
  {
    hide DelegatedPreferred, Usable, Denial, IsCandidate;
    var after := WithGrant(db, id, g);
    var s :| s in after.delegated && Hides(after, now, who, participantId, c, resource, intent, s);
    assert s != id && s in db.delegated;
    UsableStays(db, now, who, participantId, c, resource, intent, id, g, s);
    forall u | u in db.delegated && Usable(db, now, who, participantId, c, resource, intent, db.delegated[u])
      ensures DelegatedPreferred((s, db.delegated[s]), (u, db.delegated[u]))
    {
      UsableStays(db, now, who, participantId, c, resource, intent, id, g, u);
      assert u in after.delegated && after.delegated[u] == db.delegated[u];
    }
    assert Hides(db, now, who, participantId, c, resource, intent, s);
  }

  /** On any tables, damaged ones included, adding an unconsumed delegated grant never takes authority away. */
  lemma AddingFreshGrantKeepsAuthority(db: Db, now: int, who: Principal, participantId: string, c: Capability,
                                       resource: Option<string>, intent: Option<string>, id: int, g: DelegatedGrant)
    requires id !in db.delegated && g.consumedAt.None?
    requires Decide(db, now, who, participantId, c, resource, intent).allowed
    ensures Decide(WithGrant(db, id, g), now, who, participantId, c, resource, intent).allowed
  {
    hide Decide, Authorized, AuthorizedDirectly, ScanHides;
    AddingDelegatedGrantExactly(db, now, who, participantId, c, resource, intent, id, g);
    DecideExact(db, now, who, participantId, c, resource, intent);
    AuthorizedHow(db, now, who, participantId, c, resource, intent);
    if intent.Some? && ScanHides(WithGrant(db, id, g), now, who, participantId, c, resource, intent.value) {
      FreshGrantHidesNothing(db, now, who, participantId, c, resource, intent.value, id, g);
    }
  }

  /** Nor does adding any delegated grant, consumed or not, where consumption is receipted. */
  lemma AddingDelegatedGrantKeepsAuthority(db: Db, now: int, who: Principal, participantId: string, c: Capability,
                                           resource: Option<string>, intent: Option<string>, id: int, g: DelegatedGrant)
    requires id !in db.delegated && ConsumptionReceipted(WithGrant(db, id, g))
    requires Decide(db, now, who, participantId, c, resource, intent).allowed
    ensures Decide(WithGrant(db, id, g), now, who, participantId, c, resource, intent).allowed
  {
    hide Decide, Authorized, AuthorizedDirectly, ScanHides, ConsumptionReceipted;
    AddingDelegatedGrantExactly(db, now, who, participantId, c, resource, intent, id, g);
    DecideExact(db, now, who, participantId, c, resource, intent);
    AuthorizedHow(db, now, who, participantId, c, resource, intent);
    if intent.Some? { ReceiptedNeverHides(WithGrant(db, id, g), now, who, participantId, c, resource, intent.value); }
  }

  /** On damaged tables the order does matter: a consumed grant without its receipt hides a usable
      one ranked behind it. */
  lemma DamagedTablesHideUsableGrant() returns (db: Db, who: Principal)
    ensures !ConsumptionReceipted(db)
    ensures Authorized(db, 0, who, "p", PostMessage, Some("r"), Some("i"))
    ensures !Decide(db, 0, who, "p", PostMessage, Some("r"), Some("i")).allowed
    ensures "p" in db.participants && OrderMatters(db, 0, who, "p", PostMessage, Some("r"), Some("i"))
  {
    db, who := DamagedTables();
    DecideExact(db, 0, who, "p", PostMessage, Some("r"), Some("i"));
  }

  lemma DamagedTables() returns (db: Db, who: Principal)
    ensures !ConsumptionReceipted(db) && "p" in db.participants
    ensures Authorized(db, 0, who, "p", PostMessage, Some("r"), Some("i"))
    ensures !Decide(db, 0, who, "p", PostMessage, Some("r"), Some("i")).allowed
  {
    who := Principal("oidc", "agent");
    var spent := DelegatedGrant(who, "p", PostMessage, None, Some("i"), None, 1, Some(0), Some("i"), Active);
    var open := DelegatedGrant(who, "p", PostMessage, None, None, None, 0, None, None, Active);
    db := EMPTY_DB.(participants := map["p" := Participant("s", UserRole, ParticipantActive, None)],
                    delegated := map[1 := spent, 2 := open]);
    assert Usable(db, 0, who, "p", PostMessage, Some("r"), "i", db.delegated[2]);
    assert !CommittedReceiptExists(db, "p", "i");
    assert db.delegated[1] == spent;
    var rows := DelegatedRows(db, who, "p", PostMessage);
    DelegatedRowFacts(db, who, "p", PostMessage, 1, spent);
    DelegatedRowFacts(db, who, "p", PostMessage, rows[0].0, rows[0].1);
    HeadIsLeast(rows, DelegatedCandidates(db, who, "p", PostMessage), DelegatedPreference, (1, spent));
    assert DelegatedPreference((2, open))[0] == Num(1) && DelegatedPreference((1, spent))[0] == Num(0);
    assert rows[0] == (1, spent);
    DurablePart(db, who, "p", PostMessage, Some("r"));
    assert |who.provider| == 4;
  }
}
