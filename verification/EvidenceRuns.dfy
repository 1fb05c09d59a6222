/** The evidence tables over whole runs: when the sweep is valid, what history never changes, and where
    each one-shot grant was spent. */
module EvidenceRuns {
  import opened Text
  import opened Order
  import opened Tables
  import opened Authorization
  import opened Board
  import opened Execution
  import opened ExecutionAudit
  import opened ExecutionSweep
  import opened Administration
  import opened AdministrationLog
  import opened Kernel
  import opened Preservation
  import opened ExecutionPreservation
  import opened Runs

  // ---- the sweep over runs ------------------------------------------------------------------

  /** Every reservation carries the provenance of its creation. */
  ghost predicate ReservationsProven(db: Db) {
    forall k | k in db.reservations :: k in db.provenance
  }

  lemma IngressAccounted(db: Db, d: string)
    requires IngressBound(db) && d in db.ingress
    ensures IngressOrphans(db, d, db.ingress[d]) == []
  {
    hide Blank, IsParticipantId, MetadataBlank;
    ParticipantIdBound(db.ingress[d].participantId.value);
  }

  /** In a reachable state an execution is coherent exactly when it has provenance. */
  lemma CoherentExact(h: Hash, db: Db, k: ExecutionId)
    requires Invariant(h, db)
    ensures Coherent(h, db, k) <==> k in db.provenance
  {
    hide Blank, MetadataBlank, PrincipalBound, Unbound, PolicySound, Logged, IngressBound;
  }

  lemma AccountedExact(h: Hash, db: Db)
    requires Invariant(h, db)
    ensures AllAccounted(h, db) <==> ReservationsProven(db)
  {
    hide Invariant, Coherent, IngressOrphans, IngressBound, ReceiptsBound, ConsumptionBacked, ProvenanceCoherent,
         ReservationsBound, MessagesNumbered, PolicySound, Blank;
    ReservationsHold(h, db);
    ReservationsOf(h, db);
    forall k ensures Coherent(h, db, k) <==> k in db.provenance { CoherentExact(h, db, k); }
    forall d | d in db.ingress
      ensures && db.ingress[d].participantId.Some? && !Blank(db.ingress[d].participantId.value)
              && ExecutionId(db.ingress[d].participantId.value, db.ingress[d].intentId) in db.receipts
    {
      IngressAccounted(db, d);
      DeliveryAccounted(db, d, db.ingress[d]);
    }
  }

  /** The legacy writer created a message. */
  predicate LegacyCreated(outcome: Outcome) {
    outcome.Navigated? && outcome.navigation.NavigationCreated?
  }

  /** The same, as it can be told before the call: a legacy append for an execution not reserved yet, whose
      reply target, if any, exists. */
  predicate LegacyCreates(db: Db, step: Step) {
    && step.NavigationStep? && ExecutionId(step.who.instance, step.input.nonce) !in db.reservations
    && ReplyTargetExists(db, step.input.replyTo)
  }

  lemma LegacyCreatesExact(h: Hash, db: Db, now: int, step: Step)
    ensures LegacyCreated(Apply(h, db, now, step).1) <==> LegacyCreates(db, step)
  {
    hide Execute, AppendMessage, Administer, EnsureChannel, UpdateChannel, InsertMessage;
  }

  lemma LegacyUnproven(h: Hash, db: Db, now: int, step: Step)
    requires Invariant(h, db) && LegacyCreated(Apply(h, db, now, step).1)
    ensures !ReservationsProven(Apply(h, db, now, step).0)
  {
    hide Invariant, Execute, NavigationAppend, AppendMessage, Administer, EnsureChannel, UpdateChannel, PolicySound;
    ReservationsOf(h, db);
    var k := ExecutionId(step.who.instance, step.input.nonce);
    NavigationReservation(db, now, step.who, step.input, step.conversationRef);
  }

  lemma NavigationReservation(db: Db, now: int, who: Identity, input: NavigationInput, conversationRef: Option<string>)
    requires NavigationAppend(db, now, who, input, conversationRef).1.NavigationCreated?
    ensures var after := NavigationAppend(db, now, who, input, conversationRef).0;
            var k := ExecutionId(who.instance, input.nonce);
            k in after.reservations && k !in db.reservations && after.provenance == db.provenance
  {
  }

  lemma CreationProven(h: Hash, db: Db, now: int, who: Identity, r: ExecutionRequest)
    requires Invariant(h, db) && Guarded(ExecuteStep(who, r)) && Execute(h, db, now, who, r).1.Created?
    ensures ReservationsProven(Execute(h, db, now, who, r).0) <==> ReservationsProven(db)
  {
    hide Invariant, Execute, EnvelopeMatches, SameEvidence, DecisionFor, Extends, Guarded, PolicySound;
    ReservationsOf(h, db);
    ExecuteKeeps(h, db, now, who, r);
    var after, k := Execute(h, db, now, who, r).0, ExecutionId(who.instance, r.intent.id);
    assert k !in db.reservations && after.reservations.Keys == db.reservations.Keys + {k};
    assert after.provenance.Keys == db.provenance.Keys + {k};
  }

  lemma StepProven(h: Hash, db: Db, now: int, step: Step)
    requires Invariant(h, db) && Guarded(step)
    ensures var (after, outcome) := Apply(h, db, now, step);
            ReservationsProven(after) <==> ReservationsProven(db) && !LegacyCreated(outcome)
  {
    hide Invariant, Guarded, Execute, NavigationAppend, AppendMessage, Administer, EnsureChannel, UpdateChannel,
         ReservationsProven, Extends;
    var (after, outcome) := Apply(h, db, now, step);
    StepKeeps(h, db, now, step);
    ReservationsChange(h, db, now, step);
    if LegacyCreated(outcome) {
      LegacyUnproven(h, db, now, step);
    } else if Creates(outcome) {
      CreationProven(h, db, now, step.who, step.request);
    } else {
      SameReservationsProven(db, after);
    }
  }

  lemma SameReservationsProven(db: Db, after: Db)
    requires Extends(db, after) && after.reservations == db.reservations
    ensures ReservationsProven(after) <==> ReservationsProven(db)
  {
  }

  lemma {:induction false} RunProven(h: Hash, run: seq<Timed>, n: nat)
    requires GuardedRun(run) && n <= |run|
    ensures ReservationsProven(StateAt(h, run, n)) <==> forall i | 0 <= i < n :: !LegacyCreated(OutcomeAt(h, run, i))
  {
    hide Invariant, Apply, LegacyCreated, Guarded;
    if n > 0 {
      RunProven(h, run, n - 1);
      RunKeeps(h, run, n - 1);
      StepProven(h, StateAt(h, run, n - 1), run[n - 1].0, run[n - 1].1);
      assert OutcomeAt(h, run, n - 1) == Apply(h, StateAt(h, run, n - 1), run[n - 1].0, run[n - 1].1).1;
      assert StateAt(h, run, n) == Apply(h, StateAt(h, run, n - 1), run[n - 1].0, run[n - 1].1).0;
    } else {
      assert ReservationsProven(EMPTY_DB);
    }
  }

  /** The writers satisfy the auditor, and the legacy writer is the exact exception: the sweep of a
      reachable state is valid exactly when no legacy navigation append has created a message. No
      property of the hash is used. */
  lemma SweepOverRuns(h: Hash, run: seq<Timed>, n: nat)
    requires GuardedRun(run) && n <= |run|
    ensures SweepValid(h, StateAt(h, run, n)) <==> forall i | 0 <= i < n :: !LegacyCreated(OutcomeAt(h, run, i))
    ensures SweepValid(h, StateAt(h, run, n)) <==> forall i | 0 <= i < n :: !LegacyCreates(StateAt(h, run, i), run[i].1)
  {
    hide Invariant, LegacyCreated, LegacyCreates, Guarded, SweepValid, AllAccounted, ReservationsProven, StateAt,
         OutcomeAt;
    forall i | 0 <= i < n ensures LegacyCreated(OutcomeAt(h, run, i)) <==> LegacyCreates(StateAt(h, run, i), run[i].1) {
      OutcomeOf(h, run, i);
      LegacyCreatesExact(h, StateAt(h, run, i), run[i].0, run[i].1);
    }
    RunKeeps(h, run, n);
    RunProven(h, run, n);
    AccountedExact(h, StateAt(h, run, n));
    SweepValidExact(h, StateAt(h, run, n));
  }

  /** The exception is real: one legacy append into an empty database leads to a state the sweep rejects. */
  lemma LegacyAppendWitness(h: Hash) returns (run: seq<Timed>)
    ensures GuardedRun(run) && |run| == 1 && !SweepValid(h, StateAt(h, run, 1))
  {
    hide SweepValid, Apply;
    var input := NavigationInput("c", "message", "b", None, "n", "");
    run := [(0, NavigationStep(Identity("s", "p"), input, None))];
    assert StateAt(h, run, 0) == EMPTY_DB;
    assert LegacyCreates(StateAt(h, run, 0), run[0].1);
    SweepOverRuns(h, run, 1);
  }

  /** What the sweep lists when it is not valid: reservations no receipt ever followed, each with its
      participant, its nonce and its message, and the reports of receipts whose message a legacy append
      created. */
  lemma SweepFindings(h: Hash, run: seq<Timed>, n: nat, o: Orphan, report: AuditReport)
    requires GuardedRun(run) && n <= |run|
    ensures var db := StateAt(h, run, n);
            && (o in SortBy(OrphanList(db), OrphanKey)
                <==> exists k | k in db.reservations ::
                       && k !in db.receipts
                       && o == Orphan(OrphanNavigationReservation, Some(k.participant), k.intent,
                                      Some("message_id=" + Decimal(db.reservations[k].messageId))))
            && (report in InvalidReports(h, db, InOrder(db.receipts.Keys))
                <==> exists k | k in db.receipts :: k !in db.provenance && report == Report(h, db, k))
  {
    hide Invariant, Guarded, GuardedRun, StateAt, OrphanList, OrphanKey, InvalidReports, Report, Coherent,
         IngressOrphans, OrphanedDelivery, Decimal;
    var db := StateAt(h, run, n);
    RunKeeps(h, run, n);
    ReservationsHold(h, db);
    ReservationsOf(h, db);
    hide IngressBound, ReceiptsBound, ConsumptionBacked, ProvenanceCoherent;
    SweepExact(h, db, o, report);
    forall k ensures Coherent(h, db, k) <==> k in db.provenance { CoherentExact(h, db, k); }
    forall d | d in db.ingress ensures !OrphanedDelivery(db, d, db.ingress[d], o) {
      IngressAccounted(db, d);
      DeliverySpelled(db, d, db.ingress[d], o);
    }
  }

  // ---- history ------------------------------------------------------------------------------

  /** The rows a report on k is made of are the same. */
  ghost predicate SameEvidenceRows(a: Db, b: Db, k: ExecutionId) {
    && k in a.receipts && k in b.receipts && a.receipts[k] == b.receipts[k]
    && k in a.reservations && k in b.reservations && a.reservations[k] == b.reservations[k]
    && a.receipts[k].messageId in a.messages && a.receipts[k].messageId in b.messages
    && a.messages[a.receipts[k].messageId] == b.messages[a.receipts[k].messageId]
    && (k in a.provenance <==> k in b.provenance)
    && (k in a.provenance ==> a.provenance[k] == b.provenance[k])
  }

  lemma RowsStable(h: Hash, a: Db, b: Db, k: ExecutionId)
    requires Invariant(h, a) && Invariant(h, b) && Extends(a, b) && k in a.receipts
    ensures SameEvidenceRows(a, b, k)
  {
    hide Invariant, PolicySound, GrantsKept;
    ReservationsOf(h, a);
  }

  lemma GrantSectionStable(h: Hash, a: Db, b: Db, k: ExecutionId)
    requires Invariant(h, a) && Invariant(h, b) && Extends(a, b) && SameEvidenceRows(a, b, k)
    ensures GrantDefects(a, k, a.receipts[k]) == GrantDefects(b, k, b.receipts[k])
    ensures GrantChecks(a, k, a.receipts[k]) == GrantChecks(b, k, b.receipts[k])
  {
    hide Invariant, Coherent, Kept, GrantRowDefects, GrantRowChecks, GrantsKept;
    if CitesDelegated(a, k) {
      CitedGrantSound(h, a, k);
      CitedGrantSound(h, b, k);
      CitedGrantKept(a, b, k);
      GrantRowStable(CitedGrant(a, k).value, CitedGrant(b, k).value, k, a.receipts[k]);
    }
  }

  /** In a reachable state the cited delegated grant exists, is bound, and if one-shot is consumed. */
  lemma CitedGrantSound(h: Hash, db: Db, k: ExecutionId)
    requires Invariant(h, db) && CitesDelegated(db, k)
    ensures db.provenance[k].grantId.Some? && CitedGrant(db, k).Some?
    ensures k in db.receipts && GrantBound(CitedGrant(db, k).value, k, db.receipts[k])
    ensures CitedGrant(db, k).value.oneShot != 0 ==> ConsumedBy(CitedGrant(db, k).value, k.intent)
  {
    hide Invariant, PrincipalBound, Blank, MetadataBlank, Unbound, Delivers;
    CoherentExact(h, db, k);
  }

  lemma CitedGrantKept(a: Db, b: Db, k: ExecutionId)
    requires GrantsKept(a.delegated, b.delegated) && SameEvidenceRows(a, b, k)
    requires CitesDelegated(a, k) && CitedGrant(a, k).Some? && CitedGrant(b, k).Some?
    ensures CitedGrant(a, k).value.oneShot == CitedGrant(b, k).value.oneShot
  {
    GrantKept(a.delegated, b.delegated, a.provenance[k].grantId.value);
  }

  lemma GrantRowStable(g: DelegatedGrant, g': DelegatedGrant, k: ExecutionId, r: Receipt)
    requires GrantBound(g, k, r) && GrantBound(g', k, r) && g.oneShot == g'.oneShot
    requires g.oneShot != 0 ==> ConsumedBy(g, k.intent) && ConsumedBy(g', k.intent)
    ensures GrantRowDefects(g, k, r) == GrantRowDefects(g', k, r) && GrantRowChecks(g, k, r) == GrantRowChecks(g', k, r)
  {
  }

  lemma IngressSection(h: Hash, db: Db, k: ExecutionId)
    requires Invariant(h, db) && k in db.receipts
    ensures IngressDefects(db, k) == [] && IngressChecks(db, k) == [IngressBindingValid, IngressMetadataValid]
  {
    hide Invariant, HasUnbound, HasDelivery, HasBlankDelivery;
    IngressSound(h, db, k);
  }

  lemma IngressSound(h: Hash, db: Db, k: ExecutionId)
    requires Invariant(h, db) && k in db.receipts
    ensures !HasUnbound(db, k) && HasDelivery(db, k) && !HasBlankDelivery(db, k)
  {
    hide Invariant, HasUnbound, HasDelivery, HasBlankDelivery, IngressBound, MessagesNumbered, ReservationsBound,
         ConsumptionBacked, ProvenanceCoherent;
    ReservationsHold(h, db);
    IngressClean(db, k);
  }

  lemma IngressClean(db: Db, k: ExecutionId)
    requires IngressBound(db)
    ensures !HasUnbound(db, k) && !HasBlankDelivery(db, k)
  {
    hide Unbound, MetadataBlank, Delivers, IngressBound;
    forall d | d in db.ingress ensures !Unbound(db.ingress[d]) && !MetadataBlank(d, db.ingress[d]) {
      BoundIngress(db, d);
    }
  }

  lemma OtherSectionsStable(h: Hash, a: Db, b: Db, k: ExecutionId)
    requires SameEvidenceRows(a, b, k)
    ensures var r := a.receipts[k];
            && MessageDefects(h, a, k, r) == MessageDefects(h, b, k, r)
            && MessageChecks(h, a, k, r) == MessageChecks(h, b, k, r)
            && ExaminedReservation(a, k, r.messageId) == ExaminedReservation(b, k, r.messageId)
            && AuthorizationDefects(a, k, r) == AuthorizationDefects(b, k, r)
            && AuthorizationChecks(a, k, r) == AuthorizationChecks(b, k, r)
  {
    hide ProvenanceDefects, ProvenanceChecks;
  }

  lemma ReportStable(h: Hash, a: Db, b: Db, k: ExecutionId)
    requires Invariant(h, a) && Invariant(h, b) && Extends(a, b) && k in a.receipts
    ensures Report(h, a, k) == Report(h, b, k)
  {
    hide Invariant, Extends, MessageDefects, MessageChecks, ExaminedReservation, NavigationDefects, NavigationChecks,
         AuthorizationDefects, AuthorizationChecks, GrantDefects, GrantChecks, IngressDefects, IngressChecks;
    RowsStable(h, a, b, k);
    GrantSectionStable(h, a, b, k);
    IngressSection(h, a, k);
    IngressSection(h, b, k);
    OtherSectionsStable(h, a, b, k);
  }

  /** Historical stability: once an execution has a receipt, no later step of any kind changes its
      verification report, its receipt or its provenance, and its deliveries are only added to. */
  lemma HistoryStable(h: Hash, run: seq<Timed>, m: nat, n: nat, k: ExecutionId)
    requires GuardedRun(run) && m <= n <= |run| && k in StateAt(h, run, m).receipts
    ensures var a, b := StateAt(h, run, m), StateAt(h, run, n);
            && Report(h, b, k) == Report(h, a, k)
            && k in b.receipts && b.receipts[k] == a.receipts[k]
            && (k in b.provenance <==> k in a.provenance)
            && (k in a.provenance ==> b.provenance[k] == a.provenance[k])
            && Kept(a.ingress, b.ingress)
  {
    hide Invariant, StateAt, Report, GuardedRun;
    RunKeeps(h, run, m);
    RunKeeps(h, run, n);
    RunExtends(h, run, m, n);
    RowsStable(h, StateAt(h, run, m), StateAt(h, run, n), k);
    ReportStable(h, StateAt(h, run, m), StateAt(h, run, n), k);
  }

  // ---- one-shot grants ----------------------------------------------------------------------

  /** One-shot grants that were consumed. */
  ghost predicate Spent(db: Db, id: int) {
    id in db.delegated && db.delegated[id].oneShot != 0 && db.delegated[id].consumedAt.Some?
  }

  /** Executions whose provenance cites this one-shot delegated grant. */
  ghost predicate CitesOneShot(db: Db, k: ExecutionId, id: int) {
    && k in db.provenance && db.provenance[k].source == DelegatedGrants && db.provenance[k].grantId == Some(id)
    && id in db.delegated && db.delegated[id].oneShot != 0
  }

  /** Conservation: `Consumer` is a bijection from the spent one-shot grants to the executions whose
      provenance cites one, so a grant is spent on one execution, the one its row names. */
  lemma OneShotConservation(h: Hash, run: seq<Timed>, n: nat)
    requires GuardedRun(run) && n <= |run|
    ensures var db := StateAt(h, run, n);
            && (forall id | Spent(db, id) ::
                db.delegated[id].consumedIntentId.Some? && CitesOneShot(db, Consumer(db.delegated[id]), id))
            && (forall k, id | CitesOneShot(db, k, id) :: Spent(db, id) && Consumer(db.delegated[id]) == k)
  {
    hide Invariant, StateAt, GuardedRun;
    RunKeeps(h, run, n);
    SpentExactly(h, StateAt(h, run, n));
  }

  lemma SpentExactly(h: Hash, db: Db)
    requires Invariant(h, db)
    ensures forall id | Spent(db, id) ::
            db.delegated[id].consumedIntentId.Some? && CitesOneShot(db, Consumer(db.delegated[id]), id)
    ensures forall k, id | CitesOneShot(db, k, id) :: Spent(db, id) && Consumer(db.delegated[id]) == k
  {
    hide Blank, MetadataBlank, PrincipalBound, Unbound, PolicySound, Logged, IngressBound, Delivers, MessagesNumbered,
         ReservationsBound, ReceiptsBound;
  }

  /** The execution whose grant a creation consumes is cited by the new provenance. */
  lemma CreationCites(h: Hash, db: Db, now: int, who: Identity, r: ExecutionRequest)
    requires Invariant(h, db) && Guarded(ExecuteStep(who, r)) && Execute(h, db, now, who, r).1.Created?
    requires DecisionFor(db, now, r).consumeGrantId.Some?
    ensures var after := Execute(h, db, now, who, r).0;
            var id := DecisionFor(db, now, r).consumeGrantId.value;
            && CitesOneShot(after, ExecutionId(who.instance, r.intent.id), id)
            && id in db.delegated && IsCandidate(db.delegated[id], r.principal, r.intent.participantId,
                                                 r.intent.capability)
            && Denial(db.delegated[id], now, Some(r.intent.resource), r.intent.id).None?
  {
    hide Invariant, Execute, EnvelopeMatches, SameEvidence, DecisionFor, Denial, IsCandidate, Kept, GrantsKept, Guarded,
         Succeeds;
    ExecuteKeeps(h, db, now, who, r);
    ConsumedGrant(db, now, r);
    GrantKept(db.delegated, Execute(h, db, now, who, r).0.delegated, DecisionFor(db, now, r).consumeGrantId.value);
  }

  lemma ConsumedGrant(db: Db, now: int, r: ExecutionRequest)
    requires DecisionFor(db, now, r).allowed && DecisionFor(db, now, r).consumeGrantId.Some?
    ensures var d := DecisionFor(db, now, r);
            var id := d.consumeGrantId.value;
            && d.source == DelegatedGrants && d.grantId == Some(id) && id in db.delegated
            && db.delegated[id].oneShot != 0
            && IsCandidate(db.delegated[id], r.principal, r.intent.participantId, r.intent.capability)
            && Denial(db.delegated[id], now, Some(r.intent.resource), r.intent.id).None?
  {
    hide Decide, Denial, IsCandidate, CommittedReceiptExists;
    DecisionRestsOn(db, now, r.principal, r.intent.participantId, r.intent.capability, Some(r.intent.resource),
                    r.intent.id);
  }

  /** A spent grant is not spent again. */
  lemma SpentOnce(h: Hash, db: Db, now: int, who: Identity, r: ExecutionRequest, k: ExecutionId, id: int)
    requires Invariant(h, db) && Guarded(ExecuteStep(who, r)) && CitesOneShot(db, k, id)
    requires Execute(h, db, now, who, r).1.Created?
    ensures DecisionFor(db, now, r).consumeGrantId != Some(id)
  {
    hide Invariant, Execute, DecisionFor, Extends, IsCandidate, Denial, CitesOneShot, ExecutionEffect, Guarded;
    if DecisionFor(db, now, r).consumeGrantId == Some(id) {
      var after := Execute(h, db, now, who, r).0;
      ExecuteKeeps(h, db, now, who, r);
      CreationCites(h, db, now, who, r);
      CitationKept(db, after, k, id);
      CitationReserved(h, db, k, id);
      FreshCreation(h, db, now, who, r);
      SpentExactly(h, after);
    }
  }

  /** No one-shot grant ever backs two created messages. */
  lemma OneGrantOneMessage(h: Hash, run: seq<Timed>, i: nat, j: nat)
    requires GuardedRun(run) && i < j < |run| && run[i].1.ExecuteStep? && run[j].1.ExecuteStep?
    requires Creates(OutcomeAt(h, run, i)) && Creates(OutcomeAt(h, run, j))
    requires DecisionFor(StateAt(h, run, i), run[i].0, run[i].1.request).consumeGrantId.Some?
    ensures DecisionFor(StateAt(h, run, j), run[j].0, run[j].1.request).consumeGrantId
            != DecisionFor(StateAt(h, run, i), run[i].0, run[i].1.request).consumeGrantId
  {
    hide Invariant, Execute, DecisionFor, GuardedRun, Extends, IsCandidate, Denial, CitesOneShot, Guarded;
    var a, b := StateAt(h, run, i), StateAt(h, run, j);
    var (t, step) := run[i];
    var (t', step') := run[j];
    var id := DecisionFor(a, t, step.request).consumeGrantId.value;
    var k := ExecutionId(step.who.instance, step.request.intent.id);
    RunKeeps(h, run, i);
    RunKeeps(h, run, j);
    GuardedAt(run, i);
    GuardedAt(run, j);
    CreationCites(h, a, t, step.who, step.request);
    RunExtends(h, run, i + 1, j);
    CitationKept(StateAt(h, run, i + 1), b, k, id);
    SpentOnce(h, b, t', step'.who, step'.request, k, id);
  }

  lemma CitationKept(a: Db, b: Db, k: ExecutionId, id: int)
    requires Extends(a, b) && CitesOneShot(a, k, id)
    ensures CitesOneShot(b, k, id)
  {
  }

  lemma CitationReserved(h: Hash, db: Db, k: ExecutionId, id: int)
    requires Invariant(h, db) && CitesOneShot(db, k, id)
    ensures k in db.reservations
  {
    hide Invariant;
    ReservationsOf(h, db);
  }

  lemma FreshCreation(h: Hash, db: Db, now: int, who: Identity, r: ExecutionRequest)
    requires Execute(h, db, now, who, r).1.Created?
    ensures ExecutionId(who.instance, r.intent.id) !in db.reservations
  {
    hide Decide, RecordExecution, EnvelopeMatches;
  }
}
