/** The evaluator's answer in row columns: for every reason exactly when it is given, and what the decision
    that gives it cites and consumes. */
module DecisionExact {
  import opened Text
  import opened Order
  import opened Tables
  import opened Authorization
  import opened AuthorizationPreference

  /** What is asked of the evaluator. */
  datatype Question = Question(
    who: Principal, participantId: string, capability: Capability, resource: Option<string>, intent: Option<string>)

  ghost function Answer(db: Db, now: int, q: Question): Decision {
    Decide(db, now, q.who, q.participantId, q.capability, q.resource, q.intent)
  }

  // ---- the participant ----------------------------------------------------------------------

  predicate IsActive(db: Db, q: Question) {
    q.participantId in db.participants && db.participants[q.participantId].status == ParticipantActive
  }

  // ---- durable grants -----------------------------------------------------------------------

  predicate DurableHeld(db: Db, q: Question, id: int) {
    && id in db.durable
    && db.durable[id].principal == q.who && db.durable[id].participantId == q.participantId
    && db.durable[id].capability == q.capability && db.durable[id].status == Active
  }

  predicate DurableMatches(db: Db, q: Question, id: int) {
    DurableHeld(db, q, id) && (db.durable[id].resource == None || db.durable[id].resource == q.resource)
  }

  ghost predicate SomeDurable(db: Db, q: Question) {
    exists id :: DurableHeld(db, q, id)
  }

  ghost predicate SomeDurableMatches(db: Db, q: Question) {
    exists id :: DurableMatches(db, q, id)
  }

  /** The matching durable grant preferred to every other. */
  ghost predicate BestDurable(db: Db, q: Question, id: int) {
    && DurableMatches(db, q, id)
    && forall other | DurableMatches(db, q, other) ::
         DurablePreferred((id, db.durable[id]), (other, db.durable[other]))
  }

  // ---- implicit authority -------------------------------------------------------------------

  predicate Conversational(c: Capability) {
    c == ReadMessages || c == PostMessage || c == Reply || c == ReadExecutionReceipt || c == ReadExecutionAudit
  }

  /** The capability and the resource a web administrator needs no grant for. */
  predicate AdministratorMay(c: Capability, resource: Option<string>) {
    match c
    case ManageChannels => true
    case ReadExecutionAuditSweep => resource == Some("execution-audit-sweep")
    case ReadAuthorizationPolicyIntegrity => resource == Some("authorization-policy-integrity")
    case ReadAuthorizationPolicy => resource == Some("authorization-policy")
    case ReadAuthorizationDecision => resource == Some("authorization-decision")
    case ManageAuthorizationPolicy => resource == Some("authorization-policy-administration")
    case ReadAuthorizationAdministrationHistory => resource == Some("authorization-administration-history")
    case _ => false
  }

  /** The participant row gives this authority without a grant, for this reason. */
  predicate Implies(row: Participant, q: Question, reason: Reason) {
    match reason
    case ImplicitParticipantHmac =>
      q.who == Principal("participant-hmac", q.participantId) && Conversational(q.capability)
    case ImplicitHumanWeb =>
      q.who == Principal("human-web", q.participantId) && Conversational(q.capability)
    case ImplicitHumanWebAdmin(over) =>
      && over == q.capability && AdministratorMay(q.capability, q.resource)
      && q.who == Principal("human-web", q.participantId) && row.role == AdminRole
    case ImplicitGithubOwner =>
      q.who.provider == "github" && row.owner == Some(q.who) && Conversational(q.capability)
    case _ => false
  }

  ghost predicate SomeImplicit(db: Db, q: Question)
    requires q.participantId in db.participants
  {
    exists reason :: Implies(db.participants[q.participantId], q, reason)
  }

  // ---- delegated grants ---------------------------------------------------------------------

  predicate Candidate(db: Db, q: Question, id: int) {
    && id in db.delegated
    && db.delegated[id].principal == q.who && db.delegated[id].participantId == q.participantId
    && db.delegated[id].capability == q.capability && db.delegated[id].status == Active
  }

  predicate OtherResource(g: DelegatedGrant, q: Question) {
    g.resource.Some? && g.resource != q.resource
  }

  predicate OtherIntent(g: DelegatedGrant, q: Question) {
    g.intentId.Some? && g.intentId != q.intent
  }

  predicate SpentElsewhere(g: DelegatedGrant, q: Question) {
    g.oneShot != 0 && g.consumedAt.Some? && g.consumedIntentId != q.intent
  }

  /** Past its expiry, and not a one-shot grant this very intent consumed. */
  predicate Expired(g: DelegatedGrant, now: int, q: Question) {
    g.expiresAt.Some? && g.expiresAt.value <= now && (g.oneShot == 0 || g.consumedIntentId != q.intent)
  }

  predicate Applicable(db: Db, now: int, q: Question, id: int) {
    && Candidate(db, q, id)
    && !OtherResource(db.delegated[id], q) && !OtherIntent(db.delegated[id], q)
    && !SpentElsewhere(db.delegated[id], q) && !Expired(db.delegated[id], now, q)
  }

  ghost predicate SomeCandidate(db: Db, q: Question) {
    exists id :: Candidate(db, q, id)
  }

  ghost predicate SomeApplicable(db: Db, now: int, q: Question) {
    exists id :: Applicable(db, now, q, id)
  }

  /** The candidate preferred to every other. */
  ghost predicate BestCandidate(db: Db, q: Question, id: int) {
    && Candidate(db, q, id)
    && forall other | Candidate(db, q, other) ::
         DelegatedPreferred((id, db.delegated[id]), (other, db.delegated[other]))
  }

  /** The applicable candidate preferred to every other applicable one. */
  ghost predicate BestApplicable(db: Db, now: int, q: Question, id: int) {
    && Applicable(db, now, q, id)
    && forall other | Applicable(db, now, q, other) ::
         DelegatedPreferred((id, db.delegated[id]), (other, db.delegated[other]))
  }

  predicate Spent(g: DelegatedGrant) {
    g.oneShot != 0 && g.consumedAt.Some?
  }

  predicate Receipted(db: Db, q: Question) {
    && q.intent.Some? && ExecutionId(q.participantId, q.intent.value) in db.receipts
    && db.receipts[ExecutionId(q.participantId, q.intent.value)].status == Committed
  }

  /** Neither a durable grant nor implicit authority settles the question. */
  ghost predicate Unsettled(db: Db, q: Question) {
    && IsActive(db, q) && !SomeDurableMatches(db, q)
    && (SomeDurable(db, q) || !SomeImplicit(db, q))
  }

  /** Delegated grants are looked at. */
  ghost predicate Delegable(db: Db, q: Question) {
    Unsettled(db, q) && q.intent.Some?
  }

  /** The best candidate of several, none of which applies. */
  ghost predicate Refuses(db: Db, now: int, q: Question, id: int) {
    !SomeApplicable(db, now, q) && BestCandidate(db, q, id)
  }

  // ---- the reasons --------------------------------------------------------------------------

  /** The rows that call for each reason. */
  ghost predicate Calls(db: Db, now: int, q: Question, reason: Reason) {
    match reason
    case ParticipantMissing => q.participantId !in db.participants
    case ParticipantInactive =>
      q.participantId in db.participants && db.participants[q.participantId].status == ParticipantDisabled
    case ExplicitDurableGrantMatch => IsActive(db, q) && SomeDurableMatches(db, q)
    case ImplicitParticipantHmac => ImplicitCalls(db, q, reason)
    case ImplicitHumanWeb => ImplicitCalls(db, q, reason)
    case ImplicitHumanWebAdmin(_) => ImplicitCalls(db, q, reason)
    case ImplicitGithubOwner => ImplicitCalls(db, q, reason)
    case DelegatedGrantMatch =>
      && Delegable(db, q)
      && (exists id :: BestApplicable(db, now, q, id) && !Spent(db.delegated[id]))
    case DelegatedCommittedReplay =>
      && Delegable(db, q) && Receipted(db, q)
      && (exists id :: BestApplicable(db, now, q, id) && Spent(db.delegated[id]))
    case DelegatedConsumedWithoutCommittedReceipt =>
      && Delegable(db, q) && !Receipted(db, q)
      && (exists id :: BestApplicable(db, now, q, id) && Spent(db.delegated[id]))
    case DelegatedResourceMismatch =>
      && Delegable(db, q)
      && (exists id :: && Refuses(db, now, q, id) && OtherResource(db.delegated[id], q))
    case DelegatedIntentMismatch =>
      && Delegable(db, q)
      && (exists id :: && Refuses(db, now, q, id)
                       && !OtherResource(db.delegated[id], q) && OtherIntent(db.delegated[id], q))
    case DelegatedConsumedDifferentIntent =>
      && Delegable(db, q)
      && (exists id :: && Refuses(db, now, q, id)
                       && !OtherResource(db.delegated[id], q) && !OtherIntent(db.delegated[id], q)
                       && SpentElsewhere(db.delegated[id], q))
    case DelegatedGrantExpired =>
      && Delegable(db, q)
      && (exists id :: && Refuses(db, now, q, id)
                       && !OtherResource(db.delegated[id], q) && !OtherIntent(db.delegated[id], q)
                       && !SpentElsewhere(db.delegated[id], q) && Expired(db.delegated[id], now, q))
    case ExplicitResourceScopeMismatch =>
      Unsettled(db, q) && SomeDurable(db, q) && (q.intent.None? || !SomeCandidate(db, q))
    case NoMatchingAuthority =>
      Unsettled(db, q) && !SomeDurable(db, q) && (q.intent.None? || !SomeCandidate(db, q))
  }

  ghost predicate ImplicitCalls(db: Db, q: Question, reason: Reason) {
    IsActive(db, q) && !SomeDurable(db, q) && Implies(db.participants[q.participantId], q, reason)
  }

  /** What the decision for each reason says besides the reason. */
  ghost predicate Says(db: Db, now: int, q: Question, d: Decision) {
    match d.reason
    case ParticipantMissing => d == Decision(false, ParticipantLifecycle, d.reason, None, None)
    case ParticipantInactive => d == Decision(false, ParticipantLifecycle, d.reason, None, None)
    case ExplicitDurableGrantMatch =>
      && d.grantId.Some? && BestDurable(db, q, d.grantId.value)
      && d == Decision(true, PrincipalGrants, d.reason, d.grantId, None)
    case ImplicitParticipantHmac => d == Decision(true, ImplicitAuthority, d.reason, None, None)
    case ImplicitHumanWeb => d == Decision(true, ImplicitAuthority, d.reason, None, None)
    case ImplicitHumanWebAdmin(_) => d == Decision(true, ImplicitAuthority, d.reason, None, None)
    case ImplicitGithubOwner => d == Decision(true, ImplicitAuthority, d.reason, None, None)
    case DelegatedGrantMatch =>
      && d.grantId.Some? && BestApplicable(db, now, q, d.grantId.value)
      && d == Decision(true, DelegatedGrants, d.reason, d.grantId,
                       if db.delegated[d.grantId.value].oneShot != 0 then d.grantId else None)
    case DelegatedCommittedReplay =>
      && d.grantId.Some? && BestApplicable(db, now, q, d.grantId.value)
      && d == Decision(true, DelegatedGrants, d.reason, d.grantId, None)
    case DelegatedConsumedWithoutCommittedReceipt =>
      && d.grantId.Some? && BestApplicable(db, now, q, d.grantId.value)
      && d == Decision(false, DelegatedGrants, d.reason, d.grantId, None)
    case DelegatedResourceMismatch => SaysRefused(db, now, q, d)
    case DelegatedIntentMismatch => SaysRefused(db, now, q, d)
    case DelegatedConsumedDifferentIntent => SaysRefused(db, now, q, d)
    case DelegatedGrantExpired => SaysRefused(db, now, q, d)
    case ExplicitResourceScopeMismatch => d == Decision(false, PrincipalGrants, d.reason, None, None)
    case NoMatchingAuthority => d == Decision(false, Policy, d.reason, None, None)
  }

  ghost predicate SaysRefused(db: Db, now: int, q: Question, d: Decision) {
    && d.grantId.Some? && Refuses(db, now, q, d.grantId.value)
    && d == Decision(false, DelegatedGrants, d.reason, d.grantId, None)
  }

  // ---- the stores, row by row ---------------------------------------------------------------

  lemma DurableSpelled(db: Db, q: Question)
    ensures ExplicitGrants(db, q.who, q.participantId, q.capability) != {} <==> SomeDurable(db, q)
    ensures var rows := DurableRows(db, q.who, q.participantId, q.capability, q.resource);
            && (rows != [] <==> SomeDurableMatches(db, q))
            && (rows != [] ==> BestDurable(db, q, rows[0].0))
    ensures SomeDurableMatches(db, q) ==> SomeDurable(db, q)
  {
    hide Leq, DurablePreferred;
    var rows := DurableRows(db, q.who, q.participantId, q.capability, q.resource);
    DurablePart(db, q.who, q.participantId, q.capability, q.resource);
    DurableHeldSame(db, q);
    if rows != [] {
      assert DurableMatches(db, q, rows[0].0);
      assert rows[0] == (rows[0].0, db.durable[rows[0].0]);
      forall other | DurableMatches(db, q, other)
        ensures DurablePreferred((rows[0].0, db.durable[rows[0].0]), (other, db.durable[other]))
      {
        var matches := ExplicitMatches(db, q.who, q.participantId, q.capability, q.resource);
        assert (other, db.durable[other]) in matches;
        HeadIsLeast(rows, matches, DurablePreference, (other, db.durable[other]));
        DurableRank(rows[0], (other, db.durable[other]));
      }
    }
  }

  lemma DurableHeldSame(db: Db, q: Question)
    ensures HoldsDurable(db, q.who, q.participantId, q.capability) <==> SomeDurable(db, q)
    ensures HoldsDurableFor(db, q.who, q.participantId, q.capability, q.resource) <==> SomeDurableMatches(db, q)
    ensures SomeDurableMatches(db, q) ==> SomeDurable(db, q)
  {
    forall id ensures DurableHeld(db, q, id)
                      <==> id in db.durable && IsExplicit(db.durable[id], q.who, q.participantId, q.capability) {}
    forall id ensures DurableMatches(db, q, id)
                      <==> && id in db.durable && IsExplicit(db.durable[id], q.who, q.participantId, q.capability)
                           && Covers(db.durable[id].resource, q.resource) {}
  }

  lemma ImplicitSpelled(row: Participant, q: Question, reason: Reason)
    ensures ImplicitReason(q.who, q.participantId, q.capability, q.resource, row) == Some(reason)
            <==> Implies(row, q, reason)
  {
    assert |"github"| == 6 && |"participant-hmac"| == 16 && |"human-web"| == 9;
    assert q.who == Principal(q.who.provider, q.who.subject);
  }

  lemma CandidateSpelled(db: Db, q: Question, id: int)
    ensures Candidate(db, q, id)
            <==> id in db.delegated && IsCandidate(db.delegated[id], q.who, q.participantId, q.capability)
  {
  }

  lemma ApplicableSpelled(db: Db, now: int, q: Question, id: int)
    requires q.intent.Some? && Candidate(db, q, id)
    ensures Applicable(db, now, q, id) <==> Denial(db.delegated[id], now, q.resource, q.intent.value).None?
  {
  }

  // ---- the scan -----------------------------------------------------------------------------

  ghost function ScanRows(db: Db, q: Question): seq<DelegatedRow> {
    DelegatedRows(db, q.who, q.participantId, q.capability)
  }

  /** Every candidate has its place among the scanned rows. */
  lemma CandidateAt(db: Db, q: Question, id: int) returns (j: nat)
    requires Candidate(db, q, id)
    ensures j < |ScanRows(db, q)| && ScanRows(db, q)[j] == (id, db.delegated[id])
  {
    hide DelegatedRows;
    CandidateSpelled(db, q, id);
    DelegatedRowFacts(db, q.who, q.participantId, q.capability, id, db.delegated[id]);
    j :| 0 <= j < |ScanRows(db, q)| && ScanRows(db, q)[j] == (id, db.delegated[id]);
  }

  lemma ScannedCandidate(db: Db, q: Question, i: nat)
    requires i < |ScanRows(db, q)|
    ensures Candidate(db, q, ScanRows(db, q)[i].0) && ScanRows(db, q)[i].0 in db.delegated
    ensures ScanRows(db, q)[i] == (ScanRows(db, q)[i].0, db.delegated[ScanRows(db, q)[i].0])
  {
    hide DelegatedRows;
    var row := ScanRows(db, q)[i];
    assert row in ScanRows(db, q) && row == (row.0, row.1);
    DelegatedRowFacts(db, q.who, q.participantId, q.capability, row.0, row.1);
    CandidateSpelled(db, q, row.0);
  }

  /** The first row that applies is the best applicable candidate. */
  lemma FirstApplicable(db: Db, now: int, q: Question, i: nat)
    requires q.intent.Some? && i < |ScanRows(db, q)|
    requires Denial(ScanRows(db, q)[i].1, now, q.resource, q.intent.value).None?
    requires forall n | 0 <= n < i :: Denial(ScanRows(db, q)[n].1, now, q.resource, q.intent.value).Some?
    ensures BestApplicable(db, now, q, ScanRows(db, q)[i].0)
  {
    hide DelegatedRows, Denial, DelegatedPreferred;
    var rows := ScanRows(db, q);
    var id := rows[i].0;
    ScannedCandidate(db, q, i);
    ApplicableSpelled(db, now, q, id);
    forall other | Applicable(db, now, q, other)
      ensures DelegatedPreferred((id, db.delegated[id]), (other, db.delegated[other]))
    {
      ApplicableCandidate(db, now, q, other);
      ApplicableSpelled(db, now, q, other);
      var j := CandidateAt(db, q, other);
      PreferredRow(db, q.who, q.participantId, q.capability, i, j);
    }
  }

  lemma ApplicableCandidate(db: Db, now: int, q: Question, id: int)
    requires Applicable(db, now, q, id)
    ensures Candidate(db, q, id) && id in db.delegated
  {
  }

  lemma FirstCandidate(db: Db, q: Question)
    requires ScanRows(db, q) != []
    ensures BestCandidate(db, q, ScanRows(db, q)[0].0)
  {
    hide DelegatedRows, DelegatedPreferred;
    var id := ScanRows(db, q)[0].0;
    ScannedCandidate(db, q, 0);
    forall other | Candidate(db, q, other)
      ensures DelegatedPreferred((id, db.delegated[id]), (other, db.delegated[other]))
    {
      var j := CandidateAt(db, q, other);
      PreferredRow(db, q.who, q.participantId, q.capability, 0, j);
    }
  }

  /** No row applies: no candidate does. */
  lemma NoneApplicable(db: Db, now: int, q: Question)
    requires q.intent.Some? && !SomeApplies(now, q.resource, q.intent.value, ScanRows(db, q))
    ensures !SomeApplicable(db, now, q)
  {
    hide DelegatedRows, Applicable, SomeApplies;
    if id :| Applicable(db, now, q, id) {
      ApplicableApplies(db, now, q, id);
      assert false;
    }
  }

  lemma ApplicableApplies(db: Db, now: int, q: Question, id: int)
    requires q.intent.Some? && Applicable(db, now, q, id)
    ensures SomeApplies(now, q.resource, q.intent.value, ScanRows(db, q))
  {
    hide DelegatedRows, Denial, Candidate, Applicable;
    ApplicableCandidate(db, now, q, id);
    ApplicableSpelled(db, now, q, id);
    var j := CandidateAt(db, q, id);
    assert Denial(ScanRows(db, q)[j].1, now, q.resource, q.intent.value).None?;
  }

  ghost function Scanned(db: Db, now: int, q: Question): Option<Decision>
    requires q.intent.Some?
  {
    Scan(db, now, q.participantId, q.resource, q.intent.value, ScanRows(db, q), None)
  }

  lemma ScanSpelled(db: Db, now: int, q: Question)
    requires q.intent.Some? && Delegable(db, q)
    ensures Scanned(db, now, q).Some? <==> SomeCandidate(db, q)
    ensures var d := Scanned(db, now, q);
            d.Some? ==> Calls(db, now, q, d.value.reason) && Says(db, now, q, d.value)
  {
    hide DelegatedRows, Denial, Candidate, Applicable, Scan, BestApplicable, BestCandidate, Delegable, Calls, Says;
    var rows := ScanRows(db, q);
    var intent := q.intent.value;
    ScanDecides(db, now, q.participantId, q.resource, intent, rows, None);
    if SomeApplies(now, q.resource, intent, rows) {
      var i :| && 0 <= i < |rows| && Denial(rows[i].1, now, q.resource, intent).None?
               && (forall n | 0 <= n < i :: Denial(rows[n].1, now, q.resource, intent).Some?)
               && Scanned(db, now, q) == Some(DecideAt(db, rows[i], q.participantId, intent));
      FirstApplicable(db, now, q, i);
      ScannedCandidate(db, q, i);
      AppliedSays(db, now, q, rows[i].0);
      assert SomeCandidate(db, q);
    } else {
      NoneApplicable(db, now, q);
      ExhaustedSays(db, now, q);
    }
  }

  lemma AppliedSays(db: Db, now: int, q: Question, id: int)
    requires q.intent.Some? && Delegable(db, q) && BestApplicable(db, now, q, id) && id in db.delegated
    ensures var d := DecideAt(db, (id, db.delegated[id]), q.participantId, q.intent.value);
            Calls(db, now, q, d.reason) && Says(db, now, q, d)
  {
    hide BestApplicable, Unsettled;
  }

  lemma ExhaustedSays(db: Db, now: int, q: Question)
    requires q.intent.Some? && Delegable(db, q) && !SomeApplies(now, q.resource, q.intent.value, ScanRows(db, q))
    requires !SomeApplicable(db, now, q)
    ensures Scanned(db, now, q).Some? <==> SomeCandidate(db, q)
    ensures var d := Scanned(db, now, q);
            d.Some? ==> Calls(db, now, q, d.value.reason) && Says(db, now, q, d.value)
  {
    hide DelegatedRows, Denial, Candidate, SomeApplicable, BestCandidate, Delegable, Calls, Says;
    var rows := ScanRows(db, q);
    assert forall i | 0 <= i < |rows| :: Denial(rows[i].1, now, q.resource, q.intent.value).Some?;
    ScanExhausted(db, now, q.participantId, q.resource, q.intent.value, rows, None);
    if rows != [] {
      FirstCandidate(db, q);
      ScannedCandidate(db, q, 0);
      RefusedSays(db, now, q, rows[0].0);
      assert SomeCandidate(db, q);
    } else if id :| Candidate(db, q, id) {
      var j := CandidateAt(db, q, id);
      assert false;
    }
  }

  lemma RefusedSays(db: Db, now: int, q: Question, id: int)
    requires q.intent.Some? && Delegable(db, q) && Refuses(db, now, q, id) && id in db.delegated
    requires Denial(db.delegated[id], now, q.resource, q.intent.value).Some?
    ensures var d := Deny(DelegatedGrants, Denial(db.delegated[id], now, q.resource, q.intent.value).value, Some(id));
            Calls(db, now, q, d.reason) && Says(db, now, q, d)
  {
    hide Refuses, Unsettled;
  }

  // ---- the answer ---------------------------------------------------------------------------

  /** The evaluator's decision is one the rows call for, and says what goes with its reason. */
  lemma AnswerCalled(db: Db, now: int, q: Question)
    ensures Calls(db, now, q, Answer(db, now, q).reason)
    ensures Says(db, now, q, Answer(db, now, q))
  {
    hide DurableRows, DelegatedRows, ExplicitGrants, ImplicitReason, Implies, Scan, SomeDurable, SomeDurableMatches,
         SomeCandidate, BestDurable, BestApplicable, BestCandidate, DurableHeld;
    if IsActive(db, q) {
      DurableSpelled(db, q);
      var implicit := ImplicitReason(q.who, q.participantId, q.capability, q.resource,
                                     db.participants[q.participantId]);
      forall reason ensures implicit == Some(reason) <==> Implies(db.participants[q.participantId], q, reason) {
        ImplicitSpelled(db.participants[q.participantId], q, reason);
      }
      if SomeDurableMatches(db, q) {
      } else if !SomeDurable(db, q) && implicit.Some? {
        ImplicitKinds(db.participants[q.participantId], q, implicit.value);
      } else {
        assert Unsettled(db, q);
        if q.intent.Some? { ScanSpelled(db, now, q); }
      }
    }
  }

  lemma ImplicitKinds(row: Participant, q: Question, reason: Reason)
    requires Implies(row, q, reason)
    ensures reason.ImplicitParticipantHmac? || reason.ImplicitHumanWeb? || reason.ImplicitHumanWebAdmin?
            || reason.ImplicitGithubOwner?
  {
  }

  lemma BestUnique(db: Db, now: int, q: Question, a: int, b: int)
    ensures BestApplicable(db, now, q, a) && BestApplicable(db, now, q, b) ==> a == b
    ensures BestCandidate(db, q, a) && BestCandidate(db, q, b) ==> a == b
    ensures BestApplicable(db, now, q, a) ==> !Refuses(db, now, q, b)
  {
    hide Applicable, Candidate;
    if BestApplicable(db, now, q, a) { ApplicableCandidate(db, now, q, a); }
    if BestApplicable(db, now, q, b) { ApplicableCandidate(db, now, q, b); }
  }

  predicate IsRefusal(reason: Reason) {
    || reason.DelegatedResourceMismatch? || reason.DelegatedIntentMismatch? || reason.DelegatedConsumedDifferentIntent?
    || reason.DelegatedGrantExpired?
  }

  predicate IsApplied(reason: Reason) {
    reason.DelegatedGrantMatch? || reason.DelegatedCommittedReplay? || reason.DelegatedConsumedWithoutCommittedReceipt?
  }

  lemma RefusalOnce(db: Db, now: int, q: Question, a: Reason, b: Reason)
    requires IsRefusal(a) && IsRefusal(b) && Calls(db, now, q, a) && Calls(db, now, q, b)
    ensures a == b
  {
    hide Delegable, Refuses, OtherResource, OtherIntent, SpentElsewhere, Expired;
    forall x, y | Refuses(db, now, q, x) && Refuses(db, now, q, y) ensures x == y { RefusesOnce(db, now, q, x, y); }
  }

  lemma RefusesOnce(db: Db, now: int, q: Question, x: int, y: int)
    requires Refuses(db, now, q, x) && Refuses(db, now, q, y)
    ensures x == y
  {
    hide BestCandidate, SomeApplicable;
    BestUnique(db, now, q, x, y);
  }

  lemma AppliedOnce(db: Db, now: int, q: Question, a: Reason, b: Reason)
    requires IsApplied(a) && IsApplied(b) && Calls(db, now, q, a) && Calls(db, now, q, b)
    ensures a == b
  {
    hide Delegable, BestApplicable, Receipted, Spent;
    forall x, y | BestApplicable(db, now, q, x) && BestApplicable(db, now, q, y) ensures x == y {
      BestUnique(db, now, q, x, y);
    }
  }

  /** A refusal needs a candidate and no applicable one; an application needs an applicable one. */
  lemma DelegatedStage(db: Db, now: int, q: Question, reason: Reason)
    requires Calls(db, now, q, reason)
    ensures IsRefusal(reason) ==> Delegable(db, q) && SomeCandidate(db, q) && !SomeApplicable(db, now, q)
    ensures IsApplied(reason) ==> Delegable(db, q) && SomeCandidate(db, q) && SomeApplicable(db, now, q)
  {
    hide Delegable, Applicable, Candidate, OtherResource, OtherIntent, SpentElsewhere, Expired, Receipted, Spent,
         DelegatedPreferred;
    if IsRefusal(reason) {
      var id :| Refuses(db, now, q, id);
      assert Candidate(db, q, id);
    } else if IsApplied(reason) {
      var id :| BestApplicable(db, now, q, id);
      ApplicableCandidate(db, now, q, id);
    }
  }

  /** The rows call for one reason. */
  lemma CalledOnce(db: Db, now: int, q: Question, a: Reason, b: Reason)
    requires Calls(db, now, q, a) && Calls(db, now, q, b)
    ensures a == b
  {
    DelegatedStage(db, now, q, a);
    DelegatedStage(db, now, q, b);
    DurableHeldSame(db, q);
    hide Implies, SomeDurable, SomeDurableMatches, SomeCandidate, SomeApplicable, BestApplicable, Refuses, Receipted,
         Spent, OtherResource, OtherIntent, SpentElsewhere, Expired, DurableHeld;
    if IsRefusal(a) && IsRefusal(b) {
      RefusalOnce(db, now, q, a, b);
    } else if IsApplied(a) && IsApplied(b) {
      AppliedOnce(db, now, q, a, b);
    } else if ImplicitCalls(db, q, a) && ImplicitCalls(db, q, b) {
      ImplicitSpelled(db.participants[q.participantId], q, a);
      ImplicitSpelled(db.participants[q.participantId], q, b);
    }
  }

  /** The reason of the decision, on arbitrary tables: each is given exactly when the rows call for it. */
  lemma ReasonExact(db: Db, now: int, q: Question, reason: Reason)
    ensures Decide(db, now, q.who, q.participantId, q.capability, q.resource, q.intent).reason == reason
            <==> Calls(db, now, q, reason)
  {
    hide Calls, Says, Decide;
    AnswerCalled(db, now, q);
    if Calls(db, now, q, reason) { CalledOnce(db, now, q, reason, Answer(db, now, q).reason); }
  }

  /** The whole decision, on arbitrary tables: the one the rows call for, citing and consuming what goes with
      its reason. */
  lemma AnswerExact(db: Db, now: int, q: Question, d: Decision)
    ensures d == Decide(db, now, q.who, q.participantId, q.capability, q.resource, q.intent)
            <==> Calls(db, now, q, d.reason) && Says(db, now, q, d)
  {
    hide Calls, Says, Decide;
    AnswerCalled(db, now, q);
    if Calls(db, now, q, d.reason) && Says(db, now, q, d) {
      CalledOnce(db, now, q, d.reason, Answer(db, now, q).reason);
      SaysOnce(db, now, q, d, Answer(db, now, q));
    }
  }

  lemma SaysOnce(db: Db, now: int, q: Question, d: Decision, e: Decision)
    requires d.reason == e.reason && Says(db, now, q, d) && Says(db, now, q, e)
    ensures d == e
  {
    hide BestDurable, BestApplicable, Refuses;
    if d.reason.ExplicitDurableGrantMatch? {
      DurableOnce(db, q, d.grantId.value, e.grantId.value);
    } else if IsApplied(d.reason) {
      BestUnique(db, now, q, d.grantId.value, e.grantId.value);
    } else if IsRefusal(d.reason) {
      RefusesOnce(db, now, q, d.grantId.value, e.grantId.value);
    }
  }

  lemma DurableOnce(db: Db, q: Question, a: int, b: int)
    requires BestDurable(db, q, a) && BestDurable(db, q, b)
    ensures a == b
  {
  }
}
