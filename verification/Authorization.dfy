/** src/authorization.rs: the policy evaluator, its order-free meaning, and the effective-grant
    summary derived from it. */
module Authorization {
  import opened Text
  import opened Order
  import opened Tables

  const KNOWN_CAPABILITIES: seq<Capability> := [
    ReadMessages, PostMessage, Reply, ReadExecutionReceipt, ReadExecutionAudit, ReadExecutionAuditSweep,
    ReadAuthorizationPolicyIntegrity, ReadAuthorizationPolicy, ReadAuthorizationDecision,
    ManageAuthorizationPolicy, ReadAuthorizationAdministrationHistory, ManageChannels]

  predicate IsKnown(c: Capability) {
    !c.OtherCapability?
  }

  const AUDIT_SWEEP_RESOURCE := "execution-audit-sweep"
  const POLICY_INTEGRITY_RESOURCE := "authorization-policy-integrity"
  const POLICY_RESOURCE := "authorization-policy"
  const DECISION_RESOURCE := "authorization-decision"
  const POLICY_ADMIN_RESOURCE := "authorization-policy-administration"
  const ADMIN_HISTORY_RESOURCE := "authorization-administration-history"

  const HMAC_PROVIDER := "participant-hmac"
  const HUMAN_WEB_PROVIDER := "human-web"
  const GITHUB_PROVIDER := "github"

  datatype Decision = Decision(
    allowed: bool, source: Source, reason: Reason, grantId: Option<int>, consumeGrantId: Option<int>)

  function Allow(source: Source, reason: Reason, grantId: Option<int>, consumeGrantId: Option<int>): Decision {
    Decision(true, source, reason, grantId, consumeGrantId)
  }

  function Deny(source: Source, reason: Reason, grantId: Option<int>): Decision {
    Decision(false, source, reason, grantId, None)
  }

  // ---- implicit authority -------------------------------------------------------------------

  /** The resource an administrative capability is implicitly held on. */
  function AdminResource(c: Capability): Option<string> {
    match c
    case ReadExecutionAuditSweep => Some(AUDIT_SWEEP_RESOURCE)
    case ReadAuthorizationPolicyIntegrity => Some(POLICY_INTEGRITY_RESOURCE)
    case ReadAuthorizationPolicy => Some(POLICY_RESOURCE)
    case ReadAuthorizationDecision => Some(DECISION_RESOURCE)
    case ManageAuthorizationPolicy => Some(POLICY_ADMIN_RESOURCE)
    case ReadAuthorizationAdministrationHistory => Some(ADMIN_HISTORY_RESOURCE)
    case _ => None
  }

  predicate IsConversational(c: Capability) {
    c in {ReadMessages, PostMessage, Reply, ReadExecutionReceipt, ReadExecutionAudit}
  }

  function ImplicitReason(who: Principal, participantId: string, c: Capability, resource: Option<string>,
                          row: Participant): Option<Reason> {
    if (who.provider == HMAC_PROVIDER || who.provider == HUMAN_WEB_PROVIDER) && who.subject == participantId then
      var humanAdmin := who.provider == HUMAN_WEB_PROVIDER && row.role == AdminRole;
      if AdminResource(c).Some? then
        if humanAdmin && resource == AdminResource(c) then Some(ImplicitHumanWebAdmin(c)) else None
      else if c == ManageChannels then
        if humanAdmin then Some(ImplicitHumanWebAdmin(c)) else None
      else if IsConversational(c) then
        Some(if who.provider == HMAC_PROVIDER then ImplicitParticipantHmac else ImplicitHumanWeb)
      else None
    else if who.provider == GITHUB_PROVIDER && row.owner == Some(who) && IsConversational(c) then
      Some(ImplicitGithubOwner)
    else None
  }

  // ---- the tables the evaluator queries -----------------------------------------------------

  /** Active durable grants of a principal for a participant and capability, whatever their resource. */
  function ExplicitGrants(db: Db, who: Principal, participantId: string, c: Capability): set<int> {
    set id | id in db.durable && IsExplicit(db.durable[id], who, participantId, c)
  }

  predicate IsExplicit(g: DurableGrant, who: Principal, participantId: string, c: Capability) {
    g.principal == who && g.participantId == participantId && g.capability == c && g.status == Active
  }

  type DurableRow = (int, DurableGrant)
  type DelegatedRow = (int, DelegatedGrant)

  function ExplicitMatches(db: Db, who: Principal, participantId: string, c: Capability,
                           resource: Option<string>): set<DurableRow> {
    set id | id in db.durable && IsExplicit(db.durable[id], who, participantId, c)
             && Covers(db.durable[id].resource, resource) :: (id, db.durable[id])
  }

  /** `ORDER BY (resource IS NOT NULL) DESC, id ASC` */
  function DurablePreference(row: DurableRow): Key {
    [Num(if row.1.resource.Some? then 0 else 1), Num(row.0)]
  }

  predicate IsCandidate(g: DelegatedGrant, who: Principal, participantId: string, c: Capability) {
    g.principal == who && g.participantId == participantId && g.capability == c && g.status == Active
  }

  function DelegatedCandidates(db: Db, who: Principal, participantId: string, c: Capability): set<DelegatedRow> {
    set id | id in db.delegated && IsCandidate(db.delegated[id], who, participantId, c) :: (id, db.delegated[id])
  }

  /** `ORDER BY (intent_id IS NOT NULL) DESC, (resource IS NOT NULL) DESC, one_shot DESC, id ASC` */
  function DelegatedPreference(row: DelegatedRow): Key {
    [Num(if row.1.intentId.Some? then 0 else 1), Num(if row.1.resource.Some? then 0 else 1),
     Num(-row.1.oneShot), Num(row.0)]
  }

  lemma DurablePreferenceDistinct(rows: set<DurableRow>)
    requires forall x, y | x in rows && y in rows && x.0 == y.0 :: x == y
    ensures Distinct(rows, DurablePreference)
  {
    forall x, y | x in rows && y in rows && DurablePreference(x) == DurablePreference(y) ensures x == y {
      assert DurablePreference(x)[1] == DurablePreference(y)[1];
    }
  }

  lemma DelegatedPreferenceDistinct(rows: set<DelegatedRow>)
    requires forall x, y | x in rows && y in rows && x.0 == y.0 :: x == y
    ensures Distinct(rows, DelegatedPreference)
  {
    forall x, y | x in rows && y in rows && DelegatedPreference(x) == DelegatedPreference(y) ensures x == y {
      assert DelegatedPreference(x)[3] == DelegatedPreference(y)[3];
    }
  }

  /** The matching durable grants, most specific and oldest first. */
  ghost function DurableRows(db: Db, who: Principal, participantId: string, c: Capability,
                             resource: Option<string>): (rows: seq<DurableRow>)
    ensures Distinct(ExplicitMatches(db, who, participantId, c, resource), DurablePreference)
  {
    DurablePreferenceDistinct(ExplicitMatches(db, who, participantId, c, resource));
    Select(ExplicitMatches(db, who, participantId, c, resource), DurablePreference)
  }

  /** The delegated grants to scan, in preference order. */
  ghost function DelegatedRows(db: Db, who: Principal, participantId: string, c: Capability): (rows: seq<DelegatedRow>)
    ensures Distinct(DelegatedCandidates(db, who, participantId, c), DelegatedPreference)
  {
    DelegatedPreferenceDistinct(DelegatedCandidates(db, who, participantId, c));
    Select(DelegatedCandidates(db, who, participantId, c), DelegatedPreference)
  }

  predicate CommittedReceiptExists(db: Db, participantId: string, intent: string) {
    var id := ExecutionId(participantId, intent);
    id in db.receipts && db.receipts[id].status == Committed
  }

  /** Why a candidate does not apply to this request, tested in this order. */
  function Denial(g: DelegatedGrant, now: int, resource: Option<string>, intent: string): Option<Reason> {
    if !Covers(g.resource, resource) then Some(DelegatedResourceMismatch)
    else if !Covers(g.intentId, Some(intent)) then Some(DelegatedIntentMismatch)
    else if g.oneShot != 0 && g.consumedAt.Some? && g.consumedIntentId != Some(intent) then
      Some(DelegatedConsumedDifferentIntent)
    else if g.expiresAt.Some? && g.expiresAt.value <= now
            && !(g.oneShot != 0 && g.consumedIntentId == Some(intent)) then
      Some(DelegatedGrantExpired)
    else None
  }

  /** The decision taken at the first candidate that applies. */
  function DecideAt(db: Db, row: DelegatedRow, participantId: string, intent: string): Decision {
    var (id, g) := row;
    if g.oneShot != 0 && g.consumedAt.Some? then
      if CommittedReceiptExists(db, participantId, intent)
      then Allow(DelegatedGrants, DelegatedCommittedReplay, Some(id), None)
      else Deny(DelegatedGrants, DelegatedConsumedWithoutCommittedReceipt, Some(id))
    else
      Allow(DelegatedGrants, DelegatedGrantMatch, Some(id), if g.oneShot != 0 then Some(id) else None)
  }

  /** The scan in preference order: the first candidate that applies decides; when none does, the
      first candidate's denial is the answer. */
  function Scan(db: Db, now: int, participantId: string, resource: Option<string>, intent: string,
                rows: seq<DelegatedRow>, firstDenial: Option<Decision>): Option<Decision> {
    if rows == [] then firstDenial
    else
      var denial := Denial(rows[0].1, now, resource, intent);
      if denial.Some? then
        var d := Deny(DelegatedGrants, denial.value, Some(rows[0].0));
        Scan(db, now, participantId, resource, intent, rows[1..], if firstDenial.None? then Some(d) else firstDenial)
      else Some(DecideAt(db, rows[0], participantId, intent))
  }

  /** The decision the evaluator reaches on these tables at this time. */
  ghost function Decide(db: Db, now: int, who: Principal, participantId: string, c: Capability,
                        resource: Option<string>, intent: Option<string>): Decision {
    if participantId !in db.participants then Deny(ParticipantLifecycle, ParticipantMissing, None)
    else if db.participants[participantId].status != ParticipantActive then
      Deny(ParticipantLifecycle, ParticipantInactive, None)
    else
      var explicit := ExplicitGrants(db, who, participantId, c) != {};
      var matches := DurableRows(db, who, participantId, c, resource);
      var implicit := ImplicitReason(who, participantId, c, resource, db.participants[participantId]);
      if explicit && matches != [] then Allow(PrincipalGrants, ExplicitDurableGrantMatch, Some(matches[0].0), None)
      else if !explicit && implicit.Some? then Allow(ImplicitAuthority, implicit.value, None, None)
      else
        var scanned :=
          if intent.Some?
          then Scan(db, now, participantId, resource, intent.value, DelegatedRows(db, who, participantId, c), None)
          else None;
        if scanned.Some? then scanned.value
        else if explicit then Deny(PrincipalGrants, ExplicitResourceScopeMismatch, None)
        else Deny(Policy, NoMatchingAuthority, None)
  }

  // ---- the evaluator ------------------------------------------------------------------------

  method EvaluateAuthorization(conn: Connection, now: int, who: Principal, participantId: string, c: Capability,
                               resource: Option<string>, intent: Option<string>) returns (d: Decision)
    ensures d == Decide(conn.tables, now, who, participantId, c, resource, intent)
  {
    hide Scan, ImplicitReason, IsExplicit, IsCandidate;
    var db := conn.tables;
    if participantId !in db.participants {
      return Deny(ParticipantLifecycle, ParticipantMissing, None);
    }
    var participant := db.participants[participantId];
    if participant.status != ParticipantActive {
      return Deny(ParticipantLifecycle, ParticipantInactive, None);
    }
    var explicitCount := |ExplicitGrants(db, who, participantId, c)|;
    ghost var durableRows := DurableRows(db, who, participantId, c, resource);
    if explicitCount > 0 {
      var matches := OrderRows(ExplicitMatches(db, who, participantId, c, resource), DurablePreference);
      if matches != [] {
        return Allow(PrincipalGrants, ExplicitDurableGrantMatch, Some(matches[0].0), None);
      }
    } else {
      var reason := ImplicitReason(who, participantId, c, resource, participant);
      if reason.Some? {
        return Allow(ImplicitAuthority, reason.value, None, None);
      }
    }
    if intent.Some? {
      ghost var delegatedRows := DelegatedRows(db, who, participantId, c);
      var rows := OrderRows(DelegatedCandidates(db, who, participantId, c), DelegatedPreference);
      var scanned := ScanDelegated(conn, now, participantId, resource, intent.value, rows);
      if scanned.Some? {
        return scanned.value;
      }
    }
    if explicitCount > 0 {
      return Deny(PrincipalGrants, ExplicitResourceScopeMismatch, None);
    }
    return Deny(Policy, NoMatchingAuthority, None);
  }

  /** The loop over the candidates, remembering the first denial. */
  method ScanDelegated(conn: Connection, now: int, participantId: string, resource: Option<string>, intent: string,
                       rows: seq<DelegatedRow>) returns (d: Option<Decision>)
    ensures d == Scan(conn.tables, now, participantId, resource, intent, rows, None)
  {
    hide Denial;
    d := None;
    for i := 0 to |rows|
      invariant Scan(conn.tables, now, participantId, resource, intent, rows, None)
             == Scan(conn.tables, now, participantId, resource, intent, rows[i..], d)
    {
      var denial := Denial(rows[i].1, now, resource, intent);
      assert rows[i..][1..] == rows[i + 1..];
      if denial.Some? {
        if d.None? {
          d := Some(Deny(DelegatedGrants, denial.value, Some(rows[i].0)));
        }
        continue;
      }
      if rows[i].1.oneShot != 0 && rows[i].1.consumedAt.Some? {
        if CommittedReceiptExists(conn.tables, participantId, intent) {
          return Some(Allow(DelegatedGrants, DelegatedCommittedReplay, Some(rows[i].0), None));
        }
        return Some(Deny(DelegatedGrants, DelegatedConsumedWithoutCommittedReceipt, Some(rows[i].0)));
      }
      return Some(Allow(DelegatedGrants, DelegatedGrantMatch, Some(rows[i].0),
                        if rows[i].1.oneShot != 0 then Some(rows[i].0) else None));
    }
  }

  // ---- the order-free rule ------------------------------------------------------------------

  /** A delegated grant that, on its own, lets this request through. */
  predicate Usable(db: Db, now: int, who: Principal, participantId: string, c: Capability,
                   resource: Option<string>, intent: string, g: DelegatedGrant) {
    && IsCandidate(g, who, participantId, c)
    && Covers(g.resource, resource)
    && Covers(g.intentId, Some(intent))
    && (g.oneShot != 0 && g.consumedAt.Some? ==>
          g.consumedIntentId == Some(intent) && CommittedReceiptExists(db, participantId, intent))
    && (g.expiresAt.Some? && g.expiresAt.value <= now ==> g.oneShot != 0 && g.consumedIntentId == Some(intent))
  }

  ghost predicate HoldsDurable(db: Db, who: Principal, participantId: string, c: Capability) {
    exists id | id in db.durable :: IsExplicit(db.durable[id], who, participantId, c)
  }

  ghost predicate HoldsDurableFor(db: Db, who: Principal, participantId: string, c: Capability,
                                  resource: Option<string>) {
    exists id | id in db.durable :: IsExplicit(db.durable[id], who, participantId, c)
                                    && Covers(db.durable[id].resource, resource)
  }

  ghost predicate HoldsDelegatedFor(db: Db, now: int, who: Principal, participantId: string, c: Capability,
                                    resource: Option<string>, intent: string) {
    exists id | id in db.delegated :: Usable(db, now, who, participantId, c, resource, intent, db.delegated[id])
  }

  /** Authority without any order: active participant, and a durable match, or implicit authority
      not suppressed by a durable grant, or a usable delegated grant. */
  ghost predicate Authorized(db: Db, now: int, who: Principal, participantId: string, c: Capability,
                             resource: Option<string>, intent: Option<string>) {
    && participantId in db.participants
    && db.participants[participantId].status == ParticipantActive
    && (|| HoldsDurableFor(db, who, participantId, c, resource)
        || (&& !HoldsDurable(db, who, participantId, c)
            && ImplicitReason(who, participantId, c, resource, db.participants[participantId]).Some?)
        || (intent.Some? && HoldsDelegatedFor(db, now, who, participantId, c, resource, intent.value)))
  }

  /** A consumed one-shot grant whose consumer left no committed receipt. */
  predicate Stale(db: Db, g: DelegatedGrant, participantId: string, intent: string) {
    g.oneShot != 0 && g.consumedAt.Some? && !CommittedReceiptExists(db, participantId, intent)
  }

  ghost predicate SomeApplies(now: int, resource: Option<string>, intent: string, rows: seq<DelegatedRow>) {
    exists i | 0 <= i < |rows| :: Denial(rows[i].1, now, resource, intent).None?
  }

  /** The scan stops at the first candidate that applies. */
  lemma {:induction false} ScanDecides(db: Db, now: int, participantId: string, resource: Option<string>,
                                       intent: string, rows: seq<DelegatedRow>, firstDenial: Option<Decision>)
    requires firstDenial.Some? ==> !firstDenial.value.allowed
    ensures var d := Scan(db, now, participantId, resource, intent, rows, firstDenial);
            if SomeApplies(now, resource, intent, rows)
            then exists i | 0 <= i < |rows| ::
                   && Denial(rows[i].1, now, resource, intent).None?
                   && (forall j | 0 <= j < i :: Denial(rows[j].1, now, resource, intent).Some?)
                   && d == Some(DecideAt(db, rows[i], participantId, intent))
            else d.Some? ==> !d.value.allowed
  {
    if rows != [] {
      var denial := Denial(rows[0].1, now, resource, intent);
      if denial.Some? {
        var d0 := Deny(DelegatedGrants, denial.value, Some(rows[0].0));
        var next := if firstDenial.None? then Some(d0) else firstDenial;
        ScanDecides(db, now, participantId, resource, intent, rows[1..], next);
        if k :| 0 <= k < |rows| && Denial(rows[k].1, now, resource, intent).None? {
          assert Denial(rows[1..][k - 1].1, now, resource, intent).None?;
          var i :| && 0 <= i < |rows[1..]|
                   && Denial(rows[1..][i].1, now, resource, intent).None?
                   && (forall j | 0 <= j < i :: Denial(rows[1..][j].1, now, resource, intent).Some?)
                   && Scan(db, now, participantId, resource, intent, rows[1..], next)
                      == Some(DecideAt(db, rows[1..][i], participantId, intent));
          assert forall j | 0 <= j < i + 1 :: Denial(rows[j].1, now, resource, intent).Some? by {
            forall j | 0 < j < i + 1 ensures Denial(rows[j].1, now, resource, intent).Some? {
              assert rows[j] == rows[1..][j - 1];
            }
          }
          assert rows[i + 1] == rows[1..][i];
        } else {
          forall i | 0 <= i < |rows[1..]| ensures Denial(rows[1..][i].1, now, resource, intent).Some? {
            assert rows[1..][i] == rows[i + 1];
          }
        }
      }
    }
  }

  lemma DurablePart(db: Db, who: Principal, participantId: string, c: Capability, resource: Option<string>)
    ensures var rows := DurableRows(db, who, participantId, c, resource);
            && (rows != [] <==> HoldsDurableFor(db, who, participantId, c, resource))
            && (rows != [] ==> && rows[0].0 in db.durable && rows[0].1 == db.durable[rows[0].0]
                               && IsExplicit(rows[0].1, who, participantId, c) && Covers(rows[0].1.resource, resource))
    ensures ExplicitGrants(db, who, participantId, c) != {} <==> HoldsDurable(db, who, participantId, c)
    ensures HoldsDurableFor(db, who, participantId, c, resource) ==> HoldsDurable(db, who, participantId, c)
  {
    var rows := DurableRows(db, who, participantId, c, resource);
    if rows != [] {
      assert rows[0] in ExplicitMatches(db, who, participantId, c, resource);
    }
    if HoldsDurableFor(db, who, participantId, c, resource) {
      var id :| id in db.durable && IsExplicit(db.durable[id], who, participantId, c)
                && Covers(db.durable[id].resource, resource);
      assert (id, db.durable[id]) in ExplicitMatches(db, who, participantId, c, resource);
    }
    if HoldsDurable(db, who, participantId, c) {
      var id :| id in db.durable && IsExplicit(db.durable[id], who, participantId, c);
      assert id in ExplicitGrants(db, who, participantId, c);
    }
    if !HoldsDurable(db, who, participantId, c) {
      forall id ensures id !in ExplicitGrants(db, who, participantId, c) {}
    }
  }

  lemma DelegatedRowFacts(db: Db, who: Principal, participantId: string, c: Capability, id: int, g: DelegatedGrant)
    ensures (id, g) in DelegatedRows(db, who, participantId, c)
            <==> id in db.delegated && g == db.delegated[id] && IsCandidate(g, who, participantId, c)
  {
    var rows := DelegatedRows(db, who, participantId, c);
    if id in db.delegated && g == db.delegated[id] && IsCandidate(g, who, participantId, c) {
      assert (id, g) in DelegatedCandidates(db, who, participantId, c);
    }
  }

  lemma UsableApplies(db: Db, now: int, who: Principal, participantId: string, c: Capability,
                      resource: Option<string>, intent: string)
    requires HoldsDelegatedFor(db, now, who, participantId, c, resource, intent)
    ensures SomeApplies(now, resource, intent, DelegatedRows(db, who, participantId, c))
  {
    var rows := DelegatedRows(db, who, participantId, c);
    var id :| id in db.delegated && Usable(db, now, who, participantId, c, resource, intent, db.delegated[id]);
    var row: DelegatedRow := (id, db.delegated[id]);
    DelegatedRowFacts(db, who, participantId, c, id, row.1);
    var i :| 0 <= i < |rows| && rows[i] == row;
    assert Denial(rows[i].1, now, resource, intent).None?;
  }

  /** A read carries no intent: no delegated grant takes part, time plays no role, and the answer
      cites a matching durable grant or rests on implicit authority. */
  lemma ReadAuthority(db: Db, now: int, who: Principal, participantId: string, c: Capability, resource: Option<string>)
    ensures var d := Decide(db, now, who, participantId, c, resource, None);
            && (d.allowed <==> Authorized(db, now, who, participantId, c, resource, None))
            && (d.allowed ==>
                  || (&& d.source == PrincipalGrants && d.grantId.Some? && d.grantId.value in db.durable
                      && IsExplicit(db.durable[d.grantId.value], who, participantId, c)
                      && Covers(db.durable[d.grantId.value].resource, resource))
                  || (&& d.source == ImplicitAuthority
                      && ImplicitReason(who, participantId, c, resource, db.participants[participantId]).Some?))
  {
    if participantId in db.participants && db.participants[participantId].status == ParticipantActive {
      DurablePart(db, who, participantId, c, resource);
    }
  }

  /** What an allowed decision rests on: nothing to consume, or a delegated row that applies to this
      request and is consumed exactly when it is one-shot and still fresh. */
  ghost predicate RestsOn(db: Db, now: int, who: Principal, participantId: string, c: Capability,
                          resource: Option<string>, intent: string, d: Decision) {
    if d.source != DelegatedGrants then d.consumeGrantId.None?
    else
      && d.grantId.Some? && d.grantId.value in db.delegated
      && var g := db.delegated[d.grantId.value];
      && IsCandidate(g, who, participantId, c)
      && Denial(g, now, resource, intent).None?
      && (if g.oneShot != 0 && g.consumedAt.Some?
          then d.reason == DelegatedCommittedReplay && CommittedReceiptExists(db, participantId,
                                                                              intent) && d.consumeGrantId.None?
          else d.reason == DelegatedGrantMatch && d.consumeGrantId == (if g.oneShot != 0 then d.grantId else None))
  }

  lemma DecisionRestsOn(db: Db, now: int, who: Principal, participantId: string, c: Capability,
                        resource: Option<string>, intent: string)
    requires Decide(db, now, who, participantId, c, resource, Some(intent)).allowed
    ensures RestsOn(db, now, who, participantId, c, resource, intent,
                    Decide(db, now, who, participantId, c, resource, Some(intent)))
  {
    hide DurableRows, DelegatedRows, Denial, ImplicitReason, ExplicitGrants;
    var d := Decide(db, now, who, participantId, c, resource, Some(intent));
    var rows := DelegatedRows(db, who, participantId, c);
    ScanDecides(db, now, participantId, resource, intent, rows, None);
    if SomeApplies(now, resource, intent, rows) {
      var k :| && 0 <= k < |rows| && Denial(rows[k].1, now, resource, intent).None?
               && Scan(db, now, participantId, resource, intent, rows, None)
                  == Some(DecideAt(db, rows[k], participantId, intent));
      assert rows[k] == (rows[k].0, rows[k].1) && rows[k] in rows;
      DelegatedRowFacts(db, who, participantId, c, rows[k].0, rows[k].1);
      assert rows[k].0 in db.delegated && rows[k].1 == db.delegated[rows[k].0];
      assert IsCandidate(rows[k].1, who, participantId, c);
      if d.source == DelegatedGrants {
        assert d == DecideAt(db, rows[k], participantId, intent);
        assert d.grantId == Some(rows[k].0);
      } else { assert d.consumeGrantId.None?; }
    }
  }
}
