/** What provenance rows say is true, and stays true: the principal named held the authority cited. */
module ProvenanceRuns {
  import opened Text
  import opened Tables
  import opened Authorization
  import opened AuthorizationPreference
  import opened ImplicitAuthority
  import opened Board
  import opened Execution
  import opened Administration
  import opened AdministrationLog
  import opened Lifecycle
  import opened Kernel
  import opened Preservation
  import opened ExecutionPreservation
  import opened Runs
  import opened PolicyLogRuns

  // ---- durable grants keep their scope ------------------------------------------------------

  /** Durable grants are never removed and never change what they grant. */
  ghost predicate DurableScopesKept(before: Db, after: Db) {
    forall id | id in before.durable ::
        id in after.durable && DurableScope(after.durable[id]) == DurableScope(before.durable[id])
  }

  lemma StandingScopesKept(a: Db, b: Db)
    requires forall id | id in DurableStanding(a) ::
             id in DurableStanding(b) && DurableStanding(b)[id].scope == DurableStanding(a)[id].scope
    ensures DurableScopesKept(a, b)
  {
    hide DurableScope;
    forall id | id in a.durable ensures id in b.durable && DurableScope(b.durable[id]) == DurableScope(a.durable[id]) {
      assert id in DurableStanding(a);
    }
  }

  lemma StepKeepsDurableScopes(h: Hash, db: Db, now: int, step: Step)
    requires Invariant(h, db) && Guarded(step)
    ensures DurableScopesKept(db, Apply(h, db, now, step).0)
  {
    hide Invariant, Guarded, Apply, MayAdminister, NormalizeActor, DurableStanding, DelegatedStanding,
         DurableScopesKept, OneLoggedChange;
    var after := Apply(h, db, now, step).0;
    StepLogs(h, db, now, step);
    if OneLoggedChange(db, after) { ChangeKeepsScopes(db, after); }
    StandingScopesKept(db, after);
  }

  lemma ChangeKeepsScopes(db: Db, after: Db)
    requires OneLoggedChange(db, after)
    ensures forall id | id in DurableStanding(db) ::
              id in DurableStanding(after) && DurableStanding(after)[id].scope == DurableStanding(db)[id].scope
  {
    hide DurableStanding, DelegatedStanding;
  }

  // ---- truthful provenance ------------------------------------------------------------------

  /** The row cites authority its principal has over this participant, capability and resource. */
  ghost predicate Truthful(db: Db, k: ExecutionId, a: Provenance) {
    && a.principalProvider.Some? && a.principalSubject.Some?
    && var who := Principal(a.principalProvider.value, a.principalSubject.value);
    match a.source
    case DelegatedGrants =>
      && a.grantId.Some? && a.grantId.value in db.delegated
      && var g := db.delegated[a.grantId.value];
      && g.principal == who && g.participantId == k.participant && a.capability == Some(g.capability)
      && Covers(g.resource, a.resource) && Covers(g.intentId, Some(k.intent))
    case PrincipalGrants =>
      && a.grantId.Some? && a.grantId.value in db.durable
      && var g := db.durable[a.grantId.value];
      && g.principal == who && g.participantId == k.participant && a.capability == Some(g.capability)
      && Covers(g.resource, a.resource)
    case ImplicitAuthority =>
      && a.grantId.None? && k.participant in db.participants
      && ImplicitPrincipal(who, k.participant, a.reason)
    case _ => false
  }

  /** The principals that hold authority over a participant without a grant, by the reason recorded. */
  predicate ImplicitPrincipal(who: Principal, participantId: string, reason: Reason) {
    match reason
    case ImplicitParticipantHmac => who == Principal(HMAC_PROVIDER, participantId)
    case ImplicitHumanWeb => who == Principal(HUMAN_WEB_PROVIDER, participantId)
    case ImplicitGithubOwner => who.provider == GITHUB_PROVIDER
    case _ => false
  }

  ghost predicate ProvenanceTruthful(db: Db) {
    forall k | k in db.provenance :: Truthful(db, k, db.provenance[k])
  }

  lemma TruthfulKept(before: Db, after: Db, k: ExecutionId, a: Provenance)
    requires Truthful(before, k, a) && DurableScopesKept(before, after) && GrantsKept(before.delegated, after.delegated)
    requires before.participants.Keys <= after.participants.Keys
    ensures Truthful(after, k, a)
  {
    if a.source == DelegatedGrants {
      DelegatedFieldsKept(before, after, a.grantId.value);
    } else if a.source == PrincipalGrants {
      DurableFieldsKept(before, after, a.grantId.value);
    }
  }

  lemma DelegatedFieldsKept(before: Db, after: Db, id: int)
    requires GrantsKept(before.delegated, after.delegated) && id in before.delegated
    ensures id in after.delegated
    ensures var g, g' := before.delegated[id], after.delegated[id];
            && g'.principal == g.principal && g'.participantId == g.participantId && g'.capability == g.capability
            && g'.resource == g.resource && g'.intentId == g.intentId
  {
    var s := DelegatedScope(before.delegated[id]);
    assert DelegatedScope(after.delegated[id]) == s;
  }

  lemma DurableFieldsKept(before: Db, after: Db, id: int)
    requires DurableScopesKept(before, after) && id in before.durable
    ensures id in after.durable
    ensures var g, g' := before.durable[id], after.durable[id];
            && g'.principal == g.principal && g'.participantId == g.participantId && g'.capability == g.capability
            && g'.resource == g.resource
  {
    var s := DurableScope(before.durable[id]);
    assert DurableScope(after.durable[id]) == s;
  }

  /** An allowed decision to post, put on record, is truthful where it was taken. */
  lemma DecisionTruthful(db: Db, now: int, r: ExecutionRequest)
    requires DecisionFor(db, now, r).allowed && r.intent.capability == PostMessage
    ensures Truthful(db, ExecutionId(r.intent.participantId, r.intent.id),
                     ProvenanceRow(r.principal, ReceiptFor(r, 0), r.intent.resource, DecisionFor(db, now, r)))
  {
    hide Decide, Denial, CommittedReceiptExists, IsExplicit, ImplicitReason;
    var who, p, c, resource, intent :=
      r.principal, r.intent.participantId, r.intent.capability, Some(r.intent.resource), r.intent.id;
    var d := DecisionFor(db, now, r);
    DecisionRestsOn(db, now, who, p, c, resource, intent);
    DecisionSource(db, now, who, p, c, resource, intent);
    if d.source == DelegatedGrants {
      AppliesCovers(db.delegated[d.grantId.value], now, resource, intent);
    } else if d.source == PrincipalGrants {
      DurableCovers(db, now, who, p, c, resource, intent);
    } else {
      ImplicitPost(who, p, resource, db.participants[p]);
    }
  }

  lemma AppliesCovers(g: DelegatedGrant, now: int, resource: Option<string>, intent: string)
    requires Denial(g, now, resource, intent).None?
    ensures Covers(g.resource, resource) && Covers(g.intentId, Some(intent))
  {
  }

  lemma DurableCovers(db: Db, now: int, who: Principal, p: string, c: Capability, resource: Option<string>,
                      intent: string)
    requires var d := Decide(db, now, who, p, c, resource, Some(intent)); d.allowed && d.source == PrincipalGrants
    ensures var d := Decide(db, now, who, p, c, resource, Some(intent));
            && d.grantId.Some? && d.grantId.value in db.durable
            && var g := db.durable[d.grantId.value];
            && g.principal == who && g.participantId == p && g.capability == c && Covers(g.resource, resource)
  {
    hide Decide, DurableRows;
    DecidedByDurable(db, now, who, p, c, resource, Some(intent));
    DurablePart(db, who, p, c, resource);
  }

  /** An allowed decision comes from one of three sources. */
  lemma DecisionSource(db: Db, now: int, who: Principal, p: string, c: Capability, resource: Option<string>,
                       intent: string)
    requires Decide(db, now, who, p, c, resource, Some(intent)).allowed
    ensures var d := Decide(db, now, who, p, c, resource, Some(intent));
            && p in db.participants
            && (d.source == DelegatedGrants || d.source == PrincipalGrants
                || (d.source == ImplicitAuthority && d.grantId.None?
                    && ImplicitReason(who, p, c, resource, db.participants[p]) == Some(d.reason)))
  {
    hide Denial, DurableRows, DelegatedRows, ExplicitGrants, ImplicitReason;
    ScanSource(db, now, p, resource, intent, DelegatedRows(db, who, p, c), None);
  }

  lemma ImplicitPost(who: Principal, p: string, resource: Option<string>, row: Participant)
    requires ImplicitReason(who, p, PostMessage, resource, row).Some?
    ensures ImplicitPrincipal(who, p, ImplicitReason(who, p, PostMessage, resource, row).value)
  {
  }

  lemma StepKeepsTruthful(h: Hash, db: Db, now: int, step: Step)
    requires Invariant(h, db) && Guarded(step) && ProvenanceTruthful(db)
    ensures ProvenanceTruthful(Apply(h, db, now, step).0)
  {
    hide Invariant, Guarded, Apply, Truthful, DurableScopesKept, GrantsKept, Kept;
    var (after, outcome) := Apply(h, db, now, step);
    StepKeeps(h, db, now, step);
    StepKeepsDurableScopes(h, db, now, step);
    forall k | k in after.provenance ensures Truthful(after, k, after.provenance[k]) {
      if k in db.provenance {
        KeptRow(db.provenance, after.provenance, k);
        TruthfulKept(db, after, k, db.provenance[k]);
      } else {
        NewProvenance(h, db, now, step, k);
        TruthfulKept(db, after, k, after.provenance[k]);
      }
    }
  }

  lemma KeptRow<K, V>(before: map<K, V>, after: map<K, V>, k: K)
    requires Kept(before, after) && k in before
    ensures k in after && after[k] == before[k]
  {
  }

  lemma NewProvenance(h: Hash, db: Db, now: int, step: Step, k: ExecutionId)
    requires Invariant(h, db) && Guarded(step)
    requires k in Apply(h, db, now, step).0.provenance && k !in db.provenance
    ensures Truthful(db, k, Apply(h, db, now, step).0.provenance[k])
  {
    hide Invariant, Guarded, Execute, Truthful, NavigationAppend, AppendMessage, Administer, EnsureChannel,
         UpdateChannel, ChangeParticipant;
    OnlyExecutionProves(h, db, now, step);
    CreationProvenance(h, db, now, step.who, step.request, k);
  }

  lemma OnlyExecutionProves(h: Hash, db: Db, now: int, step: Step)
    requires Invariant(h, db)
    ensures !step.ExecuteStep? ==> Apply(h, db, now, step).0.provenance == db.provenance
  {
    hide Invariant, Extends, Execute, NavigationAppend, AppendMessage, ChangeParticipant, EnsureChannel, UpdateChannel,
         Administer;
    match step {
      case ExecuteStep(_, _) =>
      case NavigationStep(who, input, conversationRef) => NavigationLeaves(db, now, who, input, conversationRef);
      case AppendStep(who, channel, kind, body, replyTo) => AppendLeaves(db, now, who, channel, kind, body, replyTo);
      case AdminStep(caller, command) => AdminKeeps(h, db, now, caller, command);
      case LifecycleStep(change) => LifecycleLeaves(db, change);
      case EnsureChannelStep(channel, createdBy) => ChannelLeaves(db, channel, createdBy, None, None);
      case UpdateChannelStep(channel, visibility, status) => ChannelLeaves(db, channel, None, visibility, status);
    }
  }

  lemma CreationProvenance(h: Hash, db: Db, now: int, who: Identity, r: ExecutionRequest, k: ExecutionId)
    requires Invariant(h, db) && Guarded(ExecuteStep(who, r))
    requires k in Execute(h, db, now, who, r).0.provenance && k !in db.provenance
    ensures Truthful(db, k, Execute(h, db, now, who, r).0.provenance[k])
  {
    hide Invariant, Guarded, Execute, Truthful, DecisionFor, EnvelopeMatches, SameEvidence, Extends;
    ExecuteKeeps(h, db, now, who, r);
    CreatedEnvelope(h, db, now, who, r);
    DecisionTruthful(db, now, r);
  }

  lemma CreatedEnvelope(h: Hash, db: Db, now: int, who: Identity, r: ExecutionRequest)
    ensures Execute(h, db, now, who, r).1.Created? ==>
              who.instance == r.intent.participantId && r.intent.capability == PostMessage
                  && r.intent.resource == r.channel
  {
    hide DecisionFor, Create, Replay, EnsureChannel;
  }

  /** Truthful provenance over runs: in every reachable state each row's principal is the one the cited
      grant names, for this participant, capability, resource and intent, or one with implicit authority. */
  lemma {:induction false} ProvenanceTruthfulOverRuns(h: Hash, run: seq<Timed>, n: nat)
    requires GuardedRun(run) && n <= |run|
    ensures ProvenanceTruthful(StateAt(h, run, n))
  {
    hide Invariant, Apply, Truthful, Guarded;
    if n > 0 {
      ProvenanceTruthfulOverRuns(h, run, n - 1);
      RunKeeps(h, run, n - 1);
      StepKeepsTruthful(h, StateAt(h, run, n - 1), run[n - 1].0, run[n - 1].1);
    }
  }

  // ---- where a provenance row comes from ----------------------------------------------------

  /** The principal a row names. */
  function NamedPrincipal(a: Provenance): Principal
    requires a.principalProvider.Some? && a.principalSubject.Some?
  {
    Principal(a.principalProvider.value, a.principalSubject.value)
  }

  /** At these tables and this time the evaluator allowed the row's principal to do what the row says, with
      the row's source, reason and grant; and the authority was live: the grant active, a delegated one not
      expired and bound to nothing else, an implicit one held by the participant's own row. */
  ghost predicate Licensed(db: Db, now: int, k: ExecutionId, a: Provenance) {
    && a.principalProvider.Some? && a.principalSubject.Some? && a.capability == Some(PostMessage) && a.resource.Some?
    && var who := NamedPrincipal(a);
    && var d := Decide(db, now, who, k.participant, PostMessage, a.resource, Some(k.intent));
    && d.allowed && d.source == a.source && d.reason == a.reason && d.grantId == a.grantId
    && k.participant in db.participants && db.participants[k.participant].status == ParticipantActive
    && match a.source
       case DelegatedGrants =>
         && a.grantId.Some? && a.grantId.value in db.delegated
         && Usable(db, now, who, k.participant, PostMessage, a.resource, k.intent, db.delegated[a.grantId.value])
         && (db.delegated[a.grantId.value].oneShot != 0 ==> db.delegated[a.grantId.value].consumedAt.None?)
       case PrincipalGrants =>
         && a.grantId.Some? && a.grantId.value in db.durable
         && IsExplicit(db.durable[a.grantId.value], who, k.participant, PostMessage)
         && Covers(db.durable[a.grantId.value].resource, a.resource)
       case _ =>
         && a.source == ImplicitAuthority && a.grantId.None?
         && !HoldsDurable(db, who, k.participant, PostMessage)
         && (Speaks(who, k.participant) || GithubOwner(who, db.participants[k.participant]))
  }

  lemma LicensedCreation(h: Hash, db: Db, now: int, r: ExecutionRequest)
    requires Invariant(h, db) && DecisionFor(db, now, r).allowed && r.intent.capability == PostMessage
    requires ExecutionId(r.intent.participantId, r.intent.id) !in db.reservations
    ensures Licensed(db, now, ExecutionId(r.intent.participantId, r.intent.id),
                     ProvenanceRow(r.principal, ReceiptFor(r, 0), r.intent.resource, DecisionFor(db, now, r)))
  {
    hide Invariant, Decide, Denial, CommittedReceiptExists, IsExplicit, IsCandidate, ImplicitReason, Usable, Speaks,
         GithubOwner, HoldsDurable;
    var who, p, resource, intent := r.principal, r.intent.participantId, Some(r.intent.resource), r.intent.id;
    var d := DecisionFor(db, now, r);
    AllowedActive(db, now, who, p, PostMessage, resource, intent);
    DecisionRestsOn(db, now, who, p, PostMessage, resource, intent);
    DecisionSource(db, now, who, p, PostMessage, resource, intent);
    if d.source == DelegatedGrants {
      DecisionFits(h, db, now, r, ProvenanceRow(who, ReceiptFor(r, 0), r.intent.resource, d));
      FreshUsable(db, now, who, p, resource, intent, db.delegated[d.grantId.value]);
    } else if d.source == PrincipalGrants {
      DecidedByDurable(db, now, who, p, PostMessage, resource, Some(intent));
      DurablePart(db, who, p, PostMessage, resource);
    } else {
      ImplicitDecision(db, now, who, p, PostMessage, resource, intent);
      ImplicitExact(who, p, PostMessage, resource, db.participants[p]);
    }
  }

  lemma FreshUsable(db: Db, now: int, who: Principal, p: string, resource: Option<string>, intent: string,
                    g: DelegatedGrant)
    requires IsCandidate(g, who, p, PostMessage) && Denial(g, now, resource, intent).None?
    requires g.oneShot != 0 ==> g.consumedAt.None?
    ensures Usable(db, now, who, p, PostMessage, resource, intent, g)
  {
  }

  lemma AllowedActive(db: Db, now: int, who: Principal, p: string, c: Capability, resource: Option<string>,
                      intent: string)
    requires Decide(db, now, who, p, c, resource, Some(intent)).allowed
    ensures p in db.participants && db.participants[p].status == ParticipantActive
  {
    hide Scan, DurableRows, DelegatedRows, ExplicitGrants, ImplicitReason;
  }

  /** Implicit authority decides only where no durable grant suppresses it. */
  lemma ImplicitDecision(db: Db, now: int, who: Principal, p: string, c: Capability, resource: Option<string>,
                         intent: string)
    requires Decide(db, now, who, p, c, resource, Some(intent)).allowed
    requires Decide(db, now, who, p, c, resource, Some(intent)).source == ImplicitAuthority
    ensures !HoldsDurable(db, who, p, c)
  {
    hide Denial, DurableRows, DelegatedRows, ExplicitGrants, ImplicitReason, HoldsDurable, HoldsDurableFor;
    DurablePart(db, who, p, c, resource);
    ScanSource(db, now, p, resource, intent, DelegatedRows(db, who, p, c), None);
  }

  /** Step i created the execution and wrote its row, licensed at that moment. */
  ghost predicate WrittenAt(h: Hash, run: seq<Timed>, i: nat, k: ExecutionId, a: Provenance)
    requires i < |run|
  {
    && run[i].1.ExecuteStep? && k == ExecutionId(run[i].1.who.instance, run[i].1.request.intent.id)
    && Creates(OutcomeAt(h, run, i)) && NamedPrincipalIs(a, run[i].1.request.principal)
    && a.resource == Some(run[i].1.request.channel)
    && Licensed(StateAt(h, run, i), run[i].0, k, a)
  }

  predicate NamedPrincipalIs(a: Provenance, who: Principal) {
    a.principalProvider == Some(who.provider) && a.principalSubject == Some(who.subject)
  }

  lemma StepWrites(h: Hash, db: Db, now: int, who: Identity, r: ExecutionRequest, k: ExecutionId)
    requires Invariant(h, db) && Guarded(ExecuteStep(who, r))
    requires k in Execute(h, db, now, who, r).0.provenance && k !in db.provenance
    ensures var (after, result) := Execute(h, db, now, who, r);
            var a := after.provenance[k];
            && result.Created? && k == ExecutionId(who.instance, r.intent.id)
            && NamedPrincipalIs(a, r.principal) && a.resource == Some(r.channel) && Licensed(db, now, k, a)
  {
    hide Invariant, Guarded, Execute, Licensed, DecisionFor, SameEvidence, Extends;
    ExecuteKeeps(h, db, now, who, r);
    CreatedEnvelope(h, db, now, who, r);
    LicensedCreation(h, db, now, r);
  }

  /** Every provenance row of a reachable state was written by a step that created its message, at which the
      evaluator allowed this very principal with this source, reason and grant, then live. */
  lemma {:induction false} ProvenanceWritten(h: Hash, run: seq<Timed>, n: nat, k: ExecutionId) returns (i: nat)
    requires GuardedRun(run) && n <= |run| && k in StateAt(h, run, n).provenance
    ensures i < n && WrittenAt(h, run, i, k, StateAt(h, run, n).provenance[k])
  {
    hide Invariant, Apply, Guarded, StateAt, WrittenAt, GuardedRun, Extends;
    StartsUnproven(h, run);
    var db := StateAt(h, run, n - 1);
    NextState(h, run, n - 1);
    GuardedAt(run, n - 1);
    RunKeeps(h, run, n - 1);
    StepKeeps(h, db, run[n - 1].0, run[n - 1].1);
    if k in db.provenance {
      i := ProvenanceWritten(h, run, n - 1, k);
      RowKept(db, StateAt(h, run, n), k);
    } else {
      i := n - 1;
      WrittenHere(h, run, n - 1, k);
    }
  }

  lemma StartsUnproven(h: Hash, run: seq<Timed>)
    ensures StateAt(h, run, 0).provenance == map[]
  {
  }

  lemma RowKept(before: Db, after: Db, k: ExecutionId)
    requires Extends(before, after) && k in before.provenance
    ensures k in after.provenance && after.provenance[k] == before.provenance[k]
  {
  }

  lemma WrittenHere(h: Hash, run: seq<Timed>, i: nat, k: ExecutionId)
    requires GuardedRun(run) && i < |run|
    requires k in StateAt(h, run, i + 1).provenance && k !in StateAt(h, run, i).provenance
    ensures WrittenAt(h, run, i, k, StateAt(h, run, i + 1).provenance[k])
  {
    hide Invariant, Guarded, Execute, NavigationAppend, AppendMessage, ChangeParticipant, EnsureChannel, UpdateChannel,
         Administer, StateAt, Licensed, NamedPrincipalIs, GuardedRun;
    var db := StateAt(h, run, i);
    NextState(h, run, i);
    GuardedAt(run, i);
    RunKeeps(h, run, i);
    OnlyExecutionProves(h, db, run[i].0, run[i].1);
    StepWrites(h, db, run[i].0, run[i].1.who, run[i].1.request, k);
  }

  // ---- what a success leaves behind ---------------------------------------------------------

  /** The evidence of a success, field by field: the delivery as it came, and the receipt of the message. */
  ghost predicate Evidenced(db: Db, who: Identity, r: ExecutionRequest, m: Message) {
    var d := r.delivery;
    var k := ExecutionId(who.instance, r.intent.id);
    && d.deliveryId in db.ingress
    && db.ingress[d.deliveryId].participantId == Some(who.instance) && db.ingress[d.deliveryId].intentId == r.intent.id
    && db.ingress[d.deliveryId].transport == d.transport && db.ingress[d.deliveryId].externalRef == d.externalRef
    && db.ingress[d.deliveryId].principal == r.principal
    && k in db.receipts && db.receipts[k].messageId == m.id
    && db.receipts[k].capability == PostMessage && db.receipts[k].status == Committed
  }

  lemma RecordEvidence(db: Db, now: int, k: ExecutionId, d: Delivery, receipt: Receipt)
    requires RecordExecution(db, now, d, k, receipt).Ok?
    ensures var after := RecordExecution(db, now, d, k, receipt).value;
            && d.deliveryId in after.ingress
            && after.ingress[d.deliveryId] == IngressRow(k.participant, d, after.ingress[d.deliveryId].createdAt)
            && k in after.receipts && SameReceipt(after.receipts[k], receipt)
  {
  }

  /** Every success, created or replayed, leaves its own delivery and the receipt of the returned message. */
  lemma SuccessEvidenced(h: Hash, db: Db, now: int, who: Identity, r: ExecutionRequest, m: Message)
    requires Execute(h, db, now, who, r).1 in {Created(m), Existing(m)}
    ensures Evidenced(Execute(h, db, now, who, r).0, who, r, m)
  {
    hide DecisionFor, RecordExecution, RecordAuthority, EnsureChannel, Reserved, SameReceipt, ProvenanceRow,
         RecordCreation, Replay;
    var k := ExecutionId(who.instance, r.intent.id);
    var ready := EnsureChannel(db, r.channel, Some(who.instance));
    ChannelEnsured(db, r.channel, Some(who.instance));
    if k in ready.reservations {
      ReplayEvidenced(ready, now, who, k, r, m);
    } else {
      var m' := NewMessage(ready, now, who, r.channel, r.intent.conversationRef, r.kind, r.body, r.replyTo);
      CreationEvidenced(Reserved(ready, now, k, r, m'), now, who, k, r, DecisionFor(db, now, r), m');
    }
  }

  predicate Enveloped(who: Identity, r: ExecutionRequest) {
    r.principal == r.delivery.principal && r.delivery.intentId == r.intent.id && r.intent.capability == PostMessage
  }

  lemma ReplayEvidenced(db: Db, now: int, who: Identity, k: ExecutionId, r: ExecutionRequest, m: Message)
    requires k in db.reservations && k == ExecutionId(who.instance, r.intent.id) && Enveloped(who, r)
    ensures var t := Replay(db, now, k, r);
            t.result in {Created(m), Existing(m)} ==> t.Commit? && Evidenced(t.db, who, r, m)
  {
    hide RecordExecution;
    var stored := db.reservations[k];
    if stored.messageId in db.messages {
      var receipt := ReceiptFor(r, db.messages[stored.messageId].id);
      if RecordExecution(db, now, r.delivery, k, receipt).Ok? { RecordEvidence(db, now, k, r.delivery, receipt); }
    }
  }

  lemma CreationEvidenced(db: Db, now: int, who: Identity, k: ExecutionId, r: ExecutionRequest, d: Decision, m: Message)
    requires k == ExecutionId(who.instance, r.intent.id) && Enveloped(who, r)
    ensures var t := RecordCreation(db, now, k, r, d, m);
            t.result.Created? || t.result.Existing? ==>
                t.Commit? && t.result == Created(m) && Evidenced(t.db, who, r, m)
  {
    hide RecordExecution;
    var receipt := ReceiptFor(r, m.id);
    if RecordExecution(db, now, r.delivery, k, receipt).Ok? { RecordEvidence(db, now, k, r.delivery, receipt); }
  }
}
