/** The execution boundary keeps the invariant, writes provenance only with a new message, and fails
    with an error in exactly two ways. */
module ExecutionPreservation {
  import opened Text
  import opened Tables
  import opened Authorization
  import opened Board
  import opened Execution
  import opened ExecutionAudit
  import opened Administration
  import opened AdministrationLog
  import opened Kernel
  import opened Preservation

  // ---- ingress and receipt ------------------------------------------------------------------

  /** A complete delivery for this execution. */
  ghost predicate GoodDelivery(k: ExecutionId, d: Delivery) {
    && IsParticipantId(k.participant) && d.intentId == k.intent
    && !MetadataBlank(d.deliveryId, IngressRow(k.participant, d, 0))
  }

  lemma RecordedIngressBound(db: Db, now: int, d: Delivery, k: ExecutionId, receipt: Receipt)
    requires IngressBound(db) && GoodDelivery(k, d)
    requires RecordExecution(db, now, d, k, receipt).Ok?
    ensures var after := RecordExecution(db, now, d, k, receipt).value;
            IngressBound(after) && HasDelivery(after, k) && Kept(db.ingress, after.ingress)
  {
    hide Blank;
    var after := RecordExecution(db, now, d, k, receipt).value;
    ParticipantIdBound(k.participant);
    assert Delivers(after.ingress[d.deliveryId], k);
  }

  lemma RecordShape(db: Db, now: int, d: Delivery, k: ExecutionId, receipt: Receipt)
    requires ReceiptsBound(db) && k in db.reservations && receipt.messageId == db.reservations[k].messageId
    requires receipt.capability == PostMessage && receipt.status == Committed
    ensures var recorded := RecordExecution(db, now, d, k, receipt);
            if d.deliveryId in db.ingress && !SameEvidence(db.ingress[d.deliveryId], k.participant, d)
            then recorded == Err(DeliveryRebound)
            else recorded.Ok?
                 && recorded.value == db.(ingress := recorded.value.ingress, receipts := recorded.value.receipts)
                 && recorded.value.receipts == (if k in db.receipts then db.receipts else db.receipts[k := receipt])
                 && Kept(db.ingress, recorded.value.ingress)
  {
    hide SameEvidence, HasDelivery;
  }

  lemma RecordedExtends(db: Db, after: Db, k: ExecutionId, receipt: Receipt)
    requires after == db.(ingress := after.ingress, receipts := after.receipts)
    requires after.receipts == (if k in db.receipts then db.receipts else db.receipts[k := receipt])
    requires Kept(db.ingress, after.ingress)
    ensures Extends(db, after) && PolicyUntouched(db, after)
  {
  }

  lemma RecordedInvariant(h: Hash, db: Db, after: Db, k: ExecutionId, receipt: Receipt)
    requires ExecutionInvariant(h, db) && Extends(db, after) && IngressBound(after) && HasDelivery(after, k)
    requires after == db.(ingress := after.ingress, receipts := after.receipts)
    requires after.receipts == (if k in db.receipts then db.receipts else db.receipts[k := receipt])
    requires k in db.reservations && receipt.messageId == db.reservations[k].messageId
    requires receipt.capability == PostMessage && receipt.status == Committed
    ensures ExecutionInvariant(h, after)
  {
    hide Coherent, IngressBound, HasDelivery, MetadataBlank;
    forall r | r in after.receipts ensures HasDelivery(after, r) {
      if r in db.receipts { DeliveryKept(db, after, r); }
    }
    forall p | p in after.provenance ensures Coherent(h, after, p) {
      CoherentKept(h, db, after, p);
    }
  }

  lemma RecordKeeps(h: Hash, db: Db, now: int, d: Delivery, k: ExecutionId, receipt: Receipt)
    requires Invariant(h, db) && GoodDelivery(k, d)
    requires k in db.reservations && receipt.messageId == db.reservations[k].messageId
    requires receipt.capability == PostMessage && receipt.status == Committed
    ensures var recorded := RecordExecution(db, now, d, k, receipt);
            if d.deliveryId in db.ingress && !SameEvidence(db.ingress[d.deliveryId], k.participant, d)
            then recorded == Err(DeliveryRebound)
            else recorded.Ok? && Invariant(h, recorded.value) && Extends(db, recorded.value)
                 && k in recorded.value.receipts
                 && recorded.value == db.(ingress := recorded.value.ingress, receipts := recorded.value.receipts)
                 && recorded.value.receipts == (if k in db.receipts then db.receipts else db.receipts[k := receipt])
  {
    hide ReceiptsBound, IngressBound, ProvenanceCoherent, ConsumptionBacked, ReservationsBound, MessagesNumbered,
         PolicySound, Logged, HasDelivery, GoodDelivery, RecordExecution, SameEvidence, Extends, PolicyUntouched;
    RecordShape(db, now, d, k, receipt);
    var recorded := RecordExecution(db, now, d, k, receipt);
    if recorded.Ok? {
      var after := recorded.value;
      RecordedIngressBound(db, now, d, k, receipt);
      RecordedExtends(db, after, k, receipt);
      PolicyUntouchedKeeps(db, after);
      RecordedInvariant(h, db, after, k, receipt);
    }
  }

  // ---- provenance and consumption -----------------------------------------------------------

  /** A provenance row and a consumption that fit an unconsumed decision. */
  ghost predicate FitsDecision(db: Db, k: ExecutionId, row: Provenance, consume: Option<int>) {
    if row.source != DelegatedGrants then consume.None?
    else
      && row.grantId.Some? && row.grantId.value in db.delegated
      && var g := db.delegated[row.grantId.value];
      && g.participantId == k.participant && g.capability == PostMessage && g.status == Active
      && Covers(g.intentId, Some(k.intent))
      && (if g.oneShot != 0 then g.consumedAt.None? && consume == row.grantId else consume.None?)
  }

  /** The receipt, reservation and message of an execution agree with each other. */
  ghost predicate EffectAgrees(h: Hash, db: Db, k: ExecutionId) {
    && k in db.receipts && k in db.reservations
    && var r := db.receipts[k];
    && r.status == Committed && r.capability == PostMessage
    && r.messageId in db.messages && db.messages[r.messageId].instance == k.participant
    && r.intentHash == h(db.messages[r.messageId].Content())
    && db.reservations[k] == Reservation(r.intentHash, r.messageId, db.reservations[k].createdAt)
  }

  ghost predicate FitsEffect(db: Db, k: ExecutionId, row: Provenance)
    requires k in db.receipts && db.receipts[k].messageId in db.messages
  {
    && PrincipalBound(row) && row.capability == Some(PostMessage)
    && row.resource == Some(db.messages[db.receipts[k].messageId].channel)
    && !Blank(db.messages[db.receipts[k].messageId].channel)
  }

  lemma AuthorityRecorded(db: Db, now: int, k: ExecutionId, row: Provenance, consume: Option<int>)
    requires PolicySound(db) && k !in db.provenance && FitsDecision(db, k, row, consume)
    ensures var recorded := RecordAuthority(db, now, k, row, consume);
            && recorded.Ok?
            && var after := recorded.value;
            && after == db.(provenance := db.provenance[k := row], delegated := after.delegated)
            && after.delegated == (if consume.None? then db.delegated
                                   else db.delegated[consume.value := Consumed(db.delegated[consume.value], now,
                                                                               k.intent)])
            && PolicyUntouched(db, after) && Grows(db, after)
  {
    hide PolicySound, PolicyUntouched, Grows;
    OneShotFlag(db);
    var after := RecordAuthority(db, now, k, row, consume).value;
    AuthorityUntouches(db, after, now, k, row, consume);
  }

  lemma OneShotFlag(db: Db)
    requires PolicySound(db)
    ensures forall id | id in db.delegated :: db.delegated[id].oneShot == 0 || db.delegated[id].oneShot == 1
  {
    hide WellFormedScope, IsParticipantId, IsKnown;
  }

  /** A provenance row for a new key and the consumption of a fresh grant leave the policy alone. */
  lemma AuthorityUntouches(db: Db, after: Db, now: int, k: ExecutionId, row: Provenance, consume: Option<int>)
    requires k !in db.provenance && (consume.Some? ==> Consumable(db, consume.value))
    requires after == db.(provenance := db.provenance[k := row], delegated := after.delegated)
    requires after.delegated == (if consume.None? then db.delegated
                                 else db.delegated[consume.value := Consumed(db.delegated[consume.value], now,
                                                                             k.intent)])
    ensures PolicyUntouched(db, after) && Grows(db, after)
  {
  }

  lemma NewProvenanceCoherent(h: Hash, db: Db, now: int, k: ExecutionId, row: Provenance, consume: Option<int>)
    requires EffectAgrees(h, db, k) && FitsEffect(db, k, row) && FitsDecision(db, k, row, consume)
    requires IngressBound(db) && HasDelivery(db, k) && k !in db.provenance
    requires RecordAuthority(db, now, k, row, consume).Ok?
    ensures Coherent(h, RecordAuthority(db, now, k, row, consume).value, k)
  {
    hide Blank, MetadataBlank, Unbound, IngressBound;
    forall d | d in db.ingress ensures !Unbound(db.ingress[d]) && !MetadataBlank(d, db.ingress[d]) {
      BoundIngress(db, d);
    }
  }

  lemma ConsumptionStillBacked(db: Db, now: int, k: ExecutionId, row: Provenance, consume: Option<int>)
    requires PolicySound(db) && ConsumptionBacked(db) && k !in db.provenance && FitsDecision(db, k, row, consume)
    requires RecordAuthority(db, now, k, row, consume).Ok?
    ensures ConsumptionBacked(RecordAuthority(db, now, k, row, consume).value)
  {
    hide WellFormedScope, IsParticipantId, IsKnown;
  }

  lemma AuthorityKeeps(h: Hash, db: Db, now: int, k: ExecutionId, row: Provenance, consume: Option<int>)
    requires Invariant(h, db) && EffectAgrees(h, db, k) && FitsEffect(db, k, row) && FitsDecision(db, k, row, consume)
    requires k !in db.provenance
    ensures var recorded := RecordAuthority(db, now, k, row, consume);
            recorded.Ok? && Invariant(h, recorded.value) && Grows(db, recorded.value)
            && recorded.value.provenance == db.provenance[k := row]
  {
    hide Coherent, IsParticipantId, MetadataBlank, PolicySound, Logged, EffectAgrees, FitsEffect, FitsDecision,
         HasDelivery, RecordAuthority, PolicyUntouched, Grows, ConsumptionBacked;
    AuthorityRecorded(db, now, k, row, consume);
    var after := RecordAuthority(db, now, k, row, consume).value;
    PolicyUntouchedKeeps(db, after);
    ConsumptionStillBacked(db, now, k, row, consume);
    EffectReceipted(h, db, k);
    assert IngressBound(after);
    forall r | r in after.receipts ensures HasDelivery(after, r) {
      GrowsIngress(db, after);
      DeliveryKept(db, after, r);
    }
    forall p | p in after.provenance ensures Coherent(h, after, p) {
      if p == k { NewProvenanceCoherent(h, db, now, k, row, consume); } else { CoherentKept(h, db, after, p); }
    }
  }

  lemma EffectReceipted(h: Hash, db: Db, k: ExecutionId)
    requires EffectAgrees(h, db, k)
    ensures k in db.receipts
  {
  }

  lemma GrowsIngress(before: Db, after: Db)
    requires Grows(before, after)
    ensures Kept(before.ingress, after.ingress)
  {
  }

  // ---- the decision -------------------------------------------------------------------------

  /** Under the invariant a committed receipt has its reservation, so a decision for an unreserved
      execution never rests on a committed replay. */
  lemma DecisionFits(h: Hash, db: Db, now: int, r: ExecutionRequest, row: Provenance)
    requires Invariant(h, db) && DecisionFor(db, now, r).allowed && r.intent.capability == PostMessage
    requires ExecutionId(r.intent.participantId, r.intent.id) !in db.reservations
    requires row.source == DecisionFor(db, now, r).source && row.grantId == DecisionFor(db, now, r).grantId
    ensures FitsDecision(db, ExecutionId(r.intent.participantId, r.intent.id), row,
                         DecisionFor(db, now, r).consumeGrantId)
    ensures DecisionFor(db, now, r).reason != DelegatedCommittedReplay
            || DecisionFor(db, now, r).source != DelegatedGrants
  {
    hide Decide, Coherent, PolicySound, Logged, IngressBound, HasDelivery, ConsumptionBacked;
    DecisionRestsOn(db, now, r.principal, r.intent.participantId, r.intent.capability, Some(r.intent.resource),
                    r.intent.id);
  }

  lemma AllowedParticipant(h: Hash, db: Db, now: int, r: ExecutionRequest)
    requires PolicySound(db) && DecisionFor(db, now, r).allowed
    ensures r.intent.participantId in db.participants && IsParticipantId(r.intent.participantId)
  {
    hide WellFormedScope, IsParticipantId, IsKnown, DurableRows, DelegatedRows, Scan, ImplicitReason, ExplicitGrants;
  }

  // ---- the two branches ---------------------------------------------------------------------

  lemma ReplayKeeps(h: Hash, db: Db, now: int, k: ExecutionId, r: ExecutionRequest)
    requires Invariant(h, db) && k in db.reservations && GoodDelivery(k, r.delivery)
             && r.intent.capability == PostMessage
    ensures var t := Replay(db, now, k, r);
            && (t.Commit? ==> && Invariant(h, t.db) && Extends(db, t.db) && k in t.db.receipts
                              && t.db.provenance == db.provenance && t.db.delegated == db.delegated
                              && t.db.messages == db.messages && t.db.reservations == db.reservations
                              && t.result == Existing(db.messages[db.reservations[k].messageId]))
            && (t.Abort? ==> t.result == IntentConflict || t.result == Failed(DeliveryRebound))
            && (t.result == Failed(DeliveryRebound) ==>
                  r.delivery.deliveryId in db.ingress
                      && !SameEvidence(db.ingress[r.delivery.deliveryId], k.participant, r.delivery))
  {
    hide Invariant, Extends, GoodDelivery, RecordExecution, SameEvidence;
    ReservationsOf(h, db);
    hide ReservationsBound, MessagesNumbered;
    var stored := db.reservations[k];
    RecordKeeps(h, db, now, r.delivery, k, ReceiptFor(r, db.messages[stored.messageId].id));
  }

  lemma ReservationsOf(h: Hash, db: Db)
    requires Invariant(h, db)
    ensures forall k | k in db.reservations ::
              && db.reservations[k].messageId in db.messages
              && db.messages[db.reservations[k].messageId].id == db.reservations[k].messageId
              && db.messages[db.reservations[k].messageId].instance == k.participant
    ensures forall k | k in db.receipts ::
            k in db.reservations && db.receipts[k].messageId == db.reservations[k].messageId
    ensures forall k | k in db.provenance :: k in db.receipts && k in db.reservations
    ensures db.lastMessageId + 1 !in db.messages && PolicySound(db)
  {
    hide PolicySound, Logged, IngressBound, HasDelivery, ConsumptionBacked, MetadataBlank, Blank, PrincipalBound;
  }

  lemma CreateKeeps(h: Hash, db: Db, now: int, who: Identity, k: ExecutionId, r: ExecutionRequest, d: Decision)
    requires Invariant(h, db) && k !in db.reservations && GoodDelivery(k, r.delivery)
    requires EnvelopeMatches(h, who, r) && k == ExecutionId(who.instance, r.intent.id) && !Blank(r.channel)
    requires !Blank(r.principal.provider) && !Blank(r.principal.subject)
    requires FitsDecision(db, k, ProvenanceRow(r.principal, ReceiptFor(r, 0), r.intent.resource, d), d.consumeGrantId)
    ensures var t := Create(db, now, who, k, r, d);
            && (t.Commit? ==>
                  && Invariant(h, t.db) && Extends(db, t.db)
                  && t.result.Created? && t.result.message.Content() == r.Content()
                  && t.db.reservations == db.reservations[k := Reservation(r.intent.requestHash, t.result.message.id,
                                                                           now)]
                  && t.result.message.id in t.db.messages && t.db.messages[t.result.message.id] == t.result.message
                  && t.db.provenance == db.provenance[k := ProvenanceRow(r.principal, ReceiptFor(r, 0),
                                                                         r.intent.resource, d)])
            && (t.Abort? ==> t.result == ReplyTargetNotFound || t.result == Failed(DeliveryRebound))
            && (t.result == Failed(DeliveryRebound) ==>
                  r.delivery.deliveryId in db.ingress
                      && !SameEvidence(db.ingress[r.delivery.deliveryId], k.participant, r.delivery))
  {
    hide Invariant, Extends, GoodDelivery, RecordExecution, RecordAuthority, SameEvidence, FitsDecision, EffectAgrees,
         FitsEffect, Blank, Grows;
    ReservationsOf(h, db);
    if ReplyTargetExists(db, r.replyTo) {
      var m := NewMessage(db, now, who, r.channel, r.intent.conversationRef, r.kind, r.body, r.replyTo);
      InsertMessageKeeps(h, db, m);
      var row := Reservation(r.intent.requestHash, m.id, now);
      var placed := InsertMessage(db, m);
      ReserveKeeps(h, placed, k, row);
      var reserved := Reserved(db, now, k, r, m);
      assert reserved == placed.(reservations := placed.reservations[k := row]);
      ExtendsTransitive(db, placed, reserved);
      CreationRecorded(h, db, reserved, now, k, r, d, m);
    }
  }

  lemma CreationRecorded(h: Hash, db: Db, reserved: Db, now: int, k: ExecutionId, r: ExecutionRequest, d: Decision,
                         m: Message)
    requires Invariant(h, db) && k !in db.reservations
    requires Invariant(h, reserved) && Extends(db, reserved) && GoodDelivery(k, r.delivery) && !Blank(r.channel)
    requires !Blank(r.principal.provider) && !Blank(r.principal.subject)
    requires reserved.reservations == db.reservations[k := Reservation(r.intent.requestHash, m.id, now)]
    requires reserved.messages == db.messages[m.id := m] && m.instance == k.participant && m.Content() == r.Content()
    requires m.channel == r.channel
    requires reserved.receipts == db.receipts && reserved.provenance == db.provenance && reserved.ingress == db.ingress
    requires reserved.delegated == db.delegated
    requires r.intent.requestHash == h(r.Content()) && r.intent.capability == PostMessage
             && r.intent.resource == r.channel
    requires FitsDecision(db, k, ProvenanceRow(r.principal, ReceiptFor(r, 0), r.intent.resource, d), d.consumeGrantId)
    ensures var t := RecordCreation(reserved, now, k, r, d, m);
            && (t.Commit? ==>
                  && Invariant(h, t.db) && Extends(db, t.db) && t.result == Created(m)
                  && t.db.messages == reserved.messages && t.db.reservations == reserved.reservations
                  && t.db.provenance == db.provenance[k := ProvenanceRow(r.principal, ReceiptFor(r, 0),
                                                                         r.intent.resource, d)])
            && (t.Abort? ==>
                  && t.result == Failed(DeliveryRebound)
                  && r.delivery.deliveryId in db.ingress
                  && !SameEvidence(db.ingress[r.delivery.deliveryId], k.participant, r.delivery))
  {
    hide Invariant, GoodDelivery, RecordExecution, RecordAuthority, SameEvidence, Blank, Grows, FitsDecision;
    ReservationsOf(h, db);
    var receipt := ReceiptFor(r, m.id);
    RecordKeeps(h, reserved, now, r.delivery, k, receipt);
    var recorded := RecordExecution(reserved, now, r.delivery, k, receipt);
    if recorded.Ok? {
      var mid := recorded.value;
      var row := ProvenanceRow(r.principal, receipt, r.intent.resource, d);
      assert row == ProvenanceRow(r.principal, ReceiptFor(r, 0), r.intent.resource, d);
      assert mid.receipts[k] == receipt;
      assert EffectAgrees(h, mid, k);
      FitsDecisionSame(db, mid, k, row, d.consumeGrantId);
      AuthorityKeeps(h, mid, now, k, row, d.consumeGrantId);
      var after := RecordAuthority(mid, now, k, row, d.consumeGrantId).value;
      GrowsTransitive(db, reserved, mid);
      GrowsTransitive(db, mid, after);
      AuthorityTables(mid, now, k, row, d.consumeGrantId);
    }
  }

  lemma FitsDecisionSame(a: Db, b: Db, k: ExecutionId, row: Provenance, consume: Option<int>)
    requires FitsDecision(a, k, row, consume) && b.delegated == a.delegated
    ensures FitsDecision(b, k, row, consume)
  {
  }

  lemma AuthorityTables(db: Db, now: int, k: ExecutionId, row: Provenance, consume: Option<int>)
    requires RecordAuthority(db, now, k, row, consume).Ok?
    ensures var after := RecordAuthority(db, now, k, row, consume).value;
            && after.messages == db.messages && after.reservations == db.reservations && after.receipts == db.receipts
            && after.provenance == db.provenance[k := row]
  {
  }

  // ---- the whole execution ------------------------------------------------------------------

  lemma GuardedDelivery(h: Hash, who: Identity, r: ExecutionRequest)
    requires Guarded(ExecuteStep(who, r)) && EnvelopeMatches(h, who, r) && IsParticipantId(who.instance)
    ensures GoodDelivery(ExecutionId(who.instance, r.intent.id), r.delivery)
    ensures !Blank(r.channel) && !Blank(r.principal.provider) && !Blank(r.principal.subject)
  {
    hide Blank, IsParticipantId;
  }

  /** What one execution does, from any invariant state. It creates the message its reservation will
      always name, or returns the message the reservation names; it writes provenance exactly when it
      creates; anything else leaves every table as it was. It fails with an error only for a mismatched
      envelope or a delivery id bound to different evidence. */
  ghost predicate ExecutionEffect(h: Hash, db: Db, now: int, who: Identity, r: ExecutionRequest, after: Db,
                                  result: ExecutionResult) {
    var k := ExecutionId(who.instance, r.intent.id);
    match result
    case Created(m) =>
      && k !in db.reservations && k in after.reservations
      && after.reservations == db.reservations[k := Reservation(h(m.Content()), m.id, after.reservations[k].createdAt)]
      && m.id in after.messages && after.messages[m.id] == m && m.Content() == r.Content()
      && DecisionFor(db, now, r).allowed
      && DecisionFor(db, now, r).reason != DelegatedCommittedReplay
      && after.provenance == db.provenance[k :=
           ProvenanceRow(r.principal, ReceiptFor(r, 0), r.intent.resource, DecisionFor(db, now, r))]
    case Existing(m) =>
      && k in db.reservations && db.reservations[k].messageId == m.id
      && m.id in db.messages && db.messages[m.id] == m
      && (db.reservations[k].requestHash == r.intent.requestHash || m.Content() == r.Content())
      && r.intent.requestHash == h(r.Content())
      && k in after.receipts
      && after.provenance == db.provenance && after.delegated == db.delegated && after.reservations == db.reservations
    case Failed(fault) =>
      && after == db
      && (fault == EnvelopeMismatch <==> !EnvelopeMatches(h, who, r))
      && (fault == EnvelopeMismatch || fault == DeliveryRebound)
      && (fault == DeliveryRebound ==>
            r.delivery.deliveryId in db.ingress
                && !SameEvidence(db.ingress[r.delivery.deliveryId], who.instance, r.delivery))
    case _ => after == db
  }

  lemma DecisionReason(h: Hash, db: Db, now: int, r: ExecutionRequest)
    requires Invariant(h, db) && DecisionFor(db, now, r).allowed && r.intent.capability == PostMessage
    requires ExecutionId(r.intent.participantId, r.intent.id) !in db.reservations
    ensures DecisionFor(db, now, r).reason != DelegatedCommittedReplay
  {
    hide Invariant, RestsOn, Denial, DurableRows, DelegatedRows, ExplicitGrants, FitsDecision;
    var d := DecisionFor(db, now, r);
    DecisionFits(h, db, now, r, ProvenanceRow(r.principal, ReceiptFor(r, 0), r.intent.resource, d));
    if d.source != DelegatedGrants { ReasonFollowsSource(db, now, r); }
  }

  lemma ReasonFollowsSource(db: Db, now: int, r: ExecutionRequest)
    requires DecisionFor(db, now, r).allowed && DecisionFor(db, now, r).source != DelegatedGrants
    ensures DecisionFor(db, now, r).reason != DelegatedCommittedReplay
  {
    hide DurableRows, DelegatedRows, ExplicitGrants, Denial;
    ScanDecides(db, now, r.intent.participantId, Some(r.intent.resource), r.intent.id,
                DelegatedRows(db, r.principal, r.intent.participantId, r.intent.capability), None);
  }

  lemma ExecuteKeeps(h: Hash, db: Db, now: int, who: Identity, r: ExecutionRequest)
    requires Invariant(h, db) && Guarded(ExecuteStep(who, r))
    ensures var (after, result) := Execute(h, db, now, who, r);
            Invariant(h, after) && Extends(db, after) && ExecutionEffect(h, db, now, who, r, after, result)
  {
    hide Invariant, Extends, Replay, Create, DecisionFor, ExecutionEffect, EnsureChannel, EnvelopeMatches;
    var id := ExecutionId(who.instance, r.intent.id);
    ExtendsReflexive(db);
    if EnvelopeMatches(h, who, r) && DecisionFor(db, now, r).allowed && id in db.reservations {
      ReplayEffect(h, db, now, who, r);
    } else if EnvelopeMatches(h, who, r) && DecisionFor(db, now, r).allowed {
      CreationEffect(h, db, now, who, r);
    } else {
      RefusalEffect(h, db, now, who, r);
    }
  }

  lemma RefusalEffect(h: Hash, db: Db, now: int, who: Identity, r: ExecutionRequest)
    requires !EnvelopeMatches(h, who, r) || !DecisionFor(db, now, r).allowed
    ensures var (after, result) := Execute(h, db, now, who, r);
            after == db && ExecutionEffect(h, db, now, who, r, after, result)
  {
    hide Replay, Create, DecisionFor, EnsureChannel, EnvelopeMatches;
  }

  lemma ReplayEffect(h: Hash, db: Db, now: int, who: Identity, r: ExecutionRequest)
    requires Invariant(h, db) && Guarded(ExecuteStep(who, r))
    requires EnvelopeMatches(h, who, r) && DecisionFor(db, now, r).allowed
             && ExecutionId(who.instance, r.intent.id) in db.reservations
    ensures var (after, result) := Execute(h, db, now, who, r);
            Invariant(h, after) && Extends(db, after) && ExecutionEffect(h, db, now, who, r, after, result)
  {
    hide Invariant, Extends, GoodDelivery, Replay, Create, DecisionFor, Blank, MetadataBlank, IsParticipantId,
         SameEvidence, EnsureChannel, EvidenceUntouched, PolicySound;
    var k := ExecutionId(who.instance, r.intent.id);
    var ready := EnsureChannel(db, r.channel, Some(who.instance));
    ExtendsReflexive(db);
    InvariantPolicy(h, db);
    AllowedParticipant(h, db, now, r);
    GuardedDelivery(h, who, r);
    EnsureChannelKeeps(h, db, r.channel, Some(who.instance));
    ReplayKeeps(h, ready, now, k, r);
    ReplayContent(ready, now, k, r);
    ReservationsOf(h, db);
    if Replay(ready, now, k, r).Commit? {
      ExtendsTransitive(db, ready, Replay(ready, now, k, r).db);
    }
  }

  lemma CreationEffect(h: Hash, db: Db, now: int, who: Identity, r: ExecutionRequest)
    requires Invariant(h, db) && Guarded(ExecuteStep(who, r))
    requires EnvelopeMatches(h, who, r) && DecisionFor(db, now, r).allowed
             && ExecutionId(who.instance, r.intent.id) !in db.reservations
    ensures var (after, result) := Execute(h, db, now, who, r);
            Invariant(h, after) && Extends(db, after) && ExecutionEffect(h, db, now, who, r, after, result)
  {
    hide Invariant, Extends, GoodDelivery, Replay, Create, DecisionFor, Blank, MetadataBlank, IsParticipantId,
         FitsDecision, SameEvidence, EnsureChannel, EvidenceUntouched, PolicySound;
    var k, d := ExecutionId(who.instance, r.intent.id), DecisionFor(db, now, r);
    var ready := EnsureChannel(db, r.channel, Some(who.instance));
    ExtendsReflexive(db);
    InvariantPolicy(h, db);
    AllowedParticipant(h, db, now, r);
    GuardedDelivery(h, who, r);
    EnsureChannelKeeps(h, db, r.channel, Some(who.instance));
    var row := ProvenanceRow(r.principal, ReceiptFor(r, 0), r.intent.resource, d);
    DecisionFits(h, db, now, r, row);
    DecisionReason(h, db, now, r);
    FitsDecisionSame(db, ready, k, row, d.consumeGrantId);
    CreateKeeps(h, ready, now, who, k, r, d);
    if Create(ready, now, who, k, r, d).Commit? {
      ExtendsTransitive(db, ready, Create(ready, now, who, k, r, d).db);
    }
  }

  lemma InvariantPolicy(h: Hash, db: Db)
    requires Invariant(h, db)
    ensures PolicySound(db) && Logged(db)
  {
  }

  lemma ReplayContent(db: Db, now: int, k: ExecutionId, r: ExecutionRequest)
    requires k in db.reservations
    ensures var t := Replay(db, now, k, r);
            t.Commit? ==>
              && db.reservations[k].messageId in db.messages
              && t.result == Existing(db.messages[db.reservations[k].messageId])
              && (db.reservations[k].requestHash == r.intent.requestHash || t.result.message.Content() == r.Content())
  {
    hide RecordExecution;
  }
}
