/** src/execution.rs, `verify_execution_audit_integrity`: the per-execution verifier, written
    independently of the writer, over tables that may be damaged in any way. */
module ExecutionAudit {
  import opened Text
  import opened Order
  import opened Tables

  datatype Check =
    | ReceiptPresent | ReceiptStatusCommitted
    | MessageEffectPresent | MessageEffectBindingValid | IntentHashMatchesEffect
    | NavigationReservationPresent | NavigationBindingValid | NavigationHashMatchesReceipt
    | AuthorizationProvenancePresent | AuthorizationPrincipalBound | AuthorizationCapabilityMatchesReceipt
    | AuthorizationResourceMatchesEffect
    | DelegatedGrantPresent | DelegatedGrantBindingValid | DelegatedOneShotConsumptionValid | DelegatedGrantNonOneShot
    | IngressBindingValid | IngressMetadataValid | ValidCommittedAudit

  datatype Defect =
    | ReceiptMissing | InvalidReceiptStatus
    | MessageEffectMissing | MessageEffectBindingMismatch | IntentHashMismatch
    | NavigationReservationMissing | NavigationBindingMismatch | NavigationHashMismatch
    | AuthorizationProvenanceMissing | AuthorizationMetadataInvalid | AuthorizationPrincipalUnbound
    | AuthorizationCapabilityMismatch | AuthorizationScopeUnbound | AuthorizationResourceMismatch
    | DelegatedGrantReferenceMissing | DelegatedGrantMissing | DelegatedGrantBindingMismatch
    | DelegatedOneShotConsumptionMissing | DelegatedOneShotConsumptionMismatch
    | IngressParticipantUnbound | IngressMissing | IngressMetadataInvalid

  datatype AuditReport = AuditReport(id: ExecutionId, valid: bool, checks: seq<Check>, violations: seq<Defect>)

  function If<T>(condition: bool, code: T): seq<T> {
    if condition then [code] else []
  }

  // ---- each entry of the report with the condition it stands for ----------------------------

  predicate MessageBound(db: Db, id: ExecutionId, r: Receipt) {
    r.messageId in db.messages && db.messages[r.messageId].instance == id.participant
  }

  predicate MessageHashed(h: Hash, db: Db, r: Receipt) {
    r.messageId in db.messages && r.intentHash == h(db.messages[r.messageId].Content())
  }

  function MessageDefects(h: Hash, db: Db, id: ExecutionId, r: Receipt): seq<Defect> {
    var present := r.messageId in db.messages;
    If(!present, MessageEffectMissing)
    + If(present && !MessageBound(db, id, r), MessageEffectBindingMismatch)
    + If(present && !MessageHashed(h, db, r), IntentHashMismatch)
  }

  function MessageChecks(h: Hash, db: Db, id: ExecutionId, r: Receipt): seq<Check> {
    If(r.messageId in db.messages, MessageEffectPresent)
    + If(MessageBound(db, id, r), MessageEffectBindingValid)
    + If(MessageHashed(h, db, r), IntentHashMatchesEffect)
  }

  /** A reservation that only shares the nonce or the message: (nonce matches, key, row). */
  type NearRow = (bool, ExecutionId, Reservation)

  function NearReservations(db: Db, id: ExecutionId, messageId: int): set<NearRow> {
    set k | k in db.reservations && (k.intent == id.intent || db.reservations[k].messageId == messageId)
      :: (k.intent == id.intent, k, db.reservations[k])
  }

  /** Nonce matches first, then age; SQLite leaves ties open, here the key breaks them. */
  function NearOrder(row: NearRow): Key {
    [Num(if row.0 then 0 else 1), Num(row.2.createdAt), Str(row.1.participant), Str(row.1.intent)]
  }

  lemma NearOrderDistinct(db: Db, id: ExecutionId, messageId: int)
    ensures Distinct(NearReservations(db, id, messageId), NearOrder)
  {
    forall x: NearRow, y: NearRow | NearOrder(x) == NearOrder(y) ensures x.1 == y.1 {
      assert NearOrder(x)[2] == NearOrder(y)[2] && NearOrder(x)[3] == NearOrder(y)[3];
    }
  }

  /** The reservation examined: the exact one, else the nearest, else none. */
  ghost function ExaminedReservation(db: Db, id: ExecutionId, messageId: int): Option<(ExecutionId, Reservation)> {
    if id in db.reservations then Some((id, db.reservations[id]))
    else
      NearOrderDistinct(db, id, messageId);
      var near := Select(NearReservations(db, id, messageId), NearOrder);
      if near == [] then None else Some((near[0].1, near[0].2))
  }

  predicate NavigationBound(found: Option<(ExecutionId, Reservation)>, id: ExecutionId, r: Receipt) {
    found.Some? && found.value.0 == id && found.value.1.messageId == r.messageId
  }

  predicate NavigationHashed(found: Option<(ExecutionId, Reservation)>, r: Receipt) {
    found.Some? && found.value.1.requestHash == r.intentHash
  }

  function NavigationDefects(found: Option<(ExecutionId, Reservation)>, id: ExecutionId, r: Receipt): seq<Defect> {
    If(found.None?, NavigationReservationMissing)
    + If(found.Some? && !NavigationBound(found, id, r), NavigationBindingMismatch)
    + If(found.Some? && !NavigationHashed(found, r), NavigationHashMismatch)
  }

  function NavigationChecks(found: Option<(ExecutionId, Reservation)>, id: ExecutionId, r: Receipt): seq<Check> {
    If(found.Some?, NavigationReservationPresent)
    + If(NavigationBound(found, id, r), NavigationBindingValid)
    + If(NavigationHashed(found, r), NavigationHashMatchesReceipt)
  }

  predicate PrincipalKnown(a: Provenance) {
    a.principalProvider.Some? && a.principalSubject.Some?
  }

  predicate PrincipalBound(a: Provenance) {
    PrincipalKnown(a) && !Blank(a.principalProvider.value) && !Blank(a.principalSubject.value)
  }

  /** The channel of the message a receipt names, the only resource its provenance may cite. */
  function EffectChannel(db: Db, r: Receipt): Option<string> {
    if r.messageId in db.messages then Some(db.messages[r.messageId].channel) else None
  }

  function PrincipalDefects(a: Provenance): seq<Defect> {
    If(PrincipalKnown(a) && !PrincipalBound(a), AuthorizationMetadataInvalid)
    + If(!PrincipalKnown(a), AuthorizationPrincipalUnbound)
  }

  function CapabilityDefects(a: Provenance, r: Receipt): seq<Defect> {
    If(a.capability.Some? && a.capability.value != r.capability, AuthorizationCapabilityMismatch)
    + If(a.capability.None?, AuthorizationScopeUnbound)
  }

  function ResourceDefects(a: Provenance, channel: Option<string>): seq<Defect> {
    If(a.resource.Some? && Blank(a.resource.value), AuthorizationMetadataInvalid)
    + If(a.resource.Some? && !Blank(a.resource.value) && a.resource != channel, AuthorizationResourceMismatch)
    + If(a.resource.None?, AuthorizationScopeUnbound)
  }

  predicate ResourceMatches(a: Provenance, channel: Option<string>) {
    a.resource.Some? && !Blank(a.resource.value) && a.resource == channel
  }

  function ProvenanceDefects(a: Provenance, r: Receipt, channel: Option<string>): seq<Defect> {
    PrincipalDefects(a) + CapabilityDefects(a, r) + ResourceDefects(a, channel)
  }

  function ProvenanceChecks(a: Provenance, r: Receipt, channel: Option<string>): seq<Check> {
    [AuthorizationProvenancePresent]
    + If(PrincipalBound(a), AuthorizationPrincipalBound)
    + If(a.capability == Some(r.capability), AuthorizationCapabilityMatchesReceipt)
    + If(ResourceMatches(a, channel), AuthorizationResourceMatchesEffect)
  }

  function AuthorizationDefects(db: Db, id: ExecutionId, r: Receipt): seq<Defect> {
    if id in db.provenance then ProvenanceDefects(db.provenance[id], r, EffectChannel(db, r))
    else [AuthorizationProvenanceMissing]
  }

  function AuthorizationChecks(db: Db, id: ExecutionId, r: Receipt): seq<Check> {
    if id in db.provenance then ProvenanceChecks(db.provenance[id], r, EffectChannel(db, r)) else []
  }

  predicate GrantBound(g: DelegatedGrant, id: ExecutionId, r: Receipt) {
    g.participantId == id.participant && g.capability == r.capability
  }

  predicate ConsumedBy(g: DelegatedGrant, intent: string) {
    g.consumedAt.Some? && g.consumedIntentId == Some(intent)
  }

  function GrantRowDefects(g: DelegatedGrant, id: ExecutionId, r: Receipt): seq<Defect> {
    If(!GrantBound(g, id, r), DelegatedGrantBindingMismatch)
    + If(g.oneShot != 0 && g.consumedAt.None?, DelegatedOneShotConsumptionMissing)
    + If(g.oneShot != 0 && g.consumedAt.Some?
         && g.consumedIntentId != Some(id.intent), DelegatedOneShotConsumptionMismatch)
  }

  function GrantRowChecks(g: DelegatedGrant, id: ExecutionId, r: Receipt): seq<Check> {
    [DelegatedGrantPresent]
    + If(GrantBound(g, id, r), DelegatedGrantBindingValid)
    + If(g.oneShot != 0 && ConsumedBy(g, id.intent), DelegatedOneShotConsumptionValid)
    + If(g.oneShot == 0, DelegatedGrantNonOneShot)
  }

  predicate CitesDelegated(db: Db, id: ExecutionId) {
    id in db.provenance && db.provenance[id].source == DelegatedGrants
  }

  /** The delegated grant row an execution's provenance cites, when it cites one that exists. */
  function CitedGrant(db: Db, id: ExecutionId): Option<DelegatedGrant> {
    if CitesDelegated(db, id) && db.provenance[id].grantId.Some? && db.provenance[id].grantId.value in db.delegated
    then Some(db.delegated[db.provenance[id].grantId.value]) else None
  }

  function GrantDefects(db: Db, id: ExecutionId, r: Receipt): seq<Defect> {
    if !CitesDelegated(db, id) then []
    else if db.provenance[id].grantId.None? then [DelegatedGrantReferenceMissing]
    else if CitedGrant(db, id).None? then [DelegatedGrantMissing]
    else GrantRowDefects(CitedGrant(db, id).value, id, r)
  }

  function GrantChecks(db: Db, id: ExecutionId, r: Receipt): seq<Check> {
    if CitedGrant(db, id).Some? then GrantRowChecks(CitedGrant(db, id).value, id, r) else []
  }

  predicate Unbound(row: Ingress) {
    row.participantId.None? || row.participantId == Some("")
  }

  predicate Delivers(row: Ingress, id: ExecutionId) {
    row.intentId == id.intent && row.participantId == Some(id.participant) && id.participant != ""
  }

  predicate MetadataBlank(deliveryId: string, row: Ingress) {
    Blank(deliveryId) || Blank(row.transport) || Blank(row.externalRef)
    || Blank(row.principal.provider) || Blank(row.principal.subject)
  }

  predicate HasUnbound(db: Db, id: ExecutionId) {
    exists d | d in db.ingress :: db.ingress[d].intentId == id.intent && Unbound(db.ingress[d])
  }

  predicate HasDelivery(db: Db, id: ExecutionId) {
    exists d | d in db.ingress :: Delivers(db.ingress[d], id)
  }

  predicate HasBlankDelivery(db: Db, id: ExecutionId) {
    exists d | d in db.ingress :: Delivers(db.ingress[d], id) && MetadataBlank(d, db.ingress[d])
  }

  function IngressDefects(db: Db, id: ExecutionId): seq<Defect> {
    If(HasUnbound(db, id), IngressParticipantUnbound)
    + If(!HasDelivery(db, id), IngressMissing)
    + If(HasBlankDelivery(db, id), IngressMetadataInvalid)
  }

  function IngressChecks(db: Db, id: ExecutionId): seq<Check> {
    If(HasDelivery(db, id), IngressBindingValid)
    + If(HasDelivery(db, id) && !HasBlankDelivery(db, id), IngressMetadataValid)
  }

  ghost function Defects(h: Hash, db: Db, id: ExecutionId): seq<Defect> {
    if id !in db.receipts then [ReceiptMissing]
    else
      var r := db.receipts[id];
      If(r.status != Committed, InvalidReceiptStatus) + SectionDefects(h, db, id, r)
  }

  ghost function SectionDefects(h: Hash, db: Db, id: ExecutionId, r: Receipt): seq<Defect> {
    MessageDefects(h, db, id, r)
    + NavigationDefects(ExaminedReservation(db, id, r.messageId), id, r)
    + AuthorizationDefects(db, id, r)
    + GrantDefects(db, id, r)
    + IngressDefects(db, id)
  }

  ghost function SectionChecks(h: Hash, db: Db, id: ExecutionId, r: Receipt): seq<Check> {
    MessageChecks(h, db, id, r)
    + NavigationChecks(ExaminedReservation(db, id, r.messageId), id, r)
    + AuthorizationChecks(db, id, r)
    + GrantChecks(db, id, r)
    + IngressChecks(db, id)
  }

  ghost function Passed(h: Hash, db: Db, id: ExecutionId): seq<Check> {
    if id !in db.receipts then []
    else
      var r := db.receipts[id];
      [ReceiptPresent]
      + If(r.status == Committed, ReceiptStatusCommitted)
      + SectionChecks(h, db, id, r)
      + If(Defects(h, db, id) == [], ValidCommittedAudit)
  }

  ghost function Report(h: Hash, db: Db, id: ExecutionId): AuditReport {
    AuditReport(id, Defects(h, db, id) == [], Passed(h, db, id), Defects(h, db, id))
  }

  // ---- what a valid report means ------------------------------------------------------------

  /** All evidence of one execution agrees: the declarative counterpart of the verifier. */
  ghost predicate Coherent(h: Hash, db: Db, id: ExecutionId) {
    && id in db.receipts
    && var r := db.receipts[id];
    && r.status == Committed
    && r.messageId in db.messages
    && var m := db.messages[r.messageId];
    && m.instance == id.participant
    && r.intentHash == h(m.Content())
    && id in db.reservations
    && db.reservations[id].messageId == r.messageId
    && db.reservations[id].requestHash == r.intentHash
    && id in db.provenance
    && var a := db.provenance[id];
    && PrincipalBound(a)
    && a.capability == Some(r.capability)
    && a.resource == Some(m.channel) && !Blank(m.channel)
    && (a.source == DelegatedGrants ==>
          && a.grantId.Some? && a.grantId.value in db.delegated
          && var g := db.delegated[a.grantId.value];
          && g.participantId == id.participant && g.capability == r.capability
          && (g.oneShot != 0 ==> ConsumedBy(g, id.intent)))
    && (exists d | d in db.ingress :: Delivers(db.ingress[d], id))
    && (forall d | d in db.ingress && Delivers(db.ingress[d], id) :: !MetadataBlank(d, db.ingress[d]))
    && (forall d | d in db.ingress && db.ingress[d].intentId == id.intent :: !Unbound(db.ingress[d]))
  }

  lemma NavigationExact(db: Db, id: ExecutionId, r: Receipt)
    ensures NavigationDefects(ExaminedReservation(db, id, r.messageId), id, r) == []
            <==> && id in db.reservations && db.reservations[id].messageId == r.messageId
                 && db.reservations[id].requestHash == r.intentHash
  {
    if id !in db.reservations {
      NearOrderDistinct(db, id, r.messageId);
      var near := Select(NearReservations(db, id, r.messageId), NearOrder);
      if near != [] { assert near[0] in NearReservations(db, id, r.messageId); }
    }
  }

  lemma AuthorizationExact(db: Db, id: ExecutionId, r: Receipt)
    ensures AuthorizationDefects(db, id, r) == []
            <==> && id in db.provenance
                 && PrincipalBound(db.provenance[id])
                 && db.provenance[id].capability == Some(r.capability)
                 && r.messageId in db.messages
                 && db.provenance[id].resource == Some(db.messages[r.messageId].channel)
                 && !Blank(db.messages[r.messageId].channel)
  {
    hide Blank;
  }

  lemma MessageExact(h: Hash, db: Db, id: ExecutionId, r: Receipt)
    ensures MessageDefects(h, db, id, r) == []
            <==> && r.messageId in db.messages && db.messages[r.messageId].instance == id.participant
                 && r.intentHash == h(db.messages[r.messageId].Content())
  {
  }

  lemma GrantExact(db: Db, id: ExecutionId, r: Receipt)
    requires id in db.provenance
    ensures GrantDefects(db, id, r) == []
            <==> (db.provenance[id].source == DelegatedGrants ==>
                    && db.provenance[id].grantId.Some? && db.provenance[id].grantId.value in db.delegated
                    && var g := db.delegated[db.provenance[id].grantId.value];
                    && g.participantId == id.participant && g.capability == r.capability
                    && (g.oneShot != 0 ==> ConsumedBy(g, id.intent)))
  {
  }

  lemma IngressExact(db: Db, id: ExecutionId)
    ensures IngressDefects(db, id) == []
            <==> && (exists d | d in db.ingress :: Delivers(db.ingress[d], id))
                 && (forall d | d in db.ingress && Delivers(db.ingress[d], id) :: !MetadataBlank(d, db.ingress[d]))
                 && (forall d | d in db.ingress && db.ingress[d].intentId == id.intent :: !Unbound(db.ingress[d]))
  {
    hide MetadataBlank, Unbound, Delivers;
  }

  lemma DefectsBySection(h: Hash, db: Db, id: ExecutionId)
    requires id in db.receipts
    ensures var r := db.receipts[id];
            Defects(h, db, id) == []
            <==> && r.status == Committed
                 && MessageDefects(h, db, id, r) == []
                 && NavigationDefects(ExaminedReservation(db, id, r.messageId), id, r) == []
                 && AuthorizationDefects(db, id, r) == []
                 && GrantDefects(db, id, r) == []
                 && IngressDefects(db, id) == []
  {
    hide MessageDefects, NavigationDefects, ExaminedReservation, AuthorizationDefects, GrantDefects, IngressDefects;
  }

  lemma MissingReceipt(h: Hash, db: Db, id: ExecutionId)
    requires id !in db.receipts
    ensures Defects(h, db, id) != []
  {
    hide SectionDefects;
  }

  /** Soundness and completeness on arbitrary tables: the report is valid exactly when the evidence
      is coherent. */
  lemma ReportValidIffCoherent(h: Hash, db: Db, id: ExecutionId)
    ensures Report(h, db, id).valid <==> Coherent(h, db, id)
  {
    hide Defects, Passed, MessageDefects, NavigationDefects, ExaminedReservation, AuthorizationDefects, GrantDefects,
         IngressDefects, Blank, MetadataBlank, Unbound, Delivers, PrincipalBound, ConsumedBy;
    if id !in db.receipts {
      MissingReceipt(h, db, id);
    } else {
      var r := db.receipts[id];
      DefectsBySection(h, db, id);
      MessageExact(h, db, id, r);
      NavigationExact(db, id, r);
      AuthorizationExact(db, id, r);
      if id in db.provenance { GrantExact(db, id, r); }
      IngressExact(db, id);
    }
  }

  // ---- the verifier -------------------------------------------------------------------------

  method VerifyExecutionAudit(conn: Connection, id: ExecutionId) returns (report: AuditReport)
    ensures report == Report(conn.hash, conn.tables, id)
  {
    hide MessageDefects, MessageChecks, NavigationDefects, NavigationChecks, ExaminedReservation, AuthorizationDefects,
         AuthorizationChecks, GrantDefects, GrantChecks, IngressDefects, IngressChecks, SectionDefects, SectionChecks;
    var checks: seq<Check>, violations: seq<Defect> := [], [];
    if id !in conn.tables.receipts {
      violations := violations + [ReceiptMissing];
      return AuditReport(id, false, checks, violations);
    }
    var r := conn.tables.receipts[id];
    checks := checks + [ReceiptPresent];
    if r.status == Committed {
      checks := checks + [ReceiptStatusCommitted];
    } else {
      violations := violations + [InvalidReceiptStatus];
    }
    checks, violations := VerifySections(conn, id, r, checks, violations);
    var valid := violations == [];
    if valid {
      checks := checks + [ValidCommittedAudit];
    }
    report := AuditReport(id, valid, checks, violations);
  }

  /** The five sections, in the order the verifier takes them. */
  method VerifySections(conn: Connection, id: ExecutionId, r: Receipt, checks0: seq<Check>, violations0: seq<Defect>)
    returns (checks: seq<Check>, violations: seq<Defect>)
    ensures checks == checks0 + SectionChecks(conn.hash, conn.tables, id, r)
    ensures violations == violations0 + SectionDefects(conn.hash, conn.tables, id, r)
  {
    hide MessageDefects, MessageChecks, NavigationDefects, NavigationChecks, ExaminedReservation, AuthorizationDefects,
         AuthorizationChecks, GrantDefects, GrantChecks, IngressDefects, IngressChecks, EffectChannel;
    var channel;
    checks, violations, channel := VerifyMessage(conn, id, r, checks0, violations0);
    checks, violations := VerifyReservation(conn, id, r, checks, violations);
    checks, violations := VerifyProvenance(conn, id, r, channel, checks, violations);
    checks, violations := VerifyGrant(conn, id, r, checks, violations);
    checks, violations := VerifyIngress(conn, id, checks, violations);
  }

  method VerifyMessage(conn: Connection, id: ExecutionId, r: Receipt, checks0: seq<Check>, violations0: seq<Defect>)
    returns (checks: seq<Check>, violations: seq<Defect>, channel: Option<string>)
    ensures checks == checks0 + MessageChecks(conn.hash, conn.tables, id, r)
    ensures violations == violations0 + MessageDefects(conn.hash, conn.tables, id, r)
    ensures channel == EffectChannel(conn.tables, r)
  {
    checks, violations, channel := checks0, violations0, None;
    if r.messageId in conn.tables.messages {
      var m := conn.tables.messages[r.messageId];
      channel := Some(m.channel);
      checks := checks + [MessageEffectPresent];
      if m.instance == id.participant {
        checks := checks + [MessageEffectBindingValid];
      } else {
        violations := violations + [MessageEffectBindingMismatch];
      }
      var expectedHash := conn.hash(m.Content());
      if r.intentHash == expectedHash {
        checks := checks + [IntentHashMatchesEffect];
      } else {
        violations := violations + [IntentHashMismatch];
      }
    } else {
      violations := violations + [MessageEffectMissing];
    }
  }

  method VerifyReservation(conn: Connection, id: ExecutionId, r: Receipt, checks0: seq<Check>, violations0: seq<Defect>)
    returns (checks: seq<Check>, violations: seq<Defect>)
    ensures var found := ExaminedReservation(conn.tables, id, r.messageId);
            && checks == checks0 + NavigationChecks(found, id, r)
            && violations == violations0 + NavigationDefects(found, id, r)
  {
    var found := FindReservation(conn, id, r.messageId);
    hide ExaminedReservation;
    checks, violations := checks0, violations0;
    match found {
      case None => violations := violations + [NavigationReservationMissing];
      case Some((key, row)) =>
        checks := checks + [NavigationReservationPresent];
        if key == id && row.messageId == r.messageId {
          checks := checks + [NavigationBindingValid];
        } else {
          violations := violations + [NavigationBindingMismatch];
        }
        if row.requestHash == r.intentHash {
          checks := checks + [NavigationHashMatchesReceipt];
        } else {
          violations := violations + [NavigationHashMismatch];
        }
    }
  }

  method FindReservation(conn: Connection, id: ExecutionId, messageId: int)
    returns (found: Option<(ExecutionId, Reservation)>)
    ensures found == ExaminedReservation(conn.tables, id, messageId)
  {
    if id in conn.tables.reservations {
      return Some((id, conn.tables.reservations[id]));
    }
    NearOrderDistinct(conn.tables, id, messageId);
    var near := OrderRows(NearReservations(conn.tables, id, messageId), NearOrder);
    found := if near == [] then None else Some((near[0].1, near[0].2));
  }

  method VerifyProvenance(conn: Connection, id: ExecutionId, r: Receipt, channel: Option<string>,
                          checks0: seq<Check>, violations0: seq<Defect>)
    returns (checks: seq<Check>, violations: seq<Defect>)
    requires channel == EffectChannel(conn.tables, r)
    ensures checks == checks0 + AuthorizationChecks(conn.tables, id, r)
    ensures violations == violations0 + AuthorizationDefects(conn.tables, id, r)
  {
    hide PrincipalDefects, CapabilityDefects, ResourceDefects, PrincipalBound, ResourceMatches, EffectChannel;
    checks, violations := checks0, violations0;
    if id !in conn.tables.provenance {
      violations := violations + [AuthorizationProvenanceMissing];
      return;
    }
    var a := conn.tables.provenance[id];
    checks := checks + [AuthorizationProvenancePresent];
    checks, violations := VerifyPrincipal(a, checks, violations);
    checks, violations := VerifyCapability(a, r, checks, violations);
    checks, violations := VerifyResource(a, channel, checks, violations);
  }

  method VerifyPrincipal(a: Provenance, checks0: seq<Check>, violations0: seq<Defect>)
    returns (checks: seq<Check>, violations: seq<Defect>)
    ensures checks == checks0 + If(PrincipalBound(a), AuthorizationPrincipalBound)
    ensures violations == violations0 + PrincipalDefects(a)
  {
    hide Blank;
    checks, violations := checks0, violations0;
    if a.principalProvider.Some? && a.principalSubject.Some? {
      if !Blank(a.principalProvider.value) && !Blank(a.principalSubject.value) {
        checks := checks + [AuthorizationPrincipalBound];
      } else {
        violations := violations + [AuthorizationMetadataInvalid];
      }
    } else {
      violations := violations + [AuthorizationPrincipalUnbound];
    }
  }

  method VerifyCapability(a: Provenance, r: Receipt, checks0: seq<Check>, violations0: seq<Defect>)
    returns (checks: seq<Check>, violations: seq<Defect>)
    ensures checks == checks0 + If(a.capability == Some(r.capability), AuthorizationCapabilityMatchesReceipt)
    ensures violations == violations0 + CapabilityDefects(a, r)
  {
    checks, violations := checks0, violations0;
    match a.capability {
      case Some(c) =>
        if c == r.capability {
          checks := checks + [AuthorizationCapabilityMatchesReceipt];
        } else {
          violations := violations + [AuthorizationCapabilityMismatch];
        }
      case None => violations := violations + [AuthorizationScopeUnbound];
    }
  }

  method VerifyResource(a: Provenance, channel: Option<string>, checks0: seq<Check>, violations0: seq<Defect>)
    returns (checks: seq<Check>, violations: seq<Defect>)
    ensures checks == checks0 + If(ResourceMatches(a, channel), AuthorizationResourceMatchesEffect)
    ensures violations == violations0 + ResourceDefects(a, channel)
  {
    hide Blank;
    checks, violations := checks0, violations0;
    match a.resource {
      case Some(resource) =>
        if Blank(resource) {
          violations := violations + [AuthorizationMetadataInvalid];
        } else if channel == Some(resource) {
          checks := checks + [AuthorizationResourceMatchesEffect];
        } else {
          violations := violations + [AuthorizationResourceMismatch];
        }
      case None => violations := violations + [AuthorizationScopeUnbound];
    }
  }

  method VerifyGrant(conn: Connection, id: ExecutionId, r: Receipt, checks0: seq<Check>, violations0: seq<Defect>)
    returns (checks: seq<Check>, violations: seq<Defect>)
    ensures checks == checks0 + GrantChecks(conn.tables, id, r)
    ensures violations == violations0 + GrantDefects(conn.tables, id, r)
  {
    checks, violations := checks0, violations0;
    if id !in conn.tables.provenance || conn.tables.provenance[id].source != DelegatedGrants { return; }
    match conn.tables.provenance[id].grantId {
      case None => violations := violations + [DelegatedGrantReferenceMissing];
      case Some(grantId) =>
        if grantId !in conn.tables.delegated {
          violations := violations + [DelegatedGrantMissing];
          return;
        }
        var g := conn.tables.delegated[grantId];
        checks := checks + [DelegatedGrantPresent];
        if g.participantId == id.participant && g.capability == r.capability {
          checks := checks + [DelegatedGrantBindingValid];
        } else {
          violations := violations + [DelegatedGrantBindingMismatch];
        }
        if g.oneShot != 0 {
          if g.consumedAt.None? {
            violations := violations + [DelegatedOneShotConsumptionMissing];
          } else if g.consumedIntentId != Some(id.intent) {
            violations := violations + [DelegatedOneShotConsumptionMismatch];
          } else {
            checks := checks + [DelegatedOneShotConsumptionValid];
          }
        } else {
          checks := checks + [DelegatedGrantNonOneShot];
        }
    }
  }

  type DeliveryRow = (string, Ingress)

  function DeliveriesOf(db: Db, intent: string): set<DeliveryRow> {
    set d | d in db.ingress && db.ingress[d].intentId == intent :: (d, db.ingress[d])
  }

  /** `ORDER BY created_at, delivery_id` */
  function DeliveryOrder(row: DeliveryRow): Key {
    [Num(row.1.createdAt), Str(row.0)]
  }

  lemma DeliveryOrderDistinct(db: Db, intent: string)
    ensures Distinct(DeliveriesOf(db, intent), DeliveryOrder)
  {
    forall x: DeliveryRow, y: DeliveryRow | DeliveryOrder(x) == DeliveryOrder(y) ensures x.0 == y.0 {
      assert DeliveryOrder(x)[1] == DeliveryOrder(y)[1];
    }
  }

  lemma DeliveryRowFacts(db: Db, intent: string, d: string, row: Ingress)
    ensures (d, row) in DeliveriesOf(db, intent) <==> d in db.ingress && db.ingress[d] == row && row.intentId == intent
  {
  }

  predicate ScannedUnbound(rows: seq<DeliveryRow>) {
    exists i | 0 <= i < |rows| :: Unbound(rows[i].1)
  }

  predicate ScannedDelivery(rows: seq<DeliveryRow>, id: ExecutionId) {
    exists i | 0 <= i < |rows| :: Delivers(rows[i].1, id)
  }

  predicate ScannedBlank(rows: seq<DeliveryRow>, id: ExecutionId) {
    exists i | 0 <= i < |rows| :: Delivers(rows[i].1, id) && MetadataBlank(rows[i].0, rows[i].1)
  }

  method ScanIngress(rows: seq<DeliveryRow>, id: ExecutionId) returns (unbound: bool, targets: nat, blank: bool)
    requires forall i | 0 <= i < |rows| :: rows[i].1.intentId == id.intent
    ensures unbound <==> ScannedUnbound(rows)
    ensures targets > 0 <==> ScannedDelivery(rows, id)
    ensures blank <==> ScannedBlank(rows, id)
    ensures blank ==> targets > 0
  {
    hide Blank;
    unbound, targets, blank := false, 0, false;
    for i := 0 to |rows|
      invariant unbound <==> ScannedUnbound(rows[..i])
      invariant targets > 0 <==> ScannedDelivery(rows[..i], id)
      invariant blank <==> ScannedBlank(rows[..i], id)
      invariant blank ==> targets > 0
    {
      var (d, row) := rows[i];
      assert rows[..i + 1] == rows[..i] + [rows[i]];
      assert rows[..i + 1][i] == rows[i];
      assert forall j | 0 <= j < i :: rows[..i + 1][j] == rows[..i][j];
      if row.participantId.None? || row.participantId == Some("") {
        unbound := true;
      } else if row.participantId.value == id.participant {
        targets := targets + 1;
        if Blank(d) || Blank(row.transport) || Blank(row.externalRef)
           || Blank(row.principal.provider) || Blank(row.principal.subject) {
          blank := true;
        }
      }
    }
    assert rows[..|rows|] == rows;
  }

  lemma ScanCoversTable(db: Db, id: ExecutionId, rows: seq<DeliveryRow>)
    requires IsSelection(rows, DeliveriesOf(db, id.intent), DeliveryOrder)
    ensures ScannedUnbound(rows) <==> HasUnbound(db, id)
    ensures ScannedDelivery(rows, id) <==> HasDelivery(db, id)
    ensures ScannedBlank(rows, id) <==> HasBlankDelivery(db, id)
    ensures forall i | 0 <= i < |rows| :: rows[i].1.intentId == id.intent
  {
    hide MetadataBlank;
    forall i | 0 <= i < |rows|
      ensures rows[i].0 in db.ingress && db.ingress[rows[i].0] == rows[i].1 && rows[i].1.intentId == id.intent
    {
      assert rows[i] in DeliveriesOf(db, id.intent);
    }
    forall d | d in db.ingress && db.ingress[d].intentId == id.intent
      ensures exists i | 0 <= i < |rows| :: rows[i] == (d, db.ingress[d])
    {
      DeliveryRowFacts(db, id.intent, d, db.ingress[d]);
    }
    if HasUnbound(db, id) {
      var d :| d in db.ingress && db.ingress[d].intentId == id.intent && Unbound(db.ingress[d]);
      var i :| 0 <= i < |rows| && rows[i] == (d, db.ingress[d]);
    }
    if HasDelivery(db, id) {
      var d :| d in db.ingress && Delivers(db.ingress[d], id);
      var i :| 0 <= i < |rows| && rows[i] == (d, db.ingress[d]);
    }
    if HasBlankDelivery(db, id) {
      var d :| d in db.ingress && Delivers(db.ingress[d], id) && MetadataBlank(d, db.ingress[d]);
      var i :| 0 <= i < |rows| && rows[i] == (d, db.ingress[d]);
    }
  }

  method VerifyIngress(conn: Connection, id: ExecutionId, checks0: seq<Check>, violations0: seq<Defect>)
    returns (checks: seq<Check>, violations: seq<Defect>)
    ensures checks == checks0 + IngressChecks(conn.tables, id)
    ensures violations == violations0 + IngressDefects(conn.tables, id)
  {
    hide HasUnbound, HasDelivery, HasBlankDelivery, ScannedUnbound, ScannedDelivery, ScannedBlank, DeliveriesOf,
         DeliveryOrder;
    checks, violations := checks0, violations0;
    DeliveryOrderDistinct(conn.tables, id.intent);
    var rows := OrderRows(DeliveriesOf(conn.tables, id.intent), DeliveryOrder);
    ScanCoversTable(conn.tables, id, rows);
    var unbound, targets, blank := ScanIngress(rows, id);
    if unbound {
      violations := violations + [IngressParticipantUnbound];
    }
    if targets == 0 {
      violations := violations + [IngressMissing];
    } else {
      checks := checks + [IngressBindingValid];
    }
    if blank {
      violations := violations + [IngressMetadataInvalid];
    } else if targets > 0 {
      checks := checks + [IngressMetadataValid];
    }
  }
}
