/** The execution report entry by entry: for every check and every defect exactly the rows that put it there,
    and the order the entries come in. */
module ExecutionAuditExact {
  import opened Text
  import opened Order
  import opened Tables
  import opened ExecutionAudit
  import opened AuthorizationPreference

  // ---- the rows a receipt is held against ---------------------------------------------------

  /** Another reservation with the nonce, or for the message of the receipt. */
  predicate Near(db: Db, id: ExecutionId, r: Receipt, k: ExecutionId) {
    k in db.reservations && (k.intent == id.intent || db.reservations[k].messageId == r.messageId)
  }

  ghost predicate SomeNear(db: Db, id: ExecutionId, r: Receipt) {
    exists k :: Near(db, id, r, k)
  }

  /** Same nonce first, then older; a tie SQLite leaves open goes to the lesser key. */
  predicate Nearer(db: Db, id: ExecutionId, k: ExecutionId, l: ExecutionId)
    requires k in db.reservations && l in db.reservations
  {
    if (k.intent == id.intent) != (l.intent == id.intent) then k.intent == id.intent
    else if db.reservations[k].createdAt != db.reservations[l].createdAt then
      db.reservations[k].createdAt < db.reservations[l].createdAt
    else if k.participant != l.participant then TextLeq(k.participant, l.participant)
    else TextLeq(k.intent, l.intent)
  }

  /** The reservation looked at: the execution's own, else the nearest. */
  ghost predicate Examined(db: Db, id: ExecutionId, r: Receipt, k: ExecutionId) {
    if id in db.reservations then k == id
    else Near(db, id, r, k) && forall l | Near(db, id, r, l) :: Nearer(db, id, k, l)
  }

  /** The provenance cites this row of the delegated store. */
  predicate CitesRow(db: Db, id: ExecutionId, grantId: int) {
    && id in db.provenance && db.provenance[id].source == DelegatedGrants
    && db.provenance[id].grantId == Some(grantId) && grantId in db.delegated
  }

  predicate BoundTo(row: Ingress, id: ExecutionId) {
    row.intentId == id.intent && row.participantId == Some(id.participant) && id.participant != ""
  }

  predicate Incomplete(d: string, row: Ingress) {
    || Blank(d) || Blank(row.transport) || Blank(row.externalRef)
    || Blank(row.principal.provider) || Blank(row.principal.subject)
  }

  predicate PrincipalBlank(a: Provenance) {
    && a.principalProvider.Some? && a.principalSubject.Some?
    && (Blank(a.principalProvider.value) || Blank(a.principalSubject.value))
  }

  predicate ResourceBlank(a: Provenance) {
    a.resource.Some? && Blank(a.resource.value)
  }

  /** The hash of the message as it stands. */
  function EffectHash(h: Hash, m: Message): string {
    h(Request(m.channel, m.kind, m.body, m.conversationRef, m.replyTo))
  }

  // ---- one condition per code ---------------------------------------------------------------

  ghost predicate DefectHolds(h: Hash, db: Db, id: ExecutionId, r: Receipt, code: Defect) {
    match code
    case ReceiptMissing => false
    case InvalidReceiptStatus => r.status != Committed
    case MessageEffectMissing => r.messageId !in db.messages
    case MessageEffectBindingMismatch =>
      r.messageId in db.messages && db.messages[r.messageId].instance != id.participant
    case IntentHashMismatch =>
      r.messageId in db.messages && r.intentHash != EffectHash(h, db.messages[r.messageId])
    case NavigationReservationMissing => !SomeNear(db, id, r)
    case NavigationBindingMismatch =>
      SomeNear(db, id, r) && !(id in db.reservations && db.reservations[id].messageId == r.messageId)
    case NavigationHashMismatch =>
      exists k | k in db.reservations :: Examined(db, id, r, k) && db.reservations[k].requestHash != r.intentHash
    case AuthorizationProvenanceMissing => id !in db.provenance
    case AuthorizationMetadataInvalid =>
      id in db.provenance && (PrincipalBlank(db.provenance[id]) || ResourceBlank(db.provenance[id]))
    case AuthorizationPrincipalUnbound =>
      && id in db.provenance
      && (db.provenance[id].principalProvider.None? || db.provenance[id].principalSubject.None?)
    case AuthorizationCapabilityMismatch =>
      && id in db.provenance && db.provenance[id].capability.Some?
      && db.provenance[id].capability.value != r.capability
    case AuthorizationScopeUnbound =>
      id in db.provenance && (db.provenance[id].capability.None? || db.provenance[id].resource.None?)
    case AuthorizationResourceMismatch =>
      && id in db.provenance && db.provenance[id].resource.Some? && !Blank(db.provenance[id].resource.value)
      && !(r.messageId in db.messages && db.messages[r.messageId].channel == db.provenance[id].resource.value)
    case DelegatedGrantReferenceMissing =>
      id in db.provenance && db.provenance[id].source == DelegatedGrants && db.provenance[id].grantId.None?
    case DelegatedGrantMissing =>
      && id in db.provenance && db.provenance[id].source == DelegatedGrants && db.provenance[id].grantId.Some?
      && db.provenance[id].grantId.value !in db.delegated
    case DelegatedGrantBindingMismatch =>
      exists g | CitesRow(db, id, g) ::
        db.delegated[g].participantId != id.participant || db.delegated[g].capability != r.capability
    case DelegatedOneShotConsumptionMissing =>
      exists g | CitesRow(db, id, g) :: db.delegated[g].oneShot != 0 && db.delegated[g].consumedAt.None?
    case DelegatedOneShotConsumptionMismatch =>
      exists g | CitesRow(db, id, g) ::
        && db.delegated[g].oneShot != 0 && db.delegated[g].consumedAt.Some?
        && db.delegated[g].consumedIntentId != Some(id.intent)
    case IngressParticipantUnbound =>
      exists d | d in db.ingress ::
        && db.ingress[d].intentId == id.intent
        && (db.ingress[d].participantId.None? || db.ingress[d].participantId == Some(""))
    case IngressMissing => !(exists d | d in db.ingress :: BoundTo(db.ingress[d], id))
    case IngressMetadataInvalid =>
      exists d | d in db.ingress :: BoundTo(db.ingress[d], id) && Incomplete(d, db.ingress[d])
  }

  ghost predicate CheckHolds(h: Hash, db: Db, id: ExecutionId, r: Receipt, code: Check) {
    match code
    case ReceiptPresent => true
    case ReceiptStatusCommitted => r.status == Committed
    case MessageEffectPresent => r.messageId in db.messages
    case MessageEffectBindingValid =>
      r.messageId in db.messages && db.messages[r.messageId].instance == id.participant
    case IntentHashMatchesEffect =>
      r.messageId in db.messages && r.intentHash == EffectHash(h, db.messages[r.messageId])
    case NavigationReservationPresent => SomeNear(db, id, r)
    case NavigationBindingValid => id in db.reservations && db.reservations[id].messageId == r.messageId
    case NavigationHashMatchesReceipt =>
      exists k | k in db.reservations :: Examined(db, id, r, k) && db.reservations[k].requestHash == r.intentHash
    case AuthorizationProvenancePresent => id in db.provenance
    case AuthorizationPrincipalBound =>
      && id in db.provenance
      && db.provenance[id].principalProvider.Some? && !Blank(db.provenance[id].principalProvider.value)
      && db.provenance[id].principalSubject.Some? && !Blank(db.provenance[id].principalSubject.value)
    case AuthorizationCapabilityMatchesReceipt =>
      id in db.provenance && db.provenance[id].capability == Some(r.capability)
    case AuthorizationResourceMatchesEffect =>
      && id in db.provenance && r.messageId in db.messages
      && db.provenance[id].resource == Some(db.messages[r.messageId].channel)
      && !Blank(db.messages[r.messageId].channel)
    case DelegatedGrantPresent => exists g :: CitesRow(db, id, g)
    case DelegatedGrantBindingValid =>
      exists g | CitesRow(db, id, g) ::
        db.delegated[g].participantId == id.participant && db.delegated[g].capability == r.capability
    case DelegatedOneShotConsumptionValid =>
      exists g | CitesRow(db, id, g) ::
        && db.delegated[g].oneShot != 0 && db.delegated[g].consumedAt.Some?
        && db.delegated[g].consumedIntentId == Some(id.intent)
    case DelegatedGrantNonOneShot => exists g | CitesRow(db, id, g) :: db.delegated[g].oneShot == 0
    case IngressBindingValid => exists d | d in db.ingress :: BoundTo(db.ingress[d], id)
    case IngressMetadataValid =>
      && (exists d | d in db.ingress :: BoundTo(db.ingress[d], id))
      && (forall d | d in db.ingress && BoundTo(db.ingress[d], id) :: !Incomplete(d, db.ingress[d]))
    case ValidCommittedAudit => forall defect :: !DefectHolds(h, db, id, r, defect)
  }

  // ---- the order of the entries -------------------------------------------------------------

  /** The entries whose condition holds, in the order given. */
  ghost function Listed<T>(slots: seq<(bool, T)>): seq<T> {
    if slots == [] then [] else (if slots[0].0 then [slots[0].1] else []) + Listed(slots[1..])
  }

  lemma ListedHead<T>(slots: seq<(bool, T)>)
    requires slots != []
    ensures Listed(slots) == If(slots[0].0, slots[0].1) + Listed(slots[1..])
  {
  }

  lemma Regroup<T>(a: seq<T>, b: seq<T>, c: seq<T>)
    ensures a + (b + c) == a + b + c
  {
  }

  lemma {:induction false} ListedConcat<T>(a: seq<(bool, T)>, b: seq<(bool, T)>)
    ensures Listed(a + b) == Listed(a) + Listed(b)
  {
    if a == [] {
      assert a + b == b;
    } else {
      ListedConcat(a[1..], b);
      assert (a + b)[1..] == a[1..] + b && (a + b)[0] == a[0];
      JoinHead(a, b, If(a[0].0, a[0].1));
    }
  }

  lemma JoinHead<T>(a: seq<(bool, T)>, b: seq<(bool, T)>, head: seq<T>)
    requires a != [] && (a + b)[1..] == a[1..] + b && head == If(a[0].0, a[0].1)
    requires Listed(a[1..] + b) == Listed(a[1..]) + Listed(b)
    ensures Listed(a + b) == Listed(a) + Listed(b)
  {
    hide Listed, If;
    ListedHead(a);
    ListedHead(a + b);
    Regroup(head, Listed(a[1..]), Listed(b));
  }

  lemma ListedOne<T>(condition: bool, code: T)
    ensures Listed([(condition, code)]) == If(condition, code)
  {
  }

  lemma {:induction false} ListedMember<T>(slots: seq<(bool, T)>, code: T)
    ensures code in Listed(slots) <==> exists i | 0 <= i < |slots| :: slots[i] == (true, code)
  {
    if slots != [] {
      ListedMember(slots[1..], code);
      if i :| 0 <= i < |slots| && slots[i] == (true, code) {
        assert i > 0 ==> slots[1..][i - 1] == (true, code);
      }
      if j :| 0 <= j < |slots[1..]| && slots[1..][j] == (true, code) {
        assert slots[j + 1] == (true, code);
      }
    }
  }

  ghost function DefectSlots(h: Hash, db: Db, id: ExecutionId, r: Receipt): seq<(bool, Defect)> {
    [Slot(h, db, id, r, InvalidReceiptStatus)]
    + [Slot(h, db, id, r, MessageEffectMissing), Slot(h, db, id, r, MessageEffectBindingMismatch),
       Slot(h, db, id, r, IntentHashMismatch)]
    + [Slot(h, db, id, r, NavigationReservationMissing), Slot(h, db, id, r, NavigationBindingMismatch),
       Slot(h, db, id, r, NavigationHashMismatch)]
    + ProvenanceSlots(h, db, id, r)
    + [Slot(h, db, id, r, DelegatedGrantReferenceMissing), Slot(h, db, id, r, DelegatedGrantMissing),
       Slot(h, db, id, r, DelegatedGrantBindingMismatch), Slot(h, db, id, r, DelegatedOneShotConsumptionMissing),
       Slot(h, db, id, r, DelegatedOneShotConsumptionMismatch)]
    + [Slot(h, db, id, r, IngressParticipantUnbound), Slot(h, db, id, r, IngressMissing),
       Slot(h, db, id, r, IngressMetadataInvalid)]
  }

  /** Blank metadata and a missing scope are noted once for each column they are found in. */
  ghost function ProvenanceSlots(h: Hash, db: Db, id: ExecutionId, r: Receipt): seq<(bool, Defect)> {
    [Slot(h, db, id, r, AuthorizationProvenanceMissing),
     (id in db.provenance && PrincipalBlank(db.provenance[id]), AuthorizationMetadataInvalid),
     Slot(h, db, id, r, AuthorizationPrincipalUnbound),
     Slot(h, db, id, r, AuthorizationCapabilityMismatch),
     (id in db.provenance && db.provenance[id].capability.None?, AuthorizationScopeUnbound),
     (id in db.provenance && ResourceBlank(db.provenance[id]), AuthorizationMetadataInvalid),
     Slot(h, db, id, r, AuthorizationResourceMismatch),
     (id in db.provenance && db.provenance[id].resource.None?, AuthorizationScopeUnbound)]
  }

  ghost function Slot(h: Hash, db: Db, id: ExecutionId, r: Receipt, code: Defect): (bool, Defect) {
    (DefectHolds(h, db, id, r, code), code)
  }

  ghost function Tick(h: Hash, db: Db, id: ExecutionId, r: Receipt, code: Check): (bool, Check) {
    (CheckHolds(h, db, id, r, code), code)
  }

  ghost function CheckSlots(h: Hash, db: Db, id: ExecutionId, r: Receipt): seq<(bool, Check)> {
    [Tick(h, db, id, r, ReceiptPresent), Tick(h, db, id, r, ReceiptStatusCommitted)]
    + [Tick(h, db, id, r, MessageEffectPresent), Tick(h, db, id, r, MessageEffectBindingValid),
       Tick(h, db, id, r, IntentHashMatchesEffect)]
    + [Tick(h, db, id, r, NavigationReservationPresent), Tick(h, db, id, r, NavigationBindingValid),
       Tick(h, db, id, r, NavigationHashMatchesReceipt)]
    + [Tick(h, db, id, r, AuthorizationProvenancePresent), Tick(h, db, id, r, AuthorizationPrincipalBound),
       Tick(h, db, id, r, AuthorizationCapabilityMatchesReceipt),
           Tick(h, db, id, r, AuthorizationResourceMatchesEffect)]
    + [Tick(h, db, id, r, DelegatedGrantPresent), Tick(h, db, id, r, DelegatedGrantBindingValid),
       Tick(h, db, id, r, DelegatedOneShotConsumptionValid), Tick(h, db, id, r, DelegatedGrantNonOneShot)]
    + [Tick(h, db, id, r, IngressBindingValid), Tick(h, db, id, r, IngressMetadataValid)]
    + [Tick(h, db, id, r, ValidCommittedAudit)]
  }

  lemma ListedPair<T>(a: (bool, T), b: (bool, T))
    ensures Listed([a, b]) == If(a.0, a.1) + If(b.0, b.1)
  {
    assert [a, b] == [a] + [b];
    ListedConcat([a], [b]);
    assert a == (a.0, a.1) && b == (b.0, b.1);
    ListedOne(a.0, a.1);
    ListedOne(b.0, b.1);
  }

  lemma ListedTriple<T>(a: (bool, T), b: (bool, T), c: (bool, T))
    ensures Listed([a, b, c]) == If(a.0, a.1) + If(b.0, b.1) + If(c.0, c.1)
  {
    assert [a, b, c] == [a, b] + [c];
    ListedConcat([a, b], [c]);
    ListedPair(a, b);
    assert c == (c.0, c.1);
    ListedOne(c.0, c.1);
  }

  // ---- section by section -------------------------------------------------------------------

  lemma MessageEntries(h: Hash, db: Db, id: ExecutionId, r: Receipt)
    ensures MessageDefects(h, db, id, r)
            == Listed([Slot(h, db, id, r, MessageEffectMissing), Slot(h, db, id, r, MessageEffectBindingMismatch),
                       Slot(h, db, id, r, IntentHashMismatch)])
    ensures MessageChecks(h, db, id, r)
            == Listed([Tick(h, db, id, r, MessageEffectPresent), Tick(h, db, id, r, MessageEffectBindingValid),
                       Tick(h, db, id, r, IntentHashMatchesEffect)])
  {
    ListedTriple(Slot(h, db, id, r, MessageEffectMissing), Slot(h, db, id, r, MessageEffectBindingMismatch),
                 Slot(h, db, id, r, IntentHashMismatch));
    ListedTriple(Tick(h, db, id, r, MessageEffectPresent), Tick(h, db, id, r, MessageEffectBindingValid),
                 Tick(h, db, id, r, IntentHashMatchesEffect));
  }

  lemma NearOrderSpelled(db: Db, id: ExecutionId, k: ExecutionId, l: ExecutionId)
    requires k in db.reservations && l in db.reservations
    requires Leq(NearOrder((k.intent == id.intent, k, db.reservations[k])),
                 NearOrder((l.intent == id.intent, l, db.reservations[l])))
    ensures Nearer(db, id, k, l)
  {
    hide Leq;
    var x := NearOrder((k.intent == id.intent, k, db.reservations[k]));
    var y := NearOrder((l.intent == id.intent, l, db.reservations[l]));
    LeqHead(x, y);
    if x[0] == y[0] {
      LeqHead(x[1..], y[1..]);
      if x[1] == y[1] {
        LeqHead(x[1..][1..], y[1..][1..]);
        if x[2] == y[2] { LeqTail(x[1..][1..][1..], y[1..][1..][1..]); }
      }
    }
  }

  lemma LeqTail(a: Key, b: Key)
    requires |a| == 1 && |b| == 1 && Leq(a, b) && a[0].Str? && b[0].Str?
    ensures TextLeq(a[0].s, b[0].s)
  {
    TextReflexive(a[0].s);
  }

  lemma ExaminedExact(db: Db, id: ExecutionId, r: Receipt)
    ensures var found := ExaminedReservation(db, id, r.messageId);
            && (found.Some? <==> SomeNear(db, id, r))
            && (found.Some? ==> && found.value.0 in db.reservations && found.value.1 == db.reservations[found.value.0]
                                && Examined(db, id, r, found.value.0)
                                && (found.value.0 == id <==> id in db.reservations))
  {
    hide Leq, Nearer;
    if id in db.reservations {
      assert Near(db, id, r, id);
    } else {
      NearOrderDistinct(db, id, r.messageId);
      var rows := NearReservations(db, id, r.messageId);
      var near := Select(rows, NearOrder);
      EmptySelection(near, rows, NearOrder);
      forall l | Near(db, id, r, l) ensures (l.intent == id.intent, l, db.reservations[l]) in rows && near != [] {
        assert (l.intent == id.intent, l, db.reservations[l]) in rows;
      }
      if near != [] {
        assert near[0] in rows;
        var k := near[0].1;
        assert near[0] == (k.intent == id.intent, k, db.reservations[k]) && Near(db, id, r, k);
        forall l | Near(db, id, r, l) ensures Nearer(db, id, k, l) {
          HeadIsLeast(near, rows, NearOrder, (l.intent == id.intent, l, db.reservations[l]));
          NearOrderSpelled(db, id, k, l);
        }
      }
    }
  }

  lemma ExaminedOnce(db: Db, id: ExecutionId, r: Receipt, k: ExecutionId, l: ExecutionId)
    requires Examined(db, id, r, k) && Examined(db, id, r, l)
    ensures k == l
  {
    if id !in db.reservations {
      assert Nearer(db, id, k, l) && Nearer(db, id, l, k);
      TextLinear(k.participant, l.participant, "");
      TextLinear(k.intent, l.intent, "");
    }
  }

  lemma NavigationEntries(h: Hash, db: Db, id: ExecutionId, r: Receipt)
    ensures NavigationDefects(ExaminedReservation(db, id, r.messageId), id, r)
            == Listed([Slot(h, db, id, r, NavigationReservationMissing), Slot(h, db, id, r, NavigationBindingMismatch),
                       Slot(h, db, id, r, NavigationHashMismatch)])
    ensures NavigationChecks(ExaminedReservation(db, id, r.messageId), id, r)
            == Listed([Tick(h, db, id, r, NavigationReservationPresent), Tick(h, db, id, r, NavigationBindingValid),
                       Tick(h, db, id, r, NavigationHashMatchesReceipt)])
  {
    hide ExaminedReservation, SomeNear, Near, Nearer;
    ListedTriple(Slot(h, db, id, r, NavigationReservationMissing), Slot(h, db, id, r, NavigationBindingMismatch),
                 Slot(h, db, id, r, NavigationHashMismatch));
    ListedTriple(Tick(h, db, id, r, NavigationReservationPresent), Tick(h, db, id, r, NavigationBindingValid),
                 Tick(h, db, id, r, NavigationHashMatchesReceipt));
    ExaminedExact(db, id, r);
    NavigationConditions(h, db, id, r);
  }

  lemma NavigationConditions(h: Hash, db: Db, id: ExecutionId, r: Receipt)
    ensures var found := ExaminedReservation(db, id, r.messageId);
            && (NavigationBound(found, id, r) <==> CheckHolds(h, db, id, r, NavigationBindingValid))
            && (NavigationHashed(found, r) <==> CheckHolds(h, db, id, r, NavigationHashMatchesReceipt))
            && (found.Some? && !NavigationBound(found, id, r)
                <==> DefectHolds(h, db, id, r, NavigationBindingMismatch))
            && (found.Some? && !NavigationHashed(found, r) <==> DefectHolds(h, db, id, r, NavigationHashMismatch))
  {
    hide ExaminedReservation, Nearer;
    ExaminedExact(db, id, r);
    var found := ExaminedReservation(db, id, r.messageId);
    if id in db.reservations { assert Near(db, id, r, id); }
    forall k | k in db.reservations && Examined(db, id, r, k) ensures found.Some? && found.value.0 == k {
      assert Near(db, id, r, k);
      ExaminedOnce(db, id, r, k, found.value.0);
    }
  }

  lemma ProvenanceEntries(h: Hash, db: Db, id: ExecutionId, r: Receipt)
    ensures AuthorizationDefects(db, id, r) == Listed(ProvenanceSlots(h, db, id, r))
  {
    hide DefectHolds, PrincipalBlank, ResourceBlank, AuthorizationDefects;
    var s := ProvenanceSlots(h, db, id, r);
    assert s == [s[0]] + ([s[1], s[2]] + ([s[3], s[4]] + [s[5], s[6], s[7]]));
    ListedConcat([s[0]], [s[1], s[2]] + ([s[3], s[4]] + [s[5], s[6], s[7]]));
    ListedConcat([s[1], s[2]], [s[3], s[4]] + [s[5], s[6], s[7]]);
    ListedConcat([s[3], s[4]], [s[5], s[6], s[7]]);
    ListedPair(s[1], s[2]);
    ListedPair(s[3], s[4]);
    ListedTriple(s[5], s[6], s[7]);
    ProvenanceFlat(h, db, id, r);
  }

  lemma ProvenanceFlat(h: Hash, db: Db, id: ExecutionId, r: Receipt)
    ensures var s := ProvenanceSlots(h, db, id, r);
            AuthorizationDefects(db, id, r)
            == If(s[0].0, s[0].1)
               + ((If(s[1].0, s[1].1) + If(s[2].0, s[2].1))
                  + ((If(s[3].0, s[3].1) + If(s[4].0, s[4].1))
                     + (If(s[5].0, s[5].1) + If(s[6].0, s[6].1) + If(s[7].0, s[7].1))))
  {
    hide Blank, DefectHolds, PrincipalBound;
    ProvenanceDefectConditions(h, db, id, r);
  }

  lemma ProvenanceDefectConditions(h: Hash, db: Db, id: ExecutionId, r: Receipt)
    ensures DefectHolds(h, db, id, r, AuthorizationProvenanceMissing) <==> id !in db.provenance
    ensures id in db.provenance ==>
              var a := db.provenance[id];
              && (PrincipalBlank(a) <==> PrincipalKnown(a) && !PrincipalBound(a))
              && (DefectHolds(h, db, id, r, AuthorizationPrincipalUnbound) <==> !PrincipalKnown(a))
              && (DefectHolds(h, db, id, r, AuthorizationCapabilityMismatch)
                  <==> a.capability.Some? && a.capability.value != r.capability)
              && (DefectHolds(h, db, id, r, AuthorizationResourceMismatch)
                  <==> a.resource.Some? && !Blank(a.resource.value) && a.resource != EffectChannel(db, r))
    ensures id !in db.provenance ==>
              && !DefectHolds(h, db, id, r, AuthorizationPrincipalUnbound)
              && !DefectHolds(h, db, id, r, AuthorizationCapabilityMismatch)
              && !DefectHolds(h, db, id, r, AuthorizationResourceMismatch)
  {
    hide Blank, EffectHash, Examined, SomeNear, CitesRow, BoundTo, Incomplete;
  }

  lemma ProvenanceCheckConditions(h: Hash, db: Db, id: ExecutionId, r: Receipt)
    ensures CheckHolds(h, db, id, r, AuthorizationProvenancePresent) <==> id in db.provenance
    ensures CheckHolds(h, db, id, r, AuthorizationPrincipalBound)
            <==> id in db.provenance && PrincipalBound(db.provenance[id])
    ensures CheckHolds(h, db, id, r, AuthorizationCapabilityMatchesReceipt)
            <==> id in db.provenance && db.provenance[id].capability == Some(r.capability)
    ensures CheckHolds(h, db, id, r, AuthorizationResourceMatchesEffect)
            <==> id in db.provenance && ResourceMatches(db.provenance[id], EffectChannel(db, r))
  {
    hide Blank, EffectHash;
  }

  lemma ProvenanceTicks(h: Hash, db: Db, id: ExecutionId, r: Receipt)
    ensures AuthorizationChecks(db, id, r)
            == Listed([Tick(h, db, id, r, AuthorizationProvenancePresent),
                       Tick(h, db, id, r, AuthorizationPrincipalBound),
                       Tick(h, db, id, r, AuthorizationCapabilityMatchesReceipt),
                       Tick(h, db, id, r, AuthorizationResourceMatchesEffect)])
  {
    hide CheckHolds, Listed, PrincipalBound, ResourceMatches, EffectChannel;
    var a := Tick(h, db, id, r, AuthorizationProvenancePresent);
    var b := Tick(h, db, id, r, AuthorizationPrincipalBound);
    var c := Tick(h, db, id, r, AuthorizationCapabilityMatchesReceipt);
    var d := Tick(h, db, id, r, AuthorizationResourceMatchesEffect);
    assert [a, b, c, d] == [a, b] + [c, d];
    ListedConcat([a, b], [c, d]);
    ListedPair(a, b);
    ListedPair(c, d);
    ProvenanceCheckConditions(h, db, id, r);
  }

  /** At most one row of the store is cited. */
  lemma CitedOnly(db: Db, id: ExecutionId)
    ensures CitedGrant(db, id).Some? ==>
              CitesRow(db, id, db.provenance[id].grantId.value)
              && CitedGrant(db, id).value == db.delegated[db.provenance[id].grantId.value]
    ensures forall g :: CitesRow(db, id, g) ==> CitedGrant(db, id) == Some(db.delegated[g])
  {
  }

  lemma GrantDefectConditions(h: Hash, db: Db, id: ExecutionId, r: Receipt)
    ensures var g := CitedGrant(db, id);
            && (DefectHolds(h, db, id, r, DelegatedGrantReferenceMissing)
                <==> CitesDelegated(db, id) && db.provenance[id].grantId.None?)
            && (DefectHolds(h, db, id, r, DelegatedGrantMissing)
                <==> CitesDelegated(db, id) && db.provenance[id].grantId.Some? && g.None?)
            && (DefectHolds(h, db, id, r, DelegatedGrantBindingMismatch)
                <==> g.Some? && !GrantBound(g.value, id, r))
            && (DefectHolds(h, db, id, r, DelegatedOneShotConsumptionMissing)
                <==> g.Some? && g.value.oneShot != 0 && g.value.consumedAt.None?)
            && (DefectHolds(h, db, id, r, DelegatedOneShotConsumptionMismatch)
                <==> && g.Some? && g.value.oneShot != 0 && g.value.consumedAt.Some?
                     && g.value.consumedIntentId != Some(id.intent))
  {
    CitedOnly(db, id);
  }

  lemma GrantEntries(h: Hash, db: Db, id: ExecutionId, r: Receipt)
    ensures GrantDefects(db, id, r)
            == Listed([Slot(h, db, id, r, DelegatedGrantReferenceMissing), Slot(h, db, id, r, DelegatedGrantMissing),
                       Slot(h, db, id, r, DelegatedGrantBindingMismatch),
                       Slot(h, db, id, r, DelegatedOneShotConsumptionMissing),
                       Slot(h, db, id, r, DelegatedOneShotConsumptionMismatch)])
  {
    hide DefectHolds, Listed, CitedGrant, GrantBound;
    var a := Slot(h, db, id, r, DelegatedGrantReferenceMissing);
    var b := Slot(h, db, id, r, DelegatedGrantMissing);
    var c := Slot(h, db, id, r, DelegatedGrantBindingMismatch);
    var d := Slot(h, db, id, r, DelegatedOneShotConsumptionMissing);
    var e := Slot(h, db, id, r, DelegatedOneShotConsumptionMismatch);
    assert [a, b, c, d, e] == [a, b] + [c, d, e];
    ListedConcat([a, b], [c, d, e]);
    ListedPair(a, b);
    ListedTriple(c, d, e);
    GrantDefectConditions(h, db, id, r);
    CitedWhere(db, id);
  }

  lemma CitedWhere(db: Db, id: ExecutionId)
    ensures CitedGrant(db, id).Some? ==> CitesDelegated(db, id) && db.provenance[id].grantId.Some?
  {
  }

  lemma GrantCheckConditions(h: Hash, db: Db, id: ExecutionId, r: Receipt)
    ensures var g := CitedGrant(db, id);
            && (CheckHolds(h, db, id, r, DelegatedGrantPresent) <==> g.Some?)
            && (CheckHolds(h, db, id, r, DelegatedGrantBindingValid) <==> g.Some? && GrantBound(g.value, id, r))
            && (CheckHolds(h, db, id, r, DelegatedOneShotConsumptionValid)
                <==> g.Some? && g.value.oneShot != 0 && ConsumedBy(g.value, id.intent))
            && (CheckHolds(h, db, id, r, DelegatedGrantNonOneShot) <==> g.Some? && g.value.oneShot == 0)
  {
    CitedOnly(db, id);
  }

  lemma GrantTicks(h: Hash, db: Db, id: ExecutionId, r: Receipt)
    ensures GrantChecks(db, id, r)
            == Listed([Tick(h, db, id, r, DelegatedGrantPresent), Tick(h, db, id, r, DelegatedGrantBindingValid),
                       Tick(h, db, id, r, DelegatedOneShotConsumptionValid),
                       Tick(h, db, id, r, DelegatedGrantNonOneShot)])
  {
    hide CheckHolds, Listed, CitedGrant, GrantBound, ConsumedBy;
    var a := Tick(h, db, id, r, DelegatedGrantPresent);
    var b := Tick(h, db, id, r, DelegatedGrantBindingValid);
    var c := Tick(h, db, id, r, DelegatedOneShotConsumptionValid);
    var d := Tick(h, db, id, r, DelegatedGrantNonOneShot);
    assert [a, b, c, d] == [a, b] + [c, d];
    ListedConcat([a, b], [c, d]);
    ListedPair(a, b);
    ListedPair(c, d);
    GrantCheckConditions(h, db, id, r);
  }

  lemma DeliverySame(d: string, row: Ingress, id: ExecutionId)
    ensures BoundTo(row, id) <==> Delivers(row, id)
    ensures Incomplete(d, row) <==> MetadataBlank(d, row)
    ensures row.participantId.None? || row.participantId == Some("") <==> Unbound(row)
  {
    hide Blank;
  }

  lemma IngressDefectConditions(h: Hash, db: Db, id: ExecutionId, r: Receipt)
    ensures DefectHolds(h, db, id, r, IngressParticipantUnbound) <==> HasUnbound(db, id)
    ensures DefectHolds(h, db, id, r, IngressMissing) <==> !HasDelivery(db, id)
    ensures DefectHolds(h, db, id, r, IngressMetadataInvalid) <==> HasBlankDelivery(db, id)
  {
    hide BoundTo, Delivers, Incomplete, MetadataBlank, Unbound, EffectHash, Examined, SomeNear, CitesRow, Blank;
    forall d | d in db.ingress { DeliverySame(d, db.ingress[d], id); }
  }

  lemma IngressCheckConditions(h: Hash, db: Db, id: ExecutionId, r: Receipt)
    ensures CheckHolds(h, db, id, r, IngressBindingValid) <==> HasDelivery(db, id)
    ensures CheckHolds(h, db, id, r, IngressMetadataValid) <==> HasDelivery(db, id) && !HasBlankDelivery(db, id)
  {
    hide BoundTo, Delivers, Incomplete, MetadataBlank, EffectHash, Examined, SomeNear, CitesRow, Blank;
    forall d | d in db.ingress { DeliverySame(d, db.ingress[d], id); }
  }

  lemma IngressEntries(h: Hash, db: Db, id: ExecutionId, r: Receipt)
    ensures IngressDefects(db, id)
            == Listed([Slot(h, db, id, r, IngressParticipantUnbound), Slot(h, db, id, r, IngressMissing),
                       Slot(h, db, id, r, IngressMetadataInvalid)])
    ensures IngressChecks(db, id)
            == Listed([Tick(h, db, id, r, IngressBindingValid), Tick(h, db, id, r, IngressMetadataValid)])
  {
    hide DefectHolds, CheckHolds, Listed, HasUnbound, HasDelivery, HasBlankDelivery;
    IngressDefectConditions(h, db, id, r);
    IngressCheckConditions(h, db, id, r);
    ListedTriple(Slot(h, db, id, r, IngressParticipantUnbound), Slot(h, db, id, r, IngressMissing),
                 Slot(h, db, id, r, IngressMetadataInvalid));
    ListedPair(Tick(h, db, id, r, IngressBindingValid), Tick(h, db, id, r, IngressMetadataValid));
  }

  // ---- the report ---------------------------------------------------------------------------

  lemma DefectsListed(h: Hash, db: Db, id: ExecutionId, r: Receipt)
    requires id in db.receipts && r == db.receipts[id]
    ensures Report(h, db, id).violations == Listed(DefectSlots(h, db, id, r))
  {
    hide MessageDefects, NavigationDefects, ExaminedReservation, AuthorizationDefects, GrantDefects, IngressDefects,
         Listed, DefectHolds, ProvenanceSlots, Passed;
    MessageEntries(h, db, id, r);
    NavigationEntries(h, db, id, r);
    ProvenanceEntries(h, db, id, r);
    GrantEntries(h, db, id, r);
    IngressEntries(h, db, id, r);
    StatusEntry(h, db, id, r);
    DefectsSplit(h, db, id, r);
  }

  lemma StatusEntry(h: Hash, db: Db, id: ExecutionId, r: Receipt)
    ensures If(r.status != Committed, InvalidReceiptStatus) == Listed([Slot(h, db, id, r, InvalidReceiptStatus)])
    ensures [ReceiptPresent] + If(r.status == Committed, ReceiptStatusCommitted)
            == Listed([Tick(h, db, id, r, ReceiptPresent), Tick(h, db, id, r, ReceiptStatusCommitted)])
  {
    ListedPair(Tick(h, db, id, r, ReceiptPresent), Tick(h, db, id, r, ReceiptStatusCommitted));
  }

  lemma DefectsSplit(h: Hash, db: Db, id: ExecutionId, r: Receipt)
    ensures Listed(DefectSlots(h, db, id, r))
            == Listed([Slot(h, db, id, r, InvalidReceiptStatus)])
               + (Listed([Slot(h, db, id, r, MessageEffectMissing), Slot(h, db, id, r, MessageEffectBindingMismatch),
                          Slot(h, db, id, r, IntentHashMismatch)])
                  + Listed([Slot(h, db, id, r, NavigationReservationMissing),
                            Slot(h, db, id, r, NavigationBindingMismatch), Slot(h, db, id, r, NavigationHashMismatch)])
                  + Listed(ProvenanceSlots(h, db, id, r))
                  + Listed([Slot(h, db, id, r, DelegatedGrantReferenceMissing),
                            Slot(h, db, id, r, DelegatedGrantMissing),
                                Slot(h, db, id, r, DelegatedGrantBindingMismatch),
                            Slot(h, db, id, r, DelegatedOneShotConsumptionMissing),
                            Slot(h, db, id, r, DelegatedOneShotConsumptionMismatch)])
                  + Listed([Slot(h, db, id, r, IngressParticipantUnbound), Slot(h, db, id, r, IngressMissing),
                            Slot(h, db, id, r, IngressMetadataInvalid)]))
  {
    hide Listed, DefectHolds, ProvenanceSlots;
    var a := [Slot(h, db, id, r, InvalidReceiptStatus)];
    var b := [Slot(h, db, id, r, MessageEffectMissing), Slot(h, db, id, r, MessageEffectBindingMismatch),
              Slot(h, db, id, r, IntentHashMismatch)];
    var c := [Slot(h, db, id, r, NavigationReservationMissing), Slot(h, db, id, r, NavigationBindingMismatch),
              Slot(h, db, id, r, NavigationHashMismatch)];
    var d := ProvenanceSlots(h, db, id, r);
    var e := [Slot(h, db, id, r, DelegatedGrantReferenceMissing), Slot(h, db, id, r, DelegatedGrantMissing),
              Slot(h, db, id, r, DelegatedGrantBindingMismatch), Slot(h, db, id, r, DelegatedOneShotConsumptionMissing),
              Slot(h, db, id, r, DelegatedOneShotConsumptionMismatch)];
    var f := [Slot(h, db, id, r, IngressParticipantUnbound), Slot(h, db, id, r, IngressMissing),
              Slot(h, db, id, r, IngressMetadataInvalid)];
    ListedSix(a, b, c, d, e, f);
  }

  lemma ListedSix<T>(a: seq<(bool, T)>, b: seq<(bool, T)>, c: seq<(bool, T)>, d: seq<(bool, T)>, e: seq<(bool, T)>,
                     f: seq<(bool, T)>)
    ensures Listed(a + b + c + d + e + f)
            == Listed(a) + (Listed(b) + Listed(c) + Listed(d) + Listed(e) + Listed(f))
  {
    hide Listed;
    assert a + b + c + d + e + f == a + (b + c + d + e + f);
    ListedConcat(a, b + c + d + e + f);
    ListedConcat(b + c + d + e, f);
    ListedConcat(b + c + d, e);
    ListedConcat(b + c, d);
    ListedConcat(b, c);
  }

  lemma ChecksListed(h: Hash, db: Db, id: ExecutionId, r: Receipt)
    requires id in db.receipts && r == db.receipts[id]
    ensures Report(h, db, id).checks == Listed(CheckSlots(h, db, id, r))
  {
    hide MessageChecks, NavigationChecks, ExaminedReservation, AuthorizationChecks, GrantChecks, IngressChecks,
         Listed, CheckHolds, Defects, If;
    MessageEntries(h, db, id, r);
    NavigationEntries(h, db, id, r);
    ProvenanceTicks(h, db, id, r);
    GrantTicks(h, db, id, r);
    IngressEntries(h, db, id, r);
    StatusEntry(h, db, id, r);
    ValidEntry(h, db, id, r);
    var a := [Tick(h, db, id, r, ReceiptPresent), Tick(h, db, id, r, ReceiptStatusCommitted)];
    var b := [Tick(h, db, id, r, MessageEffectPresent), Tick(h, db, id, r, MessageEffectBindingValid),
              Tick(h, db, id, r, IntentHashMatchesEffect)];
    var c := [Tick(h, db, id, r, NavigationReservationPresent), Tick(h, db, id, r, NavigationBindingValid),
              Tick(h, db, id, r, NavigationHashMatchesReceipt)];
    var d := [Tick(h, db, id, r, AuthorizationProvenancePresent), Tick(h, db, id, r, AuthorizationPrincipalBound),
              Tick(h, db, id, r, AuthorizationCapabilityMatchesReceipt),
              Tick(h, db, id, r, AuthorizationResourceMatchesEffect)];
    var e := [Tick(h, db, id, r, DelegatedGrantPresent), Tick(h, db, id, r, DelegatedGrantBindingValid),
              Tick(h, db, id, r, DelegatedOneShotConsumptionValid), Tick(h, db, id, r, DelegatedGrantNonOneShot)];
    var f := [Tick(h, db, id, r, IngressBindingValid), Tick(h, db, id, r, IngressMetadataValid)];
    ListedSix(a, b, c, d, e, f);
    ListedConcat(a + b + c + d + e + f, [Tick(h, db, id, r, ValidCommittedAudit)]);
  }

  lemma ValidEntry(h: Hash, db: Db, id: ExecutionId, r: Receipt)
    requires id in db.receipts && r == db.receipts[id]
    ensures If(Defects(h, db, id) == [], ValidCommittedAudit) == Listed([Tick(h, db, id, r, ValidCommittedAudit)])
  {
    hide Defects, DefectHolds, Listed;
    ListedOne(CheckHolds(h, db, id, r, ValidCommittedAudit), ValidCommittedAudit);
    NoDefect(h, db, id, r);
  }

  lemma NoDefect(h: Hash, db: Db, id: ExecutionId, r: Receipt)
    requires id in db.receipts && r == db.receipts[id]
    ensures Defects(h, db, id) == [] <==> forall code :: !DefectHolds(h, db, id, r, code)
  {
    hide Defects, DefectHolds, Listed, DefectSlots, Passed;
    DefectsListed(h, db, id, r);
    forall code ensures code in Defects(h, db, id) <==> DefectHolds(h, db, id, r, code) {
      DefectMember(h, db, id, r, code);
    }
    if Defects(h, db, id) != [] { assert Defects(h, db, id)[0] in Defects(h, db, id); }
  }

  /** Where a code stands among the slots, the first time. */
  function DefectAt(code: Defect): nat {
    match code
    case ReceiptMissing => 0
    case InvalidReceiptStatus => 0
    case MessageEffectMissing => 1
    case MessageEffectBindingMismatch => 2
    case IntentHashMismatch => 3
    case NavigationReservationMissing => 4
    case NavigationBindingMismatch => 5
    case NavigationHashMismatch => 6
    case AuthorizationProvenanceMissing => 7
    case AuthorizationMetadataInvalid => 8
    case AuthorizationPrincipalUnbound => 9
    case AuthorizationCapabilityMismatch => 10
    case AuthorizationScopeUnbound => 11
    case AuthorizationResourceMismatch => 13
    case DelegatedGrantReferenceMissing => 15
    case DelegatedGrantMissing => 16
    case DelegatedGrantBindingMismatch => 17
    case DelegatedOneShotConsumptionMissing => 18
    case DelegatedOneShotConsumptionMismatch => 19
    case IngressParticipantUnbound => 20
    case IngressMissing => 21
    case IngressMetadataInvalid => 22
  }

  /** Which slot is whose. */
  ghost predicate DefectsPlaced(h: Hash, db: Db, id: ExecutionId, r: Receipt, s: seq<(bool, Defect)>,
                                provenance: seq<(bool, Defect)>) {
    && |s| == 23 && |provenance| == 8
    && (forall i | 0 <= i < 7 || 15 <= i < 23 :: s[i] == Slot(h, db, id, r, s[i].1))
    && (forall i | 7 <= i < 15 :: s[i] == provenance[i - 7])
    && (forall code :: DefectAt(code) < 7 || 15 <= DefectAt(code) < 23 ==>
          code == ReceiptMissing || s[DefectAt(code)].1 == code)
  }

  lemma DefectPlaces(h: Hash, db: Db, id: ExecutionId, r: Receipt)
    ensures DefectsPlaced(h, db, id, r, DefectSlots(h, db, id, r), ProvenanceSlots(h, db, id, r))
  {
    hide DefectHolds, ProvenanceSlots;
    ProvenancePlaces(h, db, id, r);
  }

  lemma ProvenancePlaces(h: Hash, db: Db, id: ExecutionId, r: Receipt)
    ensures var s := ProvenanceSlots(h, db, id, r);
            && |s| == 8
            && s[0] == Slot(h, db, id, r, AuthorizationProvenanceMissing)
            && s[1] == (id in db.provenance && PrincipalBlank(db.provenance[id]), AuthorizationMetadataInvalid)
            && s[2] == Slot(h, db, id, r, AuthorizationPrincipalUnbound)
            && s[3] == Slot(h, db, id, r, AuthorizationCapabilityMismatch)
            && s[4] == (id in db.provenance && db.provenance[id].capability.None?, AuthorizationScopeUnbound)
            && s[5] == (id in db.provenance && ResourceBlank(db.provenance[id]), AuthorizationMetadataInvalid)
            && s[6] == Slot(h, db, id, r, AuthorizationResourceMismatch)
            && s[7] == (id in db.provenance && db.provenance[id].resource.None?, AuthorizationScopeUnbound)
  {
    hide DefectHolds, PrincipalBlank, ResourceBlank;
  }

  lemma MetadataParts(h: Hash, db: Db, id: ExecutionId, r: Receipt)
    ensures DefectHolds(h, db, id, r, AuthorizationMetadataInvalid)
            <==> id in db.provenance && (PrincipalBlank(db.provenance[id]) || ResourceBlank(db.provenance[id]))
    ensures DefectHolds(h, db, id, r, AuthorizationScopeUnbound)
            <==> id in db.provenance && (db.provenance[id].capability.None? || db.provenance[id].resource.None?)
    ensures !DefectHolds(h, db, id, r, ReceiptMissing)
  {
    hide Blank;
  }

  /** A slot of the code is ticked exactly when its condition holds. */
  lemma DefectMember(h: Hash, db: Db, id: ExecutionId, r: Receipt, code: Defect)
    ensures code in Listed(DefectSlots(h, db, id, r)) <==> DefectHolds(h, db, id, r, code)
  {
    hide Listed, DefectSlots, ProvenanceSlots, DefectHolds, PrincipalBlank, ResourceBlank;
    var s := DefectSlots(h, db, id, r);
    ListedMember(s, code);
    DefectPlaces(h, db, id, r);
    ProvenancePlaces(h, db, id, r);
    MetadataParts(h, db, id, r);
    if DefectHolds(h, db, id, r, code) {
      assert s[DefectAt(code)] == (true, code) || s[12] == (true, code) || s[14] == (true, code);
    }
  }

  // ---- the checks ---------------------------------------------------------------------------

  function CheckAt(code: Check): nat {
    match code
    case ReceiptPresent => 0
    case ReceiptStatusCommitted => 1
    case MessageEffectPresent => 2
    case MessageEffectBindingValid => 3
    case IntentHashMatchesEffect => 4
    case NavigationReservationPresent => 5
    case NavigationBindingValid => 6
    case NavigationHashMatchesReceipt => 7
    case AuthorizationProvenancePresent => 8
    case AuthorizationPrincipalBound => 9
    case AuthorizationCapabilityMatchesReceipt => 10
    case AuthorizationResourceMatchesEffect => 11
    case DelegatedGrantPresent => 12
    case DelegatedGrantBindingValid => 13
    case DelegatedOneShotConsumptionValid => 14
    case DelegatedGrantNonOneShot => 15
    case IngressBindingValid => 16
    case IngressMetadataValid => 17
    case ValidCommittedAudit => 18
  }

  ghost predicate ChecksPlaced(h: Hash, db: Db, id: ExecutionId, r: Receipt, s: seq<(bool, Check)>) {
    && |s| == 19 && (forall i | 0 <= i < 19 :: s[i] == Tick(h, db, id, r, s[i].1))
    && (forall code :: CheckAt(code) < 19 && s[CheckAt(code)].1 == code)
  }

  lemma CheckPlaces(h: Hash, db: Db, id: ExecutionId, r: Receipt)
    ensures ChecksPlaced(h, db, id, r, CheckSlots(h, db, id, r))
  {
    hide CheckHolds;
  }

  lemma CheckMember(h: Hash, db: Db, id: ExecutionId, r: Receipt, code: Check)
    ensures code in Listed(CheckSlots(h, db, id, r)) <==> CheckHolds(h, db, id, r, code)
  {
    hide Listed, CheckSlots, CheckHolds;
    var s := CheckSlots(h, db, id, r);
    ListedMember(s, code);
    CheckPlaces(h, db, id, r);
    if CheckHolds(h, db, id, r, code) { assert s[CheckAt(code)] == (true, code); }
  }

  /** The report on arbitrary tables, code by code and in order: each check and each defect is listed exactly
      when the rows call for it, in the order of the slots; without a receipt there is one defect. */
  lemma ReportCodes(h: Hash, db: Db, id: ExecutionId)
    ensures var report := Report(h, db, id);
            if id !in db.receipts then report == AuditReport(id, false, [], [ReceiptMissing])
            else
              var r := db.receipts[id];
              && report.id == id
              && (forall code :: code in report.checks <==> CheckHolds(h, db, id, r, code))
              && (forall code :: code in report.violations <==> DefectHolds(h, db, id, r, code))
              && report.checks == Listed(CheckSlots(h, db, id, r))
              && report.violations == Listed(DefectSlots(h, db, id, r))
              && (report.valid <==> report.violations == [])
  {
    hide Listed, DefectSlots, CheckSlots, CheckHolds, DefectHolds, SectionDefects, SectionChecks;
    if id in db.receipts {
      var r := db.receipts[id];
      DefectsListed(h, db, id, r);
      ChecksListed(h, db, id, r);
      forall code ensures code in Report(h, db, id).checks <==> CheckHolds(h, db, id, r, code) {
        CheckMember(h, db, id, r, code);
      }
      forall code ensures code in Report(h, db, id).violations <==> DefectHolds(h, db, id, r, code) {
        DefectMember(h, db, id, r, code);
      }
    }
  }
}
