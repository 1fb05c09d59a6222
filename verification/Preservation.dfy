/** Every step keeps the invariant and only extends the evidence tables. */
module Preservation {
  import opened Text
  import opened Tables
  import opened Authorization
  import opened Board
  import opened ExecutionAudit
  import opened Administration
  import opened AdministrationLog
  import opened Lifecycle
  import opened Kernel

  // ---- coherence is stable ------------------------------------------------------------------

  lemma ParticipantIdBound(p: string)
    requires IsParticipantId(p)
    ensures p != "" && !Blank(p)
  {
    ParticipantIdWellFormed(p);
  }

  /** In bound ingress no row is unbound, and every delivery carries its metadata. */
  lemma BoundIngress(db: Db, d: string)
    requires IngressBound(db) && d in db.ingress
    ensures !Unbound(db.ingress[d]) && !MetadataBlank(d, db.ingress[d])
  {
    ParticipantIdBound(db.ingress[d].participantId.value);
  }

  lemma DeliveryKept(before: Db, after: Db, k: ExecutionId)
    requires Kept(before.ingress, after.ingress) && HasDelivery(before, k)
    ensures HasDelivery(after, k)
  {
    var d :| d in before.ingress && Delivers(before.ingress[d], k);
    assert Delivers(after.ingress[d], k);
  }

  lemma GrantKept(before: map<int, DelegatedGrant>, after: map<int, DelegatedGrant>, id: int)
    requires GrantsKept(before, after) && id in before
    ensures id in after && after[id].participantId == before[id].participantId
    ensures after[id].capability == before[id].capability && after[id].oneShot == before[id].oneShot
    ensures before[id].consumedAt.Some? ==>
              after[id].consumedAt == before[id].consumedAt && after[id].consumedIntentId == before[id].consumedIntentId
  {
    assert DelegatedScope(after[id]) == DelegatedScope(before[id]);
  }

  lemma CoherentKept(h: Hash, before: Db, after: Db, k: ExecutionId)
    requires Coherent(h, before, k) && Grows(before, after) && IngressBound(after)
    ensures Coherent(h, after, k)
  {
    hide Blank, MetadataBlank, Unbound, IngressBound, Logged;
    assert HasDelivery(before, k);
    DeliveryKept(before, after, k);
    var a := before.provenance[k];
    assert after.provenance[k] == a;
    if a.source == DelegatedGrants {
      GrantKept(before.delegated, after.delegated, a.grantId.value);
    }
    forall d | d in after.ingress ensures !Unbound(after.ingress[d]) && !MetadataBlank(d, after.ingress[d]) {
      BoundIngress(after, d);
    }
  }

  // ---- steps that leave the evidence alone --------------------------------------------------

  /** Grant rows keep their consumption, and new ones are unconsumed. */
  ghost predicate ConsumptionUntouched(before: map<int, DelegatedGrant>, after: map<int, DelegatedGrant>) {
    forall id | id in after ::
      if id in before
      then after[id].(status := before[id].status) == before[id]
      else after[id].consumedAt.None? && after[id].consumedIntentId.None?
  }

  ghost predicate EvidenceUntouched(before: Db, after: Db) {
    && after.messages == before.messages && after.lastMessageId == before.lastMessageId
    && after.reservations == before.reservations && after.receipts == before.receipts
    && after.provenance == before.provenance && after.ingress == before.ingress
    && before.delegated.Keys <= after.delegated.Keys && ConsumptionUntouched(before.delegated, after.delegated)
    && before.participants.Keys <= after.participants.Keys
    && before.events <= after.events
  }

  lemma EvidenceUntouchedKeeps(h: Hash, before: Db, after: Db)
    requires ExecutionInvariant(h, before) && EvidenceUntouched(before, after)
    ensures ExecutionInvariant(h, after) && Extends(before, after)
  {
    hide Coherent, IsParticipantId, MetadataBlank, HasDelivery;
    assert IngressBound(after);
    forall k | k in after.receipts ensures HasDelivery(after, k) {
      DeliveryKept(before, after, k);
    }
    forall k | k in after.provenance ensures Coherent(h, after, k) {
      CoherentKept(h, before, after, k);
    }
  }

  /** Grant policy and log are untouched except for consumption and new participants. */
  ghost predicate PolicyUntouched(before: Db, after: Db) {
    && after.durable == before.durable && after.lastDurableId == before.lastDurableId
    && after.lastDelegatedId == before.lastDelegatedId && after.events == before.events
    && after.delegated.Keys == before.delegated.Keys
    && (forall id | id in before.delegated ::
          && DelegatedScope(after.delegated[id]) == DelegatedScope(before.delegated[id])
          && after.delegated[id].status == before.delegated[id].status
          && after.delegated[id].oneShot == before.delegated[id].oneShot)
    && before.participants.Keys <= after.participants.Keys
    && (forall p | p in after.participants && p !in before.participants :: IsParticipantId(p))
  }

  lemma PolicyUntouchedKeeps(before: Db, after: Db)
    requires PolicySound(before) && Logged(before) && PolicyUntouched(before, after)
    ensures PolicySound(after) && Logged(after)
  {
    hide WellFormedScope, IsParticipantId, IsKnown, LogConsistent, Fold;
    forall id | id in before.delegated ensures DelegatedStanding(after)[id] == DelegatedStanding(before)[id] {}
    assert DelegatedStanding(after).Keys == DelegatedStanding(before).Keys;
    assert DelegatedStanding(after) == DelegatedStanding(before);
    forall id | id in after.delegated ensures after.delegated[id].participantId
        == DelegatedScope(before.delegated[id]).participantId {}
  }

  // ---- administration, lifecycle, channels --------------------------------------------------

  /** Only the durable table and the log change. */
  lemma DurableOnly(db: Db, durable: map<int, DurableGrant>, last: int, extra: seq<AdminEvent>)
    ensures EvidenceUntouched(db, db.(durable := durable, lastDurableId := last, events := db.events + extra))
  {
  }

  /** Only the delegated table and the log change. */
  lemma DelegatedOnly(db: Db, delegated: map<int, DelegatedGrant>, last: int, extra: seq<AdminEvent>)
    requires db.delegated.Keys <= delegated.Keys && ConsumptionUntouched(db.delegated, delegated)
    ensures EvidenceUntouched(db, db.(delegated := delegated, lastDelegatedId := last, events := db.events + extra))
  {
  }

  /** Only the durable table changed, and the log only grew. */
  ghost predicate DurableAndLog(db: Db, after: Db) {
    && db.events <= after.events
    && after == db.(durable := after.durable, lastDurableId := after.lastDurableId,
                    events := db.events + after.events[|db.events|..])
  }

  lemma DurableAndLogUntouched(db: Db, after: Db)
    requires DurableAndLog(db, after)
    ensures EvidenceUntouched(db, after)
  {
    hide EvidenceUntouched;
    DurableOnly(db, after.durable, after.lastDurableId, after.events[|db.events|..]);
  }

  lemma DurableUntouched(db: Db, actor: Actor, s: Scope, id: int)
    ensures EvidenceUntouched(db, CreateDurableInTx(db, actor, s).0)
    ensures EvidenceUntouched(db, DeactivateDurableInTx(db, actor, id).0)
  {
    hide EvidenceUntouched, CreateDurableInTx, DeactivateDurableInTx, DurableAndLog;
    DurableCreationShape(db, actor, s);
    DurableDeactivationShape(db, actor, id);
    DurableAndLogUntouched(db, CreateDurableInTx(db, actor, s).0);
    DurableAndLogUntouched(db, DeactivateDurableInTx(db, actor, id).0);
  }

  lemma DurableCreationShape(db: Db, actor: Actor, s: Scope)
    ensures DurableAndLog(db, CreateDurableInTx(db, actor, s).0)
  {
    hide AscendingIds, SameScope, FirstActive, ParticipantRefusal, ReactivateDurable, InsertDurable, DurableAndLog;
    SameScopeStored(db, s);
    DurableAndLogSelf(db);
    InsertionShape(db, actor, s);
    forall id | id in db.durable ensures DurableAndLog(db, ReactivateDurable(db, actor, s, id)) {
      ReactivationShape(db, actor, s, id);
    }
  }

  lemma DurableAndLogSelf(db: Db)
    ensures DurableAndLog(db, db)
  {
    assert db.events + db.events[|db.events|..] == db.events;
  }

  lemma ReactivationShape(db: Db, actor: Actor, s: Scope, id: int)
    requires id in db.durable
    ensures DurableAndLog(db, ReactivateDurable(db, actor, s, id))
  {
  }

  lemma InsertionShape(db: Db, actor: Actor, s: Scope)
    ensures DurableAndLog(db, InsertDurable(db, actor, s))
  {
  }

  lemma DurableDeactivationShape(db: Db, actor: Actor, id: int)
    ensures DurableAndLog(db, DeactivateDurableInTx(db, actor, id).0)
  {
    hide AscendingIds, StillActive, DeactivationEvents, Deactivated, DurableScope;
    DurableAndLogSelf(db);
  }

  lemma DelegatedUntouched(db: Db, now: int, actor: Actor, s: Scope, id: int)
    requires db.lastDelegatedId + 1 !in db.delegated
    ensures EvidenceUntouched(db, CreateDelegatedInTx(db, now, actor, s).0)
    ensures EvidenceUntouched(db, DeactivateDelegatedInTx(db, actor, id).0)
  {
    hide EvidenceUntouched, CreateDelegatedInTx, DeactivateDelegatedInTx;
    DelegatedCreationUntouched(db, now, actor, s);
    DelegatedDeactivationUntouched(db, actor, id);
  }

  lemma DelegatedCreationUntouched(db: Db, now: int, actor: Actor, s: Scope)
    requires db.lastDelegatedId + 1 !in db.delegated
    ensures EvidenceUntouched(db, CreateDelegatedInTx(db, now, actor, s).0)
  {
    hide EvidenceUntouched, ParticipantRefusal;
    EvidenceSelf(db);
    var id := db.lastDelegatedId + 1;
    DelegatedOnly(db, db.delegated[id := NewDelegated(s)], id,
                  [AdminEvent(DelegatedStore, id, CreateGrant, actor, s, None, Active)]);
  }

  lemma DelegatedDeactivationUntouched(db: Db, actor: Actor, id: int)
    ensures EvidenceUntouched(db, DeactivateDelegatedInTx(db, actor, id).0)
  {
    hide EvidenceUntouched, DelegatedScope;
    EvidenceSelf(db);
    if id in db.delegated {
      var g := db.delegated[id];
      DelegatedOnly(db, db.delegated[id := g.(status := Inactive)], db.lastDelegatedId,
                    [AdminEvent(DelegatedStore, id, DeactivateGrant, actor, DelegatedScope(g), Some(g.status),
                                Inactive)]);
    }
  }

  lemma AdminKeeps(h: Hash, db: Db, now: int, caller: Caller, command: Command)
    requires Invariant(h, db)
    ensures var after := Administer(db, now, caller, command).0;
            Invariant(h, after) && Extends(db, after) && EvidenceUntouched(db, after)
  {
    hide ExecutionInvariant, OneLoggedChange, MayAdminister, NormalizeActor, NormalizeCommand, Trim, WellFormed,
         Extends, CreateDurableInTx, DeactivateDurableInTx, CreateDelegatedInTx, DeactivateDelegatedInTx, Fold,
         LogConsistent, WellFormedScope, IsKnown, IsParticipantId, EvidenceUntouched;
    var (after, r) := Administer(db, now, caller, command);
    AdministerLogged(db, now, caller, command);
    assert db.lastDelegatedId + 1 !in db.delegated;
    EvidenceSelf(db);
    if !UnchangedOutcome(r) {
      LoggedChangeKeepsLog(db, after);
      var actor := NormalizeActor(caller).value;
      match NormalizeCommand(command).value {
        case AddDurable(s) => DurableUntouched(db, actor, s, 0);
        case DropDurable(id) =>
          DurableUntouched(db, actor, Scope(Principal("", ""), "", PostMessage, None, None, None, false), id);
        case AddDelegated(s) => DelegatedUntouched(db, now, actor, s, 0);
        case DropDelegated(id) =>
          DelegatedUntouched(db, now, actor, Scope(Principal("", ""), "", PostMessage, None, None, None, false), id);
      }
    }
    EvidenceUntouchedKeeps(h, db, after);
  }

  lemma EvidenceSelf(db: Db)
    ensures EvidenceUntouched(db, db)
  {
  }

  lemma LifecycleKeeps(h: Hash, db: Db, r: LifecycleRequest)
    requires Invariant(h, db)
    ensures var after := ChangeParticipant(db, r).0;
            Invariant(h, after) && Extends(db, after) && EvidenceUntouched(db, after)
  {
    hide ExecutionInvariant, Extends, PolicySound, Logged, EvidenceUntouched, PolicyUntouched, IsParticipantId, IsName,
         IsOwner, Trim, WellFormed, UpdatedRow;
    var after := ChangeParticipant(db, r).0;
    ParticipantsOnly(db, after.participants);
    EvidenceUntouchedKeeps(h, db, after);
    PolicyUntouchedKeeps(db, after);
  }

  lemma ParticipantsOnly(db: Db, participants: map<string, Participant>)
    requires db.participants.Keys <= participants.Keys
    requires forall p | p in participants && p !in db.participants :: IsParticipantId(p)
    ensures EvidenceUntouched(db, db.(participants := participants))
    ensures PolicyUntouched(db, db.(participants := participants))
  {
    hide IsParticipantId;
  }

  lemma ChannelsKeep(h: Hash, db: Db, channels: map<string, Channel>)
    requires Invariant(h, db)
    ensures var after := db.(channels := channels);
            Invariant(h, after) && Extends(db, after) && EvidenceUntouched(db, after)
  {
    hide ExecutionInvariant, Extends, PolicySound, Logged;
    var after := db.(channels := channels);
    EvidenceUntouchedKeeps(h, db, after);
    PolicyUntouchedKeeps(db, after);
  }

  lemma EnsureChannelKeeps(h: Hash, db: Db, channel: string, createdBy: Option<string>)
    requires Invariant(h, db)
    ensures var after := EnsureChannel(db, channel, createdBy);
            && Invariant(h, after) && Extends(db, after) && EvidenceUntouched(db, after)
            && after == db.(channels := after.channels)
  {
    hide Invariant, Extends, EvidenceUntouched;
    ChannelsKeep(h, db, EnsureChannel(db, channel, createdBy).channels);
  }

  // ---- appends ------------------------------------------------------------------------------

  /** A new message alone. */
  lemma InsertMessageKeeps(h: Hash, db: Db, m: Message)
    requires Invariant(h, db) && m.id == db.lastMessageId + 1
    ensures Invariant(h, InsertMessage(db, m)) && Extends(db, InsertMessage(db, m))
  {
    hide Coherent, IsParticipantId, MetadataBlank, HasDelivery, PolicySound, Logged;
    var after := InsertMessage(db, m);
    PolicyUntouchedKeeps(db, after);
    assert IngressBound(after);
    forall k | k in after.receipts ensures HasDelivery(after, k) {
      DeliveryKept(db, after, k);
    }
    forall k | k in after.provenance ensures Coherent(h, after, k) {
      CoherentKept(h, db, after, k);
    }
  }

  lemma AppendKeeps(h: Hash, db: Db, now: int, who: Identity, channel: string, kind: string, body: string,
                    replyTo: Option<int>)
    requires Invariant(h, db)
    ensures var (after, m) := AppendMessage(db, now, who, channel, kind, body, replyTo);
            Invariant(h, after) && Extends(db, after)
  {
    hide Invariant, Extends;
    EnsureChannelKeeps(h, db, channel, Some(who.instance));
    var ready := EnsureChannel(db, channel, Some(who.instance));
    var m := NewMessage(ready, now, who, channel, None, kind, body, replyTo);
    InsertMessageKeeps(h, ready, m);
    ExtendsTransitive(db, ready, InsertMessage(ready, m));
  }

  lemma ReservationAdded(db: Db, after: Db, k: ExecutionId, row: Reservation)
    requires k !in db.reservations && after == db.(reservations := db.reservations[k := row])
    ensures Grows(db, after) && PolicyUntouched(db, after)
  {
  }

  /** The channel exists, new ones active and private but for the lounge, and every other is as it was. */
  ghost predicate ChannelAdded(before: map<string, Channel>, after: map<string, Channel>, channel: string) {
    && after.Keys == before.Keys + {channel} && Kept(before, after)
    && (channel !in before ==> && after[channel].status == ChannelActive
                               && (after[channel].visibility == Public <==> channel == LOUNGE))
  }

  lemma EnsureChannelAdds(db: Db, channel: string, createdBy: Option<string>)
    ensures ChannelAdded(db.channels, EnsureChannel(db, channel, createdBy).channels, channel)
    ensures EnsureChannel(db, channel, createdBy) == db.(channels := EnsureChannel(db, channel, createdBy).channels)
  {
  }

  /** A new message under an id above every earlier one, which no execution names. */
  ghost predicate MessageAdded(before: Db, after: Db, m: Message) {
    && (forall id | id in before.messages :: id < m.id) && Kept(before.messages, after.messages)
    && after.messages.Keys == before.messages.Keys + {m.id} && after.messages[m.id] == m
    && (forall k | k in after.reservations :: after.reservations[k].messageId != m.id)
    && (forall k | k in after.receipts :: after.receipts[k].messageId != m.id)
  }

  lemma InsertMessageAdds(h: Hash, db: Db, m: Message)
    requires Invariant(h, db) && m.id == db.lastMessageId + 1
    ensures MessageAdded(db, InsertMessage(db, m), m)
  {
    hide Invariant, PolicySound, ReceiptsBound, ConsumptionBacked, IngressBound, ProvenanceCoherent;
    ReservationsHold(h, db);
    ReceiptMessages(h, db);
  }

  /** What a plain append means to a reader: one message under an id above every earlier one, saying what was
      sent, in a channel that now exists and otherwise is as it was; no earlier message, no evidence, no
      policy is touched, and the message belongs to no execution. */
  lemma AppendAdds(h: Hash, db: Db, now: int, who: Identity, channel: string, kind: string, body: string,
                   replyTo: Option<int>)
    requires Invariant(h, db)
    ensures var (after, m) := AppendMessage(db, now, who, channel, kind, body, replyTo);
            && MessageAdded(db, after, m) && ChannelAdded(db.channels, after.channels, channel)
            && m.Content() == Request(channel, kind, body, None, replyTo)
            && m.source == who.source && m.instance == who.instance && m.createdAt == now
            && after == db.(messages := after.messages, lastMessageId := m.id, channels := after.channels)
  {
    hide Invariant, MessageAdded, ChannelAdded, EnsureChannel, Extends, EvidenceUntouched;
    EnsureChannelAdds(db, channel, Some(who.instance));
    EnsureChannelKeeps(h, db, channel, Some(who.instance));
    var ready := EnsureChannel(db, channel, Some(who.instance));
    var m := NewMessage(ready, now, who, channel, None, kind, body, replyTo);
    InsertMessageAdds(h, ready, m);
    SameMessagesAdded(ready, db, InsertMessage(ready, m), m);
  }

  lemma SameMessagesAdded(a: Db, b: Db, after: Db, m: Message)
    requires MessageAdded(a, after, m) && b.messages == a.messages
    ensures MessageAdded(b, after, m)
  {
  }

  lemma ReceiptMessages(h: Hash, db: Db)
    requires Invariant(h, db)
    ensures forall k | k in db.receipts ::
            k in db.reservations && db.receipts[k].messageId == db.reservations[k].messageId
  {
    hide PolicySound, Logged, HasDelivery, IngressBound, ConsumptionBacked, Coherent;
  }

  /** A new reservation bound to an existing message of its participant, and nothing else. */
  lemma ReserveKeeps(h: Hash, db: Db, k: ExecutionId, row: Reservation)
    requires Invariant(h, db) && k !in db.reservations
    requires row.messageId in db.messages && db.messages[row.messageId].instance == k.participant
    ensures var after := db.(reservations := db.reservations[k := row]);
            Invariant(h, after) && Extends(db, after)
  {
    hide Coherent, IsParticipantId, MetadataBlank, HasDelivery, PolicySound, Logged, PolicyUntouched, Grows;
    var after := db.(reservations := db.reservations[k := row]);
    ReservationAdded(db, after, k, row);
    PolicyUntouchedKeeps(db, after);
    assert IngressBound(after);
    forall r | r in after.receipts ensures HasDelivery(after, r) {
      DeliveryKept(db, after, r);
    }
    forall p | p in after.provenance ensures Coherent(h, after, p) {
      CoherentKept(h, db, after, p);
    }
  }

  lemma NavigationKeeps(h: Hash, db: Db, now: int, who: Identity, input: NavigationInput,
                        conversationRef: Option<string>)
    requires Invariant(h, db)
    ensures var (after, r) := NavigationAppend(db, now, who, input, conversationRef);
            && Invariant(h, after) && Extends(db, after)
            && (!r.NavigationCreated? ==> after == db)
            && !r.NavigationFailed?
  {
    hide Extends, ExecutionInvariant, PolicySound, Logged;
    var (after, r) := NavigationAppend(db, now, who, input, conversationRef);
    ReservationsHold(h, db);
    ExtendsReflexive(db);
    if r.NavigationCreated? {
      var k := ExecutionId(who.instance, input.nonce);
      EnsureChannelKeeps(h, db, input.channel, Some(who.instance));
      var ready := EnsureChannel(db, input.channel, Some(who.instance));
      var m := NewMessage(ready, now, who, input.channel, conversationRef, input.kind, input.body, input.replyTo);
      InsertMessageKeeps(h, ready, m);
      var placed := InsertMessage(ready, m);
      ReserveKeeps(h, placed, k, Reservation(input.requestHash, m.id, now));
      ExtendsTransitive(db, ready, placed);
      ExtendsTransitive(db, placed, after);
    }
  }

  lemma ReservationsHold(h: Hash, db: Db)
    requires Invariant(h, db)
    ensures ReservationsBound(db) && ReceiptsBound(db) && ConsumptionBacked(db) && IngressBound(db)
            && MessagesNumbered(db)
    ensures ProvenanceCoherent(h, db)
  {
  }
}
