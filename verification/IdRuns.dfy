/** Row ids over whole runs: messages and grants are numbered 1, 2, 3 and so on without a gap, so a row added
    later has a larger id than every row there before. */
module IdRuns {
  import opened Text
  import opened Tables
  import opened Authorization
  import opened Board
  import opened Execution
  import opened Administration
  import opened Lifecycle
  import opened Kernel
  import opened Runs

  /** The table holds exactly the ids handed out. */
  ghost predicate Numbered<V>(table: map<int, V>, last: int) {
    0 <= last && forall id :: id in table <==> 1 <= id <= last
  }

  /** No row was added, or one under the next id. */
  ghost predicate Advances<V>(before: map<int, V>, last: int, after: map<int, V>, lastAfter: int) {
    || (lastAfter == last && forall id :: id in after <==> id in before)
    || (lastAfter == last + 1 && forall id :: id in after <==> id in before || id == last + 1)
  }

  ghost predicate IdsAdvance(db: Db, after: Db) {
    && Advances(db.messages, db.lastMessageId, after.messages, after.lastMessageId)
    && Advances(db.durable, db.lastDurableId, after.durable, after.lastDurableId)
    && Advances(db.delegated, db.lastDelegatedId, after.delegated, after.lastDelegatedId)
  }

  ghost predicate AllNumbered(db: Db) {
    && Numbered(db.messages, db.lastMessageId)
    && Numbered(db.durable, db.lastDurableId)
    && Numbered(db.delegated, db.lastDelegatedId)
  }

  lemma NumberedKept<V>(before: map<int, V>, last: int, after: map<int, V>, lastAfter: int)
    requires Numbered(before, last) && Advances(before, last, after, lastAfter)
    ensures Numbered(after, lastAfter) && last <= lastAfter
  {
  }

  lemma RowChanged<V>(table: map<int, V>, last: int, id: int, row: V)
    ensures Advances(table, last, table, last)
    ensures id in table ==> Advances(table, last, table[id := row], last)
    ensures Advances(table, last, table[last + 1 := row], last + 1)
  {
  }

  /** Only messages were added to or changed. */
  lemma MessageIdsOnly(db: Db, after: Db)
    requires Advances(db.messages, db.lastMessageId, after.messages, after.lastMessageId)
    requires after.durable == db.durable && after.lastDurableId == db.lastDurableId
    requires after.delegated == db.delegated && after.lastDelegatedId == db.lastDelegatedId
    ensures IdsAdvance(db, after)
  {
  }

  /** Only delegated grants were added to or changed. */
  lemma DelegatedIdsOnly(db: Db, after: Db)
    requires Advances(db.delegated, db.lastDelegatedId, after.delegated, after.lastDelegatedId)
    requires after.durable == db.durable && after.lastDurableId == db.lastDurableId
    requires after.messages == db.messages && after.lastMessageId == db.lastMessageId
    ensures IdsAdvance(db, after)
  {
  }

  // ---- the steps ----------------------------------------------------------------------------

  /** Grants keep their ids and only messages may be added. */
  ghost predicate GrantIdsKept(db: Db, after: Db) {
    && after.lastDurableId == db.lastDurableId && after.durable == db.durable
    && after.lastDelegatedId == db.lastDelegatedId && (forall id :: id in after.delegated <==> id in db.delegated)
  }

  lemma RecordAuthorityIds(db: Db, now: int, k: ExecutionId, row: Provenance, consume: Option<int>)
    ensures var t := RecordAuthority(db, now, k, row, consume);
            t.Ok? ==> && GrantIdsKept(db, t.value)
                      && t.value.messages == db.messages && t.value.lastMessageId == db.lastMessageId
  {
    hide Consumed;
  }

  lemma RecordExecutionIds(db: Db, now: int, d: Delivery, k: ExecutionId, receipt: Receipt)
    ensures var t := RecordExecution(db, now, d, k, receipt);
            t.Ok? ==> && GrantIdsKept(db, t.value)
                      && t.value.messages == db.messages && t.value.lastMessageId == db.lastMessageId
  {
    hide SameEvidence;
  }

  lemma RecordCreationIds(db: Db, now: int, k: ExecutionId, r: ExecutionRequest, d: Decision, m: Message)
    ensures var t := RecordCreation(db, now, k, r, d, m);
            t.Commit? ==> && GrantIdsKept(db, t.db)
                          && t.db.messages == db.messages && t.db.lastMessageId == db.lastMessageId
  {
    hide RecordExecution, RecordAuthority, GrantIdsKept;
    var receipt := ReceiptFor(r, m.id);
    var recorded := RecordExecution(db, now, r.delivery, k, receipt);
    RecordExecutionIds(db, now, r.delivery, k, receipt);
    if recorded.Ok? {
      var row := ProvenanceRow(r.principal, receipt, r.intent.resource, d);
      var written := RecordAuthority(recorded.value, now, k, row, d.consumeGrantId);
      RecordAuthorityIds(recorded.value, now, k, row, d.consumeGrantId);
      if written.Ok? { GrantIdsTransitive(db, recorded.value, written.value); }
    }
  }

  lemma GrantIdsTransitive(a: Db, b: Db, c: Db)
    requires GrantIdsKept(a, b) && GrantIdsKept(b, c)
    ensures GrantIdsKept(a, c)
  {
  }

  lemma EnsuredIds(db: Db, channel: string, createdBy: Option<string>)
    ensures var after := EnsureChannel(db, channel, createdBy);
            && GrantIdsKept(db, after) && after.delegated == db.delegated
            && after.messages == db.messages && after.lastMessageId == db.lastMessageId
  {
  }

  lemma ReservedIds(db: Db, now: int, k: ExecutionId, r: ExecutionRequest, m: Message)
    ensures var after := Reserved(db, now, k, r, m);
            GrantIdsKept(db, after) && after.messages == db.messages[m.id := m] && after.lastMessageId == m.id
  {
  }

  lemma ReplayIds(db: Db, now: int, k: ExecutionId, r: ExecutionRequest)
    requires k in db.reservations
    ensures var t := Replay(db, now, k, r);
            t.Commit? ==> && GrantIdsKept(db, t.db)
                          && t.db.messages == db.messages && t.db.lastMessageId == db.lastMessageId
  {
    hide RecordExecution, GrantIdsKept;
    var stored := db.reservations[k];
    if stored.messageId in db.messages {
      RecordExecutionIds(db, now, r.delivery, k, ReceiptFor(r, db.messages[stored.messageId].id));
    }
  }

  lemma CreateIds(db: Db, now: int, who: Identity, k: ExecutionId, r: ExecutionRequest, d: Decision)
    ensures var t := Create(db, now, who, k, r, d);
            t.Commit? ==> && GrantIdsKept(db, t.db) && t.db.lastMessageId == db.lastMessageId + 1
                          && forall id :: id in t.db.messages <==> id in db.messages || id == db.lastMessageId + 1
  {
    hide RecordCreation, Reserved, GrantIdsKept;
    var m := NewMessage(db, now, who, r.channel, r.intent.conversationRef, r.kind, r.body, r.replyTo);
    var reserved := Reserved(db, now, k, r, m);
    ReservedIds(db, now, k, r, m);
    RecordCreationIds(reserved, now, k, r, d, m);
    var t := RecordCreation(reserved, now, k, r, d, m);
    if t.Commit? { GrantIdsTransitive(db, reserved, t.db); }
  }

  lemma ExecutionIds(h: Hash, db: Db, now: int, who: Identity, r: ExecutionRequest)
    ensures IdsAdvance(db, Execute(h, db, now, who, r).0)
  {
    hide DecisionFor, EnvelopeMatches, Replay, Create, EnsureChannel, GrantIdsKept;
    var k := ExecutionId(who.instance, r.intent.id);
    var ready := EnsureChannel(db, r.channel, Some(who.instance));
    EnsuredIds(db, r.channel, Some(who.instance));
    ChannelEnsured(db, r.channel, Some(who.instance));
    if k in db.reservations {
      ReplayIds(ready, now, k, r);
      if Replay(ready, now, k, r).Commit? { GrantIdsTransitive(db, ready, Replay(ready, now, k, r).db); }
    } else {
      CreateIds(ready, now, who, k, r, DecisionFor(db, now, r));
      var t := Create(ready, now, who, k, r, DecisionFor(db, now, r));
      if t.Commit? { GrantIdsTransitive(db, ready, t.db); }
    }
    GrantIdsAdvance(db, Execute(h, db, now, who, r).0);
  }

  lemma GrantIdsAdvance(db: Db, after: Db)
    requires GrantIdsKept(db, after) || after == db
    ensures Advances(db.durable, db.lastDurableId, after.durable, after.lastDurableId)
    ensures Advances(db.delegated, db.lastDelegatedId, after.delegated, after.lastDelegatedId)
  {
  }

  lemma NavigationIds(db: Db, now: int, who: Identity, input: NavigationInput, conversationRef: Option<string>)
    ensures IdsAdvance(db, NavigationAppend(db, now, who, input, conversationRef).0)
  {
    hide EnsureChannel, IdsAdvance, Advances;
    SameIds(db);
    EnsuredIds(db, input.channel, Some(who.instance));
    var ready := EnsureChannel(db, input.channel, Some(who.instance));
    var m := NewMessage(ready, now, who, input.channel, conversationRef, input.kind, input.body, input.replyTo);
    RowChanged(db.messages, db.lastMessageId, m.id, m);
    var (after, r) := NavigationAppend(db, now, who, input, conversationRef);
    if r.NavigationCreated? { MessageIdsOnly(db, after); }
  }

  lemma AppendIds(db: Db, now: int, who: Identity, channel: string, kind: string, body: string, replyTo: Option<int>)
    ensures IdsAdvance(db, AppendMessage(db, now, who, channel, kind, body, replyTo).0)
  {
    hide EnsureChannel, IdsAdvance, Advances;
    EnsuredIds(db, channel, Some(who.instance));
    var (after, m) := AppendMessage(db, now, who, channel, kind, body, replyTo);
    RowChanged(db.messages, db.lastMessageId, m.id, m);
    MessageIdsOnly(db, after);
  }

  lemma LifecycleIds(db: Db, r: LifecycleRequest)
    ensures IdsAdvance(db, ChangeParticipant(db, r).0)
  {
    hide RequestValid, UpdatedRow, Trim, IdsAdvance, Advances;
    LifecycleTables(db, r);
    SameTables(db, ChangeParticipant(db, r).0);
  }

  lemma LifecycleTables(db: Db, r: LifecycleRequest)
    ensures var after := ChangeParticipant(db, r).0; after == db.(participants := after.participants)
  {
    hide RequestValid, UpdatedRow, Trim;
  }

  lemma EnsureIds(db: Db, channel: string, createdBy: Option<string>)
    ensures IdsAdvance(db, EnsureChannel(db, channel, createdBy))
  {
    hide IdsAdvance, Advances, EnsureChannel, GrantIdsKept;
    EnsuredIds(db, channel, createdBy);
    EnsuredGrants(db, channel, createdBy);
    SameTables(db, EnsureChannel(db, channel, createdBy));
  }

  lemma EnsuredGrants(db: Db, channel: string, createdBy: Option<string>)
    ensures var after := EnsureChannel(db, channel, createdBy);
            after.durable == db.durable && after.lastDurableId == db.lastDurableId
                && after.lastDelegatedId == db.lastDelegatedId
  {
  }

  lemma UpdateIds(db: Db, channel: string, visibility: Option<Visibility>, status: Option<ChannelStatus>)
    ensures IdsAdvance(db, UpdateChannel(db, channel, visibility, status).0)
  {
    hide IdsAdvance, Advances, UpdateChannel;
    UpdatedTables(db, channel, visibility, status);
    SameTables(db, UpdateChannel(db, channel, visibility, status).0);
  }

  lemma UpdatedTables(db: Db, channel: string, visibility: Option<Visibility>, status: Option<ChannelStatus>)
    ensures var after := UpdateChannel(db, channel, visibility, status).0; after == db.(channels := after.channels)
  {
  }

  lemma SameTables(db: Db, after: Db)
    requires after.messages == db.messages && after.lastMessageId == db.lastMessageId
    requires after.durable == db.durable && after.lastDurableId == db.lastDurableId
    requires after.delegated == db.delegated && after.lastDelegatedId == db.lastDelegatedId
    ensures IdsAdvance(db, after)
  {
  }

  // ---- administration -----------------------------------------------------------------------

  lemma ReactivatedIds(db: Db, actor: Actor, s: Scope, id: int)
    requires id in db.durable
    ensures IdsAdvance(db, ReactivateDurable(db, actor, s, id))
  {
  }

  lemma InsertedIds(db: Db, actor: Actor, s: Scope)
    ensures IdsAdvance(db, InsertDurable(db, actor, s))
  {
    hide NewDurable;
  }

  lemma SameIds(db: Db)
    ensures IdsAdvance(db, db)
  {
  }

  lemma AddDurableIds(db: Db, actor: Actor, s: Scope)
    ensures IdsAdvance(db, CreateDurableInTx(db, actor, s).0)
  {
    hide ParticipantRefusal, AscendingIds, SameScope, FirstActive, ReactivateDurable, InsertDurable, IdsAdvance;
    SameIds(db);
    SameScopeStored(db, s);
    InsertedIds(db, actor, s);
    forall id | id in db.durable ensures IdsAdvance(db, ReactivateDurable(db, actor, s, id)) {
      ReactivatedIds(db, actor, s, id);
    }
  }

  lemma DropDurableIds(db: Db, actor: Actor, id: int)
    ensures IdsAdvance(db, DeactivateDurableInTx(db, actor, id).0)
  {
    hide AscendingIds, StillActive, DeactivationEvents, DurableScope;
    SameIds(db);
  }

  lemma AddDelegatedIds(db: Db, now: int, actor: Actor, s: Scope)
    ensures IdsAdvance(db, CreateDelegatedInTx(db, now, actor, s).0)
  {
    hide ParticipantRefusal, NewDelegated, IdsAdvance, Advances;
    SameIds(db);
    var (after, r) := CreateDelegatedInTx(db, now, actor, s);
    if r.GrantCreated? {
      RowChanged(db.delegated, db.lastDelegatedId, 0, NewDelegated(s));
      DelegatedIdsOnly(db, after);
    }
  }

  lemma DropDelegatedIds(db: Db, actor: Actor, id: int)
    ensures IdsAdvance(db, DeactivateDelegatedInTx(db, actor, id).0)
  {
    hide DelegatedScope, IdsAdvance, Advances;
    SameIds(db);
    if id > 0 && id in db.delegated && db.delegated[id].status != Inactive {
      RowChanged(db.delegated, db.lastDelegatedId, id, db.delegated[id].(status := Inactive));
      DelegatedIdsOnly(db, DeactivateDelegatedInTx(db, actor, id).0);
    }
  }

  lemma ChangeIds(db: Db, now: int, actor: Actor, change: Change)
    ensures IdsAdvance(db, ApplyChange(db, now, actor, change).0)
  {
    hide CreateDurableInTx, DeactivateDurableInTx, CreateDelegatedInTx, DeactivateDelegatedInTx, IdsAdvance;
    match change {
      case AddDurable(s) => AddDurableIds(db, actor, s);
      case DropDurable(id) => DropDurableIds(db, actor, id);
      case AddDelegated(s) => AddDelegatedIds(db, now, actor, s);
      case DropDelegated(id) => DropDelegatedIds(db, actor, id);
    }
  }

  lemma AdminIds(db: Db, now: int, caller: Caller, command: Command)
    ensures IdsAdvance(db, Administer(db, now, caller, command).0)
  {
    hide MayAdminister, NormalizeActor, NormalizeCommand, ApplyChange, Trim, WellFormed, IdsAdvance;
    SameIds(db);
    var actor, change := NormalizeActor(caller), NormalizeCommand(command);
    if actor.Ok? && change.Ok? { ChangeIds(db, now, actor.value, change.value); }
  }

  lemma StepIds(h: Hash, db: Db, now: int, step: Step)
    ensures IdsAdvance(db, Apply(h, db, now, step).0)
  {
    hide Execute, NavigationAppend, AppendMessage, Administer, ChangeParticipant, EnsureChannel, UpdateChannel,
         IdsAdvance;
    match step {
      case ExecuteStep(who, request) => ExecutionIds(h, db, now, who, request);
      case NavigationStep(who, input, conversationRef) => NavigationIds(db, now, who, input, conversationRef);
      case AppendStep(who, channel, kind, body, replyTo) => AppendIds(db, now, who, channel, kind, body, replyTo);
      case AdminStep(caller, command) => AdminIds(db, now, caller, command);
      case LifecycleStep(change) => LifecycleIds(db, change);
      case EnsureChannelStep(channel, createdBy) => EnsureIds(db, channel, createdBy);
      case UpdateChannelStep(channel, visibility, status) => UpdateIds(db, channel, visibility, status);
    }
  }

  // ---- runs ---------------------------------------------------------------------------------

  /** In every reachable state the ids of messages, durable and delegated grants are 1 to the last handed out. */
  lemma {:induction false} RunNumbered(h: Hash, run: seq<Timed>, n: nat)
    requires n <= |run|
    ensures AllNumbered(StateAt(h, run, n))
  {
    hide Apply, StateAt, Numbered, Advances;
    if n == 0 {
      StartsNumbered(h, run);
    } else {
      RunNumbered(h, run, n - 1);
      NextState(h, run, n - 1);
      var a, b := StateAt(h, run, n - 1), StateAt(h, run, n);
      StepIds(h, a, run[n - 1].0, run[n - 1].1);
      NumberedKept(a.messages, a.lastMessageId, b.messages, b.lastMessageId);
      NumberedKept(a.durable, a.lastDurableId, b.durable, b.lastDurableId);
      NumberedKept(a.delegated, a.lastDelegatedId, b.delegated, b.lastDelegatedId);
    }
  }

  lemma StartsNumbered(h: Hash, run: seq<Timed>)
    ensures AllNumbered(StateAt(h, run, 0))
  {
    assert StateAt(h, run, 0) == EMPTY_DB;
  }

  /** The ids handed out only grow. */
  lemma {:induction false} RunAdvances(h: Hash, run: seq<Timed>, m: nat, n: nat)
    requires m <= n <= |run|
    ensures var a, b := StateAt(h, run, m), StateAt(h, run, n);
            && a.lastMessageId <= b.lastMessageId && a.lastDurableId <= b.lastDurableId
            && a.lastDelegatedId <= b.lastDelegatedId
    decreases n - m
  {
    hide Apply, StateAt;
    if m < n {
      RunAdvances(h, run, m, n - 1);
      NextState(h, run, n - 1);
      StepIds(h, StateAt(h, run, n - 1), run[n - 1].0, run[n - 1].1);
    }
  }

  /** Ids stay, and a row added later has an id above every earlier one. */
  ghost predicate IdsGrow<V>(a: map<int, V>, b: map<int, V>) {
    && (forall x | x in a :: x in b)
    && (forall x, y | x in b && x !in a && y in a :: y < x)
  }

  lemma NumberedGrow<V>(a: map<int, V>, last: int, b: map<int, V>, lastAfter: int)
    requires Numbered(a, last) && Numbered(b, lastAfter) && last <= lastAfter
    ensures IdsGrow(a, b)
  {
  }

  lemma RunIdsGrow(h: Hash, run: seq<Timed>, m: nat, n: nat)
    requires m <= n <= |run|
    ensures var a, b := StateAt(h, run, m), StateAt(h, run, n);
            IdsGrow(a.messages, b.messages) && IdsGrow(a.durable, b.durable) && IdsGrow(a.delegated, b.delegated)
  {
    hide StateAt, IdsGrow, Numbered;
    RunNumbered(h, run, m);
    RunNumbered(h, run, n);
    RunAdvances(h, run, m, n);
    var a, b := StateAt(h, run, m), StateAt(h, run, n);
    NumberedGrow(a.messages, a.lastMessageId, b.messages, b.lastMessageId);
    NumberedGrow(a.durable, a.lastDurableId, b.durable, b.lastDurableId);
    NumberedGrow(a.delegated, a.lastDelegatedId, b.delegated, b.lastDelegatedId);
  }
}
