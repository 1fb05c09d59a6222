/** Channels over whole runs: archived or hidden, they are never deleted. */
module ChannelRuns {
  import opened Text
  import opened Tables
  import opened Authorization
  import opened Board
  import opened Execution
  import opened Administration
  import opened Lifecycle
  import opened Kernel
  import opened Runs

  predicate ChannelsStay(db: Db, after: Db) {
    db.channels.Keys <= after.channels.Keys
  }

  lemma CreationChannels(db: Db, now: int, k: ExecutionId, r: ExecutionRequest, d: Decision, m: Message)
    ensures var t := RecordCreation(db, now, k, r, d, m); t.Commit? ==> t.db.channels == db.channels
  {
    hide SameEvidence, Consumed;
  }

  lemma ExecutionChannels(h: Hash, db: Db, now: int, who: Identity, r: ExecutionRequest)
    ensures ChannelsStay(db, Execute(h, db, now, who, r).0)
  {
    hide DecisionFor, EnvelopeMatches, SameEvidence, RecordCreation;
    var id := ExecutionId(who.instance, r.intent.id);
    var ready := EnsureChannel(db, r.channel, Some(who.instance));
    var m := NewMessage(ready, now, who, r.channel, r.intent.conversationRef, r.kind, r.body, r.replyTo);
    CreationChannels(Reserved(ready, now, id, r, m), now, id, r, DecisionFor(db, now, r), m);
  }

  lemma EnsuredChannels(db: Db, channel: string, createdBy: Option<string>)
    ensures ChannelsStay(db, EnsureChannel(db, channel, createdBy))
  {
  }

  lemma UpdatedChannels(db: Db, channel: string, visibility: Option<Visibility>, status: Option<ChannelStatus>)
    ensures ChannelsStay(db, UpdateChannel(db, channel, visibility, status).0)
  {
  }

  lemma NavigationChannels(db: Db, now: int, who: Identity, input: NavigationInput, conversationRef: Option<string>)
    ensures ChannelsStay(db, NavigationAppend(db, now, who, input, conversationRef).0)
  {
    hide EnsureChannel;
    EnsuredChannels(db, input.channel, Some(who.instance));
  }

  lemma AppendedChannels(db: Db, now: int, who: Identity, channel: string, kind: string, body: string,
                         replyTo: Option<int>)
    ensures ChannelsStay(db, AppendMessage(db, now, who, channel, kind, body, replyTo).0)
  {
    hide EnsureChannel;
    EnsuredChannels(db, channel, Some(who.instance));
  }

  lemma AdminChannels(db: Db, now: int, caller: Caller, command: Command)
    ensures Administer(db, now, caller, command).0.channels == db.channels
  {
    hide MayAdminister, NormalizeActor, NormalizeCommand, ApplyChange, Trim, WellFormed;
    var actor, change := NormalizeActor(caller), NormalizeCommand(command);
    if actor.Ok? && change.Ok? { ChangeChannels(db, now, actor.value, change.value); }
  }

  lemma ChangeChannels(db: Db, now: int, actor: Actor, change: Change)
    ensures ApplyChange(db, now, actor, change).0.channels == db.channels
  {
    hide CreateDurableInTx, DeactivateDurableInTx, CreateDelegatedInTx, DeactivateDelegatedInTx;
    match change {
      case AddDurable(s) => AddDurableChannels(db, actor, s);
      case DropDurable(id) => DropDurableChannels(db, actor, id);
      case AddDelegated(s) => DelegatedChannels(db, now, actor, s, 0);
      case DropDelegated(id) => DropDelegatedChannels(db, actor, id);
    }
  }

  lemma AddDurableChannels(db: Db, actor: Actor, s: Scope)
    ensures CreateDurableInTx(db, actor, s).0.channels == db.channels
  {
    hide ParticipantRefusal, AscendingIds, SameScope, FirstActive, ReactivateDurable, InsertDurable;
    SameScopeStored(db, s);
    forall id | id in db.durable ensures ReactivateDurable(db, actor, s, id).channels == db.channels {
      ReactivatedChannels(db, actor, s, id);
    }
    InsertedChannels(db, actor, s);
  }

  lemma ReactivatedChannels(db: Db, actor: Actor, s: Scope, id: int)
    requires id in db.durable
    ensures ReactivateDurable(db, actor, s, id).channels == db.channels
  {
  }

  lemma InsertedChannels(db: Db, actor: Actor, s: Scope)
    ensures InsertDurable(db, actor, s).channels == db.channels
  {
  }

  lemma DropDurableChannels(db: Db, actor: Actor, id: int)
    ensures DeactivateDurableInTx(db, actor, id).0.channels == db.channels
  {
    hide AscendingIds, StillActive, DeactivationEvents, Deactivated, DurableScope;
  }

  lemma DelegatedChannels(db: Db, now: int, actor: Actor, s: Scope, id: int)
    ensures CreateDelegatedInTx(db, now, actor, s).0.channels == db.channels
  {
    hide ParticipantRefusal, NewDelegated;
  }

  lemma DropDelegatedChannels(db: Db, actor: Actor, id: int)
    ensures DeactivateDelegatedInTx(db, actor, id).0.channels == db.channels
  {
    hide DelegatedScope, WithEvent;
    if id > 0 && id in db.delegated {
      var g := db.delegated[id];
      EventChannels(db.(delegated := db.delegated[id := g.(status := Inactive)]),
                    AdminEvent(DelegatedStore, id, DeactivateGrant, actor, DelegatedScope(g), Some(g.status),
                               Inactive));
    }
  }

  lemma EventChannels(db: Db, e: AdminEvent)
    ensures WithEvent(db, e).channels == db.channels
  {
  }

  lemma LifecycleChannels(db: Db, r: LifecycleRequest)
    ensures ChangeParticipant(db, r).0.channels == db.channels
  {
    hide RequestValid, UpdatedRow, Trim;
  }

  lemma StepChannels(h: Hash, db: Db, now: int, step: Step)
    ensures ChannelsStay(db, Apply(h, db, now, step).0)
  {
    hide Execute, NavigationAppend, AppendMessage, Administer, ChangeParticipant, EnsureChannel, UpdateChannel;
    match step {
      case ExecuteStep(who, request) => ExecutionChannels(h, db, now, who, request);
      case NavigationStep(who, input, conversationRef) => NavigationChannels(db, now, who, input, conversationRef);
      case AppendStep(who, channel, kind, body, replyTo) => AppendedChannels(db, now, who, channel, kind, body,
                                                                             replyTo);
      case AdminStep(caller, command) => AdminChannels(db, now, caller, command);
      case LifecycleStep(change) => LifecycleChannels(db, change);
      case EnsureChannelStep(channel, createdBy) => EnsuredChannels(db, channel, createdBy);
      case UpdateChannelStep(channel, visibility, status) => UpdatedChannels(db, channel, visibility, status);
    }
  }

  lemma {:induction false} RunChannels(h: Hash, run: seq<Timed>, m: nat, n: nat)
    requires m <= n <= |run|
    ensures ChannelsStay(StateAt(h, run, m), StateAt(h, run, n))
    decreases n - m
  {
    hide Apply, StateAt;
    if m < n {
      RunChannels(h, run, m, n - 1);
      NextState(h, run, n - 1);
      StepChannels(h, StateAt(h, run, n - 1), run[n - 1].0, run[n - 1].1);
    }
  }
}
