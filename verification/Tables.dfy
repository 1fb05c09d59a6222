/** The SQLite tables the kernel works on. `Db` is one committed or in-transaction content of all of
    them; `Connection` is the handle whose statements change that content in place. A primary key is
    the domain of a map, so the uniqueness SQLite enforces holds by construction; every other column
    may hold anything, as in a damaged database. */
module Tables {
  import opened Text

  datatype Principal = Principal(provider: string, subject: string)

  datatype Identity = Identity(source: string, instance: string)

  /** The capability column: the twelve names the evaluator knows, or any other text. */
  datatype Capability =
    | ReadMessages
    | PostMessage
    | Reply
    | ReadExecutionReceipt
    | ReadExecutionAudit
    | ReadExecutionAuditSweep
    | ReadAuthorizationPolicyIntegrity
    | ReadAuthorizationPolicy
    | ReadAuthorizationDecision
    | ManageAuthorizationPolicy
    | ReadAuthorizationAdministrationHistory
    | ManageChannels
    | OtherCapability(name: string)

  /** The text stored for a capability. */
  function CapabilityName(c: Capability): string {
    match c
    case ReadMessages => "read_messages"
    case PostMessage => "post_message"
    case Reply => "reply"
    case ReadExecutionReceipt => "read_execution_receipt"
    case ReadExecutionAudit => "read_execution_audit"
    case ReadExecutionAuditSweep => "read_execution_audit_sweep"
    case ReadAuthorizationPolicyIntegrity => "read_authorization_policy_integrity"
    case ReadAuthorizationPolicy => "read_authorization_policy"
    case ReadAuthorizationDecision => "read_authorization_decision"
    case ManageAuthorizationPolicy => "manage_authorization_policy"
    case ReadAuthorizationAdministrationHistory => "read_authorization_administration_history"
    case ManageChannels => "manage_channels"
    case OtherCapability(name) => name
  }

  /** (participant_id, intent_id): the key of a reservation, a receipt and its provenance. */
  datatype ExecutionId = ExecutionId(participant: string, intent: string)

  /** What is hashed into `request_hash`: the canonical JSON of an intent, or of a legacy
      navigation write, which has no `conversation_ref` member. */
  datatype Document =
    | Request(channel: string, kind: string, body: string, conversationRef: Option<string>, replyTo: Option<int>)
    | LegacyRequest(channel: string, kind: string, body: string, replyTo: Option<int>)

  type Hash = Document -> string

  /** No two documents share a hash. Assumed only where a statement says so. */
  ghost predicate Injective(h: Hash) {
    forall c, d :: h(c) == h(d) ==> c == d
  }

  datatype Message = Message(
    id: int, createdAt: int, channel: string, source: string, instance: string,
    conversationRef: Option<string>, kind: string, body: string, replyTo: Option<int>)
  {
    function Content(): Document {
      Request(channel, kind, body, conversationRef, replyTo)
    }
  }

  datatype Visibility = Public | Private
  datatype ChannelStatus = ChannelActive | ChannelArchived
  datatype Channel = Channel(visibility: Visibility, status: ChannelStatus, createdBy: Option<string>)

  /** navigation_writes */
  datatype Reservation = Reservation(requestHash: string, messageId: int, createdAt: int)

  datatype ReceiptStatus = Committed | OtherReceiptStatus(text: string)

  datatype Receipt = Receipt(intentHash: string, capability: Capability, messageId: int, status: ReceiptStatus)

  datatype Source =
    | ParticipantLifecycle
    | PrincipalGrants
    | ImplicitAuthority
    | DelegatedGrants
    | Policy
    | OtherSource(text: string)

  datatype Reason =
    | ParticipantMissing
    | ParticipantInactive
    | ExplicitDurableGrantMatch
    | ExplicitResourceScopeMismatch
    | NoMatchingAuthority
    | DelegatedResourceMismatch
    | DelegatedIntentMismatch
    | DelegatedConsumedDifferentIntent
    | DelegatedGrantExpired
    | DelegatedCommittedReplay
    | DelegatedConsumedWithoutCommittedReceipt
    | DelegatedGrantMatch
    | ImplicitParticipantHmac
    | ImplicitHumanWeb
    | ImplicitHumanWebAdmin(over: Capability)
    | ImplicitGithubOwner

  /** execution_authorization_provenance */
  datatype Provenance = Provenance(
    principalProvider: Option<string>, principalSubject: Option<string>,
    capability: Option<Capability>, resource: Option<string>,
    source: Source, reason: Reason, grantId: Option<int>)

  /** ingress_provenance, keyed by delivery_id */
  datatype Ingress = Ingress(
    participantId: Option<string>, intentId: string, transport: string, externalRef: string,
    principal: Principal, createdAt: int)

  datatype Role = UserRole | AdminRole
  datatype ParticipantStatus = ParticipantActive | ParticipantDisabled
  datatype Participant = Participant(source: string, role: Role, status: ParticipantStatus, owner: Option<Principal>)

  datatype GrantStatus = Active | Inactive | OtherGrantStatus(text: string)

  /** principal_grants */
  datatype DurableGrant = DurableGrant(
    principal: Principal, participantId: string, capability: Capability, resource: Option<string>,
    status: GrantStatus)

  /** delegated_grants */
  datatype DelegatedGrant = DelegatedGrant(
    principal: Principal, participantId: string, capability: Capability, resource: Option<string>,
    intentId: Option<string>, expiresAt: Option<int>, oneShot: int,
    consumedAt: Option<int>, consumedIntentId: Option<string>, status: GrantStatus)

  datatype GrantStore = DurableStore | DelegatedStore
  datatype Operation = CreateGrant | ReactivateGrant | DeactivateGrant

  /** The grant columns an administration event repeats. */
  datatype Scope = Scope(
    principal: Principal, participantId: string, capability: Capability, resource: Option<string>,
    intentId: Option<string>, expiresAt: Option<int>, oneShot: bool)

  datatype Actor =
    | LocalCli
    | Remote(surface: string, principal: Principal, participantId: string)

  /** authorization_admin_events; the event with id n is at position n - 1 of the log. */
  datatype AdminEvent = AdminEvent(
    store: GrantStore, grantId: int, operation: Operation, actor: Actor, scope: Scope,
    before: Option<GrantStatus>, after: GrantStatus)

  datatype Db = Db(
    messages: map<int, Message>,
    lastMessageId: int,
    channels: map<string, Channel>,
    reservations: map<ExecutionId, Reservation>,
    receipts: map<ExecutionId, Receipt>,
    provenance: map<ExecutionId, Provenance>,
    ingress: map<string, Ingress>,
    participants: map<string, Participant>,
    durable: map<int, DurableGrant>,
    lastDurableId: int,
    delegated: map<int, DelegatedGrant>,
    lastDelegatedId: int,
    events: seq<AdminEvent>)

  const EMPTY_DB := Db(map[], 0, map[], map[], map[], map[], map[], map[], map[], 0, map[], 0, [])

  const LOUNGE := "blackboard-lounge"

  function DefaultVisibility(channel: string): Visibility {
    if channel == LOUNGE then Public else Private
  }

  /** `resource IS NULL OR resource = ?`: a NULL column covers every request, and an unscoped
      request (NULL parameter) is covered by nothing else. */
  predicate Covers(granted: Option<string>, asked: Option<string>) {
    granted.None? || granted == asked
  }

  function DurableScope(g: DurableGrant): Scope {
    Scope(g.principal, g.participantId, g.capability, g.resource, None, None, false)
  }

  function DelegatedScope(g: DelegatedGrant): Scope {
    Scope(g.principal, g.participantId, g.capability, g.resource, g.intentId, g.expiresAt, g.oneShot != 0)
  }

  /** The database connection. Every statement of the kernel updates its tables in place; a
      transaction remembers the content it started from and reinstalls it when it is dropped
      without commit. */
  class Connection {
    const hash: Hash
    var tables: Db

    constructor (hash: Hash)
      ensures this.hash == hash && tables == EMPTY_DB
    {
      this.hash := hash;
      tables := EMPTY_DB;
    }
  }
}
