# Blackboard kernel: execution and authorization, modelled and proved

The repository is a message board whose writes go through one transactional boundary. A request names a
principal, a participant and an intent; one SQLite transaction decides whether the principal has authority,
reserves the intent, appends the message, and writes the delivery, the receipt, the authorization
provenance and, where the authority was a one-shot grant, its consumption. Grants are administered
remotely or locally, each change together with an event in the same transaction. Two auditors, written
independently of the writers, scan the tables for evidence that does not fit.

The project models these pieces over one set of tables and proves how they interlock.

## How it is built

* `Tables` holds the rows of every table (`Db`) and the `Connection` class, whose one field is the content
  of all tables. The methods of the other modules are the statements of the source: they read and update
  that field step by step, and a transaction that returns without commit reinstalls the content it
  started from. A primary key is the domain of a map; any other column may hold anything.
* Each such method is proved equal to a specification function on `Db` (`Execute`, `Decide`, `Administer`,
  `NavigationAppend`, ...), and the results are proved about those functions and over whole runs.
* What these functions compute is said a second time without them: the `Exact` modules, `ExecutionTables`
  and `ExecutionOutcome` state each answer, each list and each row written in the columns of the tables and
  the fields of the request, for all tables or for every state of every run.
* `Kernel` puts the transactions together as one state machine. A run is any sequence of steps at any
  times; times need not increase. `Kernel.RunStep` ties the machine to the methods, and
  `Runs.StepKeeps` is the preservation of the invariant that everything about reachable states rests on.
* `ORDER BY` is modelled in `Order`: a query result is the one strictly sorted sequence of its rows.
* The request hash is an arbitrary function. Only `Runs.SuccessReturnsRequest` assumes it is injective.
  The time of every step, and whether a code matches a TOTP step, are parameters.
* The adapters give two guarantees, stated as `Kernel.Guarded` (a non-blank channel, non-blank delivery
  metadata), and `Runs.HonestNavigation` for the result on contents alone (the legacy adapter sends the
  hash of the request it sends).

| file | what it holds |
|---|---|
| Text, Order, Tables | trimming and normal forms, query order, rows and connection |
| Authorization, AuthorizationPreference, DecisionExact, ScanOrder, ImplicitAuthority, EffectiveGrants | the evaluator, which grant it cites, every reason it gives, its order-free meaning, who needs no grant, the summary of held grants |
| Administration, AdministrationLog, AdministrationExact, AdministrationEffects | grant commands, the event log as policy, the answer to every command, what an accepted command means |
| PolicyAudit, PolicyAuditOnce, PolicyAuditExact | the audit of both grant tables, kind by kind |
| Board, Execution, ExecutionTables, Lifecycle | channels and messages, the execution boundary and what it writes, participants |
| ExecutionAudit, ExecutionAuditExact, ExecutionSweep, ExecutionSweepExact, AuditBundle | the verifier of one execution, code by code, the sweep of all, the evidence bundle |
| Kernel, Preservation, ExecutionPreservation, Runs | the state machine, its invariant, and what every run keeps |
| EvidenceRuns, ProvenanceRuns, ExecutionOutcome, AuthorityRuns, PolicyLogRuns, PolicyAuditRuns, AuthorityChain, ChannelRuns, IdRuns | the results over whole runs |
| Paging, PagingExact, Windows, WindowsExact, WindowRuns, WindowWalks | keyset paging, its readers, the policy snapshot, clients over a running kernel |
| Totp | the lockout counter of web logins |
| Migration | the updates that fill columns older rows lack |

## Where the code does not meet the property one would like

* The sweep accepts a reachable state exactly when no legacy navigation append has created a message
  (`EvidenceRuns.SweepOverRuns`, with `EvidenceRuns.LegacyAppendWitness` as a concrete run).
* The policy audit accepts a reachable state exactly when no delegated grant was created for an unknown
  capability: delegated creation has no known-capability check (`PolicyAuditRuns.PolicyAuditValidExactly`,
  with `PolicyAuditRuns.UnknownCapabilityWitness` as a concrete run).
* On damaged tables the order of the delegated scan can hide a usable grant: exactly when a request rests on
  delegated grants alone and an applicable consumed grant without a receipt is preferred to every usable one
  (`ScanOrder.OrderFreeExactly`, with `ScanOrder.DamagedTablesHideUsableGrant` as a concrete input). In a
  reachable state this never happens (`AuthorityRuns.OrderFreeOverRuns`).
* The lockout bound holds up to clock readings below 2^63 - 1 and for no reading from there on
  (`Totp.LockoutHoldsExactly`).
* The policy snapshot of a damaged table fails exactly when a page would have to start after an id that is
  not positive (`WindowRuns.ReadAuthorizationPolicySnapshot`, with `WindowRuns.UnpageableTable` as a concrete
  table); reachable tables have no such id. The source compiles the snapshot for its own tests only
  (src/authorization.rs:384); the windows it is made of serve every reader.
* A reader that follows ids upwards through a growing table stops exactly if at some page the table then fits
  the pages read so far, and one that follows them downwards exactly if its pages have room for the table its
  first page found (`PagingExact.AscendingStopsExactly` and `PagingExact.DescendingStopsExactly`, for the
  readers in `WindowWalks.HistoryWalk`, `WindowWalks.MessageWalk` and `WindowWalks.PolicyWalk`). For any page
  size and any number of pages there is a run that outruns an upward reader (`WindowWalks.ReaderOutrun`).

## Model

| member | source | states |
|---|---|---|
| `EvidenceRuns.SweepOverRuns` | `src/execution.rs:772-925` | In every reachable state the sweep reports no invalid execution and no orphan if and only if no legacy navigation append created a message, equivalently if and only if no step was, before its call, a legacy append for an execution not reserved yet whose reply target existed; no assumption on the hash. |
| `EvidenceRuns.LegacyAppendWitness` | `src/db.rs:418-489` | A run of one legacy append whose last state the sweep rejects. |
| `EvidenceRuns.SweepFindings` | `src/execution.rs:772-925` | In every reachable state the sweep lists as orphans exactly the reservations without a receipt, each with the participant as participant, the nonce as intent and its message id as reference, and as invalid exactly the reports of receipts without provenance. |
| `Runs.StepKeeps` | `src/execution.rs:927-1215` | Every guarded step of every writer keeps the invariant, never changes a stored message, reservation, receipt, provenance, delivery or event, and writes no provenance for an execution reserved earlier. |
| `Runs.RunKeeps` | `src/execution.rs:927-1215` | The invariant holds after every prefix of every guarded run from an empty database, whatever the times of its steps. |
| `Runs.RunExtends` | `src/execution.rs:1093-1215` | Any later state of a run extends any earlier one: evidence rows stay, the log grows, grants change only in status and first consumption. |
| `Kernel.RunStep` | `src/execution.rs:927-1079` | Executing the statements of any step on the connection gives exactly the tables and the outcome of the state machine. |
| `Runs.ExactlyOnce` | `src/execution.rs:983-1071` | After a success for a participant and intent, by either writer of the reservation table, every later success for it by either writer returns the same message and creates none. |
| `Runs.SuccessReturnsRequest` | `src/execution.rs:983-1013` | With a collision-free hash and an honest legacy adapter, the message a success returns has the requested content, also when the stored hash is of the older shape. |
| `Runs.InternalFailuresUnreachable` | `src/execution.rs:939-1079` | From any reachable state an execution fails with an error only for one of six contradictions between request and envelope, or for a delivery id stored with another participant, intent, transport, external reference or principal; every outcome but a success leaves all tables as they were. |
| `ExecutionOutcome.OutcomeExact` | `src/execution.rs:927-1079` | In every reachable state the outcome, with the returned message, is decided by the six envelope comparisons, order-free authority, the channel not being archived, the reservation by hash or by the five columns of its message, the reply target and the five stored columns of the delivery, in this order, and by nothing else. |
| `ExecutionOutcome.IdenticalRetry` | `src/execution.rs:1093-1180` | After a success the identical call with its identical delivery returns the same message, and changes no table, at every later time at which the request is authorized and the channel is not archived. |
| `ExecutionOutcome.DeliveryReboundExact` | `src/execution.rs:1112-1130` | In every reachable state a delivery is refused as rebound if and only if the execution would otherwise succeed and its delivery id is stored with another participant, intent, transport, external reference or principal. |
| `ExecutionTables.TablesExact` | `src/execution.rs:983-1215` | On arbitrary tables: a creation writes the message, its channel, its reservation, the missing delivery and receipt, the provenance and the consumption, column by column; a replay only the missing channel, delivery and receipt; any other outcome nothing. |
| `ExecutionPreservation.ExecuteKeeps` | `src/execution.rs:927-1079` | What one execution does from any state with the invariant: creates, replays, or leaves everything alone; provenance is written exactly with a creation; a committed-replay decision never creates. |
| `EvidenceRuns.OneShotConservation` | `src/execution.rs:1060-1071` | In every reachable state the consumed one-shot grants and the provenance rows citing one-shot delegated grants are in bijection, and the row consumed by is the row that cites. |
| `EvidenceRuns.OneGrantOneMessage` | `src/authorization.rs:1384-1402` | Two creations of a run never consume the same one-shot grant. |
| `EvidenceRuns.HistoryStable` | `src/execution.rs:405-770` | Once an execution has a receipt, no later step changes its verification report, receipt or provenance, and its deliveries stay. |
| `AuthorityRuns.ReplaySurvivesExpiry` | `src/authorization.rs:1263-1326` | After a creation backed by a one-shot grant, the same request returns the same message at any later time, expired or not, and consumes nothing, while participant and grant are active, the channel is not archived, and the delivery id is new or stored with the same five columns. |
| `AuthorityRuns.OrderFreeOverRuns` | `src/authorization.rs:1139-1346` | In every reachable state, at any time, a request is allowed exactly when the order-free rule allows it. |
| `AuthorityRuns.DelegationOnlyAdds` | `src/authorization.rs:1139-1346` | Creating a delegated grant in any reachable state takes no permission away from anyone. |
| `PolicyAuditRuns.PolicyAuditOverRuns` | `src/authorization.rs:654-997` | In every reachable state the policy violations are exactly one unsupported_capability for each delegated grant of an unknown capability, listed once; in particular no durable scope has two rows, NULL resources included. |
| `PolicyAuditRuns.PolicyAuditValidExactly` | `src/authorization_admin.rs:733-817` | The policy audit of a reachable state is empty if and only if no accepted delegated creation named an unknown capability, equivalently if and only if no step was, before its call, an acceptable one. |
| `PolicyAuditRuns.UnknownCapabilityWitness` | `src/authorization_admin.rs:733-817` | A run of two local commands whose last state the policy audit rejects. |
| `PolicyLogRuns.LogIsPolicy` | `src/authorization_admin.rs:436-540` | In every reachable state folding the event log rebuilds scope and status of every grant, each event's before-status is the folded one and differs from its after-status, and a step adds its one event exactly when it changes a standing. |
| `PolicyLogRuns.EventAppended` | `src/authorization_admin.rs:1022-1055` | Every event of a reachable log was appended by an administration step, with the log as it then was before it, by the normalized caller, who was allowed then. |
| `AuthorityChain.ChainOfAuthority` | `src/authorization_admin.rs:556-586` | From every event a chain of strictly earlier activations of durable policy grants, each the last word on its grant, leads to a local command or a human web administrator. |
| `AuthorityChain.AdministratorAuthority` | `src/authorization.rs:1139-1346` | A remote caller is allowed only by an active durable grant covering the administration resource or as human web administrator; delegated grants play no part. |
| `AuthorityChain.AllowedCallerIsActor` | `src/authorization_admin.rs:976-1005` | The authority check sees the caller untrimmed and the event names it trimmed; for every allowed caller the two are the same. |
| `AuthorityChain.FoldIsLastWord` | `src/authorization_admin.rs:1022-1055` | The folded standing of a grant is what the last event about it says. |
| `ProvenanceRuns.ProvenanceTruthfulOverRuns` | `src/execution.rs:1184-1212` | In every reachable state each provenance row is true: the cited grant exists and names this principal, participant, capability, and covers resource and intent, or the principal is one that holds implicit authority. |
| `ProvenanceRuns.ProvenanceWritten` | `src/execution.rs:1184-1212` | Every provenance row of a reachable state was written by a step that created its message and at which the evaluator allowed this very principal with this source, reason and grant: the grant active, applicable and not expired or consumed, or the principal the participant itself or its GitHub owner with no durable grant in the way. |
| `ProvenanceRuns.SuccessEvidenced` | `src/execution.rs:1093-1180` | Every success leaves its own delivery, field by field, and the committed receipt of the returned message. |
| `Authorization.EvaluateAuthorization` | `src/authorization.rs:1139-1346` | The evaluator's early returns and scan compute the decision that `DecisionExact.AnswerExact` fixes in row columns. |
| `DecisionExact.ReasonExact` | `src/authorization.rs:1139-1346` | On arbitrary tables, for each of the sixteen reasons the row columns under which it and no other is given: missing or inactive participant, a matching durable grant, each kind of implicit authority, the delegated reasons by the most preferred applicable candidate or, when none applies, by the first thing wrong with the most preferred candidate, and the two refusals without a candidate. |
| `DecisionExact.AnswerExact` | `src/authorization.rs:1139-1346` | The whole decision on arbitrary tables is the one the rows call for: verdict and source that go with the reason, the preferred grant as the one cited, and a consumption exactly for a fresh one-shot match. |
| `ScanOrder.ScanExact` | `src/authorization.rs:1263-1326` | On arbitrary, possibly damaged tables the delegated scan allows exactly when some grant is usable and no applicable consumed grant without a receipt is preferred to every usable one. |
| `ScanOrder.DecideExact` | `src/authorization.rs:1139-1346` | On arbitrary tables a request is allowed exactly when the order-free rule allows it and it does not rest on delegated grants that a stale one hides. |
| `ScanOrder.OrderFreeExactly` | `src/authorization.rs:1139-1346` | The exact condition under which the evaluator agrees with the order-free rule on arbitrary tables. |
| `ScanOrder.OrderFree` | `src/authorization.rs:1139-1346` | On any tables in which consumption is receipted, allowed holds exactly when the participant is active and a durable grant matches, or no durable grant for the capability exists and implicit authority holds, or some delegated grant is usable. |
| `ScanOrder.AddingDelegatedGrantExactly` | `src/authorization.rs:1263-1326` | On arbitrary tables a request that was allowed stays allowed after any delegated row is added exactly if it does not rest on delegation or the new tables hide nothing from it. |
| `ScanOrder.AddingFreshGrantKeepsAuthority` | `src/authorization.rs:1263-1326` | Adding an unconsumed delegated row takes no authority away, on arbitrary tables. |
| `ScanOrder.AddingDelegatedGrantKeepsAuthority` | `src/authorization.rs:1263-1326` | Adding any delegated row takes no authority away where consumption is receipted. |
| `ScanOrder.DamagedTablesHideUsableGrant` | `src/authorization.rs:1263-1326` | Tables with an unreceipted consumption in which a usable grant is not honoured, meeting the exact condition. |
| `Authorization.ScanDecides` | `src/authorization.rs:1263-1326` | The scan decides at the first candidate that applies and otherwise denies. |
| `Authorization.ReadAuthority` | `src/authorization.rs:1348-1369` | Without an intent no delegated grant and no time takes part, and the decision cites a matching durable grant or implicit authority. |
| `Authorization.DecisionRestsOn` | `src/authorization.rs:1263-1326` | An allowed decision from the delegated store cites a candidate that applies, consumes it exactly when it is one-shot and fresh, and is a committed replay exactly when it is consumed and receipted. |
| `ImplicitAuthority.ImplicitExact` | `src/authorization.rs:1530-1604` | Without any grant, exactly these hold authority: the participant itself and its GitHub owner for conversational capabilities, a web administrator for each privileged capability on its own resource only and for channel management. |
| `ImplicitAuthority.PrivilegedIsolated` | `src/authorization.rs:1530-1604` | Where no durable grant is involved, being allowed one privileged capability on a resource allows no other privileged capability on it. |
| `AuthorizationPreference.CitedDurable` | `src/authorization.rs:1180-1210` | The durable grant cited is resource-specific before general and older before newer among all that match. |
| `AuthorizationPreference.CitedDelegated` | `src/authorization.rs:1230-1326` | The delegated grant cited is the most preferred that applies (intent-bound, then resource-bound, then one-shot, then oldest), and when none applies the most preferred candidate; which denial reason goes with it is `DecisionExact.ReasonExact`. |
| `EffectiveGrants.ReadEffectiveGrants` | `src/authorization.rs:1430-1506` | The summary covers a request exactly when the evaluator, asked without intent, allows it; it is empty for a missing or inactive participant and otherwise has one explicit entry for every active row of the principal, one implicit entry for every capability held without a grant, and no other, by capability name and then resource. |
| `Execution.ExecuteMessageIntent` | `src/execution.rs:927-1079` | The transaction, with its early returns and rollbacks, computes the tables and the outcome that `ExecutionTables.TablesExact` and `ExecutionOutcome.OutcomeExact` fix. |
| `Execution.RecordExecutionRows` | `src/execution.rs:1093-1180` | Delivery and receipt are inserted or compared with the stored ones; which comparisons refuse is `ExecutionOutcome.DeliveryReboundExact`, and that an identical delivery is accepted again is `ExecutionOutcome.IdenticalRetry`. |
| `Execution.ReplayIntent` | `src/execution.rs:983-1013` | A reserved intent is answered with its message, a conflict, or an error. |
| `Execution.CreateIntent` | `src/execution.rs:1014-1071` | Reserving with message id 0, appending and rebinding the reservation amounts to one bound reservation, and a missing reply target stops it. |
| `Execution.ConsumeDelegatedGrant` | `src/authorization.rs:1384-1402` | Consumption succeeds exactly on an active, fresh one-shot grant and then writes both consumption columns. |
| `Execution.RecordAuthorityRows` | `src/execution.rs:1184-1212` | Provenance is inserted, then the cited grant consumed, as specified. |
| `ExecutionPreservation.ReplayKeeps` | `src/execution.rs:983-1071` | A replay writes no provenance, message or consumption, and returns the reserved message. |
| `ExecutionPreservation.CreateKeeps` | `src/execution.rs:1014-1071` | A creation keeps the invariant and adds one bound reservation and one provenance row. |
| `ExecutionPreservation.DecisionFits` | `src/execution.rs:1060-1071` | A decision for an unreserved intent consumes a fresh one-shot grant or nothing, so consumption never fails. |
| `ExecutionAudit.VerifyExecutionAudit` | `src/execution.rs:443-770` | The verifier's sections, in order, give the report that `ExecutionAuditExact.ReportCodes` fixes code by code. |
| `ExecutionAuditExact.ReportCodes` | `src/execution.rs:443-770` | On arbitrary tables each of the checks and each of the defects is in the report if and only if the row columns call for it, in a fixed order, blank metadata and a missing scope once for each column they are found in; without a receipt there is one defect and nothing else. |
| `ExecutionAuditExact.ExaminedExact` | `src/execution.rs:515-570` | The reservation examined is the execution's own, otherwise of those with its nonce or its message the one with the nonce first and the oldest next, otherwise none. |
| `ExecutionAudit.ReportValidIffCoherent` | `src/execution.rs:443-770` | On arbitrary, possibly damaged tables the report is valid exactly when message, reservation, receipt, provenance, grant and deliveries of the execution agree. |
| `ExecutionSweep.SweepExecutionAudit` | `src/execution.rs:772-925` | The sweep over receipts, provenance, deliveries and reservations gives the lists and the verdict that `ExecutionSweep.SweepExact`, `ExecutionSweepExact.SweepShape` and `ExecutionSweep.SweepValidExact` fix. |
| `ExecutionSweep.SweepExact` | `src/execution.rs:772-925` | On arbitrary tables the sweep lists exactly the incoherent receipts, and exactly the evidence rows no receipt accounts for, each with kind, participant, intent and reference taken from its row: provenance, reservations, deliveries bound to nobody and deliveries without a receipt. |
| `ExecutionSweepExact.SweepShape` | `src/execution.rs:772-925` | On arbitrary tables no orphan is listed twice, orphans are in the order of kind name, participant, intent and reference, invalid executions in the order of participant and intent, and as many receipts are counted as there are. |
| `ExecutionSweep.SweepValidExact` | `src/execution.rs:772-925` | On arbitrary tables the sweep is valid exactly when every receipt is coherent and every evidence row is accounted for. |
| `AuditBundle.GetExecutionAuditBundle` | `src/execution.rs:405-441` | The bundle holds the receipt, its provenance and its deliveries in order. |
| `AuditBundle.BundleExact` | `src/execution.rs:405-441` | On arbitrary tables there is a bundle exactly with a receipt; it holds the receipt, the provenance if there is one, and every stored delivery of its participant and intent, older first and then by delivery id. |
| `AuditBundle.BundleStable` | `src/execution.rs:405-441` | A later bundle of an execution has the same receipt and provenance and keeps every delivery, in order, among new ones. |
| `PolicyAudit.AuditAuthorizationIntegrity` | `src/authorization.rs:654-997` | The audit's scans, grouping map and final sort give the specified violation list. |
| `PolicyAudit.ReportExact` | `src/authorization.rs:654-997` | On arbitrary tables the audit lists exactly the violations the rows call for. |
| `PolicyAuditExact.ViolationsExact` | `src/authorization.rs:654-997` | On arbitrary tables, for each of the fifteen kinds and both stores: the row columns under which it is reported, with grant, participant and detail text, a duplicate scope under its least id with all ids; each once, in the order of store name, id, kind name and detail. |
| `PolicyAuditExact.ScannedExact` | `src/authorization.rs:991-996` | The two counts are the sizes of the tables. |
| `PolicyAuditOnce.ReportedOnce` | `src/authorization.rs:654-997` | On arbitrary tables the audit lists each violation the rows call for exactly once. |
| `PolicyAudit.DuplicateScopeExact` | `src/authorization.rs:760-806` | A durable scope is flagged as duplicate exactly when two distinct rows share it. |
| `PolicyAudit.KeyDeterminesFinding` | `src/authorization.rs:984-990` | Two findings with equal sort keys are the same violation. |
| `PolicyAudit.SortedFindingsUnique` | `src/authorization.rs:984-990` | Sorting makes the list the same whatever order the findings were pushed in, so hash-map iteration order never shows. |
| `Administration.Administrate` | `src/authorization_admin.rs:556-586` | A request, remote or local, is normalized, authorized inside the transaction and applied; `AdministrationExact.AdministerExact` fixes answer and tables. |
| `AdministrationExact.AdministerExact` | `src/authorization_admin.rs:407-1075` | Where grant rows are as the administration writes them, the exact answer to every command in request fields and row columns: the first refused field of caller and request in order, authorization denied exactly when the order-free rule denies the administration resource, unknown or inactive participant, expiry not in the future, created, existing or reactivated by the row of the scope, deactivated 1 or 0 by its status, missing, and not positive exactly for ids below 1; and the one row and one event it writes, column by column. |
| `AdministrationExact.AnswerUnique` | `src/authorization_admin.rs:407-1075` | That promise determines the answer. |
| `AdministrationExact.NamesExact` | `src/authorization.rs:8-46` | Each of the twelve capability texts is read as its own capability. |
| `Administration.CreateDurableGrantInTx` | `src/authorization_admin.rs:436-540` | Create, find or reactivate a durable grant with its event. |
| `Administration.DeactivateDurableGrantInTx` | `src/authorization_admin.rs:588-687` | Deactivate the active rows of the scope of the given grant, one event each; `AdministrationExact.AdministerExact` says for which ids it is accepted. |
| `Administration.CreateDelegatedGrantInTx` | `src/authorization_admin.rs:766-817` | Create a delegated grant with its event unless participant or expiry forbid it. |
| `Administration.DeactivateDelegatedGrantInTx` | `src/authorization_admin.rs:865-930` | Deactivate a delegated grant with its event, once. |
| `Administration.ParseCapabilityExact` | `src/authorization.rs:29-46` | A capability text is read as an unknown one exactly if it is none of the known names. |
| `Administration.NormalizeActor` | `src/authorization_admin.rs:976-1005` | An accepted remote actor is the trimmed caller. |
| `AdministrationLog.AdministerLogged` | `src/authorization_admin.rs:436-540` | Every request either changes nothing at all, or was allowed and changes one standing with one event by the normalized caller. |
| `AdministrationLog.LoggedChangeKeepsLog` | `src/authorization_admin.rs:1022-1055` | One logged change keeps the log equal to the policy. |
| `AdministrationEffects.CreateDurableEffect` | `src/authorization_admin.rs:407-540` | An accepted durable creation leaves, under the reported id, an active grant with exactly the trimmed columns asked for. |
| `AdministrationEffects.CreateDelegatedEffect` | `src/authorization_admin.rs:733-817` | An accepted delegated creation leaves a new, unconsumed, active grant with exactly the columns asked for and an expiry in the future. |
| `AdministrationEffects.DeactivationEffect` | `src/authorization_admin.rs:588-687` | A deactivation is accepted if and only if the caller is local or acceptable and authorized and the grant is stored; it leaves the grant inactive and reports whether it was active. |
| `AdministrationEffects.GrantTakesEffect` | `src/authorization_admin.rs:436-540` | In a state with the invariant, an accepted durable creation makes the evaluator allow every covered request of that principal from then on. |
| `AdministrationEffects.RevocationTakesEffect` | `src/authorization_admin.rs:588-687` | After an accepted deactivation no allowed decision rests on that grant. |
| `AdministrationEffects.RevocationExact` | `src/authorization_admin.rs:588-687` | In a state with the invariant, after an accepted deactivation every request, with or without an intent, is decided exactly by the order-free rule on the tables before it with that grant left out. |
| `AdministrationEffects.RevocationRevivesImplicit` | `src/authorization.rs:1195-1215` | Deactivating, by any admitted caller, the last durable grant of a principal for a capability is accepted and revives the implicit authority it suppressed. |
| `Board.AppendNavigationMessage` | `src/db.rs:418-489` | The legacy append, with its rollbacks, computes the specified tables and result. |
| `Board.NavigationAnswerExact` | `src/db.rs:418-489` | A known nonce is answered by its hash, the stored message for the same and a conflict for another; a new nonce is refused only for a missing reply target, and otherwise creates the message asked for. |
| `Board.NavigationTablesExact` | `src/db.rs:418-489` | A legacy creation writes its message, its channel and its reservation, column by column, and nothing else; any other answer writes nothing. |
| `Board.EnsureChannelExact` | `src/db.rs:297-308` | A missing channel is created active, public only for the lounge, with its creator; a stored one is left alone. |
| `Preservation.AppendAdds` | `src/db.rs:393-408` | In a state with the invariant a plain append adds one message under an id above every earlier one, saying what was sent, which no reservation or receipt names; its channel exists afterwards, active and private unless it is the lounge when new, untouched when old; nothing else changes. |
| `Board.UpdateChannelRow` | `src/db.rs:334-356` | The four forms of the channel update change exactly the given columns of an existing row. |
| `Board.UpdateChannelExact` | `src/db.rs:334-356` | Each value given is stored, every other column and channel stays, and the answer says whether there was anything to store in a stored channel. |
| `Preservation.NavigationKeeps` | `src/db.rs:418-489` | The legacy append keeps the invariant, never fails to find its message, and changes nothing unless it creates. |
| `Preservation.AdminKeeps` | `src/authorization_admin.rs:436-540` | Administration keeps the invariant and leaves all execution evidence and consumption alone. |
| `Preservation.LifecycleKeeps` | `src/identity.rs:98-148` | Participant changes keep the invariant and leave all execution evidence alone. |
| `Lifecycle.ChangeParticipantRow` | `src/identity.rs:98-148` | Provisioning, status, role and owner changes validate and update as specified. |
| `Lifecycle.ChangeParticipantExact` | `src/identity.rs:98-148` | Which requests are refused; a new participant is an active user without owner under its trimmed id and source; each setter stores its one column in the row of exactly the id given. |
| `Totp.TotpStore.Authenticate` | `src/identity.rs:195-286` | One attempt changes only that participant's row, to the specified one, and accepts exactly as specified. |
| `Totp.AttemptExact` | `src/identity.rs:195-286` | Verdict and row of one attempt in columns: a fresh code on an unlocked active row is accepted, stores its step and clears counter and lock; a wrong code counts, from zero after a lock, and the fifth locks for a minute; anything else changes nothing. |
| `Totp.SuccessStartsOver` | `src/identity.rs:235-251` | After a success no run of fewer than five wrong codes locks the row: a later fresh code is accepted, whatever the clock and whatever was counted before. |
| `Totp.LockoutBound` | `src/identity.rs:195-286` | With a clock that does not run backwards and no success, N evaluated wrong codes satisfy floor((N-1)/5) * 60 <= tN - t1. |
| `Totp.LockoutHoldsExactly` | `src/identity.rs:259-273` | Given a code that matches no step at time t, the bound holds for all runs that end by t if and only if t is below 2^63 - 1. |
| `Totp.WrongCodesCounted` | `src/identity.rs:253-283` | The counter is the number of wrong codes modulo five, and it is zero exactly when the last of them locked the row until 60 seconds later. |
| `Totp.CounterBounded` | `src/identity.rs:253-283` | The counter stays below the failure limit over any run. |
| `Totp.AcceptedStepsIncrease` | `src/identity.rs:235-251` | Accepted steps strictly increase over any run, also with a clock that runs backwards. |
| `Paging.ReadPage` | `src/authorization.rs:466-505` | Fetching one row more and truncating gives the page after the cursor and whether more rows remain. |
| `Paging.ReadProbedPage` | `src/history.rs:132-141` | Fetching the page and probing for a row beyond its last gives the same page and the same answer. |
| `Paging.WalkAscends` | `src/authorization.rs:507-614` | A client that follows cursors through a changing table reads keys in strictly ascending order, so no key twice. |
| `Paging.WalkCompletes` | `src/authorization.rs:507-614` | A client that stopped at a page without more has read every key that was in the table at every page. |
| `Paging.WalkStops` | `src/authorization.rs:507-614` | However a table changes, a client stops by itself once its pages had room for every key there ever was in it. |
| `PagingExact.AscendingStopsExactly` | `src/authorization.rs:507-614` | On a table whose keys stay and whose new keys lie above all old ones, a client that follows the order stops if and only if at some page i, counted from 0, the table then has at most (i + 1) * limit rows. |
| `PagingExact.DescendingStopsExactly` | `src/authorization.rs:507-614` | On a table whose keys stay and whose new keys lie before all old ones in the order followed, a client stops if and only if its pages together hold the table its first page found. |
| `Paging.FixedTableWalk` | `src/authorization.rs:384-436` | On a fixed table, for any page size and any order, following the cursors terminates within as many pages as hold the table and reads exactly the sorted table. |
| `Paging.RestOfPage` | `src/authorization.rs:384-436` | On a fixed table the rows after the next cursor are exactly the rows the page left. |
| `Windows.ReadAuthorizationPolicyWindow` | `src/authorization.rs:438-505` | The policy window validates its request and returns the specified page of the chosen store. |
| `WindowsExact.PolicyWindowExact` | `src/authorization.rs:438-505` | An unknown store, an unknown order, a cursor against the order or below 1 and a limit outside 1 to 200 are refused; otherwise the page holds the rows of the chosen store behind the cursor, in order, up to the limit, with more exactly when one is left out. |
| `Windows.ReadAdministrationEventWindow` | `src/authorization_admin.rs:302-405` | The history window validates its request and returns the specified page of the filtered log. |
| `WindowsExact.EventWindowExact` | `src/authorization_admin.rs:302-405` | The history page, on the same requests, holds the events whose target participant is the trimmed filter, or all; a filter that is no participant id is refused. |
| `Windows.ReadMessageWindow` | `src/history.rs:67-229` | The message window checks channel name, request and viewer in this order and returns the specified page, asking for more with a probe; a page is shown only to an identified viewer or to a guest of a public active channel, and holds only messages of the channel. |
| `WindowsExact.MessageWindowExact` | `src/history.rs:67-229` | The message page holds the messages of the channel; the refusals come in the order channel name, request, a guest of a channel that is missing, private or archived, unknown viewer. |
| `Windows.ReadChannelDirectoryWindow` | `src/db.rs:185-253` | The directory page after a name, each row with its message count and last message id. |
| `WindowsExact.DirectoryWindowExact` | `src/db.rs:185-253` | The directory page holds the channels after the cursor by name, in the public listing the public active ones alone, each with the number of its messages and the id of the last or 0. |
| `WindowRuns.ReadAuthorizationPolicySnapshot` | `src/authorization.rs:384-436` | The page loop terminates; the result is both tables complete and sorted, or the error exactly when the first page boundary is not a valid cursor. |
| `WindowRuns.SnapshotSucceeds` | `src/authorization.rs:384-436` | In a reachable state the snapshot never fails. |
| `WindowRuns.UnpageableTable` | `src/authorization.rs:384-436` | A damaged table of 201 rows, the first 200 with ids that are not positive, which the snapshot cannot page. |
| `WindowWalks.HistoryWalk` | `src/authorization_admin.rs:302-405` | A client that follows the history reader's answers from call to call while the kernel runs reads no event twice, in either order; once it stopped it has read every event there at its first call; and it stops if and only if its pages have room: ascending, for the log at some page, descending, for the log at the first. |
| `WindowWalks.MessageWalk` | `src/history.rs:158-229` | The same for the message reader and the messages of a channel. |
| `WindowWalks.PolicyWalk` | `src/authorization.rs:438-614` | The same for the policy reader and both grant tables, whose rows change between pages but never leave. |
| `WindowWalks.ReaderOutrun` | `src/history.rs:158-229` | For every page size and every number of pages, a guarded run with one message more than a page at first and a page of messages added between pages, in which an ascending reader is told at every page that there is more. |
| `WindowWalks.DirectoryWalk` | `src/db.rs:185-253` | A client that follows the directory reader's names sees them strictly ascend; once it stopped it was shown every channel listed at all of its calls; it stops once its pages have room for the channels, and, where new names come after all old ones or before them all, exactly as an id reader does. |
| `ChannelRuns.RunChannels` | `src/db.rs:297-356` | No step of any run deletes a channel. |
| `IdRuns.RunNumbered` | `src/db.rs:393-408` | In every reachable state the ids of messages, durable and delegated grants are exactly 1 to the last handed out. |
| `IdRuns.RunIdsGrow` | `src/authorization_admin.rs:436-540` | From any state of a run to a later one the ids of messages and grants stay and new ones lie above every old one. |
| `Migration.MigrateExecutionRows` | `src/execution.rs:265-296` | The two updates fill a null capability from the execution's own receipt and a null participant with the only holder of a receipt for the intent, row by row, change nothing else, and repeating them changes nothing. |
| `Migration.BackfilledUnique` | `src/execution.rs:265-296` | That promise determines the tables: no two results meet it. |
| `Migration.MigrationConservative` | `src/execution.rs:265-296` | On any tables only null capabilities and null participants change, and no other column or table. |
| `Migration.BackfillParticipantExact` | `src/execution.rs:281-295` | A null participant becomes p exactly when p alone holds a receipt for the intent. |
| `Migration.BackfillCapabilityExact` | `src/execution.rs:265-279` | A null capability becomes c exactly when the execution's own receipt says c. |
| `Migration.MigrationIdempotent` | `src/execution.rs:265-296` | Running the updates again changes nothing, on any tables. |
| `Migration.MigrationKeepsCoherent` | `src/execution.rs:443-770` | An execution the verifier accepts before the updates is accepted after them, on any tables. |
| `Migration.MigrationOfReachable` | `src/execution.rs:265-296` | On a reachable state the updates are the identity. |
| `Order.OrderRows` | `src/authorization.rs:1230-1262` | Picking least rows one by one gives the one strictly sorted sequence of the rows. |
| `Order.SelectionUnique` | `src/authorization.rs:1230-1262` | Rows and a key that tells them apart determine the query result. |
| `Text.TrimExact` | `src/authorization_admin.rs:1057-1063` | Trimming takes the space at both ends and nothing else. |
| `Text.ByteLengthExact` | `src/authorization_admin.rs:1057-1063` | The length limits count the bytes of the UTF-8 form. |
| `Text.DecimalReadsBack` | `src/execution.rs:822-826` | The number in a rendered reference reads back as the number. |

## Left out

- HTTP, MCP, webhook and command-line adapters: argument parsing and response shaping. What the kernel needs of them is `Kernel.Guarded` and `Runs.HonestNavigation`.
- Hashing, HMAC, token verification and random ids: library calls; the hash and the TOTP match are parameters, principals arrive verified.
- The start-up statement that makes the participant cheng-main an admin when the role column is added (src/db.rs:112): it is not a step of its own; its effect on a stored row is that of a role change by `Lifecycle.ChangeParticipantRow`.
- Schema creation and detection, `ALTER TABLE`, pragmas, backup: SQLite behaviour. All tables and columns are present, so the branches for missing tables are not modelled.
- Damaged keys: a primary key is a map's domain, so the verifier's codes for rows whose key differs from the key they were found under, and its duplicate-provenance code, cannot occur and are not modelled.
- Interleaving inside a transaction: committed transactions are atomic steps in any order.
- Deletion: no writer of the kernel deletes rows, and message ids are the largest so far plus one.
- Column values of enumerated text (channel, participant and role columns with SQL checks) are enumerations; grant and receipt status, source and capability keep a case for any other text. The constructors for other text (`OtherCapability`, `OtherGrantStatus`, `OtherReceiptStatus`, `OtherSource`) stand for text that is none of the named ones; a value that carries the text of a named one stands for no stored row, and the writers never make one (`Administration.ParseCapabilityExact`).
- `created_at` of messages, deliveries and reservations is modelled; `updated_at` and the remaining `created_at` columns are not.
- Labels, owner logins and TOTP enrolment: `Totp.Sound` is what enrolment leaves in a row.
- The reservation shown by the verifier when the exact one is missing: SQLite leaves ties of age open, here the key breaks them; the verdict does not depend on it.
- Errors of rusqlite: the different causes of one `InvalidQuery` are told apart here.
- Local administration runs as the local command line; callers of the unauthorized variants with a remote actor are not modelled.
- Execution.ConsumeDelegatedGrant: reports failure as a boolean where the source returns an error.
- Windows.ReadMessageWindow: who the viewer is, a guest, identified or unknown, is established by the adapter from the request's headers and is a parameter here; the codes invalid_query and invalid_order are one.
