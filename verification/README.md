# A verified model of the control plane's bounded state machines

This project models the in-memory state machines of the ChatGPT development control plane and
proves what they guarantee over whole runs, in Dafny 4.11. Check it with
`dafny verify dfyconfig.toml`.

What is modelled, one group of modules for each part:

- **Writer leases** (`LeasePaths`, `Leases`, `LeaseGrants`, `LeaseTerms`, `LeaseManager`): the path and resource
  allocator with expiry, restore, and a change journal written before every table update.
- **Task ledger** (`Ledger`, `LedgerTerms`, `LedgerRestores`, `LedgerRuns`, `LedgerHistory`, `TaskLedger`):
  eleven task states with reset edges, ownership, idempotent enqueue, eviction, and restores at any time.
- **Capability gateway** (`Gateway`, `GatewayRuns`, `GatewayTerms`, `GatewayRejections`,
  `GatewayAuthority`, `StableGateway`): preflight and execute of any number of gateways over one store, as interleaved
  atomic steps, and the registrations their handlers and delegated authority come from.
- **Development loop** (`DevelopmentLoop`, `LoopHistory`, `LoopTransitions`, `LoopStreams`): budgets,
  stagnation counters, history, remediation, and streams in which events are refused.
- **Context packs** (`Utf8`, `ContextPacks`) and **analysis packs** (`AnalysisPacks`): UTF-8
  budgeted packing (section 3 of RFC 3629) and the shrinking loop.
- **Decision memory** (`DecisionMemory`): supersession chains, conflicts, independence of order.
- **Candidate requests** (`RelativePaths`, `CandidateRequests`, `CandidateTerms`, `CandidateParser`): parser and printer.
- **Credential grants** (`Credentials`, `CredentialRuns`, `CredentialScopes`, `CommandProfiles`): one-shot grants named by
  command preflights.
- **Logical connections** (`Largest`, `Connections`, `ConnectionRuns`, `ConnectionManager`): rotation
  and the bounded set of retired markers.

`Wrappers`, `OrderedDict` and `Sorting` are shared helpers.

How a part is built: an object whose methods change its fields is a class, and each method is proved
equal to a function of the old state; the functions also define runs, that is, sequences of calls, and
the theorems about runs are lemmas over those functions. A dictionary whose order matters (expiry,
eviction) is a sequence of key-value pairs without repeated keys. Time, random ids, the callback's
answers, the registry, the keychain, the file system and the outcome of foreign calls are arguments of
each call; a callback that may raise is a function from the notification to a truth value. SHA-256 is
a constructor, hence injective. What such a function computes is stated a second time, written out from
the inputs alone (`LeaseTerms`, `LedgerTerms`, `GatewayTerms`, `LoopTransitions`, `CandidateTerms` and the
lemmas named `...Exactly`). Random ids are assumed new where a theorem needs it (`FreshIds`). A lock
makes the code under it one atomic step.

Where the code and its prose disagree, the code is modelled. `README.md:443` and `README.md:459` of the
repository say that overlapping paths conflict across the logical project; `acquire` compares paths only
inside one working tree (`LeaseTerms.GrantedExactly`), and resources across all
workspaces. `restore` compares paths across working trees, but resources only inside one workspace;
`LeaseGrants.RunExclusiveIff` gives the exact condition under which that never lets two leases hold one
resource. `_normalize_relative_path` of the candidate request is meant to refuse dot components; it
accepts the path "." (`RelativePaths.SafePathExact`).

Three behaviours that a reader of the code may not expect, each with the run that shows it and the exact
condition for its absence. Registering a plain handler over a delegated one leaves its id delegated, so
the plain handler runs R3 capabilities unconfirmed (`GatewayAuthority.PlainHandlerInherits`,
`HandlerItselfDelegatedIff`). A command whose process cannot be started has spent its credential grants
already (`CredentialRuns.FailedStartReached`, `RunSpendsExactly`). A copy of a loop event that was refused
may be accepted later (`LoopStreams.CopyCanAct`, `InsertionHarmlessIff`).

## Model

| member | source | states |
|---|---|---|
| LeasePaths.CoveringScopesOverlap | src/chatgpt_dev_mcp/director.py:611-615 | Two scopes that cover two spellings of one path, equal after case folding, always overlap by the allocator's test |
| LeasePaths.OverlapIsExact | src/chatgpt_dev_mcp/director.py:611-615 | The overlap test holds exactly when some folded text lies within both scopes: no false alarm |
| LeasePaths.FoldChar | src/chatgpt_dev_mcp/director.py:613-614 | Folding a text folds each of its code points |
| Leases.PruneExact | src/chatgpt_dev_mcp/director.py:617-623 | A sweep keeps every unexpired lease and nothing else; one whose notification raises part-way keeps every unexpired lease and an expired one whose notice was refused |
| Leases.PruneReplay | src/chatgpt_dev_mcp/director.py:617-623 | Replaying the expiry notices delivered by a sweep removes exactly what the sweep removed, also when it raised |
| Leases.ApplySafe | src/chatgpt_dev_mcp/director.py:589-821 | Every single call keeps the table pairwise compatible and equal to its replayed journal |
| Leases.RunSafe | src/chatgpt_dev_mcp/director.py:607-815 | In every run, with notifications raising anywhere, held leases are pairwise compatible and replaying the journal over the last restored table gives exactly the table |
| Leases.NoPathCoveredTwice | src/chatgpt_dev_mcp/director.py:881-897 | In every run no path is covered by two held leases of one workspace and working tree, not even under spellings equal after case folding |
| LeaseTerms.GrantedTerms | src/chatgpt_dev_mcp/director.py:629-713 | A granted lease has, field by field, what the request gives or its default, the deadline now + ttl, the sorted digests, and is workspace-wide exactly if no paths are given or that is asked for; it is the lease stored and notified |
| LeaseTerms.InvalidExactly | src/chatgpt_dev_mcp/director.py:643-678 | A request is refused as invalid, and nothing happens, exactly when a name, path, resource or digest is not valid or repeated, or the scope is empty |
| LeaseTerms.GrantedExactly | src/chatgpt_dev_mcp/director.py:679-713 | A valid request is granted if and only if no unexpired lease shares a resource with it, is workspace-wide or would be met by a workspace-wide one in its workspace, or has an overlapping path in its working tree; the table afterwards is given exactly in both cases |
| LeaseTerms.RefusedBecause | src/chatgpt_dev_mcp/director.py:679-695 | The first unexpired lease in the way decides the error: a resource first, then the workspace, then the paths |
| LeaseTerms.GrantGuardsItsPaths | src/chatgpt_dev_mcp/director.py:679-766 | In every run, from its acquire until it is no longer held unexpired, a lease keeps any request of its working tree with an overlapping path from being granted, however it was refreshed or its snapshot replaced |
| LeaseGrants.RestoreExact | src/chatgpt_dev_mcp/director.py:790-815 | A lease is restored exactly when it is unexpired and meets no held lease of its workspace; one left out changes nothing |
| LeaseGrants.RefreshExact | src/chatgpt_dev_mcp/director.py:715-727 | A refresh succeeds exactly for an unexpired held lease of that id and owner, so it never revives one; only that lease's deadline changes |
| LeaseGrants.SnapshotExact | src/chatgpt_dev_mcp/director.py:729-766 | A snapshot update succeeds exactly for such a lease and leaves its deadline and scope as they were |
| LeaseTerms.SnapshotTerms | src/chatgpt_dev_mcp/director.py:752-766 | A snapshot update stores the given revision, state hash and sorted digests, and nothing else |
| LeaseTerms.SnapshotInvalidExactly | src/chatgpt_dev_mcp/director.py:739-751 | It is refused as invalid exactly when a text is, or a digest is not of a path in the argument's scope |
| LeaseTerms.CoversExactly | src/chatgpt_dev_mcp/director.py:881-897 | A lease covers a list exactly when it names every resource and every path is one of its own or below one, unless it is workspace-wide |
| LeaseTerms.GetExactly | src/chatgpt_dev_mcp/director.py:817-821 | A lookup finds exactly the unexpired lease held under the id |
| LeaseGrants.DropExact | src/chatgpt_dev_mcp/director.py:768-788 | Release and suspend take exactly the owner's lease out of the table, after one notice; without ownership, or when the notice raises, nothing changes |
| LeaseGrants.HeldAgainstOthers | src/chatgpt_dev_mcp/director.py:715-788 | A held lease survives unchanged every call made before it expires by anyone who does not present its id and owner |
| LeaseGrants.ResourceHeldOncePerWorkspace | src/chatgpt_dev_mcp/director.py:679-695 | In every run a runtime resource has at most one holder in a workspace |
| LeaseGrants.RestoreExclusiveIff | src/chatgpt_dev_mcp/director.py:797-814 | A restore keeps resources exclusive across workspaces at each of its points if and only if each lease it stores is clear of the leases of other workspaces |
| LeaseGrants.CallExclusiveIff | src/chatgpt_dev_mcp/director.py:679-815 | One call keeps resources exclusive if and only if a restore it makes stores only leases clear elsewhere; no other call can break it |
| LeaseGrants.RunExclusiveIff | src/chatgpt_dev_mcp/director.py:679-815 | Over a whole run no resource ever has two holders in any workspaces if and only if every restore stored only leases clear of other workspaces |
| LeaseGrants.RestoreCanShareResource | src/chatgpt_dev_mcp/director.py:797-814 | The condition is needed: from any single held lease with a resource, restoring a lease of another workspace gives the resource two holders |
| LeaseGrants.AcquireReaches | src/chatgpt_dev_mcp/director.py:629-713 | Such a table is reached by one acquire |
| LeaseManager.WriterLeaseManager.constructor | src/chatgpt_dev_mcp/director.py:592-605 | A new manager holds nothing and has an empty journal |
| LeaseManager.WriterLeaseManager.Sweep | src/chatgpt_dev_mcp/director.py:617-623 | Notifies and drops the expired leases one by one; table, journal and outcome are those of `Prune`, also when a notification raises |
| LeaseManager.WriterLeaseManager.Write | src/chatgpt_dev_mcp/director.py:711-713 | Journals before storing; a raising notification stores nothing |
| LeaseManager.WriterLeaseManager.Conflict | src/chatgpt_dev_mcp/director.py:681-695 | Reports the first held lease that refuses the new one, and none exactly when none refuses |
| LeaseManager.WriterLeaseManager.Acquire | src/chatgpt_dev_mcp/director.py:629-713 | Table, journal and result are those of the specified acquire, and a granted lease has the terms of its request |
| LeaseManager.WriterLeaseManager.Refresh | src/chatgpt_dev_mcp/director.py:715-727 | Renews only the owner's current lease, journalled first |
| LeaseManager.WriterLeaseManager.UpdateSnapshot | src/chatgpt_dev_mcp/director.py:729-766 | Replaces the snapshot evidence of the owner's current lease, journalled first |
| LeaseManager.WriterLeaseManager.Release | src/chatgpt_dev_mcp/director.py:768-776 | Drops the owner's lease after a "released" notice |
| LeaseManager.WriterLeaseManager.Suspend | src/chatgpt_dev_mcp/director.py:778-788 | Drops the owner's lease after a "stale" notice |
| LeaseManager.WriterLeaseManager.Blocked | src/chatgpt_dev_mcp/director.py:797-810 | True exactly when some held lease of the same workspace conflicts with the one to restore |
| LeaseManager.WriterLeaseManager.Restore | src/chatgpt_dev_mcp/director.py:790-815 | Stores exactly the accepted leases in order, and makes the result the base of the journal |
| LeaseManager.WriterLeaseManager.Get | src/chatgpt_dev_mcp/director.py:817-821 | Sweeps, then looks up |
| LedgerRuns.RunBounded | src/chatgpt_dev_mcp/director.py:1005-1444 | In every run, with restores anywhere: at most `max_records` tasks, each under its own id, and the ledger is its last restored table with the journal since replayed, without some tasks in evictable states, whichever notifications raised |
| LedgerRuns.RunOneEachIff | src/chatgpt_dev_mcp/director.py:1063-1069 | Over a whole run no two tasks ever have one request of one workspace if and only if every restore was clear: no two of the receipts it merges and keeps have one request |
| LedgerRuns.EnqueueIdempotent | src/chatgpt_dev_mcp/director.py:1063-1069 | In every run, repeating the enqueue of a held request returns a held task of that request unchanged, the only one if every restore was clear, or refuses another title; nothing is stored |
| LedgerRuns.EvictsOldest | src/chatgpt_dev_mcp/director.py:1005-1015 | A full ledger drops exactly one task, an evictable one that no other evictable task predates, and refuses exactly when none is evictable |
| LedgerTerms.EditExactly | src/chatgpt_dev_mcp/director.py:1156-1410 | An edit succeeds if and only if its arguments are valid, the task is held, and its state, owner, lease and revision permit it; then exactly that task becomes what the edit says, every field given |
| LedgerTerms.EditTerms | src/chatgpt_dev_mcp/director.py:1156-1410 | Whatever an edit returns is a held task changed by it as its state permitted, also if the callback refuses others |
| LedgerTerms.EdgesExactly | src/chatgpt_dev_mcp/director.py:1110-1122 | The transition table, listed by the state each transition leads to |
| LedgerTerms.MoveRefused | src/chatgpt_dev_mcp/director.py:1123-1128 | A transition is refused for another owner, then another lease, then the states |
| LedgerTerms.EditRefused | src/chatgpt_dev_mcp/director.py:1248-1410 | Why a start, a rollback, a resume, a reactivation or an end is refused |
| LedgerTerms.EnqueueExactly | src/chatgpt_dev_mcp/director.py:1031-1091 | A request not held becomes a queued, unowned task with what the request gives, if and only if its arguments are valid and there is room or an evictable task |
| LedgerTerms.EvictableExactly | src/chatgpt_dev_mcp/director.py:1005-1015 | Evictable are exactly the states without a transition |
| LedgerTerms.RevivedExactly | src/chatgpt_dev_mcp/director.py:1418-1436 | A restored receipt changes only from stale to review-ready, and exactly in the pushed shape |
| LedgerRestores.MergedExact | src/chatgpt_dev_mcp/director.py:1418-1441 | A restore merges the last given receipt of each task, revived if it has the pushed stale shape, and the held tasks that are not given |
| LedgerRestores.RestoreExact | src/chatgpt_dev_mcp/director.py:1412-1444 | A restored ledger holds exactly the merged receipts with fewer than `max_records` younger ones, each under its own id |
| LedgerRestores.RestoreKeepsYoungest | src/chatgpt_dev_mcp/director.py:1442-1444 | What a restore leaves out is no younger than anything it keeps |
| LedgerRestores.RestoreOneEachIff | src/chatgpt_dev_mcp/director.py:1437-1444 | A restore leaves one task for each request if and only if no two merged receipts of one request are both among the youngest `max_records` |
| LedgerRestores.UncutOneEachIff | src/chatgpt_dev_mcp/director.py:1437-1444 | When nothing is cut: if and only if the merged receipts have unique pairs of workspace and request |
| LedgerRestores.RestoreCanRepeatRequest | src/chatgpt_dev_mcp/director.py:1437-1441 | The condition is needed: next to any held task of a ledger that is not full, a restored receipt with its request and another id is stored too |
| LedgerHistory.ForwardBudget | src/chatgpt_dev_mcp/director.py:1093-1154 | Per task, in every run, since the last restore: forward status changes F and resets R satisfy F <= A + 5R, where A is 6 for a new task and otherwise the number of states ahead of the restored one |
| LedgerHistory.EveryEntry | src/chatgpt_dev_mcp/director.py:1093-1410 | Every receipt stored since the last restore replaces the previous one of its task, by an edit that was permitted and with every field as the edit says; succeeded, failed, cancelled and blocked are never left; an owner only gives way to none, by rollback or resume; the request is never rewritten, and receipts are dropped only when a stale task is taken up again; succeeded and failed tasks were stored as running before, or restored in a state past their start |
| TaskLedger.TaskLedger.constructor | src/chatgpt_dev_mcp/director.py:965-978 | A new ledger is empty |
| TaskLedger.TaskLedger.Save | src/chatgpt_dev_mcp/director.py:1089-1091 | Notifies before storing; a raising notification stores nothing |
| TaskLedger.TaskLedger.TrimForInsert | src/chatgpt_dev_mcp/director.py:1005-1015 | Evicts oldest evictable tasks until one place is free, or fails with what is left |
| TaskLedger.TaskLedger.Enqueue | src/chatgpt_dev_mcp/director.py:1031-1091 | Table, journal and result are those of the specified enqueue |
| TaskLedger.TaskLedger.BindExecution | src/chatgpt_dev_mcp/director.py:1156-1189 | Stores the task with its execution identity |
| TaskLedger.TaskLedger.Transition | src/chatgpt_dev_mcp/director.py:1191-1246 | Stores the transition that ownership, lease binding and the state table allow, or raises |
| TaskLedger.TaskLedger.StartTask | src/chatgpt_dev_mcp/director.py:1248-1262 | Starts a startable task; the writer that already runs it gets it back without a store |
| TaskLedger.TaskLedger.RollbackClaim | src/chatgpt_dev_mcp/director.py:1264-1287 | Returns a leased or running task to ready and clears its claim |
| TaskLedger.TaskLedger.ResumeTask | src/chatgpt_dev_mcp/director.py:1289-1332 | Returns the owner's stale task to ready without its write evidence |
| TaskLedger.TaskLedger.ReactivateTask | src/chatgpt_dev_mcp/director.py:1334-1379 | Returns the owner's stale task to running under a new lease |
| TaskLedger.TaskLedger.FinishTask | src/chatgpt_dev_mcp/director.py:1381-1410 | Ends the owner's active task along the state table |
| TaskLedger.TaskLedger.RestoreRecords | src/chatgpt_dev_mcp/director.py:1412-1444 | Clearing, storing one by one, sorting and cutting gives the specified restore, which is the base of the journal from then on |
| GatewayRuns.PrunedExact | src/chatgpt_dev_mcp/capability_gateway_mcp.py:445-457 | Pruning keeps only unexpired receipts up to the limit, and drops an unexpired one only when the limit is full of receipts at least as new |
| GatewayRejections.RejectionKeepsReceipt | src/chatgpt_dev_mcp/capability_gateway_mcp.py:267-316 | In every run a rejected attempt starts nothing and marks nothing as spent: each unexpired receipt is still held and is found usable at every time before it expires |
| GatewayRuns.PreflightThenExecute | src/chatgpt_dev_mcp/capability_gateway_mcp.py:161-320 | A held, unexpired receipt is honoured when the execution repeats its preflight with the exact confirmation and nothing changed |
| GatewayRuns.CheckedMatches | src/chatgpt_dev_mcp/capability_gateway_mcp.py:286-316 | Whatever passes the checks matches its receipt in every pinned field, in time and confirmed, and is authorized for its risk class |
| GatewayTerms.PinsExactly | src/chatgpt_dev_mcp/capability_gateway_mcp.py:418-443 | Two contexts are pinned alike if and only if all twelve fields agree, grants as sets |
| GatewayTerms.MeetsExactly | src/chatgpt_dev_mcp/capability_gateway_mcp.py:385-416 | A context passes exactly when it has the workspace, session, writer lease, policy, credentials, network and trust that the capability demands |
| GatewayTerms.ContextRefused | src/chatgpt_dev_mcp/capability_gateway_mcp.py:385-416 | Which demand refuses a context: the first it misses |
| GatewayTerms.ApprovalExactly | src/chatgpt_dev_mcp/capability_gateway_mcp.py:353-383 | Which capabilities run with a confirmation, which without one, and that all others are refused, listed by policy and risk class |
| GatewayTerms.ApprovalRefused | src/chatgpt_dev_mcp/capability_gateway_mcp.py:353-383 | Why a capability may not run at all: its policy, its risk class, or the trust it names |
| GatewayTerms.ValidatedExactly | src/chatgpt_dev_mcp/capability_gateway_mcp.py:161-171 | What a preflight accepts, and what it takes down |
| GatewayTerms.ValidatedRefused | src/chatgpt_dev_mcp/capability_gateway_mcp.py:161-171 | Why a preflight is refused: capability, arguments, context, handler, in this order |
| GatewayTerms.IssuedExactly | src/chatgpt_dev_mcp/capability_gateway_mcp.py:184-219 | When a receipt is issued, and each field of it from the preflight, with its lifetime and its confirmation |
| GatewayTerms.CheckedExactly | src/chatgpt_dev_mcp/capability_gateway_mcp.py:286-316 | An execution passes exactly when capability, arguments, context, handler and approval are the receipt's and the demands are met |
| GatewayTerms.CheckedRefused | src/chatgpt_dev_mcp/capability_gateway_mcp.py:286-316 | Why an execution is refused: the call, then context and handler, then the approval |
| GatewayTerms.LookupExactly | src/chatgpt_dev_mcp/capability_gateway_mcp.py:267-285 | A receipt is found exactly when it is held, unspent and before its end |
| GatewayRuns.RunInv | src/chatgpt_dev_mcp/capability_gateway_mcp.py:184-320 | What every interleaving keeps: receipts were issued, tickets and executions match receipts gone from the store, none twice |
| GatewayRuns.AtMostOneExecution | src/chatgpt_dev_mcp/capability_gateway_mcp.py:258-321 | In every interleaving of any number of gateways a preflight id leads to at most one handler execution |
| GatewayRuns.ExecutionsMatched | src/chatgpt_dev_mcp/capability_gateway_mcp.py:286-415 | In every interleaving of registrations, preflights and executions, even if the registry changes, each execution repeats an earlier preflight exactly, strictly before expiry, with the exact confirmation where one was required; R3 runs unconfirmed only with a handler whose id the gateway holds as delegated, R2 only so or with a pinned grant or trusted development |
| GatewayTerms.ExecutionRepeatsPreflight | src/chatgpt_dev_mcp/capability_gateway_mcp.py:161-443 | In every interleaving each execution repeats an earlier preflight of the trace field by field: capability, version, arguments, all twelve context fields, handler and policy; within the receipt's lifetime, confirmed where asked, with the capability's demands met |
| GatewayTerms.ReplayIsRefused | src/chatgpt_dev_mcp/capability_gateway_mcp.py:267-273 | In every run a spent receipt is answered as a replay by every gateway until the larger of ten minutes and twice the lifetime has passed on a clock some step reads |
| GatewayTerms.PrunedMarks | src/chatgpt_dev_mcp/capability_gateway_mcp.py:451-453 | Pruning forgets exactly the replay marks whose time has come |
| GatewayTerms.RegisteredExactly | src/chatgpt_dev_mcp/capability_gateway_mcp.py:125-134 | A registration changes one handler only, and the delegated ids only if it is a delegated one, which adds its own id |
| GatewayAuthority.RunAuthority | src/chatgpt_dev_mcp/capability_compat.py:39-56 | In every run a gateway's handler of an id is the one registered last, its delegated ids are exactly those ever registered as delegated, and each execution had both as they were at its admission |
| GatewayAuthority.GatewaysWellRegistered | src/chatgpt_dev_mcp/capability_compat.py:39-41 | In every run each gateway holds a handler for every delegated id, and every handler under its own id |
| GatewayAuthority.DelegationWasRegistered | src/chatgpt_dev_mcp/capability_compat.py:39-56 | Each execution under the delegated policy, and each unconfirmed one of R3, follows a delegated registration of its handler's id on the gateway that admitted it |
| GatewayAuthority.HandlerItselfDelegatedIff | src/chatgpt_dev_mcp/capability_gateway_mcp.py:125-134 | The handler an execution ran was itself the delegated one if and only if its id was so registered before its admission and no plain registration replaced it since |
| GatewayAuthority.PlainHandlerInherits | src/chatgpt_dev_mcp/capability_gateway_mcp.py:125-134 | The condition is needed: a plain registration that replaces a delegated one leaves the id delegated, and the plain handler runs R3 without a confirmation |
| StableGateway.PreflightStore.Sweep | src/chatgpt_dev_mcp/capability_gateway_mcp.py:448-453 | Removing expired entries one by one keeps exactly the live ones, in order |
| StableGateway.PreflightStore.PruneLocked | src/chatgpt_dev_mcp/capability_gateway_mcp.py:445-457 | The store afterwards is the pruned store |
| StableGateway.PreflightStore.Look | src/chatgpt_dev_mcp/capability_gateway_mcp.py:267-285 | Finds a usable receipt or says why there is none; an expired one is dropped |
| StableGateway.PreflightStore.Consume | src/chatgpt_dev_mcp/capability_gateway_mcp.py:267-320 | Look up, check and consume as one step: a receipt is spent exactly by a passed check |
| StableGateway.StableGateway.constructor | src/chatgpt_dev_mcp/capability_gateway_mcp.py:101-123 | A new gateway has no handlers and shares the given store |
| StableGateway.StableGateway.RegisterHandler | src/chatgpt_dev_mcp/capability_gateway_mcp.py:125-134 | Registers a valid handler; an existing id only with `replace`; the delegated ids stay as they are |
| StableGateway.StableGateway.RegisterDelegatedHandler | src/chatgpt_dev_mcp/capability_compat.py:39-41 | Registers a handler and records its delegated authority, both or neither |
| StableGateway.StableGateway.BeginPreflight | src/chatgpt_dev_mcp/capability_gateway_mcp.py:161-171 | The first part of preflight: validate, then prune |
| StableGateway.StableGateway.FinishPreflight | src/chatgpt_dev_mcp/capability_gateway_mcp.py:184-222 | The second part: decide on approval, insert the receipt, prune; the receipt pins what the preflight had, field by field |
| StableGateway.StableGateway.CheckAndConsume | src/chatgpt_dev_mcp/capability_gateway_mcp.py:258-320 | Result and store are those of the specified checks and consumption; what passes has the pinned context, field by field, and meets the demands |
| LoopHistory.ReachedSound | src/chatgpt_dev_mcp/development_loop.py:88-162 | Every reachable loop: one connected history from IMPLEMENT with unique event ids; at most `max_iterations` + 1 entries and that many only when FAILED; times within the wall budget; counters equal to the trailing runs and below their limits; a stop reason that the history explains |
| LoopHistory.ReadyEarned | src/chatgpt_dev_mcp/development_loop.py:98-162 | A loop is READY only if its last four entries are the passing of fast verification, QA, review and full verification |
| LoopHistory.MovesExactly | src/chatgpt_dev_mcp/development_loop.py:98-106 | The transition table, listed by the phase each move leads to |
| LoopTransitions.EventMoves | src/chatgpt_dev_mcp/development_loop.py:114-162 | A new event within all limits is accepted exactly when its phase answers its kind, or it is blocking or fatal; it moves along the listed edge, to REMEDIATE exactly for the failing kinds |
| LoopTransitions.RefusalReason | src/chatgpt_dev_mcp/development_loop.py:117-124 | Why an event is refused: a bound id, a closed loop, its time, or its kind, in this order |
| LoopTransitions.LimitCloses | src/chatgpt_dev_mcp/development_loop.py:125-150 | A new event that meets a limit closes the loop, as blocked or failed by the first limit it meets |
| LoopTransitions.RemediationIsRepaired | src/chatgpt_dev_mcp/development_loop.py:98-106 | In every reachable loop REMEDIATE is entered only by a failing kind of its phase, and left, unless the loop closes, by its completion to fast verification |
| LoopTransitions.RepairedBeforeQa | src/chatgpt_dev_mcp/development_loop.py:98-106 | In every reachable loop a failure is remediated before anything enters QA again |
| LoopTransitions.DeliveryReopens | src/chatgpt_dev_mcp/development_loop.py:165-177 | A new delivery failure within all limits takes READY to REMEDIATE, recorded under the digest of its evidence |
| LoopTransitions.DeliveryRefused | src/chatgpt_dev_mcp/development_loop.py:165-170 | Elsewhere, or with malformed evidence, it is refused |
| LoopHistory.DuplicateChangesNothing | src/chatgpt_dev_mcp/development_loop.py:117-121 | For streams that end at their first refused event: re-inserting an exact duplicate anywhere after an earlier occurrence changes neither state nor error, even after the loop closed |
| LoopHistory.DeduplicatedRun | src/chatgpt_dev_mcp/development_loop.py:117-121 | Every such stream has the outcome of its duplicate-free stream |
| LoopHistory.DeduplicatedExact | src/chatgpt_dev_mcp/development_loop.py:117-121 | The duplicate-free stream has the same events, each once |
| LoopStreams.FedRunsTaken | src/chatgpt_dev_mcp/acceleration_runtime.py:541-583 | The driver's loop, which keeps the stored state when an event is refused, is where its accepted events alone lead |
| LoopStreams.FedReached | src/chatgpt_dev_mcp/acceleration_runtime.py:541-583 | So every loop that a stream with refusals leads to has the properties of `ReachedSound` |
| LoopStreams.RefusedExactly | src/chatgpt_dev_mcp/development_loop.py:114-163 | An event is refused exactly when its id is bound to another event; or the id is new and the loop is closed to it, it predates the loop, or it meets no limit and has no transition |
| LoopStreams.InsertionHarmlessIff | src/chatgpt_dev_mcp/development_loop.py:114-163 | Inserting an event, a duplicate or not, changes nothing for any continuation if and only if the loop has it in its history there, or refuses it |
| LoopStreams.AcceptedOnceIsEnough | src/chatgpt_dev_mcp/development_loop.py:117-121 | A duplicate of an accepted event changes nothing anywhere later, whatever was refused in between and even after the loop closed |
| LoopStreams.DeduplicatedIff | src/chatgpt_dev_mcp/development_loop.py:117-121 | A stream agrees with its duplicate-free stream at every point if and only if each later copy meets a loop that has it in its history or refuses it |
| LoopStreams.CopyCanAct | src/chatgpt_dev_mcp/development_loop.py:114-163 | The condition is needed: with the default budgets, passing QA is refused at first, and its exact copy then moves the loop from QA to REVIEW |
| LoopStreams.DeliveryIdempotent | src/chatgpt_dev_mcp/development_loop.py:165-177 | A delivery failure applied again with the same evidence and time, at once or after any further events, refused ones among them, changes nothing in READY or REMEDIATE and is refused elsewhere |
| Utf8.DecodedIsShortest | src/chatgpt_dev_mcp/director.py:231-235 | The strict decoder accepts only the encoder's own bytes: no overlong form, no surrogate |
| Utf8.CutDecodes | src/chatgpt_dev_mcp/director.py:231-235 | Cutting encoded text at any byte and decoding with `errors="ignore"` gives the longest whole-character prefix that fits |
| Utf8.LongestFitMaximal | src/chatgpt_dev_mcp/director.py:231-235 | No longer prefix fits |
| Utf8.TruncateExact | src/chatgpt_dev_mcp/director.py:231-235 | Truncation keeps exactly that prefix and reports exactly whether something was cut |
| Utf8.RoundTrip | src/chatgpt_dev_mcp/director.py:231-235 | Decoding an encoded text gives it back |
| Utf8.FitTwice | src/chatgpt_dev_mcp/director.py:335-341 | Truncating to the item limit and then to the room left is truncating to the smaller of the two |
| ContextPacks.Admit | src/chatgpt_dev_mcp/director.py:333-361 | One turn of the loop gives the specified item, or none |
| ContextPacks.Assemble | src/chatgpt_dev_mcp/director.py:329-363 | Items, omitted paths and exact byte sum are the specified ones; the flag says exactly whether something was cut or omitted |
| ContextPacks.BuildContextPack | src/chatgpt_dev_mcp/director.py:304-389 | The pack, or the first bound or repeated path that refuses it |
| ContextPacks.SourcesWoven | src/chatgpt_dev_mcp/director.py:333-363 | The sources split, in order, into packed and omitted paths |
| ContextPacks.PathsConserved | src/chatgpt_dev_mcp/director.py:333-363 | No path is lost, repeated, or both packed and omitted |
| ContextPacks.ItemsAreExcerpts | src/chatgpt_dev_mcp/director.py:333-363 | Each item is the longest prefix of its redacted source that fits min(max_item_bytes, what earlier items left), marked truncated exactly when shortened |
| ContextPacks.OmittedExactly | src/chatgpt_dev_mcp/director.py:337-347 | A source is omitted exactly when it comes too late, the pack is full, or nothing of it would be left although it is not empty |
| ContextPacks.WholeExactly | src/chatgpt_dev_mcp/director.py:338-363 | A pack is marked whole exactly when every source is in it, in order and unshortened |
| ContextPacks.RefusalExactly | src/chatgpt_dev_mcp/director.py:316-331 | Which requests are refused, by the first of the name, size, count and repetition demands they miss |
| ContextPacks.NewlinesExactly | src/chatgpt_dev_mcp/director.py:350-358 | An excerpt ends as many lines after its first as it has line feeds |
| AnalysisPacks.FittedShape | src/chatgpt_dev_mcp/analysis_pack.py:84-111 | For any measure: diffs before a position are whole, later ones empty, the one there a prefix; failures are a prefix and shrink only after all diffs are empty; metadata goes last; it fails only when all three are empty; a pack that fits is untouched |
| AnalysisPacks.TruncatedExact | src/chatgpt_dev_mcp/analysis_pack.py:84-111 | The flag of a new pack is set exactly when content was lost |
| AnalysisPacks.TurnTakes | src/chatgpt_dev_mcp/analysis_pack.py:88-99 | A turn takes from the last diff with text the excess and 64 bytes, and at most three more for a broken character; a diff without so many is emptied; nothing else changes |
| AnalysisPacks.AnalysisPack.Keep | src/chatgpt_dev_mcp/analysis_pack.py:73-76 | A diff keeps the longest prefix within its byte target |
| AnalysisPacks.AnalysisPack.CutLastDiff | src/chatgpt_dev_mcp/analysis_pack.py:88-99 | Cuts the last diff that has text, if one has |
| AnalysisPacks.AnalysisPack.Shrink | src/chatgpt_dev_mcp/analysis_pack.py:86-110 | One turn makes the specified smaller payload, or nothing when all is empty |
| AnalysisPacks.AnalysisPack.Fit | src/chatgpt_dev_mcp/analysis_pack.py:84-111 | The loop ends, with the specified payload and its measured size, or fails |
| DecisionMemory.ResolveActiveDecisions | src/chatgpt_dev_mcp/decision_memory.py:75-110 | Succeeds exactly on at most 1024 records with unique ids, one workspace, existing successors and no supersession cycle, else reports the first failing check; active records sorted, conflict ids exactly those of active records whose scope has another rule |
| DecisionMemory.AnyCycle | src/chatgpt_dev_mcp/decision_memory.py:89-96 | The chain walk reports a cycle exactly when a ring of superseded records exists |
| DecisionMemory.ChainsEnd | src/chatgpt_dev_mcp/decision_memory.py:89-96 | There is no ring exactly when every chain ends in a record that is not superseded |
| DecisionMemory.ConflictIds | src/chatgpt_dev_mcp/decision_memory.py:98-105 | The loops over scopes collect exactly the ids of disputed active records |
| DecisionMemory.ActivesInOrder | src/chatgpt_dev_mcp/decision_memory.py:98-98 | The active records of a resolution are exactly those of the input, by scope and then by id |
| DecisionMemory.OrderIndependent | src/chatgpt_dev_mcp/decision_memory.py:75-110 | Every order of the records has the same outcome, error or resolution |
| RelativePaths.SafePathExact | src/chatgpt_dev_mcp/candidate_preparation.py:347-364 | A bounded relative path is accepted exactly when all its components are real names other than "..", or it is "." |
| CandidateRequests.AcceptedIsWellFormed | src/chatgpt_dev_mcp/candidate_preparation.py:89-253 | Every accepted request is well formed: receipts distinct, their path groups pairwise disjoint and together exactly the permitted paths |
| CandidateRequests.PrintThenParse | src/chatgpt_dev_mcp/candidate_preparation.py:285-301 | Parsing the printed parameters gives a request back if and only if it is well formed |
| CandidateRequests.AcceptedParsesAgain | src/chatgpt_dev_mcp/candidate_preparation.py:1191-1198 | The re-preflight of an accepted request parses the same request, in both modes |
| CandidateRequests.LegacyForm | src/chatgpt_dev_mcp/candidate_preparation.py:161-163 | The single-receipt form means the list of that one receipt |
| CandidateTerms.SourceExactly | src/chatgpt_dev_mcp/candidate_preparation.py:89-135 | Which workspace, mode, revision and patch digest are accepted; a mode left out means the integrated patch |
| CandidateTerms.SourceRefused | src/chatgpt_dev_mcp/candidate_preparation.py:104-135 | Why a source is refused: workspace, mode, missing texts, revision, digest, in this order |
| CandidateTerms.ContractRefused | src/chatgpt_dev_mcp/candidate_preparation.py:222-253 | Why a contract is refused: bootstrap, schema, tool count, tool digest, role, in this order |
| CandidateTerms.AcceptedExactly | src/chatgpt_dev_mcp/candidate_preparation.py:89-253 | Parameters are accepted, and read as a request, exactly when each of its fields is given in the listed form, the paths are distinct and safe, and the receipts bind exactly the permitted paths, none twice |
| CandidateParser.PathList | src/chatgpt_dev_mcp/candidate_preparation.py:141-146 | Building a set, sorting it and comparing sizes yields the sorted paths exactly when all are safe and none repeats |
| CandidateParser.Entry | src/chatgpt_dev_mcp/candidate_preparation.py:178-213 | One receipt entry against the receipts and paths seen so far |
| CandidateParser.Groups | src/chatgpt_dev_mcp/candidate_preparation.py:175-221 | The loop yields the specified groups, or the first error, and refuses groups that do not cover the permitted paths exactly |
| CandidateParser.FromParams | src/chatgpt_dev_mcp/candidate_preparation.py:89-265 | The parser's result for every input; an accepted request is well formed and parses again from its printed form |
| Credentials.SlotsExact | src/chatgpt_dev_mcp/credential_slots.py:168-181 | Grants pass exactly when each is present, unused, in time and of this project and profile |
| Credentials.ValidatedDistinct | src/chatgpt_dev_mcp/credential_slots.py:181-183 | A validated list names no grant twice |
| Credentials.ResolvedExact | src/chatgpt_dev_mcp/credential_slots.py:194-213 | A child gets exactly the slots asked for, each with its own material, all of it to be redacted |
| Credentials.AccessExactly | src/chatgpt_dev_mcp/credential_slots.py:142-150 | A slot is open exactly to the projects and profiles its policy lists, while it has material; why else it is refused |
| Credentials.MaterialExactly | src/chatgpt_dev_mcp/credential_slots.py:184-191 | Material is the non-empty value of the environment, or the keychain's answer |
| Credentials.GrantsPassExactly | src/chatgpt_dev_mcp/credential_slots.py:168-183 | Grants pass exactly when each is held, unspent, in time and of this project and profile, and no two are for one slot |
| Credentials.PlannedExactly | src/chatgpt_dev_mcp/command_profiles.py:81-131 | When a command is planned, and what its preflight binds |
| Credentials.StaleExactly | src/chatgpt_dev_mcp/command_profiles.py:150-160 | A run is refused as stale exactly when the profile is gone or redefined, or the directory is another one |
| Credentials.PlanThenRun | src/chatgpt_dev_mcp/command_profiles.py:81-185 | A planned command runs while nothing changed, its grants are in time and their slots have material |
| CredentialRuns.GrantInjectedOnce | src/chatgpt_dev_mcp/credential_slots.py:215-226 | In every run of grants, preflights and commands a grant is injected into at most one child, and once |
| CredentialRuns.ChildrenProper | src/chatgpt_dev_mcp/command_profiles.py:146-185 | In every run a child gets only grants of its own project and profile, unexpired, of slots its profile allows; its injected environment is exactly their slots, and all of them are spent |
| CredentialScopes.ChildrenWithinPolicy | src/chatgpt_dev_mcp/credential_slots.py:142-213 | In every run each slot in a child's environment has a policy that lists the child's project and profile |
| CredentialScopes.InjectedMaterial | src/chatgpt_dev_mcp/credential_slots.py:184-213 | A child's values are what the sources of its grants' slots held when it was started |
| CredentialRuns.RunSpendsExactly | src/chatgpt_dev_mcp/command_profiles.py:146-211 | A run of a preflight with grants leaves every grant as it was if and only if a check before the process start refuses it; a child exists exactly if it passes and the process starts |
| CredentialRuns.RefusedSpendsNothing | src/chatgpt_dev_mcp/command_profiles.py:146-174 | A run that a check refuses starts no child and spends no grant |
| CredentialRuns.SpentExactly | src/chatgpt_dev_mcp/command_profiles.py:162-175 | In every run a held grant is spent if and only if a command run naming it passed its checks, whether or not the process then started |
| CredentialRuns.FailedStartSpends | src/chatgpt_dev_mcp/command_profiles.py:175-211 | A process that fails to start spends all its grants, each unspent before, and leaves no child |
| CredentialRuns.FailedStartReached | src/chatgpt_dev_mcp/command_profiles.py:146-211 | Such a loss is reached from an empty manager, for every slot open to a profile |
| CommandProfiles.CredentialSlotManager.Preflight | src/chatgpt_dev_mcp/credential_slots.py:152-166 | Issues an unspent grant with its deadline exactly when the slot's policy lists project and profile and its material is available |
| CommandProfiles.CredentialSlotManager.ValidateGrants | src/chatgpt_dev_mcp/credential_slots.py:168-183 | The slots in order, or the first problem, or a repeated slot |
| CommandProfiles.CredentialSlotManager.ResolveGrants | src/chatgpt_dev_mcp/credential_slots.py:194-213 | The material of all grants, or the first problem; nothing is spent |
| CommandProfiles.CredentialSlotManager.ConsumeGrants | src/chatgpt_dev_mcp/credential_slots.py:215-226 | All named grants are spent, or none |
| CommandProfiles.CommandProfileController.Plan | src/chatgpt_dev_mcp/command_profiles.py:81-139 | Binds command, directory and grants under a new id, or says why not |
| CommandProfiles.CommandProfileController.Run | src/chatgpt_dev_mcp/command_profiles.py:149-211 | The preflight is popped in every case; then the run is refused and no grant is spent, or all its grants are spent and either the child gets the specified injection or its failed start is reported |
| Largest.TopAdd | src/chatgpt_dev_mcp/chatgpt_connector_compat.py:719-722 | Keeping the n largest after every addition keeps the n largest of all that was added |
| Largest.SortedTop | src/chatgpt_dev_mcp/chatgpt_connector_compat.py:721-722 | The last n of the sorted set are its n largest |
| Connections.RetiredIsRefused | src/chatgpt_dev_mcp/chatgpt_connector_compat.py:749-753 | A request with a retired marker is answered stale, also by a session opened for it; it raises only if no session could be opened |
| Connections.DispatchIsolated | src/chatgpt_dev_mcp/chatgpt_connector_compat.py:744-788 | A marked request is only dispatched into a session of its own marker; another session's requests are answered stale and change nothing, unless they initialize or discover |
| Connections.ChosenExactly | src/chatgpt_dev_mcp/chatgpt_connector_compat.py:749-774 | When a request is answered stale and when it replaces the session, written out, with the discover and post-operation initialize cases |
| Connections.OpenedExactly | src/chatgpt_dev_mcp/chatgpt_connector_compat.py:626-664 | What opening a session changes, however far it gets |
| Connections.RotatedExactly | src/chatgpt_dev_mcp/chatgpt_connector_compat.py:698-742 | How a rotation ends: blocked and unchanged, closed, or with a fresh session |
| Connections.DispatchedSession | src/chatgpt_dev_mcp/chatgpt_connector_compat.py:744-788 | Which session handles a request, and its number, marker and state afterwards |
| ConnectionRuns.RetiredAreLargest | src/chatgpt_dev_mcp/chatgpt_connector_compat.py:698-742 | In every run, with any failed resets and session builds, the retired markers are exactly the 32 largest of all ever retired |
| ConnectionRuns.DispatchesAdmissible | src/chatgpt_dev_mcp/chatgpt_connector_compat.py:744-788 | Every dispatched request carried no marker among the 32 largest retired before it |
| ConnectionRuns.RetiredNeverDispatched | src/chatgpt_dev_mcp/chatgpt_connector_compat.py:698-788 | In every run that retires at most 32 distinct markers, no request with a marker retired before is dispatched |
| ConnectionRuns.InitializeReachesExactly | src/chatgpt_dev_mcp/chatgpt_connector_compat.py:744-774 | An unobstructed initialize request reaches a session exactly when its marker is not among the 32 largest ever retired |
| ConnectionRuns.NumbersIncrease | src/chatgpt_dev_mcp/chatgpt_connector_compat.py:626-664 | The numbers of the sessions installed in a run strictly increase |
| ConnectionManager.ConnectionRuntimeManager.NewSession | src/chatgpt_dev_mcp/chatgpt_connector_compat.py:626-664 | Takes the initial or a new runtime, counts, then installs; where it raises, what was done stays done |
| ConnectionManager.ConnectionRuntimeManager.Retire | src/chatgpt_dev_mcp/chatgpt_connector_compat.py:718-724 | Adds the marker left behind, trims to the 32 largest, drops the new one |
| ConnectionManager.ConnectionRuntimeManager.Rotate | src/chatgpt_dev_mcp/chatgpt_connector_compat.py:698-742 | The specified rotation: refused while a request is active, closed first, then reopened |
| ConnectionManager.ConnectionRuntimeManager.Prepare | src/chatgpt_dev_mcp/chatgpt_connector_compat.py:744-774 | The specified choice of session, stale answer or rotation |
| ConnectionManager.ConnectionRuntimeManager.Dispatch | src/chatgpt_dev_mcp/chatgpt_connector_compat.py:776-788 | State and reply are the specified ones; a retired marker is never dispatched |

## Left out

- Text rules: regular expressions, secret detection, redaction and Unicode stripping are arbitrary predicates and functions; case folding is any function on characters that keeps the slash.
- Python values that the types exclude: arguments of the wrong type (apart from the candidate request, which is parsed from JSON values), lone surrogates, and NaN or infinite times; times are real numbers without rounding.
- Threads: a step under a lock is atomic; connection dispatches run one after another, so a request still being handled while a rotation happens appears only as the registry's block reason.
- Writer leases: the views `active`, `active_all` and `current`, which first sweep expired leases, notifying each, and so change the table as `Get` does; and `observed_active`, which only reads.
- Task ledger: `get` and `list`, which only read; a bound on status changes across a restore, which may bring back any receipt.
- Capability gateway: schemas and result validation, the preview that a handler's preflight returns, and the catalogue views; the ten error codes for a changed pinned field are one, `ContextChanged`.
- Development loop: the identifiers of owner, task, session and worktree, which `advance` only carries; the stop texts for the kinds blocked and fatal are the kind itself.
- Context packs: the pack id is the digested value instead of its first 32 hexadecimal digits, so that two packs with colliding prefixes are told apart.
- Analysis packs: building the pack before `_fit`, and how failures and metadata are written as JSON, which only the measure sees.
- Decision memory: the field rules of a single record, which its constructor checks and resolution does not use.
- Candidate requests: everything after the request parser (Git, files, databases, manifests); lower-casing is that of ASCII, which suffices because any other letter is refused either way.
- Credential grants: running the child, its base environment and output, slot listings, and other clients of the slot manager; the keychain is read as one fixed function during a call.
- Logical connections: the connection history kept for diagnosis, the request registry, and what upstream dispatch does to the protocol state, which is an input of each call.
- Git, SQLite, subprocess, file system identity, worktrees, browser, HTTP, health and benchmark code: input and output, or timing plumbing.
- Approvals of arbitrary commands and the schemas of capability bindings: a smaller instance of the gateway's protocol, and metadata.
