# Notebook launcher: a verified model of the control plane

The launcher starts sandboxed Jupyter runtimes for workspaces, lets one agent at a time write to
them, and serves notebooks to agents over MCP. This project models the six parts of its control
plane in which state, failures or arithmetic are hardest, and proves what they promise.

| modules | part |
|---|---|
| `ExecutionSpec`, `Execution`, `ExecutionTheory`, `ExecutionResults` | the execution broker with its lazily cleaned queue, and the coordinator that interrupts and restarts the kernel |
| `WorkspaceSpec`, `Workspace`, `WorkspaceResults`, `WorkspaceProgress` | document writes, copies and active renames: one transaction over a file and a database row, with a compensation before rollback |
| `StateSpec`, `StateStore`, `SessionResults`, `Timestamps`, `LeaseTexts` | session, launch and lease rows under interleaved transactions, and the text order of their timestamps |
| `LaunchPipeline`, `LaunchProgress` | launch workers as interleaved transactions |
| `RuntimeSpec`, `Runtime`, `RuntimeResults` | containers and network policies, with whole pipeline operations as steps and every probe, stop, apply and removal free to fail |
| `Text`, `Json`, `JsonReader`, `McpWords`, `McpPreview`, `McpBridge`, `McpStdio`, `McpClient` | bounded JSON-RPC output: size arithmetic, binary searches, the stdio loop, and a reader that gets back what was written |
| `FirewallSpec`, `FirewallResults`, `FirewallRollback`, `FirewallIsolation`, `Firewall` | the compiler from a network plan to iptables commands, its checks, its undo and its rollback |
| `SourceDigest` | the byte stream behind the source tree digest |

Code that changes state is a class whose methods are proved equal to a specification function or
relation (`*Spec`); what the launcher promises is proved of every run of those specifications
(`*Theory`, `*Results`, `*Progress`, `*Rollback`, `*Isolation`). `dafny verify dfyconfig.toml` checks everything.

## How it is modelled

- Every SQL transaction is one atomic step. A commit that raises has not committed, and a rollback works.
- Identifiers from uuid4 and new document versions are fresh. `document_path_key`, the content hash and
  the SHA-256 behind chain names are arbitrary functions (where two plans meet, their digests have eight characters and differ); the document key also identifies files.
- Clocks, probes, Docker, the kernel and iptables failures are parameters: the theorems hold for all of
  their answers. All timestamps of one broker call share one `now`; times and timeouts are integers in one unit.
- The file primitives may raise before or after their effect. For the rename that includes the directory
  sync after the move (src/notebook_launcher/safe_paths.py:297), which leaves `moved` false: the model keeps
  this torn case. `RenameExactly` and `WriteExactly` say exactly when a failure tears a file from its row or its
  workspace, and `RunExactly` that the row invariant of a run fails exactly then. The version chains need no such
  condition.
- `is_alive` answers false also when `docker inspect` exits with an error
  (src/notebook_launcher/pipeline.py:125-131), so a cleanup can take the policy from a live container. The
  predicate `Uncovers` says when, from the answers of the environment alone; `StepExactly` and `RunExactly`
  show that the runtime invariant fails exactly then. It never happens if Docker refuses to remove a network
  with a running container whenever the confirming probe may be wrong (`SoundIsGuarded`); that is sufficient,
  not necessary.
- `stop` does not wait for a `run` of the same session, and `run` does not read the session state again
  between claim and start (src/notebook_launcher/pipeline.py:375-408). Whole operations are atomic in the runtime
  theorems. A run overtaken by a stop that left the session stopping is covered by `RunTailExactly`; for one
  that was stopped for good `StopOvertakesStart` gives the exact condition on the environment.
- A run of the broker may replace one terminal outcome by another and move a cancelling operation back to
  cancel-pending, as the code does; only the set of terminal states is absorbing.
- Arguments of iptables commands are typed words; their meaning is given by a parser and an interpreter with
  user chains, jumps and returns.

## Model

| member | source | states |
|---|---|---|
| `Execution.ExecutionBroker.Enqueue` | src/notebook_launcher/execution.py:60-83 | a non-positive timeout raises and changes nothing; otherwise a queued record with its deadline joins the records, the enqueue order and the queue |
| `Execution.ExecutionBroker.NextQueued` | src/notebook_launcher/execution.py:89-99 | the loop drops exactly the leading entries that are no longer queued, terminates, and answers with the head; nothing while the slot is taken or the kernel busy |
| `Execution.ExecutionBroker.Dispatch` | src/notebook_launcher/execution.py:101-124 | each of the five refusals in its order with nothing changed, or the head moves from the queue into the free slot with its message |
| `Execution.ExecutionBroker.ObserveBusyParent` | src/notebook_launcher/execution.py:126-145 | the busy parent is stored even for an unknown operation; the record takes the parent and starts running only for its own message |
| `Execution.ExecutionBroker.ObserveKernelBusy` | src/notebook_launcher/execution.py:147-149 | only the busy parent changes |
| `Execution.ExecutionBroker.ObserveKernelIdle` | src/notebook_launcher/execution.py:151-153 | only the busy parent is cleared |
| `Execution.ExecutionBroker.Request` | src/notebook_launcher/execution.py:159-208 | cancel and timeout: terminal records are untouched, queued ones end at once, others wait as cancel-pending, and the interrupt flag is exactly ownership |
| `Execution.ExecutionBroker.MarkCancelling` | src/notebook_launcher/execution.py:210-217 | an operation that does not own the kernel request is refused |
| `Execution.ExecutionBroker.Expire` | src/notebook_launcher/execution.py:219-236 | the loop times out exactly the due operations, in enqueue order, and returns their records with their interrupt flags |
| `Execution.ExecutionBroker.Finish` | src/notebook_launcher/execution.py:238-251 | only a terminal outcome is taken, it replaces any earlier one, and the slot is freed exactly if it held the operation |
| `Execution.ExecutionBroker.InvalidateSession` | src/notebook_launcher/execution.py:253-263 | the two loops cancel exactly the live operations of the session and free the slot if it was theirs |
| `Execution.ExecutionCoordinator.DispatchNext` | src/notebook_launcher/execution.py:290-295 | nothing queued gives nothing; a raising kernel leaves the queue; otherwise the head is dispatched |
| `Execution.ExecutionCoordinator.ObserveBusyParent` | src/notebook_launcher/execution.py:297-302 | an observation that completes the ownership of a cancel-pending operation interrupts the kernel |
| `Execution.ExecutionCoordinator.Request` | src/notebook_launcher/execution.py:304-316 | an owned cancel or timeout interrupts at once, any other only records the request |
| `Execution.ExecutionCoordinator.InterruptOwned` | src/notebook_launcher/execution.py:318-328 | mark, interrupt, wait, restart only after a failed wait, finish as last requested; with every point at which the kernel may raise |
| `ExecutionTheory.StepInv` | src/notebook_launcher/execution.py:45-328 | every one of the fourteen broker and coordinator calls keeps the whole invariant and only evolves the state |
| `ExecutionResults.RunInv` | src/notebook_launcher/execution.py:45-328 | the invariant holds after every run from an empty broker |
| `ExecutionResults.InFlightIsTheSlot` | src/notebook_launcher/execution.py:101-124 | in every run the dispatched, running, cancel-pending and cancelling operations are exactly the active slot, which has a message |
| `ExecutionResults.TerminalIsAbsorbing` | src/notebook_launcher/execution.py:238-251 | terminal states are never left and a message is never replaced, between any two points of any run |
| `ExecutionResults.InterruptsAreOwned` | src/notebook_launcher/execution.py:35-42 | every interrupt of every run was for the operation in the slot, with its message equal to its last observed parent |
| `ExecutionResults.QueueRefinesOrder` | src/notebook_launcher/execution.py:89-124 | the lazily cleaned queue restricted to queued operations is the enqueue order restricted to them, and the dispatches are a subsequence of the enqueue order |
| `ExecutionResults.NextIsEarliest` | src/notebook_launcher/execution.py:89-99 | with a free slot and an idle kernel the answer is the earliest queued operation, and nothing exactly if there is none |
| `ExecutionResults.DispatchNextNeverRaises` | src/notebook_launcher/execution.py:290-295 | after any run, with a message a sequential dispatch_next never raises, and it dispatches the earliest queued operation whenever it may dispatch at all |
| `ExecutionResults.RaisingDispatchKeeps` | src/notebook_launcher/execution.py:290-295 | a kernel that raises leaves the operation queued and the slot free, and the next call takes the same one |
| `ExecutionResults.ExpireExactly` | src/notebook_launcher/execution.py:219-236 | after any run, expire times out exactly the operations whose deadline has come, queued ones at once, and leaves every other record as it is |
| `ExecutionResults.ExpireAnswers` | src/notebook_launcher/execution.py:219-236 | and it answers with exactly the due operations, in order, each flagged if it owns the kernel now |
| `ExecutionResults.EnqueuedBy` | src/notebook_launcher/execution.py:60-83 | every record goes back to one accepted enqueue call, whose session and time it keeps |
| `ExecutionResults.EnqueueIsKept` | src/notebook_launcher/execution.py:68-83 | an accepted enqueue is recorded for good, with its session, its time and the deadline that its timeout sets |
| `ExecutionResults.EnqueueIsRefused` | src/notebook_launcher/execution.py:66-67 | a timeout is refused exactly if it is not positive |
| `ExecutionResults.TimesOutExactly` | src/notebook_launcher/execution.py:219-236 | from the calls alone: after any run an operation enqueued with timeout t is timed out exactly if it is not terminal and t has passed, and never without a timeout |
| `ExecutionResults.InvalidateExactly` | src/notebook_launcher/execution.py:253-263 | after any run, invalidating a session cancels exactly its live operations, leaves every other record as it is, and frees the slot exactly if it was the session's |
| `ExecutionResults.CancelAnswers` | src/notebook_launcher/execution.py:253-263 | and it answers with exactly the cancelled records, in their order |
| `ExecutionResults.InterruptedAtMostOnce` | src/notebook_launcher/execution.py:318-328 | in any run, whatever the kernel does elsewhere, an interrupt whose own call completed its wait is the last one of its operation |
| `ExecutionResults.WaitingRunInterruptsOnce` | src/notebook_launcher/execution.py:318-328 | so a run in which every wait completes interrupts each operation at most once |
| `ExecutionResults.RaisingKernelInterruptedTwice` | src/notebook_launcher/execution.py:318-328 | a concrete run in which the interrupt raises and the same operation is interrupted again |
| `ExecutionResults.RepeatedInterruptWasUnfinished` | src/notebook_launcher/execution.py:318-328 | in any run at all, between two interrupts of one operation it was never finished |
| `ExecutionResults.QueuedRequestEnds` | src/notebook_launcher/execution.py:159-208 | a cancel or timeout of a queued operation ends it at once without an interrupt |
| `ExecutionResults.OwnedRequestEnds` | src/notebook_launcher/execution.py:304-328 | one of an operation that owns the kernel interrupts at once and, once the wait completes, ends it as requested and frees the slot |
| `ExecutionResults.ForeignRequestWaits` | src/notebook_launcher/execution.py:159-208 | any other operation in flight waits, and nothing is interrupted |
| `ExecutionResults.OwnMessageArrives` | src/notebook_launcher/execution.py:297-302 | its own message starts it or, if a cancel or timeout waits, interrupts and ends it as requested |
| `ExecutionResults.ForeignMessagePasses` | src/notebook_launcher/execution.py:126-145 | a foreign message is recorded as its last parent and changes nothing else of it |
| `ExecutionResults.RestartOnlyAfterFailedWait` | src/notebook_launcher/execution.py:318-328 | in any run a restart directly follows a wait that was not idle, and that directly an interrupt |
| `ExecutionResults.InterruptedEndsAsRequested` | src/notebook_launcher/execution.py:318-328 | in any run, an operation whose interrupting call completed its wait is terminal with the outcome last requested before the interrupt, unless it was finished again later |
| `ExecutionResults.InterruptHitsExactly` | src/notebook_launcher/execution.py:126-157 | in every run, an interrupt meets the message that the kernel was last seen busy with, so it hits its own message exactly if that was the last one seen |
| `ExecutionResults.InterruptHitsOwnMessage` | src/notebook_launcher/execution.py:126-157 | if up to the interrupting call all observations came through the interrupted operation while it was in flight, and none came for it while it was queued, the interrupt meets the kernel busy with its own message; nothing is asked of other operations |
| `ExecutionResults.UndeliveredInterruptHitsOther` | src/notebook_launcher/execution.py:147-149 | a concrete run without that delivery in which an interrupt hits another message |
| `Workspace.WorkspaceManager.DocumentVersionRow` | src/notebook_launcher/state.py:761-778 | no row, one row or an ambiguity, by document key and in both directions |
| `Workspace.WorkspaceManager.AtomicWrite` | src/notebook_launcher/safe_paths.py:156-197 | replace or create-only, raising before or after the effect |
| `Workspace.WorkspaceManager.Unlink` | src/notebook_launcher/safe_paths.py:199-257 | remove, a missing file included, raising before or after the effect |
| `Workspace.WorkspaceManager.Move` | src/notebook_launcher/safe_paths.py:259-328 | no-replace rename, raising before or after the effect |
| `Workspace.WorkspaceManager.CompensateWrite` | src/notebook_launcher/workspace.py:287-323 | nothing if the file is as it was read, otherwise the old bytes or the old absence come back |
| `Workspace.WorkspaceManager.WriteGuard` | src/notebook_launcher/state.py:780-820 | the guard admits exactly a known workspace, a document other than a protected active notebook, and the expected version |
| `Workspace.WorkspaceManager.RenameGuard` | src/notebook_launcher/state.py:541-573 | the guard admits exactly the expected active notebook with at most one row and a destination without one |
| `Workspace.WorkspaceManager.RenamedRows` | src/notebook_launcher/state.py:584-594 | the one row of the source, if any, gets the new path and nothing else of it changes |
| `Workspace.WorkspaceManager.WriteDocument` | src/notebook_launcher/workspace.py:270-354 | atomic over file and row at every failure point: done exactly if the guard admits it and nothing raises; rolled back means nothing changed; after a failed compensation all rows and other files are the old ones, and the file holds the new bytes exactly if they landed and the compensation raised before undoing them |
| `Workspace.WorkspaceManager.WriteFile` | src/notebook_launcher/workspace.py:122-155 | refused early for the active notebook as last seen, otherwise exactly the guarded write |
| `Workspace.WorkspaceManager.SaveCopy` | src/notebook_launcher/workspace.py:157-224 | refused for the source, for the active notebook and for an existing document without overwrite, otherwise exactly the guarded write that never touches the active notebook |
| `Workspace.WorkspaceManager.RenameActiveNotebook` | src/notebook_launcher/workspace.py:226-268 | atomic over file, row and workspace unless the rename raises after moving the file; the exact outcome at every failure point |
| `WorkspaceResults.StepExactly` | src/notebook_launcher/state.py:780-856 | every write and rename, whatever fails, keeps one row per document key, each hashing the bytes at its path, and the active notebook in place, exactly if it does not tear |
| `WorkspaceResults.WriteExactly` | src/notebook_launcher/workspace.py:287-354 | a write tears exactly if its compensation failed before undoing landed bytes that the document's row does not hash |
| `WorkspaceResults.RenameExactly` | src/notebook_launcher/workspace.py:240-268 | a rename tears, and the active notebook is lost, exactly if the move raised after its effect or moving it back raised before |
| `WorkspaceResults.RunExactly` | src/notebook_launcher/state.py:540-856 | the same holds at every point of a run exactly if none of its steps tears |
| `WorkspaceResults.WriteInv` | src/notebook_launcher/state.py:780-820 | a permitted write keeps it |
| `WorkspaceResults.RenameInv` | src/notebook_launcher/state.py:540-594 | a permitted rename keeps it, with the row moved along with the file |
| `WorkspaceProgress.NewDocumentAdmitted` | src/notebook_launcher/state.py:813-820 | a document without a row is admitted exactly for a write that expects no version, and the row it makes is under its own path |
| `WorkspaceProgress.ReplacementAdmitted` | src/notebook_launcher/state.py:813-820 | a document with a row is admitted exactly for a write that expects that row's version, and that row is changed |
| `WorkspaceProgress.SmoothWrite` | src/notebook_launcher/workspace.py:270-354 | without failures a write is done exactly if it expects what is recorded and may overwrite what is there; then the file holds its bytes and the row its version, and nothing else differs |
| `WorkspaceProgress.UnaddressedWrite` | src/notebook_launcher/state.py:798-812 | outside the workspaces, and to the active notebook unless allowed, nothing is written |
| `WorkspaceProgress.RenameAdmitted` | src/notebook_launcher/state.py:541-573 | a rename is admitted exactly if it names the active notebook and a destination without a row |
| `WorkspaceProgress.SmoothRenameIs` | src/notebook_launcher/workspace.py:226-268 | without failures it is done exactly if it is admitted, the notebook is there and nothing is in its way; then exactly its file and the workspace's path move |
| `WorkspaceProgress.RenamedRow` | src/notebook_launcher/state.py:584-594 | and the notebook's row goes along with its version, kind and hash |
| `WorkspaceProgress.CreateThenReplace` | src/notebook_launcher/workspace.py:122-155 | a concrete run that creates a document and then replaces it |
| `WorkspaceResults.RowsAlwaysHold` | src/notebook_launcher/state.py:540-594 | at every point up to which no step tears, each document has one row at most and it hashes the bytes at its path |
| `WorkspaceResults.ChainsHold` | src/notebook_launcher/state.py:813-856 | at every point of every run, whatever failed, the successful writes behind each row form a chain in which each expected the version its predecessor installed, the first none, and the last one made the row |
| `WorkspaceResults.NoTwoWritersWin` | src/notebook_launcher/state.py:816-856 | in every run two successful writes never expected the same version, and every expected version was installed by an earlier write of the run |
| `WorkspaceResults.ActiveNotebookProtected` | src/notebook_launcher/workspace.py:136-155 | between any two points of a run in which no rename tears the active notebook exists, and its bytes, followed through renames, change only by a write to it that was allowed to, whatever else failed |
| `WorkspaceResults.TornRenameHappens` | src/notebook_launcher/safe_paths.py:295-298 | a concrete rename of a fresh workspace that is torn and loses the active notebook |
| `StateStore.Store.ClaimSession` | src/notebook_launcher/state.py:657-708 | created exactly if the workspace has no active session; otherwise one of its active sessions is returned, or the claim refused, with nothing changed |
| `StateStore.Store.TransitionSession` | src/notebook_launcher/state.py:710-750 | the row moves exactly if it is in an expected state and the unique index on active sessions admits the new one |
| `StateStore.Store.Acquire` | src/notebook_launcher/leases.py:26-63 | reclaim and insert together, or neither |
| `StateStore.Store.Heartbeat` | src/notebook_launcher/leases.py:76-86 | beats exactly for a lease that is held |
| `StateStore.Store.Release` | src/notebook_launcher/leases.py:65-74 | releases that lease only, and only once |
| `StateStore.Store.ReleaseSession` | src/notebook_launcher/leases.py:88-97 | releases exactly the held leases of the session |
| `StateStore.Store.Reconcile` | src/notebook_launcher/leases.py:99-120 | releases and counts exactly the held leases that are stale or whose session is over |
| `StateStore.Store.UpdateLaunch` | src/notebook_launcher/state.py:416-453 | moves only from an expected state; workspace and session are kept when none is given |
| `SessionResults.ClaimEffect` | src/notebook_launcher/state.py:657-708 | whichever active row the query returns, a claim has one effect on the rows |
| `SessionResults.AtMostOne` | src/notebook_launcher/state.py:130-145 | in every interleaving of transactions a workspace has at most one active session and a session at most one held lease |
| `SessionResults.SessionsOnlyClimb` | src/notebook_launcher/state.py:710-750 | between any two points of every interleaving of the launcher's transactions a session state only climbs, ready is never regained, and a finished session never changes |
| `SessionResults.LauncherTransitionMoves` | src/notebook_launcher/state.py:710-750 | a transition that the launcher asks for moves the row exactly if it is in an expected state, keeps its identity, and moves no other |
| `SessionResults.StartingIsUnverified` | src/notebook_launcher/pipeline.py:423-430 | in every interleaving the flags of a session are set by its step to ready and not before |
| `SessionResults.OneWriter` | src/notebook_launcher/cli.py:111-146 | at any instant at most one lease of a session has write authority |
| `SessionResults.NoWriterAfterReady` | src/notebook_launcher/cli.py:111-146 | once a session left ready, none of its leases has write authority again, also none acquired later |
| `SessionResults.ReleasedForGood` | src/notebook_launcher/leases.py:65-97 | a released lease never has write authority again and never changes |
| `SessionResults.ReleaseFrees` | src/notebook_launcher/leases.py:65-74 | after its release a lease may not write, and another client can acquire at once |
| `SessionResults.ReleaseSessionFrees` | src/notebook_launcher/leases.py:88-97 | the same for all leases of a released session, and no other is touched |
| `SessionResults.ReconcileLeaves` | src/notebook_launcher/leases.py:99-120 | after a reconciliation a lease is held exactly if it was, is fresh and its session is not over |
| `SessionResults.HeartbeatFreshens` | src/notebook_launcher/leases.py:76-86 | a heartbeat gives a held lease of a ready session write authority for exactly the limit, and revives none |
| `SessionResults.AcquireExactly` | src/notebook_launcher/leases.py:26-63 | acquire succeeds exactly for a ready session in write mode without a fresh held lease, and then grants write authority |
| `SessionResults.AlwaysCovered` | src/notebook_launcher/leases.py:76-86 | under a monotone clock, heartbeat gaps within the limit mean that at every transaction the last beat is fresh |
| `SessionResults.HolderNeverDisplaced` | src/notebook_launcher/leases.py:26-120 | such a holder keeps its lease through every sequence of transactions while its session is active and nobody releases it |
| `Timestamps.FieldsAreChronological` | src/notebook_launcher/leases.py:122-126 | comparing date and time fields is comparing instants, over the whole proleptic Gregorian calendar |
| `Timestamps.ClockTicks` | src/notebook_launcher/leases.py:122-126 | instants count microseconds: the next tick of the clock, with every carry of the calendar, is the next instant |
| `Timestamps.IsoReads` | src/notebook_launcher/leases.py:122-126 | a reader of RFC 3339 texts gets the timestamp back from its stored text |
| `Timestamps.FractionOrder` | src/notebook_launcher/leases.py:122-126 | the dropped zero fraction still sorts first, because the plus sign sorts before the full stop |
| `Timestamps.TextOrderIsChronological` | src/notebook_launcher/leases.py:122-126 | text order of isoformat timestamps in UTC is chronological order, and equal texts are equal instants |
| `Timestamps.StaleComparison` | src/notebook_launcher/leases.py:28-52 | the text comparison decides exactly "older than now minus the limit", and its negation exactly "fresh" |
| `LeaseTexts.AcquireRowIs` | src/notebook_launcher/leases.py:26-63 | acquire on rows whose timestamps are compared as text is acquire on the instants |
| `LeaseTexts.ReclaimRowsIs` | src/notebook_launcher/leases.py:43-52 | so is its reclaiming |
| `LeaseTexts.ReconcileRowsIs` | src/notebook_launcher/leases.py:99-120 | so is reconcile |
| `LeaseTexts.MayWriteRowIs` | src/notebook_launcher/cli.py:124-146 | and so is the write authority that the validators check |
| `LeaseTexts.StoredApplyIs` | src/notebook_launcher/leases.py:26-120 | every lease transaction on rows with text comparisons is the transaction on the instants |
| `LeaseTexts.StoredRunIs` | src/notebook_launcher/leases.py:26-120 | so every run on the stored rows, read as instants, is the run that the theorems above are about |
| `LeaseTexts.OneWriterByText` | src/notebook_launcher/cli.py:111-146 | hence in every interleaving two stored rows of one session never both have write authority by the texts |
| `LaunchPipeline.ResolvedGpuSatisfies` | src/notebook_launcher/runtime.py:149-203 | whatever GPU allocation is resolved satisfies the on/off policy |
| `LaunchProgress.ResolvedGpuExactly` | src/notebook_launcher/runtime.py:149-203 | the GPU is used exactly if it is not switched off and host and container offer the same devices; insisting on it fails exactly otherwise |
| `LaunchPipeline.StepInv` | src/notebook_launcher/pipeline.py:290-588 | every transaction of every worker, and every transaction around them, keeps the launch invariant |
| `LaunchPipeline.ReadyLaunchIsBacked` | src/notebook_launcher/pipeline.py:653-677 | in every interleaving a ready launch names a session of its own workspace with all three flags true, its own agent mode and a GPU setting within its policy; started fresh, reused or followed |
| `LaunchPipeline.StartsAtMostOnce` | src/notebook_launcher/pipeline.py:297-310 | in every interleaving a launch moves from authorized to starting at most once |
| `LaunchProgress.LaunchEndsReady` | src/notebook_launcher/pipeline.py:290-447 | an undisturbed authorized launch ends ready on its workspace's session: started fresh, reused, or followed until its owner readied it |
| `LaunchProgress.FreshStartEndsReady` | src/notebook_launcher/pipeline.py:345-439 | without a session the worker claims, readies and names its own |
| `LaunchProgress.ReusedEndsReady` | src/notebook_launcher/pipeline.py:509-588 | a ready, verified and compatible session is reused |
| `LaunchProgress.FollowedEndsReady` | src/notebook_launcher/pipeline.py:546-588 | a start that another launch owns is followed and then reused |
| `LaunchProgress.RetiredEndsReady` | src/notebook_launcher/pipeline.py:509-588 | a dead session or an unowned start is given up, and the worker builds its own |
| `LaunchProgress.GiveUpFails` | src/notebook_launcher/pipeline.py:1032-1047 | a worker that gives up fails its launch if it was starting, and no other |
| `LaunchProgress.StopEndsLaunch` | src/notebook_launcher/pipeline.py:1049-1066 | a stop ends a launch that still is as it was seen, and no other |
| `LaunchProgress.TrustDecides` | src/notebook_launcher/state.py:416-453 | a trust decision moves a pending launch, and no other |
| `LaunchProgress.GivenUpSessionFailsLaunches` | src/notebook_launcher/state.py:627-644 | exactly the launches that were starting on a given-up session fail |
| `Runtime.Pipeline.StopAndConfirm` | src/notebook_launcher/pipeline.py:786-812 | stopped is confirmed only by a second probe; every failure is reported |
| `Runtime.Pipeline.RemoveNetwork` | src/notebook_launcher/pipeline.py:459-464 | the network is gone unless the removal failed or Docker refused it |
| `Runtime.Pipeline.CleanUp` | src/notebook_launcher/pipeline.py:450-464 | the network is removed only after the runtime is confirmed stopped |
| `Runtime.Pipeline.Rollback` | src/notebook_launcher/pipeline.py:449-485 | failed only after a complete cleanup, otherwise stopping; a ready row is left alone |
| `Runtime.Pipeline.Run` | src/notebook_launcher/pipeline.py:343-373 | claim, own, run the rest, disown |
| `Runtime.Pipeline.Tail` | src/notebook_launcher/pipeline.py:375-439 | apply, start, readiness, the ready row and the launch row, with a rollback or a crash at every point |
| `Runtime.Pipeline.RetireSession` | src/notebook_launcher/pipeline.py:679-724 | failed only after a complete cleanup, otherwise stopping and raised |
| `Runtime.Pipeline.ReuseExistingSession` | src/notebook_launcher/pipeline.py:509-588 | which active sessions are retired, with or without a stop, and which are kept |
| `Runtime.Pipeline.StopSession` | src/notebook_launcher/pipeline.py:741-784 | stopping first, stopped only after a complete cleanup |
| `Runtime.Pipeline.ReconcileStarting` | src/notebook_launcher/pipeline.py:726-739 | the loop retires and counts exactly the ownerless starting sessions; the first retirement that raises ends it without a count |
| `RuntimeResults.CleanUpExactly` | src/notebook_launcher/pipeline.py:786-812 | a cleanup takes the policy from a live container exactly if the container survives, the confirming probe is wrong and the removal takes effect; otherwise success means that nothing is left; no other session is touched |
| `RuntimeResults.CleanUpReports` | src/notebook_launcher/pipeline.py:786-812 | a cleanup reports no failure exactly if both probes answered, no stop raised, the container is not seen and the removal worked |
| `RuntimeResults.RetireExactly` | src/notebook_launcher/pipeline.py:679-724 | retiring keeps the invariant exactly if its cleanup does not do that, with and without a stop |
| `RuntimeResults.StopExactly` | src/notebook_launcher/pipeline.py:741-784 | so does stop, for every probe, stop, removal and bookkeeping |
| `RuntimeResults.StopOutcome` | src/notebook_launcher/pipeline.py:741-784 | an active session ends stopped exactly if stop reports success, and stopping otherwise; no other row changes |
| `RuntimeResults.ReuseExactly` | src/notebook_launcher/pipeline.py:509-588 | so does the retirement that reuse decides on |
| `RuntimeResults.RetireReopens` | src/notebook_launcher/pipeline.py:679-724 | a retirement ends failed exactly if it raised nothing, and then nothing is left and the workspace takes a new session; otherwise it ends stopping |
| `RuntimeResults.ReuseReopens` | src/notebook_launcher/pipeline.py:509-588 | a dead, unverified or unattested session and an unowned start are retired by the next reuse, which reopens the workspace |
| `RuntimeResults.ReuseKeeps` | src/notebook_launcher/pipeline.py:509-588 | a live, verified and attested session is left as it is |
| `RuntimeResults.ReconcileExactly` | src/notebook_launcher/pipeline.py:726-739 | so does a reconciliation of any listing |
| `RuntimeResults.ReconcileRetires` | src/notebook_launcher/pipeline.py:726-739 | with working cleanups exactly the abandoned starts of the listing end failed, and the count is their number |
| `RuntimeResults.RunTailExactly` | src/notebook_launcher/pipeline.py:375-501 | so does everything run does after its claim while the session is active, also if a stop has made it stopping in between |
| `RuntimeResults.RunFreshExactly` | src/notebook_launcher/pipeline.py:343-501 | so does a whole launch, wherever it fails or crashes |
| `RuntimeResults.CompletedRunIsReady` | src/notebook_launcher/pipeline.py:409-447 | a launch that completes leaves a ready, verified session with its container and network, and no owner |
| `RuntimeResults.FailedRunReopens` | src/notebook_launcher/pipeline.py:449-501 | a launch that fails earlier and whose rollback works ends failed: nothing is left, nothing else changed, and the workspace takes a new session at once |
| `RuntimeResults.FailedRollbackKeepsClaim` | src/notebook_launcher/pipeline.py:466-485 | a rollback that reports a failure keeps the session's claim, as stopping |
| `RuntimeResults.UnlaunchedRunIsRetired` | src/notebook_launcher/pipeline.py:431-439 | if only the launch row cannot be written, the session stays ready with nothing behind it until the next reuse retires it |
| `RuntimeResults.StepExactly` | src/notebook_launcher/pipeline.py:290-812 | every operation keeps the invariant exactly if it does not uncover a live container |
| `RuntimeResults.RunExactly` | src/notebook_launcher/pipeline.py:290-812 | the invariant holds at every point of a run exactly if none of its operations does |
| `RuntimeResults.SoundIsGuarded` | src/notebook_launcher/pipeline.py:125-131 | none does if Docker refuses to remove a network in use whenever the confirming probe may be wrong |
| `RuntimeResults.UncoveredRun` | src/notebook_launcher/pipeline.py:125-131 | a concrete run in which a live container loses its policy |
| `RuntimeResults.NothingLeftBehind` | src/notebook_launcher/pipeline.py:449-501 | in every such run a session with a container or network left is starting, ready or stopping, a live container has its policy, and a workspace has at most one such session |
| `RuntimeResults.NoClaimBeforeCleanup` | src/notebook_launcher/pipeline.py:345-373 | no session is claimed while the workspace has a container or network left |
| `RuntimeResults.CleanupReopens` | src/notebook_launcher/pipeline.py:741-784 | after any such run a stop whose cleanup works leaves nothing of the session, everything of the others, and a workspace in which a new session can be claimed |
| `RuntimeResults.StopOvertakesStart` | src/notebook_launcher/pipeline.py:375-408 | after a stop that finished the session between claim and start, for every environment: the invariant survives exactly if nothing was created, or no crash followed and the rollback removed what was |
| `RuntimeResults.OvertakenContainerStays` | src/notebook_launcher/pipeline.py:375-408 | a concrete overtaken run that leaves a live container behind a stopped session |
| `Json.SizeIs` | src/notebook_launcher/mcp.py:1068-1076 | the size arithmetic over nested values is the UTF-8 length of the encoding, in both encodings |
| `JsonReader.StringReadsBack` | src/notebook_launcher/mcp.py:1079-1086 | a reader after section 7 of RFC 8259 gets every string back from its escapes, in both encodings, surrogate pairs included |
| `JsonReader.ValueReadsBack` | src/notebook_launcher/mcp.py:1079-1086 | a reader after RFC 8259 gets every nested value back from its text, in both encodings |
| `McpPreview.CapMonotone` | src/notebook_launcher/mcp.py:630-640 | for every nested value the encoded size grows with the string cap |
| `McpPreview.CapShrinks` | src/notebook_launcher/mcp.py:630-640 | capping replaces each string by a prefix of itself, no shorter than it must be, and changes no key, number or length |
| `McpPreview.EssentialIs` | src/notebook_launcher/mcp.py:593-603 | the essential fields are members of the object with the values they have there |
| `McpPreview.LargestStringCapped` | src/notebook_launcher/mcp.py:608-627 | the binary search returns the value at the largest cap up to the limit that fits; None, which also stands for the value null, if cap 0 does not fit |
| `McpPreview.StructuredPreview` | src/notebook_launcher/mcp.py:581-605 | the identity if the value fits; otherwise capped strings, only if no cap fits the essential fields, only if they do not fit either the empty value; within every limit that leaves room for null |
| `McpBridge.SafeIdSize` | src/notebook_launcher/mcp.py:943-958 | no accepted identifier is larger on the wire than 128 NULs, in either encoding |
| `McpStdio.SafeIdExactly` | src/notebook_launcher/mcp.py:943-958 | an identifier is kept exactly if it is null, a string of at most 128 UTF-8 bytes or a finite number of at most 128 |
| `McpStdio.IdEchoed` | src/notebook_launcher/mcp.py:794-815 | a kept identifier is echoed in the answer; a request with any other is refused without one |
| `McpBridge.ResultFits` | src/notebook_launcher/mcp.py:65-79 | a result no larger than the tool list fits under the constructor's minimum with every safe identifier |
| `McpBridge.InitializeSize` | src/notebook_launcher/mcp.py:831-836 | the initialize result is small enough |
| `McpBridge.ToolListSize` | src/notebook_launcher/mcp.py:54-62 | the tool list is large enough |
| `McpBridge.EmptyErrorFits` | src/notebook_launcher/mcp.py:375-380 | every error without a message fits under that minimum |
| `McpStdio.TruncateError` | src/notebook_launcher/mcp.py:1089-1110 | the binary search returns the error with the longest message prefix that fits, and none exactly if the empty message does not |
| `McpStdio.EncodeResponseLine` | src/notebook_launcher/mcp.py:1079-1123 | never more than the limit; unchanged if it fits, else the longest truncation with its code and safe identifier, else the fallback or the ValueError; and the line reads back as exactly that reply |
| `McpStdio.LineReadsBack` | src/notebook_launcher/mcp.py:1079-1086 | who reads the line of a reply gets the reply back, in both encodings, with nothing left but the line break |
| `McpClient.ReplyMembers` | src/notebook_launcher/mcp.py:913-919 | by their names a client finds version, identifier, and either the result or the error with its code and message |
| `McpClient.ToolReplyReads` | src/notebook_launcher/mcp.py:961-1004 | the text of a tool answer reads as the answer, and its error flag is found |
| `McpClient.ToolValueReads` | src/notebook_launcher/mcp.py:961-1004 | of a tool result the client reads the envelope of some preview limit, flagged as no error |
| `McpClient.ToolErrorReads` | src/notebook_launcher/mcp.py:1007-1042 | of a failed tool it reads the code and the message as far as it was sent |
| `McpClient.ToolListNames` | src/notebook_launcher/mcp.py:54-62 | the tool list names the methods in their order |
| `McpClient.CodesByLine` | src/notebook_launcher/mcp.py:45-50 | the error codes by what was wrong with the line |
| `McpStdio.NoFallback` | src/notebook_launcher/mcp.py:1111-1123 | from the constructor's minimum on neither the fallback nor the ValueError is reachable |
| `McpStdio.BoundedToolResponse` | src/notebook_launcher/mcp.py:961-1004 | a preview that fits and whose next larger one does not, or the error, and that only if not even the smallest preview fits |
| `McpStdio.LargestPreview` | src/notebook_launcher/mcp.py:961-1004 | where larger previews are never smaller on the wire it is the largest that fits |
| `McpStdio.BoundedToolError` | src/notebook_launcher/mcp.py:1007-1042 | the longest message prefix whose twice-escaped reply fits, and the error exactly if not even the empty one does |
| `McpStdio.Respond` | src/notebook_launcher/mcp.py:784-903 | the reply to every parsed line and backend outcome |
| `McpStdio.AnswerIsSafe` | src/notebook_launcher/mcp.py:784-903 | every reply has a safe identifier, a known code and a result that fits |
| `McpStdio.WriteAnswer` | src/notebook_launcher/mcp.py:904-909 | writing a reply never raises |
| `McpStdio.AnswerLine` | src/notebook_launcher/mcp.py:776-909 | a line is answered exactly if it is not blank, has an identifier or is no object, and is no valid notifications/initialized |
| `McpStdio.RunStdioBridge` | src/notebook_launcher/mcp.py:769-910 | for every input the bridge writes, in order, one text per line that expects an answer, each within the limit, a single line, and reading back as the answer to its line or its error with the longest message that fits; no write raises |
| `McpStdio.LineIsOne` | src/notebook_launcher/mcp.py:1079-1123 | whatever is written for a reply, truncated or not, ends with its only line break |
| `McpStdio.EncodeUnbroken` | src/notebook_launcher/mcp.py:1079-1086 | an encoded value holds no line break |
| `Firewall.FirewallRuleArgv` | src/notebook_launcher/network.py:231-348 | the loops build the ordered command list whose meaning the rows below state |
| `Firewall.AddDns` | src/notebook_launcher/network.py:242-261 | two commands per endpoint, in the order of the endpoints |
| `Firewall.CheckArgv` | src/notebook_launcher/network.py:361-366 | the action replaced, the position of an insertion dropped |
| `Firewall.FirewallVerificationArgv` | src/notebook_launcher/network.py:351-367 | the bridge lookup, then one check per rule command, in order |
| `Firewall.NetworkPolicyApplier.Verify` | src/notebook_launcher/network.py:415-432 | passes exactly if the bridge is there, every rule of the plan is installed and no command fails by itself; then it counts all commands; it changes nothing |
| `Firewall.NetworkPolicyApplier.RemoveOwnedNetwork` | src/notebook_launcher/network.py:504-516 | success means that no network is left; a network of another plan is never touched |
| `Firewall.NetworkPolicyApplier.Remove` | src/notebook_launcher/network.py:434-490 | no rule is touched unless the network is gone; then every cleanup command is attempted, and no exception means that all of them worked |
| `Firewall.NetworkPolicyApplier.RunRules` | src/notebook_launcher/network.py:401-407 | the loop ends at the first failing command, and the firewall is the effect of a prefix |
| `Firewall.NetworkPolicyApplier.RollBack` | src/notebook_launcher/network.py:408-413 | undoes any prefix, network included |
| `Firewall.NetworkPolicyApplier.Apply` | src/notebook_launcher/network.py:387-413 | succeeds with all commands in effect and verified, or, if cleanup works, leaves firewall and network exactly as before; while the network is left no rule is dropped |
| `FirewallResults.Names` | src/notebook_launcher/network.py:370-380 | the two chains of a plan are distinct from each other and from the built-in ones |
| `FirewallIsolation.ChainsAreOwn` | src/notebook_launcher/network.py:370-380 | the four chains of two plans whose digests differ are pairwise distinct |
| `FirewallIsolation.SecondPlanUntouched` | src/notebook_launcher/network.py:370-380 | a firewall on which one plan is applied is untouched for another |
| `FirewallIsolation.SecondApply` | src/notebook_launcher/network.py:387-413 | so a second plan is applied completely, and however far it gets its rollback leaves the first one exactly |
| `FirewallIsolation.FirstPlanKeeps` | src/notebook_launcher/network.py:231-348 | with disjoint subnets the packets of the first plan's subnet get the verdicts they got before, forwarded or to the host |
| `FirewallIsolation.FirstPlanRemoved` | src/notebook_launcher/network.py:434-490 | removing the first plan while the second is applied leaves exactly the second one |
| `FirewallResults.CheckDenotesSame` | src/notebook_launcher/network.py:351-367 | a check command denotes the same rule in the same chain as the command it checks |
| `FirewallResults.EgressVerdict` | src/notebook_launcher/network.py:242-294 | first-match evaluation accepts exactly DNS to an approved endpoint, lets through exactly what is no DNS and lies in no listed network, and rejects the rest |
| `FirewallResults.IngressVerdict` | src/notebook_launcher/network.py:308-332 | the input chain accepts exactly DNS to an approved endpoint and rejects the rest |
| `FirewallResults.ProtocolAssignmentsPartition` | src/notebook_launcher/network.py:14-42 | the 192.0.0.x entries cover exactly 192.0.0.0/24 without .9 and .10 |
| `FirewallResults.DeniedExactly` | src/notebook_launcher/network.py:14-42 | which addresses are denied, octet by octet |
| `FirewallResults.ApplyAll` | src/notebook_launcher/network.py:231-348 | on a firewall without this plan's chains all commands succeed, with the rules above hooked in first |
| `FirewallRollback.ChecksDecide` | src/notebook_launcher/network.py:415-432 | the checks of a command list pass exactly if every rule it adds is present, and they change nothing |
| `FirewallRollback.VerifyDecides` | src/notebook_launcher/network.py:415-432 | the checks of a plan, run one by one, all pass exactly if all of its rules are installed |
| `FirewallRollback.VerifyAfterApply` | src/notebook_launcher/network.py:415-432 | after a complete apply every check passes |
| `FirewallRollback.FaresAsBefore` | src/notebook_launcher/network.py:231-348 | a packet that meets no matching hook of the plan on some rules gets exactly the verdict it got from them before |
| `FirewallRollback.ForwardedTraffic` | src/notebook_launcher/network.py:231-307 | what the whole applied firewall does with a forwarded packet from the plan's subnet; all other packets fare exactly as before, and so do those let through unless old rules jump back to a built-in chain |
| `FirewallRollback.HostTraffic` | src/notebook_launcher/network.py:308-348 | the same for a packet to the host; other packets fare exactly as before, those from the subnet unless old rules jump to DOCKER-USER |
| `FirewallRollback.PrefixIsPartial` | src/notebook_launcher/network.py:401-407 | every prefix of the commands leaves at most this plan's chains and hooks behind |
| `FirewallRollback.RemoveRestores` | src/notebook_launcher/network.py:434-490 | removal from any such state restores the firewall exactly and reports no failure |
| `FirewallRollback.FailedApplyRollsBack` | src/notebook_launcher/network.py:408-413 | so for every k a failure after k commands is undone exactly |
| `FirewallRollback.SilentRemovalWorked` | src/notebook_launcher/network.py:443-490 | a removal that raises nothing had every command work |
| `FirewallRollback.SilentRemovalLeavesNothing` | src/notebook_launcher/network.py:443-490 | whatever the firewall was, it then holds neither chain of the plan, and no jump to one that was there |
| `SourceDigest.FeedRecord` | src/notebook_launcher/repository.py:53-58 | the six updates feed one record |
| `SourceDigest.SourceTreeStream` | src/notebook_launcher/repository.py:34-59 | the loop feeds the records of the sorted paths, the root manifest left out |
| `SourceDigest.EnumerationOrderIrrelevant` | src/notebook_launcher/repository.py:36-37 | any two enumerations of a tree feed the same stream |
| `SourceDigest.RecordPrefix` | src/notebook_launcher/repository.py:53-58 | a record can be read back from the front of any stream |
| `SourceDigest.RecordReads` | src/notebook_launcher/repository.py:53-58 | a reader gets kind, mode, path and payload back, reading lengths and mode big-endian |
| `SourceDigest.KindLetters` | src/notebook_launcher/repository.py:41-52 | the four kinds and their letters |
| `SourceDigest.StreamInjective` | src/notebook_launcher/repository.py:34-59 | equal streams come from trees with the same paths, kinds, modes and payloads, apart from the root manifest |
| `SourceDigest.StreamDetermined` | src/notebook_launcher/repository.py:34-59 | and conversely: trees that agree on everything but the root manifest feed the same stream |

## Left out

- HTTP routes, HTML pages, command line, settings and the trust flow with its signatures: plumbing around the modelled state.
- GitHub, git, docker, repo2docker, subprocess and Windows job handling: foreign effects, present only as answers of the environment.
- The inside of the path-safe file primitives (directory descriptors, NT handles, directories created on the way).
- Edits that the notebook container makes behind the launcher, and `save_copy` to user data: the row and byte promises are about launcher-side workspace operations.
- `update_active_notebook` and `set_document_version` of the state store: unguarded alternatives outside the proved protocol.
- Workspaces start without document rows, the database starts empty; migrations and audit records are not modelled.
- `classify_destination`: it rests on address tables of the Python library; the firewall theorems are about the listed networks. Plans are those the source accepts, so without IPv6; the validation of names and subnets is not modelled.
- Whether the bridge interface exists is a flag of the environment, which decides the first verification command.
- Numbers are kept as the text json.dumps writes; the reader takes any run of name and number characters that is no JSON name as one.
- JSON parsing of requests and the adapter's dispatch: an input line is what the parser leaves, a tool call is the outcome of the adapter.
- `bound_output` and the wire envelope: any function from preview limits to JSON values.
- Python strings with lone surrogates: Dafny characters are Unicode scalar values, so the encoding errors that surrogates cause are not modelled.
- McpStdio.BoundedToolResponse: does not state that the preview is the largest that fits, because previews change shape and are escaped again; `LargestPreview` gives that under monotonicity.
- After losing a claim to a session that is then retired, `run` raises; a model worker may also build again, which allows more behaviour than the code has.
- Session-private files and credentials: their removal is part of the bookkeeping that may raise.
