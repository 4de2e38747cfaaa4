# Verification of the plugin repository's protocols and formats

A Dafny project that models the parts of the repository where correctness spans
several functions, several threads or several programs, and proves what those
parts are for. `dafny verify dfyconfig.toml` checks all of it.

| files | what they model |
|---|---|
| `WorkerStates`, `SupervisorProtocol`, `SupervisorInvariants`, `SupervisorTheorems`, `SupervisorSwaps`, `SupervisorConvergence`, `SupervisorFindings` | the process supervisor as a transition system: each block under one lock is one step, each gap a step boundary, processes may exit at any moment |
| `SupervisorObjects`, `SupervisorEngine` | its two classes; every method leaves the object at the end of a run of those steps |
| `DiagnosticsRecords`, `DiagnosticsText`, `DiagnosticsLog`, `DiagnosticsBudget`, `DiagnosticsPaging`, `DiagnosticsSink` | the two-file rotating log of a serving process, against the sequence of everything ever logged; paging; the sink object |
| `DeploymentLifecycle`, `DeploymentRuntime` | the persisted life of a deployment across runtime deaths, as steps and as an object |
| `Bytes`, `Utf8Order`, `ContentDigest` | the bytes that a package's content digest hashes, for any hash |
| `CatalogYaml` | the deterministic YAML printer and a parser that undoes it |
| `WebSocketFrames` | frames of RFC 6455 (sections 5.2 and 5.3) over a stream that arrives in arbitrary chunks |
| `SourceTree`, `SourceManifest`, `SourceVerification`, `VerificationExactness` | the manifest producer and the verifier, two independent walks over one tree |
| `Wheelhouse`, `WheelhouseExactness` | the wheelhouse builder and verifier |
| `Doubles`, `ModelAnalyzer`, `CompatibilityRules` | memory bounds in one plugin with their rounding to doubles, and the rules that use them in another |
| `OperationMerge`, `OperationAgreement` | the merge of four dumps into the connector operation manifest |
| `Wrappers` | Option, Result and lists without duplicates |

What the environment answers is a parameter or a nondeterministic step: whether a
spawn, a rename or a save works, what a probe says, when a process exits, how
bytes are cut into chunks, which mask key is drawn. The hash, the wheel-name and
wheel-metadata readers are arbitrary functions.

Where the code and its own words differ, the code is modelled:

- `hot_swap` says that a replacement that fails to start is destroyed at once
  (tools/store/supervisor.py:762); a spawn that raises leaves it registered
  (tools/store/supervisor.py:702-707). `SupervisorSwaps.FailedLaunchExactly` says
  when the worker leaves the list.
- The log is described as at most 50 MiB per file
  (plugins/serving/vllm-runtime/vllm_runtime.py:54-57); a file can exceed the budget
  by the line that crosses it. `DiagnosticsBudget.BudgetIsKeptExactly` says when.
- `_terminate` is described as confirming that the process exited
  (plugins/serving/vllm-runtime/vllm_runtime.py:742-750); it also returns when a
  signal is refused or both waits run out, so RELEASED does not imply that.
- `_public` takes a process identity that answers signal 0 for a running process
  (plugins/serving/vllm-runtime/vllm_runtime.py:773-795); a child that has ended and
  was not waited for answers too, so a dead deployment is still called ready.
- `_record_crash_or_exit` speaks of CRASHED and DEGRADED
  (tools/store/supervisor.py:520); only CRASHED is set.

## Model

| member | source | states |
|---|---|---|
| SupervisorInvariants.StepKeepsInv | tools/store/supervisor.py:252-930 | Every locked block of any launch, swap, drain, watchdog pass, stop or process exit keeps the supervisor invariant, whatever the other threads are doing |
| SupervisorInvariants.RunKeepsInv | tools/store/supervisor.py:252-930 | The invariant holds after any interleaving of any length |
| SupervisorTheorems.ZeroDowntime | tools/store/supervisor.py:783-862 | From the first activation on, in every interleaving of overlapping swaps, watchdog passes and drains without process exits and without a supervisor stop, there is an active worker, alive, and HEALTHY or DEGRADED |
| SupervisorTheorems.QuietRun | tools/store/supervisor.py:783-913 | The same from any state that satisfies the invariants: quiet steps never lose the active worker or its service |
| SupervisorTheorems.ActiveAtMostOnce | tools/store/supervisor.py:812-848 | Each worker becomes active at most once; each displaced worker is handed to drain and stop by at most one swap and is no longer active |
| SupervisorTheorems.NeverReactivated | tools/store/supervisor.py:733-734 | Once the pointer has left a worker, no later step of any run points to it again |
| SupervisorTheorems.NoOrphanProcess | tools/store/supervisor.py:693-707 | In every reachable state each live process belongs to a registered worker |
| SupervisorTheorems.FailedSwapLeavesNothing | tools/store/supervisor.py:789-810 | A launch or swap that failed readiness never wrote the pointer and leaves its worker dead and unregistered |
| SupervisorSwaps.FailedLaunchExactly | tools/store/supervisor.py:693-810 | In every run: a launch or swap that raised leaves a worker that was never active, and that worker is off the list if and only if it was rolled back; it stays listed when the spawn raised or its process outlived the stop, and only then can its process run on |
| SupervisorSwaps.NoPredecessorIsLeaked | tools/store/supervisor.py:812-862 | In every run: a displaced worker whose process still runs is about to be handed over, is being drained and stopped, or outlived the stop of its drain |
| SupervisorTheorems.CrashedMeansReported | tools/store/supervisor.py:494-564 | CRASHED is never shown without a stored report, and a stored report carries the exit code of that very process |
| SupervisorTheorems.StepKeepsDisciplineInv | tools/store/supervisor.py:658-676 | While stop does not overlap a launch or swap, the active worker and every worker being launched are never marked as stopped on purpose |
| SupervisorTheorems.DisciplinedRun | tools/store/supervisor.py:658-676 | Both invariants hold throughout such runs |
| SupervisorConvergence.PassLeavesPointerExactly | tools/store/supervisor.py:883-930 | In every run, with no discipline assumed: a watchdog pass that begins after the active process has exited leaves the pointer on that worker if and only if its check found the worker STOPPED or STOPPING with the shutdown marked as intended and nobody else moved the pointer meanwhile |
| SupervisorConvergence.CrashConvergence | tools/store/supervisor.py:883-930 | So while stop does not overlap a launch or swap, such a pass always ends with the pointer off that worker |
| SupervisorConvergence.SettledExactly | tools/store/supervisor.py:896-913 | A once active worker that is dead and was stopped on purpose is settled after a step if and only if a block of stop has just settled it, or it was settled and the step is not a watchdog write on it |
| SupervisorConvergence.StoppedWorkerIsReportedExactly | tools/store/supervisor.py:494-517 | In every run: a check of a once active worker that was stopped on purpose, by a drain or with the supervisor, records and reports CRASHED if and only if a stale watchdog write has landed on it since and no later block of stop wrote over it |
| SupervisorConvergence.RunIsExecution | tools/store/supervisor.py:252-930 | Every run has the sequence of states these theorems speak of |
| SupervisorTheorems.StopLeavesNothingAlive | tools/store/supervisor.py:658-676 | A supervisor stop with nothing waiting to be spawned leaves no process alive when it returns, whatever passes and drains do meanwhile |
| SupervisorFindings.OverlappingStopDefeatsConvergence | tools/store/supervisor.py:666-674 | A concrete run of the one case in which the pointer stays: a stop that overlaps a launch leaves it on a dead worker, and a complete later pass does not clear it |
| SupervisorFindings.DrainedWorkerCanBeReportedAsCrash | tools/store/supervisor.py:896-913 | A concrete run with such a stale watchdog write: a worker that was drained and stopped on purpose is recorded and reported as CRASHED |
| SupervisorObjects.Trace.IsProtocolRun | tools/store/supervisor.py:252-930 | What the objects do, block by block, is a run of the protocol |
| SupervisorObjects.WorkerProcess.Start | tools/store/supervisor.py:253-294 | A process that runs afterwards, or a spawn that raises and leaves a STOPPED worker with neither mark nor report; a running worker is left alone |
| SupervisorObjects.WorkerProcess.CheckAndHandleExit | tools/store/supervisor.py:494-517 | Nothing is reported, and nothing changes, exactly when the process has not exited or an intended stop is under way or done; otherwise the worker is CRASHED with a report that carries the exit code of its own process and the reason that belongs to this code |
| SupervisorObjects.WorkerProcess.RecordCrashOrExit | tools/store/supervisor.py:519-552 | The state becomes CRASHED and the stored report has the reason and the exit code of that process |
| SupervisorObjects.WorkerProcess.WaitUntilHealthy | tools/store/supervisor.py:397-431 | A running worker is reported ready, and HEALTHY, if and only if a probe succeeds before the deadline and before its process exits; it is CRASHED as a startup exit with the code of its process if and only if that exits first, and otherwise left as it was |
| SupervisorObjects.WorkerProcess.Drain | tools/store/supervisor.py:433-442 | Only a HEALTHY or DEGRADED worker moves to DRAINING |
| SupervisorObjects.WorkerProcess.Stop | tools/store/supervisor.py:452-492 | The shutdown is marked as intended, the state ends at STOPPED on every path, a running process ends with the code of its signal unless the second wait runs out, and a stored report stays |
| SupervisorEngine.ProcessSupervisor.Guarantees | tools/store/supervisor.py:585-930 | Any state the supervisor object is in ends a protocol run and satisfies the invariant |
| SupervisorEngine.ProcessSupervisor.SpawnWorker | tools/store/supervisor.py:693-707 | The worker is registered before it is started and stays registered if the start raises |
| SupervisorEngine.ProcessSupervisor.LaunchInitialWorker | tools/store/supervisor.py:709-743 | Succeeds if and only if the spawn does and a probe succeeds before the deadline and before an exit, and makes the new HEALTHY worker active; any failure leaves the pointer; failed readiness leaves the worker dead and unlisted, while a spawn that raised or a process that outlived SIGKILL leaves it listed |
| SupervisorEngine.ProcessSupervisor.HotSwap | tools/store/supervisor.py:748-850 | Succeeds if and only if the spawn does and a probe succeeds before the deadline and before an exit; it then switches to a fresh HEALTHY worker and hands a live predecessor to its drain; a failure leaves pointer and predecessor untouched, and the replacement dead and unlisted or, when the spawn raised or its process outlived SIGKILL, listed |
| SupervisorEngine.ProcessSupervisor.DrainAndStopWorker | tools/store/supervisor.py:852-862 | The worker ends STOPPED on purpose and leaves the list unless its process outlived SIGKILL |
| SupervisorEngine.ProcessSupervisor.CheckAllWorkersOnce | tools/store/supervisor.py:883-930 | For every registered worker: an unexpected exit is recorded with its code and reason, a probe moves it between HEALTHY and DEGRADED, and nothing else changes; the pointer is cleared exactly when the process of the active worker has exited and no intended stop of it is under way or done |
| SupervisorEngine.ProcessSupervisor.Stop | tools/store/supervisor.py:658-676 | The pointer is cleared and every registered worker ends STOPPED on purpose; only those whose process outlives SIGKILL remain alive |
| DiagnosticsRecords.MakeRecord | plugins/serving/vllm-runtime/vllm_runtime.py:192-204 | The message is the whole text up to 4096 characters and its first 4096 characters otherwise, marked truncated exactly then, with the stream and the timestamp that were given |
| DiagnosticsRecords.OneRecordFitsAPage | plugins/serving/vllm-runtime/vllm_runtime.py:58-62 | The 4096-character limit makes any one record fit a page by itself |
| DiagnosticsRecords.BoundedLine | plugins/serving/vllm-runtime/vllm_runtime.py:192-204 | A bounded record has a bounded encoded line |
| DiagnosticsText.LineBytesIsTheLength | plugins/serving/vllm-runtime/vllm_runtime.py:192-204 | What the log counts for a record is the number of UTF-8 bytes of its JSON line, escapes and newline included |
| DiagnosticsText.PageCharsIsTheLength | plugins/serving/vllm-runtime/vllm_runtime.py:118-143 | What a page is measured by is the length of its compact JSON text in ASCII, surrogate pairs included |
| DiagnosticsLog.RetainedIsASuffix | plugins/serving/vllm-runtime/vllm_runtime.py:172-233 | Over any run of outputs, failing file operations, rotations and restarts: rotated-then-current is a contiguous suffix of everything logged, the byte counter is the current file size, and if anything was discarded the rotated file alone fills the budget |
| DiagnosticsLog.FilesStayWithinCap | plugins/serving/vllm-runtime/vllm_runtime.py:172-233 | With renames that succeed, each file stays below the budget plus the longest line logged |
| DiagnosticsLog.FilesStayWithinBudgetAndOneLine | plugins/serving/vllm-runtime/vllm_runtime.py:172-233 | With renames that succeed, each file stays below the budget plus one maximal encoded line, the longest that the message limit, the timestamp and the digits of the highest sequence number allow |
| DiagnosticsBudget.SizeAfterWrite | plugins/serving/vllm-runtime/vllm_runtime.py:206-233 | A write leaves the current file with what it held, nothing after a rotation, plus the line |
| DiagnosticsBudget.BudgetIsKeptExactly | plugins/serving/vllm-runtime/vllm_runtime.py:172-233 | Over any run of outputs, failing file operations, rotations and restarts: both files stay within the budget throughout if and only if every line that is written fits into what its file still has room for |
| DiagnosticsBudget.SomeRunExceeds | plugins/serving/vllm-runtime/vllm_runtime.py:206-233 | Whatever the budget, a run of short lines whose file operations all succeed takes the current file over it |
| DiagnosticsLog.WindowScanIsExact | plugins/serving/vllm-runtime/vllm_runtime.py:151-170 | Scanning the last 200 lines of each file gives the same resume number as scanning all of them if and only if the newest file with a readable record shows one within its window |
| DiagnosticsLog.ReadableScanIsExact | plugins/serving/vllm-runtime/vllm_runtime.py:151-170 | In particular whenever every retained record is readable |
| DiagnosticsLog.ResumeIsExact | plugins/serving/vllm-runtime/vllm_runtime.py:151-170 | The resume number is one past the newest record if that record reads back, and otherwise a number already used |
| DiagnosticsLog.NumberingIsConsecutive | plugins/serving/vllm-runtime/vllm_runtime.py:151-233 | Sequence numbers run 1, 2, 3, ... over any number of rotations and restarts, when file operations succeed and each restart finds the newest record readable |
| DiagnosticsLog.RestartKeepsNumberingExactly | plugins/serving/vllm-runtime/vllm_runtime.py:151-170 | A restart keeps the numbering if and only if the newest record reads back; otherwise the next record repeats a number |
| DiagnosticsPaging.Page | plugins/serving/vllm-runtime/vllm_runtime.py:118-143 | The page is the longest beginning of the newer records of both files that the limit, clamped to 1..500, and one MiB allow |
| DiagnosticsPaging.PageIsAPrefix | plugins/serving/vllm-runtime/vllm_runtime.py:118-143 | A page is the beginning of what is left, within both limits, and empty only when nothing is left: trimming never empties it |
| DiagnosticsPaging.PagingIsComplete | plugins/serving/vllm-runtime/vllm_runtime.py:629-649 | Feeding `nextSequence` back terminates and returns every readable later record exactly once, in order |
| DiagnosticsPaging.RunPagesCompletely | plugins/serving/vllm-runtime/vllm_runtime.py:118-233 | The same for the log left by any orderly run, whose records all fit a page |
| DiagnosticsPaging.MixedPageIsIncreasing | plugins/serving/vllm-runtime/vllm_runtime.py:118-143 | If rotations fall between the two file reads, a page is still strictly increasing and free of duplicates |
| DiagnosticsPaging.MixedPageMissesTheGap | plugins/serving/vllm-runtime/vllm_runtime.py:118-143 | Such a page sees the end of the log without one gap, and the gap is empty if and only if no event in between found the file open, full and not empty and moved it away |
| DiagnosticsPaging.RetainedRecordIsReadExactly | plugins/serving/vllm-runtime/vllm_runtime.py:118-143 | A readable record that was on disk at the first read, and is newer than the one asked for, is among the lines read if and only if it does not lie in the gap |
| DiagnosticsPaging.RetainedRecordIsPassedByExactly | plugins/serving/vllm-runtime/vllm_runtime.py:118-143 | What a caller never sees: such a record is left out of the page and passed by `nextSequence` if and only if it lies in the gap and the page, cut to its limits, still ends with a record of the current file |
| DiagnosticsPaging.MixedPageCanSkip | plugins/serving/vllm-runtime/vllm_runtime.py:118-143 | A concrete run in which a record that is on disk before and after is skipped by such a page and `nextSequence` passes it by |
| DiagnosticsSink.ResumeSequence | plugins/serving/vllm-runtime/vllm_runtime.py:151-170 | The scan of the two files returns the specified resume number |
| DiagnosticsSink.ServingDiagnostics.constructor | plugins/serving/vllm-runtime/vllm_runtime.py:74-93 | A new sink continues from the files it finds |
| DiagnosticsSink.ServingDiagnostics.Rotate | plugins/serving/vllm-runtime/vllm_runtime.py:172-183 | Rotation and the reread size, with each file operation succeeding or not |
| DiagnosticsSink.ServingDiagnostics.Handle | plugins/serving/vllm-runtime/vllm_runtime.py:206-233 | One queued line is one step of the specified log: an open sink moves a full file away first and appends the text, cut at the limit, under the next number; a closed one drops it |
| DiagnosticsSink.ServingDiagnostics.Drain | plugins/serving/vllm-runtime/vllm_runtime.py:206-233 | The writer loop ends in the state the run of its items defines, still a suffix of the whole log |
| DeploymentLifecycle.StepKeepsInv | plugins/serving/vllm-runtime/vllm_runtime.py:550-674 | Every step of start, stop and inspect, and a runtime death between any two of them, keeps the lifecycle invariant |
| DeploymentLifecycle.AtMostOneLaunch | plugins/serving/vllm-runtime/vllm_runtime.py:550-617 | Over every run with restarts, at most one process is ever launched per deployment |
| DeploymentLifecycle.LifecycleOnlyAdvances | plugins/serving/vllm-runtime/vllm_runtime.py:550-674 | A saved deployment never disappears, its state only moves up STARTING, then READY or FAILED, then RELEASED, and after RELEASED nothing is launched for it and no reply says ready |
| DeploymentLifecycle.ReadyMeansServing | plugins/serving/vllm-runtime/vllm_runtime.py:773-795 | In every run: a reply that says ready names a READY deployment and its own recorded process, and that process runs if and only if it is not a child of this runtime that ended without being waited for |
| DeploymentLifecycle.DeadChildReadsReady | plugins/serving/vllm-runtime/vllm_runtime.py:773-795 | A concrete run: a deployment is up, its process ends by itself, and an inspection still calls it ready |
| DeploymentLifecycle.BrokenStartIsNeverResumed | plugins/serving/vllm-runtime/vllm_runtime.py:550-617 | A start that broke off and left STARTING is never resumed: whatever is called afterwards, the deployment stays STARTING until it is stopped and is never READY |
| DeploymentLifecycle.ReleasedButRunning | plugins/serving/vllm-runtime/vllm_runtime.py:651-674 | A released deployment's process still runs if and only if it did not exit by itself and either its identity never reached the disk or the last termination failed to end it |
| DeploymentLifecycle.UnrecordedProcessOutlivesRelease | plugins/serving/vllm-runtime/vllm_runtime.py:584-601 | A concrete run: the runtime dies between launch and save, and the later stop reports the release while the process runs on |
| DeploymentRuntime.AwaitReady | plugins/serving/vllm-runtime/vllm_runtime.py:728-739 | The loop succeeds, finds the process gone or breaks off with an exception exactly when that answer comes first, before the deadline |
| DeploymentRuntime.ServingRuntime.Start | plugins/serving/vllm-runtime/vllm_runtime.py:550-617 | Idempotent on a known deployment; a new one comes up, READY on disk with its process and so replied, if and only if the request is valid, every save works, the artifact is prepared, the launch works and an answer comes first; every other outcome has its own error, saved state and running processes; the call is a run of the lifecycle |
| DeploymentRuntime.ServingRuntime.SignalProcess | plugins/serving/vllm-runtime/vllm_runtime.py:741-771 | SIGTERM, then SIGKILL if the first wait ran out: the process is gone and forgotten if either ends it, and nothing changes if it outlives both |
| DeploymentRuntime.ServingRuntime.Stop | plugins/serving/vllm-runtime/vllm_runtime.py:651-674 | An unknown deployment is refused; a saved stop releases it on disk, changes no other document and replies with the release; a recorded process is gone afterwards if SIGTERM or then SIGKILL ends it; the call is a run of the lifecycle |
| DeploymentRuntime.ServingRuntime.Inspect | plugins/serving/vllm-runtime/vllm_runtime.py:619-627 | Ready is what a READY document and an existing process identity make it, be the process running or an unreaped child; nothing changes |
| ContentDigest.ContentDigest | tooling/release/training_llama_factory_package.py:249-259 | The loop hashes exactly the length-prefixed entries in name order, and a length of 2^64 or more raises |
| ContentDigest.BytesDetermineThePackage | tooling/release/training_llama_factory_package.py:249-259 | Two packages give the same bytes if and only if they map the same names to the same contents |
| ContentDigest.StreamIsDecodable | tooling/release/training_llama_factory_package.py:249-259 | Different entry sequences give different byte strings: the length prefixes make the concatenation decodable |
| ContentDigest.PackageReadsBack | tooling/release/training_llama_factory_package.py:249-259 | A reader of the hashed bytes finds every entry of the package once, encoded name before content, in ascending order of names |
| ContentDigest.OrderDoesNotMatter | tooling/release/training_llama_factory_package.py:249-259 | The order in which entries were added changes neither the bytes nor whether they exist |
| ContentDigest.ByteSortingAgrees | tooling/release/training_llama_factory_package.py:249-259 | An implementation that sorts the UTF-8 names as bytes sorts the entries the same way |
| ContentDigest.BytesExist | tooling/release/training_llama_factory_package.py:249-259 | The bytes exist exactly when every name and content is shorter than 2^64 |
| Utf8Order.ByteOrderIsNameOrder | tooling/release/training_llama_factory_package.py:253-254 | Code-point order of names is byte order of their encodings, and no two names share an encoding |
| Utf8Order.CharsPart | tooling/release/training_llama_factory_package.py:254-254 | A smaller code point has a smaller encoding, and no encoding begins another |
| Utf8Order.NameReadsBack | tooling/release/training_llama_factory_package.py:254-254 | An encoded name is decoded code point by code point as RFC 3629 lays out |
| CatalogYaml.ScalarRoundTrip | tools/ci/capability_catalog.py:729-742 | Every scalar, quoted or not, reads back as itself and is never taken for an empty list or dictionary |
| CatalogYaml.CatalogRoundTrip | tools/ci/capability_catalog.py:729-786 | Every document the printer accepts, with plain keys and line-break-free strings, is recovered exactly from its text |
| CatalogYaml.EqualTextMeansEqualCatalog | tools/ci/capability_catalog.py:816-827 | What `--check` compares: equal texts come from equal catalogs |
| CatalogYaml.FieldsRoundTrip | tools/ci/capability_catalog.py:745-765 | A dictionary block at any indentation is read back whole and stops where the block stops |
| CatalogYaml.ItemsRoundTrip | tools/ci/capability_catalog.py:766-777 | The same for a list, whose dictionaries put their first line after the dash |
| CatalogYaml.PrinterAcceptsExactly | tools/ci/capability_catalog.py:745-778 | The printer accepts exactly documents of strings, dictionaries, and lists of strings and non-empty dictionaries |
| CatalogYaml.RenderYaml | tools/ci/capability_catalog.py:745-778 | The recursion that appends to a local list prints what the specification prints |
| CatalogYaml.LayoutExample | tools/ci/capability_catalog.py:745-778 | The printed lines of a field, of a nested dictionary, of a list of a text and of a dictionary, and of empty collections, at any depth |
| CatalogYaml.QuotedExamples | tools/ci/capability_catalog.py:729-742 | Numbers and reserved words are printed in quotes |
| CatalogYaml.EscapedExample | tools/ci/capability_catalog.py:741-742 | Backslashes and quotes are escaped by a backslash |
| WebSocketFrames.FrameRoundTrip | tools/ci/exercise_onebot_native_transports.py:89-142 | A sent frame reads back with its payload under any mask key and before anything that follows; the opcode comes back if and only if it is below 16 |
| WebSocketFrames.ConversationRoundTrip | tools/ci/exercise_onebot_native_transports.py:89-142 | Any sequence of frames decodes to the same opcodes and payloads, each frame taking exactly its own bytes |
| WebSocketFrames.MaskingTwice | tools/ci/exercise_onebot_native_transports.py:118-118 | Masking twice with one key gives the payload back |
| WebSocketFrames.FrameLayout | tools/ci/exercise_onebot_native_transports.py:89-119 | The bytes of a frame as section 5.2 of RFC 6455 lays them out: opcode with the final bit, mask bit with the length in one of three forms in network order, key, and payload combined bit by bit with byte i modulo four of the key |
| WebSocketFrames.LengthRoundTrip | tools/ci/exercise_onebot_native_transports.py:104-113 | Each of the three length forms reads back as the length it was written for |
| WebSocketFrames.EncoderPicksTheShortest | tools/ci/exercise_onebot_native_transports.py:104-113 | No bytes that decode to the same payload with the same masking are shorter than the encoder's |
| WebSocketFrames.Encode | tools/ci/exercise_onebot_native_transports.py:101-105 | A frame is refused exactly when its payload exceeds 16 MiB or its opcode is not a byte |
| WebSocketFrames.Connection.ReadExact | tools/ci/exercise_onebot_native_transports.py:57-69 | Exactly the requested bytes, however they arrive in chunks, or an error once the peer has closed |
| WebSocketFrames.Connection.SendFrame | tools/ci/exercise_onebot_native_transports.py:89-119 | The encoded frame goes out, or nothing does |
| WebSocketFrames.Connection.ReadFrame | tools/ci/exercise_onebot_native_transports.py:122-142 | The specified decoding of what arrives, under any chunking, consuming exactly one frame |
| SourceTree.CheckIgnored | tools/ci/verify_source_manifest.py:121-132 | The walk up the parents finds an ignored ancestor exactly when there is one |
| SourceTree.PrunedWalkIsFilteredWalk | tools/ci/update_source_manifest.py:110-167 | The pruned walk finds exactly what a full walk filtered by the ignore rules finds, and fails exactly when that holds a directory link or a special file |
| SourceTree.WalksAgree | tools/ci/verify_source_manifest.py:135-183 | With Git metadata allowed the verifier lists exactly what the producer recorded, unless a walked directory below the root holds a file called `.git` |
| SourceTree.WalkPayload | tools/ci/verify_source_manifest.py:135-183 | The walk that prunes the directory list in place returns the specified payload |
| SourceManifest.RefreshSucceedsExactly | tools/ci/update_source_manifest.py:170-246 | A refresh succeeds if and only if every record has a path and, unless the accept flag is given, no changed file has a last pin with another digest |
| SourceManifest.RefreshedExactly | tools/ci/update_source_manifest.py:185-246 | A refresh that succeeds lists every observed record once and in order, takes the digests of protected files, license and policy from them, and tells exactly the added, changed, removed and protected paths; one that is refused names exactly the files whose protection is broken |
| SourceManifest.RefreshIsIdempotent | tools/ci/update_source_manifest.py:207-246 | A second refresh of the same tree changes nothing and reports nothing, with or without the accept flag |
| SourceManifest.ProtectedDigestsStayExactly | tools/ci/update_source_manifest.py:185-235 | Without the accept flag, a refresh that succeeds leaves every protected digest as it was if and only if each protected path that the guard on changed paths does not look at already carries the observed digest |
| SourceManifest.ProtectedDigestsStay | tools/ci/update_source_manifest.py:185-235 | So a manifest whose protected digests agree with its records keeps them, or the refresh fails |
| SourceManifest.UnrecordedProtectedFileIsRewritten | tools/ci/update_source_manifest.py:185-235 | Without that agreement it can fail: a protected file that has no record yet is rewritten silently |
| SourceManifest.IndexRecords | tools/ci/update_source_manifest.py:170-182 | The last record of a path counts, and a record without a path is refused |
| SourceManifest.ManifestDocument.Refresh | tools/ci/update_source_manifest.py:207-246 | The document is brought in line in place, or left as it was when the refresh fails |
| SourceVerification.PayloadIsRecorded | tools/ci/update_source_manifest.py:125-166 | Every payload entry of the tree has exactly its record |
| SourceVerification.RecordedIsPayload | tools/ci/update_source_manifest.py:125-166 | Every record is that of a payload entry |
| SourceVerification.RefreshedIsAccepted | tools/ci/verify_source_manifest.py:215-332 | The refreshed manifest is accepted if and only if the header verifies, no nested `.git` file is walked, names and link targets are safe, links lead to recorded regular files, and the license and at least one protected file are recorded regular files |
| SourceVerification.VerifyManifest | tools/ci/verify_source_manifest.py:215-332 | The loops of the verifier accept exactly the manifests the specification accepts |
| VerificationExactness.AcceptanceIsExact | tools/ci/verify_source_manifest.py:215-332 | A manifest is accepted if and only if the tree can be walked, its names and links are admissible, and the manifest records exactly the payload entries with the digest, size, mode and target that the tree holds, and pins the license and at least one protected file with their digests |
| VerificationExactness.StrictAcceptanceIsExact | tools/ci/verify_source_manifest.py:135-183 | Without Git metadata the verifier accepts what it accepts with it, of trees without anything called `.git` that is not an ignored directory |
| SourceVerification.FillEntries | tools/ci/verify_source_manifest.py:251-270 | The table of entries, or a refusal at the first inadmissible or repeated path |
| Wheelhouse.MatchIsExact | tooling/release/official_plugin_package.py:125-125 | A lock line matches exactly when it is a name, two equals signs and a version, and in one way only |
| WheelhouseExactness.LockIsReadExactly | tooling/release/official_plugin_package.py:835-853 | A lock reads as a list of pins if and only if these are its lines that are not comments, no distribution is pinned twice, and grpcio and protobuf are among them |
| Wheelhouse.CanonicalTwice | tooling/release/official_plugin_package.py:846-846 | Canonical names are fixed points, so builder and verifier compare the same names |
| Wheelhouse.AcceptanceIsABijection | tooling/release/official_plugin_package.py:1008-1101 | An accepted package holds as many records as pins, one for every pin with its file, pairwise distinct distributions and filenames, and exactly pins-plus-one entries: those files and the manifest |
| Wheelhouse.EveryWheelIsPinned | tooling/release/official_plugin_package.py:1008-1101 | Conversely every record of an accepted package is that of a pin, name and version |
| WheelhouseExactness.AcceptanceIsExact | tooling/release/official_plugin_package.py:1008-1101 | A package is accepted if and only if its manifest is bound, the lock is readable, and there is one record per pin and none besides, each genuine: the file is there with that hash and size, and its name and metadata agree with the pin |
| Wheelhouse.NameCheckIsRedundant | tooling/release/official_plugin_package.py:1038-1098 | Once as many records as pins have passed, every pinned name has been seen: the last comparison of names cannot fail |
| Wheelhouse.BuiltWheelhouseIsAccepted | tooling/release/official_plugin_package.py:943-1005 | Whatever the builder assembles passes the verifier it ends with |
| WheelhouseExactness.AssemblyIsExact | tooling/release/official_plugin_package.py:943-1005 | The builder succeeds if and only if it gets one suitable wheel for every pin of a readable lock |
| WheelhouseExactness.AssembledExactly | tooling/release/official_plugin_package.py:943-1005 | The package then holds every wheel byte for byte under its name and a manifest with the record of each, hash and size included, and nothing else |
| Wheelhouse.VerifyRecords | tooling/release/official_plugin_package.py:1040-1096 | The verifier's loop over `seen` and `paths` stops at the first bad record and otherwise gathers what is specified |
| Wheelhouse.BuildWheels | tooling/release/official_plugin_package.py:953-993 | The builder's loop over `found` and `entries` stops at the first bad wheel and otherwise gathers what is specified |
| ModelAnalyzer.Analyze | plugins/models/hf-model-analyzer/hf_model_analyzer.py:224-310 | Bounds exist exactly for a positive parameter count and a known precision, lower at most upper, and a recommendation exactly when a positive accelerator size is given |
| ModelAnalyzer.WeightsInBytes | plugins/models/hf-model-analyzer/hf_model_analyzer.py:24-31 | Four, two or one byte per parameter, or half a byte, by precision |
| ModelAnalyzer.BoundsInBytes | plugins/models/hf-model-analyzer/hf_model_analyzer.py:245-266 | Inference takes weights and activation, training four times the weights and half of them or one GiB on top; a missing activation is an eighth of the weights or half a GiB |
| ModelAnalyzer.BoundsAreOrdered | plugins/models/hf-model-analyzer/hf_model_analyzer.py:245-266 | For every analyzable model the weights are at most the lower bound and that at most the upper bound |
| Doubles.CeilingExactly | plugins/models/hf-model-analyzer/hf_model_analyzer.py:273-273 | For quotients below 2^53, the ceiling of the floating-point quotient is the exact ceiling, or one less exactly when the quotient rounds down to an integer |
| Doubles.SmallNeverRoundsShort | plugins/models/hf-model-analyzer/hf_model_analyzer.py:273-273 | No quotient of a number below 2^53 rounds down to an integer |
| ModelAnalyzer.RecommendationIsLeast | plugins/models/hf-model-analyzer/hf_model_analyzer.py:267-276 | The least number of accelerators that holds the upper bound is the recommended one, or one more exactly when the floating-point quotient rounds down to an integer |
| ModelAnalyzer.SmallRecommendationIsLeast | plugins/models/hf-model-analyzer/hf_model_analyzer.py:267-276 | Below 2^53 bytes the recommended number is the least that holds the upper bound |
| ModelAnalyzer.RecommendationFallsShort | plugins/models/hf-model-analyzer/hf_model_analyzer.py:267-276 | From 2^53 bytes on a recommendation can be one accelerator too few |
| ModelAnalyzer.RoundedCeilingIsExact | plugins/models/hf-model-analyzer/hf_model_analyzer.py:273-273 | Below 2^53 bytes any quotient within half a unit in the last place has the exact ceiling |
| CompatibilityRules.Evaluate | plugins/policy/compat-rules/compat_rules.py:210-426 | The report holds exactly the issues of the rules, is compatible exactly when none blocks, and carries one decision per issue |
| CompatibilityRules.IssuesAreExact | plugins/policy/compat-rules/compat_rules.py:210-426 | A report holds an issue if and only if its condition holds of the node, the model and the environment, and with the severity of its code |
| CompatibilityRules.VersionReadsBack | plugins/policy/compat-rules/compat_rules.py:88-95 | Three numbers with dots between them are read as that version |
| CompatibilityRules.OlderIsSmaller | plugins/policy/compat-rules/compat_rules.py:88-95 | Versions compare as the numbers they write in any base above their parts |
| CompatibilityRules.WhatBlocks | plugins/policy/compat-rules/compat_rules.py:253-406 | A report is incompatible exactly when runtime, driver, precision or memory blocks |
| CompatibilityRules.RecommendedInventoryFits | plugins/policy/compat-rules/compat_rules.py:349-406 | The recommended number of accelerators of the stated size or larger, plus the one missing when the analyzer's quotient rounds down to an integer, never gets a memory issue |
| CompatibilityRules.RecommendationIsExact | plugins/policy/compat-rules/compat_rules.py:349-406 | Of equal accelerators of the stated size, an inventory is free of memory issues if and only if it holds at least the recommended number, plus the one missing when the analyzer's quotient rounds down to an integer |
| CompatibilityRules.SmallRecommendationIsExact | plugins/policy/compat-rules/compat_rules.py:349-406 | Below 2^53 bytes that is the recommended number itself |
| CompatibilityRules.MoreMemoryStaysCompatible | plugins/policy/compat-rules/compat_rules.py:309-406 | Raising accelerator memory never turns a compatible report incompatible |
| CompatibilityRules.OneMoreAcceleratorStaysCompatible | plugins/policy/compat-rules/compat_rules.py:309-406 | Adding an accelerator keeps a compatible report compatible if and only if the inventory already had one or the new one supports the precision |
| OperationMerge.IndexRows | tooling/connector_operations/manifest.py:58-64 | Rows gathered by operation and provider, the last one counting |
| OperationMerge.IndexHoldsTheRows | tooling/connector_operations/manifest.py:58-64 | With unique rows the table holds exactly the rows |
| OperationAgreement.BuildSucceedsExactly | tooling/connector_operations/manifest.py:83-343 | The build succeeds if and only if all sources agree, on the rows as they are dumped: the policy with the code on roles, operations and catalogs, the tables of Exchange with each other, and for every supported operation providers, roles, tools, mutation and projections, save for exactly the listed exceptions |
| OperationMerge.BuildIgnoresOrder | tooling/connector_operations/manifest.py:144-343 | The manifest, or the fault, does not depend on the order of rows that are unique per operation and provider, nor on the order of the operations, sections and providers of the policy |
| OperationMerge.BuiltManifestAgrees | tooling/connector_operations/manifest.py:194-289 | Every supported operation is listed once, in order, and its row agrees with every row of every source that states something about it, save for the listed projections |
| OperationMerge.ExceptionsAreExact | tooling/connector_operations/manifest.py:191-299 | On success the supported operations whose mutation no source states, and those whose projections differ, are exactly the listed ones |
| OperationMerge.BuiltManifestIsComplete | tooling/connector_operations/manifest.py:301-315 | Every mapping of Exchange for an unsupported operation is listed with its tools, and nothing else is |
| OperationMerge.BuiltProviders | tooling/connector_operations/manifest.py:317-343 | The providers are those of the operations, with an outer claim exactly where Navigator answers |
| OperationMerge.MergeOperations | tooling/connector_operations/manifest.py:191-289 | The loop over the sorted operations with its two exception sets, stopping at the first disagreement |

## Left out

Stated with a condition, because the code does not meet the property without it:

- SupervisorConvergence.CrashConvergence: requires that a supervisor stop does not overlap a launch or swap; `PassLeavesPointerExactly` is the exact condition without that, and `SupervisorFindings.OverlappingStopDefeatsConvergence` a run that meets it.
- SupervisorTheorems.ZeroDowntime: excludes process exits and supervisor stops, which do end service.
- SupervisorTheorems.StopLeavesNothingAlive: assumes that nothing is waiting to be spawned and that SIGKILL ends each process it stops within its wait.
- DiagnosticsLog.NumberingIsConsecutive: requires that every restart finds the newest record readable; a message with U+0085, U+2028 or U+2029 splits its line, and then a number is used twice.
- DiagnosticsPaging.RunPagesCompletely: pages are read with no rotation between the two file reads; otherwise `RetainedRecordIsPassedByExactly` says which records are passed over, and `MixedPageCanSkip` shows one. Sequence numbers have at most nine hundred thousand digits.
- DeploymentLifecycle.ReleasedButRunning: process identities are not reused; the code identifies a process by its number alone.
- DeploymentLifecycle.ReadyMeansServing: the same, and init waits for the children of a runtime that has died.
- SourceManifest.ProtectedDigestsStay: starts from protected digests that agree with the records; `ProtectedDigestsStayExactly` is the exact condition without that, and `UnrecordedProtectedFileIsRewritten` a case in which a digest is rewritten.
- CatalogYaml.CatalogRoundTrip: the reader is this project's own parser; standard YAML typing of unquoted dates or exponents is not claimed. Keys start with no blank, dash or quote and hold no colon or line break.
- Wheelhouse.BuiltWheelhouseIsAccepted: hashes are well formed and no reader takes an empty file for a wheel.
- ModelAnalyzer.RecommendationIsLeast: quotients of the upper bound and the accelerator memory are below 2^53; the double nearest to a larger one can be too high as well.
- CompatibilityRules.RecommendationIsExact: the same, and so for `RecommendedInventoryFits`.
- SupervisorSwaps.NoPredecessorIsLeaked: is about workers a swap displaced; an initial launch that overwrites an active worker leaves it running and listed.
- CompatibilityRules.OneMoreAcceleratorStaysCompatible: the added accelerator has non-negative memory.

Not captured by a member that is modelled:

- SupervisorObjects.WorkerProcess.Stop: the grace period, SIGTERM and SIGKILL are one event that ends the process or outlives both waits.
- SupervisorObjects.WorkerProcess.RecordCrashOrExit: signal name, standard error tail, host callbacks and timestamps of a report.
- DiagnosticsSink.ServingDiagnostics.Handle: one write is all or nothing; a failed read of a file while paging or resuming is not modelled.
- DeploymentRuntime.ServingRuntime.Start: artifact materialization, the port and the request fields are one outcome that succeeds, is declined or raises.
- SourceManifest.ManifestDocument.Refresh: upper-case digests and unknown record fields; `order` is the sorted listing that the library sort returns.
- Wheelhouse.CanonicalTwice: names are lower-cased in ASCII only.
- SourceVerification.RefreshedIsAccepted: the header checks that do not depend on the tree, the hexadecimal form of the policy digest among them, are one flag.
- Wheelhouse.BuildWheels: wheels come in the order of the library sort; the JSON of the manifest is a value.
- ModelAnalyzer.Analyze: the parameter count read from a model name, the model family, and the legacy estimate in gigabytes; a count or quotient above the range of doubles, which raises.
- ContentDigest.ContentDigest: names with lone surrogates, which cannot be encoded.
- CompatibilityRules.VersionReadsBack: digits of other scripts than ASCII, which a version pattern also matches.
- OperationMerge.MergeOperations: which of two faults of one binding table is worded first.

Not modelled:

- Probes over TCP and UNIX sockets, HTTP handlers, the proxy and the upgrade handshake: external effects.
- SHA-256, ZIP and tar writing, wheel metadata, version libraries, JSON schema validation.
- The other packaging and connection release scripts, the store installer, profiles and command lines: long field comparisons and file handling.
- Model import and credentials of the serving runtime: file and download checks.
- The legacy hardware evaluation and the evaluator plugins: per-record checks and counts.
