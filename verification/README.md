# HPK: a verified model of the control-file protocol and its companions

HPK runs Kubernetes pods on a Slurm cluster. A pod's progress reaches Kubernetes through files:
`hpk-pause` creates `<container>.jobid` and `<container>.exitCode` in the pod's control directory, a
polling watcher notices them, a bounded queue carries the events to a worker, and the worker
reloads the stored pod, recomputes its status from the directory and sends it on. This project
models that chain as a transition system and proves what holds in every interleaving. It also
models the atomic projection of configuration volumes and four loop-heavy algorithms (variable
expansion, log tails, nested mount points, control-file paths), each proved against a simple
specification.

`dafny verify dfyconfig.toml` checks the project (Dafny 4.11).

| file | models |
|---|---|
| `ControlFiles.dfy` | the control directory, and the one-shot phase `PhaseOf` it stands for |
| `Conditions.dfy` | the pod condition list |
| `PodStatus.dfy` | the status machine: `Classifier` and `Pod` as mutable objects, and the function they refine |
| `StatusRefinement.dfy` | the status machine agrees with `PhaseOf` |
| `Poller.dfy` | the polling watcher with its two reused snapshot buffers |
| `EventQueue.dfy` | the bounded queue, its lock, its worker, and shutdown |
| `Lifecycle.dfy` | all of them together, with `hpk-pause`, as one transition system and its invariant |
| `LifecycleTheorems.dfy` | what holds in every run, with exact conditions |
| `LifecycleWitnesses.dfy` | runs, for every pod, that show where convergence and monotonicity end |
| `QueueRefinement.dfy` | the queue of the combined system is the queue of `EventQueue` |
| `AtomicWriter.dfy` | the symlink-and-rename protocol, with a failure possible at every call, overlooked or not |
| `Expansion.dfy` | `$(VAR)` expansion and its two users |
| `TailLog.dfy` | reading a log backwards, page by page |
| `NestedMounts.dfy` | mount points nested in a volume |
| `Paths.dfy` | printing and parsing control-file paths |
| `Text.dfy`, `Prelude.dfy` | splitting and joining text; small shared definitions |

## Main results

- **Convergence.** Once a poll has followed the last write and all events are handled, the last status
  sent has the phase of the control directory, however stale the pods loaded from disk were
  (`Convergence`); `ConvergenceExact` says for every run, system errors and losses included, exactly
  when. Reconciliation is not atomic in the model: it may see any directory between the one at its
  start and the one at its end; `ConvergenceByTime` says which exit codes that leaves in doubt. After
  the last write the work left is bounded whatever the scheduler does, and doing it leads there
  (`WorkIsBounded`, `EventualConvergence`).
- **The order of phases.** `PhaseExact` gives the phase of every status ever sent, and
  `BackwardExact` exactly when a later one moves backward, for every run and both senders.
- **The incremental machine refines the one-shot reading** from any stored status of the same run
  (`ReconcileRefinesPhaseOf`); readiness follows the phase; the init gate holds across both processes;
  the catch-all failure and the panic are unreachable.
- **Crash-point atomicity.** At every recorded step of every `Write`, failing or not, `..data` shows
  the complete old or the complete new payload, and changes from one to the other once. A successful
  `Write` shows its payload, and leaves a tidy directory, exactly if no read error that the code
  overlooks hides something that matters.
- **Refinements** with exact boundaries for the algorithms of the last four modules.

## What the proofs found

Each of these is a lemma about the code as it is.

- An exit-code file that a poll sees before it is filled produces no second creation event, so a
  failure can stay unreported forever: `TornExitCodeIsLost` for every state with an open exit-code
  file, `EveryPodCanBeMisreported` for every pod with a main container. Writing exit codes under
  another name and renaming them would prevent it. (A comment in compute/events/listener.go:129-133
  asks readers to retry; no reader does.)
- A load of the stored pod that fails, because the file is just being rewritten
  (compute/podhandler/podhandler.go:62-64, compute/podhandler/podhandler.go:88) or not there yet, drops
  the event for good: `DroppedEventIsLost`, `EveryPodCanLoseAnEvent`.
- The goroutine that created the pod sends its first status without regard to the worker
  (provider/provider.go:203-209). If it comes last, Kubernetes is left with Pending:
  `EveryPodCanBeAnnouncedLate`.
- After a `.syserror` the pod can come back to life. The creator's first status can follow the failure
  (`EveryPodCanComeBack`, in which `hpk-pause` never starts). And since the failure is computed from the
  pod on disk, an event that arrives with it starts from that same pod again
  (`SysErrorIsOverwritten`, `EveryPodCanBeRevived`); this needs a writer of `.syserror` that is still
  there once `hpk-pause` has started. Exactly when a pod comes back: `ComesBackExact`.
- Once a final status is stored, the worker repeats it with the container statuses of that moment, also
  when other containers exit later (`ContainersExact`, `StoredFinalSticks`).
- A pod reported as Succeeded is later reported as Failed exactly if a system error is announced or
  stored (`LeavesSucceededExact`).
- A failing init container never gets an exit-code file (cmd/pause/main.go:426-429), so the
  `InitFailed` branch is never taken in a run of `hpk-pause`, and the pod stays Pending until a
  `.syserror` appears (`FailedInitStaysPending`).
- A pod met with an empty phase skips the init gate. In the directories that `hpk-pause` produces this
  does no harm to a pod with main containers (`FirstReconcileExact`); a non-zero init exit code,
  which `hpk-pause` does not write, would be overlooked (`FirstReconcileSkipsInitGate`,
  `FirstReconcileCounterexample`).
- The poller walks only the larger of two listings; its report is complete exactly when that one
  contains the other (`ReportExact`, `ReplacedFileIsMissed`).
- For the poller alone, a failed poll is not harmless: the next good one announces only the directory,
  or every file a second time (`AfterFailedPoll`). In this program a failed poll ends the process
  (provider/provider.go:438-445).
- A pod that a system error fails while it runs keeps its ContainersReady condition true
  (`ErroredConditions`).
- `MaxWorkers` has no effect beyond one worker at a time, and shutdown blocks for good exactly when
  queued events and blocked callers together exceed the queue (`QueueDiscipline`, `ShutdownExact`,
  `ShutdownCanDeadlock`).
- `Write` overlooks two kinds of errors. A directory of the stored version that cannot be listed
  (compute/volume/util/atomic_writer.go:328-337) hides what is to be removed, so a success can leave a
  deleted file in place (`DeletedFileStays`). A link that cannot be read
  (compute/volume/util/atomic_writer.go:441-442) is not created (`MissingLinkStays`). The contract of
  `Volume.Write` says exactly when that matters.
- A leftover `..data_tmp` makes every later update of that volume fail, and a `Write` that finds the
  payload already stored never repairs missing links (both in the contract of `Volume.Write`).
- A `$` in front of a non-ASCII byte is not preserved (`WrapBackExact`).
- A log tail has more lines than asked for exactly when no page begins where the wanted lines do
  (`ExactLength`, `TailCanBeTooLong`); it is newest first.
- A volume mounted at `/` gets no mount point for anything nested in it (`TreeExact`).

## Assumptions

- Container names are distinct across init and main containers, and the status lists match the
  specification (compute/podhandler/podhandler.go:289, compute/podhandler/podhandler.go:306,
  compute/podhandler/container.go:173). The pod is not deleted during the run, and its watch is added
  before the job is submitted (compute/podhandler/podhandler.go:261,
  compute/podhandler/podhandler.go:424). Creation succeeds, so the status first sent is Pending.
- Control files are written once; an exit code is created empty and then filled by one write.
- `.syserror` may appear at any moment in the results about every run. The job script writes it after
  the command that starts `hpk-pause` (compute/podhandler/templates.go:328-338). That command begins
  with `exec`, so once `hpk-pause` has started no shell is left to write it: a `.syserror` after files
  of `hpk-pause` comes from another writer, such as the exit handler of the constructor script
  (compute/podhandler/templates.go:142-156), which the job script generates and does not call.
- In `Lifecycle`, polls succeed; `Poller` models failing polls. A `.syserror` event whose pod cannot be
  loaded ends the process (compute/events/listener.go:148-152) and is not a step.
- What is on disk is the initial pod or any status sent earlier, chosen at any time.
- One reconciliation reads the clock once.
- Payload keys of `AtomicWriter` are already clean paths, and the operating system is not Windows. The
  name of a new timestamped directory is a parameter that does not exist yet.
- A log file does not change while its tail is read. Text is modelled byte by byte: a character of
  `Text`, `TailLog`, `NestedMounts` and `Paths` stands for one byte.

## Model

| member | source | states |
|---|---|---|
| `ControlFiles.PhaseOfMonotone` | compute/podhandler/podStatus.go:43-198 | as a write-once directory grows, the one-shot phase never moves backward and a final phase stays |
| `ControlFiles.InitScanDone` | compute/podhandler/podStatus.go:75-88 | the ordered scan passes exactly when every init container has exit code 0 |
| `ControlFiles.InitScanStable` | compute/podhandler/podStatus.go:75-88 | once the scan has an outcome, more files do not change it |
| `Conditions.FindStatusCondition` | pkg/crdtools/pod-conditions.go:72-80 | the first entry of the type, or nothing exactly when there is none |
| `Conditions.IsStatusConditionPresentAndEqual` | pkg/crdtools/pod-conditions.go:93-100 | true exactly when the first entry of the type has that status |
| `Conditions.SetFind` | pkg/crdtools/pod-conditions.go:29-53 | an entry keeps its place; entries of other types stay where and as they were |
| `Conditions.SetProperties` | pkg/crdtools/pod-conditions.go:29-53 | no type is duplicated, the type set has exactly the status asked for, other types keep theirs |
| `Conditions.ConditionHistory` | pkg/crdtools/pod-conditions.go:24-53 | after any sequence of calls each type that was set has one entry, with the last call's status, reason and message and the time of the first call of the latest unbroken run of that status; a type never set has none |
| `PodStatus.Pod.SetPodStatusCondition` | pkg/crdtools/pod-conditions.go:29-53 | the in-place edit or append makes of the list what `Set` says, whose history is proved |
| `PodStatus.Pod.PodError` | compute/errors.go:43-56 | the pod is failed with the given reason and not ready; containers and all other conditions are exactly as before, and no condition is duplicated |
| `PodStatus.Pod.SetTerminationConditions` | compute/podhandler/podStatus.go:224-242 | afterwards neither the pod nor its containers are ready; the entries of all other types are exactly as before, and none is duplicated |
| `PodStatus.Pod.HandleStatus` | compute/podhandler/container.go:195-272 | from any coherent state (running excludes the other two parts), the class afterwards is a function of the files alone: failed or successful by exit code, else running by job id, else pending; and the state stays coherent |
| `PodStatus.Pod.SyncContainerStatuses` | compute/podhandler/container.go:188-284 | both in-place loops bring every container, and nothing else, up to date with the files |
| `PodStatus.Classifier.Classify` | compute/podhandler/podStatus.go:400-416 | the four maps hold exactly the containers classified so far |
| `PodStatus.Pod.CheckInitContainers` | compute/podhandler/podStatus.go:75-88 | the loop computes the ordered init gate |
| `PodStatus.Pod.ClassifyContainers` | compute/podhandler/podStatus.go:111-116 | the loop classifies all main containers |
| `PodStatus.Pod.Evaluate` | compute/podhandler/podStatus.go:128-198 | the expressions over the four maps are the guards of the table |
| `PodStatus.Pod.FirstTransition` | compute/podhandler/podStatus.go:203-222 | the search finds the first row that applies and never runs off the table, so the panic is unreachable |
| `PodStatus.Pod.ApplyTransition` | compute/podhandler/podStatus.go:128-215 | phase, reason and conditions become those of the chosen row |
| `PodStatus.Pod.UpdateStatusFromRuntime` | compute/podhandler/podStatus.go:35-222 | the step-by-step updates with early returns compute `Reconcile`, for which `ReconcileRefinesPhaseOf` gives phase, container statuses, reason and conditions in terms of the files |
| `StatusRefinement.SyncReflects` | compute/podhandler/container.go:195-284 | after the loops the class of each container depends on its files alone, not on its earlier state |
| `StatusRefinement.GateIsScan` | compute/podhandler/podStatus.go:75-88 | the gate over container states equals the scan over the files |
| `StatusRefinement.BucketsPartition` | compute/podhandler/podStatus.go:392-432 | with distinct names the four buckets add up to the number of containers |
| `StatusRefinement.ChosenByEmptiness` | compute/podhandler/podStatus.go:128-198 | which row applies depends only on which buckets are empty |
| `StatusRefinement.ChosenIsMainPhase` | compute/podhandler/podStatus.go:111-222 | the table decides as the one-shot reading does, and its catch-all row is unreachable |
| `StatusRefinement.ReconcileRefinesPhaseOf` | compute/podhandler/podStatus.go:35-222 | from any status of the same run, however stale, one reconciliation gives `PhaseOf` of the files, every container status as the files have it, and the reason and conditions that go with them; a pod in a final phase is left exactly as it is |
| `StatusRefinement.UnsupportedFails` | compute/podhandler/podStatus.go:43-48 | a pod with unsupported fields fails at first sight, with its containers untouched |
| `StatusRefinement.FirstReconcileSkipsInitGate` | compute/podhandler/podStatus.go:43-106 | with an empty phase the main containers alone decide; agreement with `PhaseOf` exactly characterised by the init outcome |
| `StatusRefinement.FirstReconcileCounterexample` | compute/podhandler/podStatus.go:43-106 | in a directory with a non-zero init exit code, which `hpk-pause` does not write, a failed init container is reported as Pending |
| `LifecycleTheorems.FirstReconcileExact` | compute/podhandler/podStatus.go:43-106 | in every directory that `hpk-pause` can produce, the reconciliation of a pod with an empty phase is right exactly if it has main containers or its init containers are done |
| `Poller.Recording.Clear` | pkg/filenotify/poller.go:179-186 | nothing of the previous snapshot remains |
| `Poller.Recording.Record` | pkg/filenotify/poller.go:188-228 | the buffer mirrors the observation, whatever it held: the item itself, and exactly the listed names with the information listed last; fails exactly on errors other than "does not exist" |
| `Poller.ItemToWatch.CompareEntries` | pkg/filenotify/poller.go:276-298 | the loop emits each change of the larger listing once, with left and right not confused by the swap |
| `Poller.ItemToWatch.CheckForChanges` | pkg/filenotify/poller.go:252-299 | events are exactly the reported changes between the two snapshots, and the left snapshot is untouched |
| `Poller.ItemToWatch.Watch` | pkg/filenotify/poller.go:142-169 | over any sequence of ticks each batch holds each change between consecutive observations once; the swapped buffers never alias; if no listed name ever disappears, each name that some tick lists and that was not there at first is sent exactly once, and no other ever |
| `Poller.ReportExact` | pkg/filenotify/poller.go:276-322 | every event is a true difference; the report is the whole difference exactly when the smaller listing's names occur in the larger |
| `Poller.DifferenceExact` | pkg/filenotify/poller.go:301-322 | creation, removal, mode change and write, each exactly when it happened to a name, and nothing about directories inside |
| `Poller.ItselfExact` | pkg/filenotify/poller.go:264-274 | what is reported about the watched item itself, and that entries are compared only in a directory that stays |
| `Poller.SilenceExact` | pkg/filenotify/poller.go:276-322 | among plain files a poll is silent exactly when nothing has changed, nested listings or not |
| `Poller.AfterFailedPoll` | pkg/filenotify/poller.go:153-160 | after a failed poll the next one reports the directory alone, or every file again, exactly by the kind of failure |
| `Poller.ReplacedFileIsMissed` | pkg/filenotify/poller.go:276-298 | a file replaced by another between polls: its creation is not reported |
| `Poller.GrowingReport` | pkg/filenotify/poller.go:276-298 | in a growing directory the report is complete and its creations are exactly the new names |
| `Poller.CreatedExactlyOnce` | pkg/filenotify/poller.go:142-169 | over successive snapshots of a growing directory each name absent at the start is announced exactly once if it appears, others never |
| `EventQueue.InvPreserved` | compute/events/listener.go:66-117 | every step of pushers, workers, `Listen` and cancellation keeps the worker, event and lock invariants |
| `EventQueue.QueueDiscipline` | compute/events/listener.go:66-117 | in every interleaving: at most one live worker; accepted = handled, in hand, queued, in that order; the queue never overflows |
| `EventQueue.NothingAcceptedAfterFinished` | compute/events/listener.go:66-78 | once `Finished` is set no run accepts another event |
| `EventQueue.NothingAcceptedAfterClose` | compute/events/listener.go:97-108 | once a worker has left through the shutdown branch no run accepts another event |
| `EventQueue.ClosingStep` | compute/events/listener.go:97-108 | while a worker waits for the lock, queued events plus blocked callers stay the same number |
| `EventQueue.OverfullNeverCloses` | compute/events/listener.go:66-108 | if they exceed the capacity no run ever grants the lock |
| `EventQueue.RoomLetsItClose` | compute/events/listener.go:66-108 | otherwise there is a run that grants it |
| `EventQueue.ShutdownExact` | compute/events/listener.go:66-108 | shutdown can complete exactly when queued events and blocked callers fit into the queue |
| `EventQueue.ShutdownCanDeadlock` | compute/events/listener.go:45-117 | for every queue size and number of workers the blocked shutdown is reachable |
| `Lifecycle.FilesPreserved` | cmd/pause/main.go:405-433 | `hpk-pause` only adds to the directory; each container has exactly the files of the stage it is in; init exit codes are 0 and nothing about a main container is there before all of them |
| `Lifecycle.MainPreserved` | cmd/pause/main.go:532-573 | each main container has its own job-id file exactly if it has started, its exit-code file exactly if that was opened, and its code exactly if it has exited, in every interleaving |
| `Lifecycle.PollReports` | pkg/filenotify/poller.go:252-299 | a poll of the control directory reports one creation for every new file and nothing unknown |
| `Lifecycle.WatchPreserved` | pkg/filenotify/poller.go:142-169 | events on their way always name files that exist; an unfilled file that was seen is remembered as late |
| `Lifecycle.AnswerIsGenuine` | compute/events/listener.go:142-220 | whatever pod of the run was loaded, the status sent belongs to the run and its phase is accounted for by the event, the loaded phase and the directory seen; a stored final phase is sent on |
| `Lifecycle.StatusPreserved` | compute/events/listener.go:142-220 | every status stored, in work, waiting to be announced or sent was computed from an earlier directory, and the later ones of the worker from later directories |
| `Lifecycle.FlightPreserved` | compute/events/listener.go:109-220 | a file or code that the worker's last status has not seen is unreported, on its way, in the worker's hands, was dropped, or was seen empty |
| `Lifecycle.TimePreserved` | compute/events/listener.go:109-220 | a reconciliation sees every code filled in before its event was taken and none filled in after it was finished |
| `Lifecycle.InvPreserved` | compute/events/listener.go:89-229 | every step of every process keeps the whole invariant |
| `Lifecycle.ReachableInv` | compute/events/listener.go:89-229 | so it holds in every reachable state |
| `LifecycleTheorems.Convergence` | compute/events/listener.go:89-229 | in every run without system error, dropped event or late exit code, a quiet system in which the worker spoke last has sent the phase of the directory |
| `LifecycleTheorems.ConvergenceExact` | compute/events/listener.go:89-229 | for every quiet system of every run, exactly when the last status sent is the phase of the directory: by who spoke last, system errors, and what was missed |
| `LifecycleTheorems.ConvergenceByTime` | compute/events/listener.go:109-220 | the same by when the codes were filled in: those before the last event was taken count, those after it was finished do not |
| `LifecycleTheorems.QuietSeesAll` | pkg/filenotify/poller.go:142-169 | in a quiet system the files missed are dropped ones, the codes missed are late or dropped, and lie between those filled in since the last finish and since the last take |
| `LifecycleTheorems.PhaseExact` | compute/events/listener.go:142-220 | in every run, the phase of every status sent: Pending by the creator; by the worker Failed for a system error, a stored final phase, else the phase of the directory seen |
| `LifecycleTheorems.ContainersExact` | compute/podhandler/container.go:188-284 | the container statuses of every status the worker sends: what the files it saw say, or those stored after a system error or in a final phase |
| `LifecycleTheorems.StagesExact` | cmd/pause/main.go:405-573 | while `hpk-pause` is at work the phase of the directory is the phase of the stages its containers are in |
| `LifecycleTheorems.StageReported` | cmd/pause/main.go:405-573 | a quiet system in which nothing was lost has reported that phase: Running once all main containers have started and not all exited, and so on; with the container statuses of the directory unless the stored pod was final |
| `LifecycleTheorems.StoredFinalSticks` | compute/events/listener.go:196-220 | a status stored while the worker is idle is what it starts from until another one is stored; a final one is repeated but for a system error |
| `LifecycleTheorems.BackwardExact` | compute/podhandler/podStatus.go:43-222 | in every run, exactly when a later status moves backward: the creator after progress, or the worker after a Failed, with another event, a stored pod that does not know of it and a directory that is not final |
| `LifecycleTheorems.ComesBackExact` | compute/events/listener.go:144-220 | in every run, exactly when a pod reported as Failed is later reported as anything else |
| `LifecycleTheorems.LeavesSucceededExact` | compute/events/listener.go:144-220 | in every run, exactly when a pod reported as Succeeded is later reported as anything else: the creator speaks, or a system error is announced or stored |
| `LifecycleTheorems.PhasesNeverMoveBackward` | compute/podhandler/podStatus.go:43-222 | so without a system error the worker never moves backward behind anything said before, and never leaves a final phase |
| `LifecycleTheorems.InitGateHolds` | cmd/pause/main.go:125-135 | no main container file exists and no status says Running or Succeeded before all init exit codes are there and 0 |
| `LifecycleTheorems.ReadinessFollowsPhase` | compute/podhandler/podStatus.go:128-242 | in every status of every run, system errors included: ready exactly when Running, containers ready and initialized as the phase demands, no duplicate condition, never the catch-all reason |
| `StatusRefinement.ErroredConditions` | compute/errors.go:43-56 | a failed pod is not ready, and its ContainersReady condition is left as it was |
| `LifecycleTheorems.FailedInitStaysPending` | cmd/pause/main.go:426-432 | as long as an init container has no exit code, which is for good if it failed, every status says Pending unless there is a system error |
| `LifecycleTheorems.WeightStep` | compute/events/listener.go:89-229 | polling, queueing, handling, announcing and storing never add to the work left, and each useful step does some of it |
| `LifecycleTheorems.WorkIsBounded` | compute/events/listener.go:89-229 | once writes stop, every schedule has at most `Weight` useful steps, and the system is quiet exactly when no useful step is possible |
| `LifecycleTheorems.QuietExact` | compute/events/listener.go:89-229 | in every state, quiet exactly when no useful step is possible |
| `LifecycleTheorems.EventualConvergence` | compute/events/listener.go:89-229 | after the last write every schedule that leaves nothing to do, without a failed load, ends with the phase of the directory reported, unless the creator speaks last |
| `LifecycleTheorems.Drain` | compute/events/listener.go:89-229 | from every state they alone reach a quiet one, without touching files or disk |
| `LifecycleWitnesses.LateFillIsIgnored` | compute/events/listener.go:109-116 | filling a file already seen only yields a write event, which is dropped |
| `LifecycleWitnesses.TornExitCodeIsLost` | cmd/pause/main.go:564-571 | from every state with an open exit-code file of a failing container a run leads to a quiet system that has not reported the failure |
| `LifecycleWitnesses.EveryPodCanBeMisreported` | cmd/pause/main.go:532-573 | such a run exists for every pod with a main container |
| `LifecycleWitnesses.DroppedEventIsLost` | compute/events/listener.go:196-205 | from every quiet state in which a main container can fail, a failed load of the stored pod leads to a quiet system that has not reported the failure |
| `LifecycleWitnesses.EveryPodCanLoseAnEvent` | compute/podhandler/podhandler.go:52-93 | such a run exists for every pod with a main container, without any late code |
| `LifecycleWitnesses.EveryPodCanBeAnnouncedLate` | provider/provider.go:203-209 | for every pod with a main container a run in which nothing is lost, the worker reports the failure, and the creator's Pending comes last |
| `LifecycleWitnesses.SysErrorIsOverwritten` | compute/events/listener.go:144-220 | from every state in which `hpk-pause` has ended with a file not noticed yet and a stored pod that is not final: a system error is reported and then the phase of the directory |
| `LifecycleWitnesses.EveryPodCanComeBack` | provider/provider.go:203-209 | for every pod a run in which `hpk-pause` never starts, the worker reports the system error, and the creator then reports, for good, that the pod is pending |
| `LifecycleWitnesses.EveryPodCanBeRevived` | compute/events/listener.go:144-220 | for every pod a run in which a system error appears after `hpk-pause` has announced its address and ended, and the worker reports Failed and then that the pod is alive |
| `QueueRefinement.SimulateStep` | compute/events/listener.go:66-117 | every step of the combined system is a run of the event queue with the same queue and the same event in hand |
| `QueueRefinement.QueueKeepsOrder` | compute/events/listener.go:66-117 | in every run of the combined system the events handled, in hand and waiting are, in this order, all that the watcher handed over |
| `AtomicWriter.ValidatePath` | compute/volume/util/atomic_writer.go:258-290 | accepts exactly relative, non-empty paths within the limits, without a `..` element and not starting with `..` |
| `AtomicWriter.ValidatePayload` | compute/volume/util/atomic_writer.go:237-248 | accepts exactly the payloads all of whose paths are valid |
| `AtomicWriter.SubPaths` | compute/volume/util/atomic_writer.go:351-355 | the ancestor loop ends and collects exactly the path and all its ancestors |
| `AtomicWriter.ShouldWritePayload` | compute/volume/util/atomic_writer.go:293-321 | without an error, true exactly when some payload file is missing or differs; an error only for a path that cannot be examined or read, or is no file; with equal contents exactly then |
| `AtomicWriter.PathsToRemove` | compute/volume/util/atomic_writer.go:326-363 | exactly the stored paths that the walk reaches, given the directories it cannot list, and that are neither payload paths nor their ancestors |
| `AtomicWriter.EarlyExitExact` | compute/volume/util/atomic_writer.go:155-173 | nothing to write and nothing to remove exactly when the stored payload equals the new one |
| `AtomicWriter.Volume.NewTimestampDir` | compute/volume/util/atomic_writer.go:366-383 | adds an empty directory nobody sees, or leaves the view alone |
| `AtomicWriter.Volume.WritePayloadToDir` | compute/volume/util/atomic_writer.go:387-422 | success leaves exactly the payload's tree; fails only for a failing call or a payload that conflicts with itself; partial contents are never visible |
| `AtomicWriter.Volume.LinkTmp` | compute/volume/util/atomic_writer.go:191-196 | succeeds only if there was no temporary link |
| `AtomicWriter.Volume.SwitchData` | compute/volume/util/atomic_writer.go:198-211 | one atomic step from the old link to the new one, or nothing |
| `AtomicWriter.Volume.CreateUserVisibleFiles` | compute/volume/util/atomic_writer.go:434-454 | success adds exactly the missing links for the first components of the paths whose link could be read or was found missing |
| `AtomicWriter.Volume.RemoveUserVisiblePaths` | compute/volume/util/atomic_writer.go:458-473 | success removes exactly the slash-free paths |
| `AtomicWriter.Volume.RemoveAll` | compute/volume/util/atomic_writer.go:225-231 | removes one invisible directory through arbitrary partial states |
| `AtomicWriter.Volume.Examine` | compute/volume/util/atomic_writer.go:131-173 | "up to date" exactly on an early exit with a valid payload and readable files and link; "update" only otherwise, with exactly the paths seen and not wanted |
| `AtomicWriter.StoredExact` | compute/volume/util/atomic_writer.go:155-173 | an early exit is right exactly if the failed listings hide no unwanted path, and a payload already stored always leads to one |
| `AtomicWriter.Volume.Prepare` | compute/volume/util/atomic_writer.go:175-196 | builds the complete new version behind the temporary link without changing the view; fails only for a failing call, a payload that conflicts with itself or a leftover temporary link |
| `AtomicWriter.Volume.Abandon` | compute/volume/util/atomic_writer.go:206-211 | cleaning up after a failed switch never changes the view, and unless it fails itself removes the temporary link and the new version |
| `AtomicWriter.Volume.Publish` | compute/volume/util/atomic_writer.go:213-231 | links become the old ones plus the tops that were probed minus the removed tops, and the old version goes; fails only for a failing call or a link to be removed that is not there |
| `AtomicWriter.Volume.Replace` | compute/volume/util/atomic_writer.go:175-231 | an update succeeds exactly if no call fails and nothing obstructs it; then it leaves the new version, the exact links and no temporary link, and a tidy directory tidy exactly if what was overlooked does no harm |
| `AtomicWriter.Volume.Write` | compute/volume/util/atomic_writer.go:130-234 | at every step of every outcome the view is the whole old or the whole new payload, switching once; a success shows the payload exactly if nothing unwanted was overlooked; nothing changes exactly on an early exit; it fails only for a failing call, a refused payload or a path that cannot be compared, and a success excludes the first two; in a tidy directory with a sound payload and system it succeeds; a single failing call never leaves a temporary link behind, and one left over earlier makes an update fail without a trace |
| `AtomicWriter.WriteAll` | compute/volume/util/atomic_writer.go:130-234 | over any sequence of successful writes to an empty directory, each leaves a tidy directory with its payload exactly if none overlooks anything that matters; a sequence of sound payloads with distinct stamps, none in the way of the next, in a sound system always succeeds |
| `AtomicWriter.DeletedFileStays` | compute/volume/util/atomic_writer.go:328-337 | with the stored root not listed, a write succeeds and the deleted file stays |
| `AtomicWriter.MissingLinkStays` | compute/volume/util/atomic_writer.go:441-451 | a link whose probe fails is missing after a write that succeeds, and after the next, which succeeds too |
| `AtomicWriter.TidyExact` | compute/volume/util/atomic_writer.go:175-231 | link creation and removal come out even exactly if every missing link was probed and the stale ones were listed: one timestamped directory, no temporary link, links exactly the payload's tops |
| `AtomicWriter.TidySucceeds` | compute/volume/util/atomic_writer.go:175-231 | in a tidy directory nothing but a payload that conflicts with itself can obstruct an update |
| `AtomicWriter.TidyShowsPayload` | compute/volume/util/atomic_writer.go:104-129 | in a tidy directory every visible path reads as its payload bytes, every link leads into `..data/`, and nothing else is there |
| `Expansion.TryReadVariableName` | pkg/expansion/expand.go:81-102 | reads exactly the first token of the grammar, with its length |
| `Expansion.Expand` | pkg/expansion/expand.go:38-73 | the cursor/checkpoint loop computes the grammar's meaning, and applies the mapping to exactly the references, in order |
| `Expansion.ReferenceReplaced` | pkg/expansion/expand.go:86-92 | a reference ends at its first closer and is replaced by the value of its name, whatever follows |
| `Expansion.OtherForms` | pkg/expansion/expand.go:81-102 | literal bytes, a final `$`, `$$`, an unclosed reference and `$` before another byte, each with its expansion |
| `Expansion.MappingExact` | pkg/expansion/expand.go:22-33 | the first context that has a name decides; a name that none has is wrapped again |
| `Expansion.DoubleRoundTrip` | pkg/expansion/expand.go:81-85 | doubling every `$` protects any byte string under any mapping |
| `Expansion.WrapBackExact` | pkg/expansion/expand.go:22-33 | with nothing defined, expansion is the identity exactly without an escape and without `$` before a non-ASCII byte |
| `Expansion.UnknownLeftAlone` | pkg/expansion/expand.go:13-33 | on ASCII text without `$$`, wrapping unknown references back is the identity |
| `Expansion.UndefinedLeftAlone` | pkg/container/helpers.go:51-59 | ASCII text without `$$` that refers to no defined variable is left exactly as it was written |
| `Expansion.NoExtraOperators` | pkg/expansion/expand.go:81-85 | the output never is the input with extra `$`s in front |
| `Expansion.OnlyRefsMatter` | pkg/expansion/expand.go:38-73 | two mappings that agree on the references give the same output |
| `Expansion.EnvVarsToMap` | pkg/container/helpers.go:28-35 | the loop builds `Env`, in which the last definition wins |
| `Expansion.LastDefinitionWins` | pkg/container/helpers.go:28-35 | the map has exactly the defined names, each with its last value |
| `Expansion.ExpandContainerCommandOnlyStatic` | pkg/container/helpers.go:51-59 | each word is the full substitution with the environment, unknown references kept |
| `Expansion.ExpandContainerVolumeMounts` | pkg/container/helpers.go:62-78 | fails exactly when a reference has no or an empty value, the missing set is exactly those; success is the full substitution, same as with wrap-back |
| `Text.SplitJoin` | pkg/container/logs.go:105-109 | joining undoes splitting, and no part contains the separator |
| `Text.JoinSplit` | compute/endpoint/paths.go:169-173 | splitting undoes joining of separator-free parts |
| `Text.SplitConcat` | pkg/container/logs.go:105-109 | splitting a concatenation joins the two lists at their seam |
| `TailLog.ReverseReader.constructor` | pkg/container/logs.go:250-276 | starts at the last page boundary |
| `TailLog.ReverseReader.Read` | pkg/container/logs.go:280-296 | returns the page at the offset and moves one page back; the start is recognised exactly |
| `TailLog.Consume` | pkg/container/logs.go:113-125 | exactly the non-empty elements of the batch, whole and in reverse order, are appended |
| `TailLog.GetTailLog` | pkg/container/logs.go:74-133 | the result is the non-empty lines of the file from some line on, whole and newest first, read errors or not; without read errors at least the wanted number or all; with the exact condition for being longer |
| `TailLog.SplitCarried` | pkg/container/logs.go:105-109 | splitting a page with the leftover gives the same lines as splitting everything from the page on |
| `TailLog.CollectedIsPrefix` | pkg/container/logs.go:74-133 | the result is a prefix of the non-empty lines newest first, read errors or not |
| `TailLog.CollectedIsEnough` | pkg/container/logs.go:112-131 | without read errors at least the wanted number, or everything |
| `TailLog.CollectedIsLeast` | pkg/container/logs.go:127-130 | the lines in sight before the last page were too few |
| `TailLog.CollectedExact` | pkg/container/logs.go:90-131 | where reading ends: a read error keeps the lines read before it, a page that completes the wanted lines adds its own, otherwise the whole log is returned |
| `TailLog.WrittenLinesReadBack` | pkg/container/logs.go:74-133 | a log of non-empty lines comes back line by line in reverse when enough lines are asked for |
| `TailLog.ExactLength` | pkg/container/logs.go:112-131 | exactly the wanted number exactly when the log is short enough or a page begins just there |
| `TailLog.TailLogCorrect` | pkg/container/logs.go:74-133 | all of these together, for every file, page size, tail and pattern of read errors |
| `TailLog.TailCanBeTooLong` | pkg/container/logs.go:112-131 | asking for one line of a three-line log returns two |
| `NestedMounts.SortedSorts` | compute/volume/util/nested_volumes.go:41-41 | the sorted list is ascending and a permutation |
| `NestedMounts.PrefixComesFirst` | compute/volume/util/nested_volumes.go:51-58 | a path sorts before every longer path it is a prefix of |
| `NestedMounts.Decide` | compute/volume/util/nested_volumes.go:67-77 | comparing with the mount points found so far decides whether any mount point lies in between |
| `NestedMounts.NearestBelow` | compute/volume/util/nested_volumes.go:60-81 | the nested loops find exactly the nearest nested mount points, in sorted order |
| `NestedMounts.CheckContainer` | compute/volume/util/nested_volumes.go:31-84 | fails exactly when one of the volume's own paths leaves the root; otherwise concatenates over them |
| `NestedMounts.GetNestedMountpoints` | compute/volume/util/nested_volumes.go:29-95 | a directory is listed exactly if some init, main or ephemeral container mounts the volume at `m` and something at `m/d` with no mount in between; fails exactly if some container mounts the volume under `../`; in visiting order |
| `NestedMounts.NearestExact` | compute/volume/util/nested_volumes.go:51-81 | each result is a mount, none lies below another, every deeper mount is covered |
| `NestedMounts.NearestDistinct` | compute/volume/util/nested_volumes.go:59-81 | distinct mount paths give distinct results |
| `NestedMounts.BelowElements` | compute/volume/util/nested_volumes.go:60-63 | the textual prefix test compares whole path elements |
| `NestedMounts.BelowExact` | compute/volume/util/nested_volumes.go:49-63 | for clean absolute paths the test is "strictly below in the tree" except for the root |
| `NestedMounts.TreeExact` | compute/volume/util/nested_volumes.go:44-81 | the nearest mounts of the tree are found exactly when the volume is not at `/` or nothing else is mounted; at `/` the result is empty |
| `Paths.HPKIsAbsolute` | compute/endpoint/paths.go:74-76 | the HPK directory of any absolute root is a clean absolute path |
| `Paths.PrintedPath` | compute/endpoint/paths.go:169-285 | the joins of all path builders together only put slashes between the names |
| `Paths.PrintedLiterally` | compute/endpoint/paths.go:249-285 | the four kinds of control-file paths, written out |
| `Paths.HPKLiterally` | compute/endpoint/paths.go:74-76 | below a clean absolute root the HPK directory is `.hpk` |
| `Paths.HPKResolves` | compute/endpoint/paths.go:74-76 | a root given through a parent, "." or an empty element names the same HPK directory |
| `Paths.ParseControlFilePath` | compute/endpoint/paths.go:130-162 | the loop over the groups fills in the fields of `Parse` |
| `Paths.SubmatchExact` | compute/endpoint/paths.go:140-145 | a match is found exactly when there is one, and it is the one with the longest namespace and then the shortest pod |
| `Paths.OneWayToFit` | compute/endpoint/paths.go:140-141 | a path of four plain elements matches in one way only |
| `Paths.RoundTrip` | compute/endpoint/paths.go:130-173 | parsing a printed path returns its pod and file, except exactly for white space in the names or a line break in the file |
| `Paths.ParseSound` | compute/endpoint/paths.go:130-162 | anything parsed from any path is a reading of that path |
| `Paths.ExtensionRecoversKind` | compute/events/listener.go:142-187 | the extension that the worker dispatches on is that of the file's kind |
| `Paths.DispatchExact` | compute/events/listener.go:118-187 | the creation of a printed control file leads to the error report for `.syserror` and to a reconciliation otherwise, of its own pod |
| `Paths.DispatchLiterally` | compute/events/listener.go:118-187 | the dispatch for paths that end in `/.syserror`, `/.ip`, `.jobid` and `.exitCode`, written out |
| `Paths.OthersIgnored` | compute/events/listener.go:182-187 | any other file of the directory is ignored |
| `Paths.PathsDistinct` | compute/endpoint/paths.go:249-285 | different pods, containers or kinds never share a path |

## Left out

- Slurm, Apptainer, image pulling, Kubernetes clients, webhooks and command-line set-up: calls into other programs.
- Bash templates and shell quoting: text for another interpreter.
- The rest of `CreatePod`, `DeletePod`, volume mounting and `buildContainer`: file-system and API side effects.
- The version comparison of `UpdatePod`: persistence is a step that stores any status sent earlier.
- `Remove`, `Close` and the error channel of the watcher, and pods whose watch is re-added after a restart.
- Pod addresses, restart counters, human-readable messages, and start and finish times of containers: they do not affect the phase.
- File modes and owners in `AtomicWriter`, and cleaning of payload keys, where two keys can become one.
- Control files other than the four kinds, for which the worker does nothing.
- `LogLine` formatting, security contexts, resource sums, service variables and home directories: field-by-field code.
- The goroutine of `GetTailLog`: its batches are consumed in order, so the model runs both sides in one loop; that it stays blocked, with the file open, after the reader hangs up is not modelled.
- `TailLog.GetTailLog`: an error while opening or examining the file, which is returned instead of any lines, is not modelled.
- The hand-over between the poller's channel and `Push`: in `Lifecycle` it is one list of pending events.
- Pod creation that fails, which reports Failed from the creating goroutine before any job runs.
- `Expansion.ExpandContainerVolumeMounts`: the closure that records missing keys is replayed from the list of applications of the mapping; the text of the error message is not modelled.
- `Lifecycle.InvPreserved`: the combined system has no shutdown; `EventQueue` covers it.
- `Paths.RoundTrip`: relative root paths are not covered; every control-file path under one is rejected by the parser.
- `NestedMounts.GetNestedMountpoints`: mount paths arrive cleaned.
