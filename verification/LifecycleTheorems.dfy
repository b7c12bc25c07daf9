/** What holds in every run of the control-file protocol, and where it stops holding. */
module LifecycleTheorems {
  import opened Prelude
  import opened Conditions
  import opened ControlFiles
  import opened PodStatus
  import opened StatusRefinement
  import opened Lifecycle
  import Poller

  /** A poll has followed the last write and every event has been handled. */
  ghost predicate Quiescent(s: State) {
    s.seen == Listing(s.files) && s.outbox == [] && s.queue == [] && s.worker == Idle
  }

  /** The status Kubernetes was last told about is the phase of the directory. */
  ghost predicate Converged(spec: PodSpec, s: State) {
    s.sent != [] && s.sent[|s.sent| - 1].status.phase == PhaseOf(spec, s.files)
  }

  /** The last status that Kubernetes heard came from the goroutine that created the pod. */
  predicate CreateLast(s: State) {
    s.sent != [] && s.sent[|s.sent| - 1].origin == ByCreate
  }

  /** No event was dropped, and no exit code was filled in after a poll had seen its file empty. */
  ghost predicate NothingLost(s: State) {
    s.history.dropped == {} && NoLateCode(s)
  }

  ghost predicate NoLateCode(s: State) {
    forall c :: c in s.history.late ==> c !in s.files.codes
  }

  /** End to end: in every run without a `.syserror`, once the system is quiet the last status sent
      has the phase of the control directory, however stale the pods loaded from disk were. */
  lemma Convergence(spec: PodSpec, t: State)
    requires ValidSpec(spec) && Reachable(spec, t) && Quiescent(t)
    requires SysError !in t.files.created && t.files.created != {} && NothingLost(t) && !CreateLast(t)
    ensures Converged(spec, t)
  {
    ReachableInv(spec, t);
    QuietSeesAll(spec, t);
    assert MissedCodes(t) == {} && MissedFiles(t) == {};
    WithoutNothing(t.files);
    SomethingSent(spec, t);
    ConvergenceExact(spec, t);
    NoErrorOutcome(spec, t.sent[|t.sent| - 1], t.files);
  }

  /** A directory without some of its files and exit codes. */
  function Without(files: Files, lost: set<ControlFile>, codes: set<string>): Files {
    Files(files.created - lost, files.codes - codes)
  }

  lemma WithoutNothing(files: Files)
    ensures Without(files, {}, {}) == files
  {
  }

  /** The files and exit codes that the worker's last status did not see. */
  function MissedFiles(s: State): set<ControlFile> {
    s.files.created - s.history.reported.created
  }

  function MissedCodes(s: State): set<string> {
    s.files.codes.Keys - s.history.reported.codes.Keys
  }

  /** In a quiet system the worker's last status saw every file whose event was not dropped, and of
      their exit codes all that no poll had found empty. It saw all codes filled in before it took
      its last event, and none filled in after it had finished. */
  lemma QuietSeesAll(spec: PodSpec, t: State)
    requires Inv(spec, t) && Quiescent(t)
    ensures t.history.reported == Without(t.files, MissedFiles(t), MissedCodes(t))
    ensures MissedFiles(t) <= t.history.dropped
    ensures forall c :: c in MissedCodes(t) ==> c in t.history.late || ExitCode(c) in t.history.dropped
    ensures t.history.sinceFinish <= MissedCodes(t) <= t.history.sinceTake
  {
    var last := t.history.reported;
    assert Within(last, t.files);
    assert t.seen.Keys == t.files.created;
    forall f | f in MissedFiles(t) ensures f in t.history.dropped {
      assert OnItsWay(t, f);
    }
    forall c | c in MissedCodes(t) ensures c in t.history.late || ExitCode(c) in t.history.dropped {
      assert ExitCode(c) in t.files.created;
    }
    assert last.created == Without(t.files, MissedFiles(t), MissedCodes(t)).created;
    assert last.codes == Without(t.files, MissedFiles(t), MissedCodes(t)).codes;
  }

  /** Exactly when a quiet system has converged, in every run. If the goroutine that created the pod
      spoke last, when the pod is still pending. If the worker did, when the phase it had to give
      is that of the directory: Failed after a system error, and otherwise the phase of the
      directory without what it missed. */
  lemma ConvergenceExact(spec: PodSpec, t: State)
    requires ValidSpec(spec) && Reachable(spec, t) && Quiescent(t)
    ensures Converged(spec, t) <==>
            && t.sent != []
            && match t.sent[|t.sent| - 1].origin
               case ByCreate => PhaseOf(spec, t.files) == Pending
               case ByWorker(file, loaded) =>
                 var seen := Without(t.files, MissedFiles(t), MissedCodes(t));
                 Outcome(spec, file, loaded.phase, seen) == PhaseOf(spec, t.files)
  {
    ReachableInv(spec, t);
    QuietSeesAll(spec, t);
    if t.sent != [] {
      assert Genuine(spec, t.sent[|t.sent| - 1], t.files);
    }
  }

  /** The same by the clock, for a worker that spoke last without a system error and lost no event:
      a code filled in before the last event was taken always counts, one filled in after the last
      event was finished never does. If none was filled in between, this decides exactly. */
  lemma ConvergenceByTime(spec: PodSpec, t: State)
    requires ValidSpec(spec) && Reachable(spec, t) && Quiescent(t)
    requires SysError !in t.files.created && t.sent != [] && !CreateLast(t) && t.history.dropped == {}
    ensures PhaseOf(spec, Without(t.files, {}, t.history.sinceTake)) == PhaseOf(spec, t.files) ==> Converged(spec, t)
    ensures Converged(spec, t) ==> PhaseOf(spec, Without(t.files, {}, t.history.sinceFinish)) == PhaseOf(spec, t.files)
  {
    ReachableInv(spec, t);
    QuietSeesAll(spec, t);
    ConvergenceExact(spec, t);
    NoErrorOutcome(spec, t.sent[|t.sent| - 1], t.files);
    assert MissedFiles(t) == {};
    hide Inv, Reachable, Quiescent, MissedCodes, MissedFiles, Converged;
    SamePhaseBetween(spec, t.files, t.history.sinceTake, MissedCodes(t));
    SamePhaseBetween(spec, t.files, MissedCodes(t), t.history.sinceFinish);
  }

  lemma SamePhaseBetween(spec: PodSpec, files: Files, more: set<string>, fewer: set<string>)
    requires fewer <= more
    ensures PhaseOf(spec, Without(files, {}, more)) == PhaseOf(spec, files) ==>
      PhaseOf(spec, Without(files, {}, fewer)) == PhaseOf(spec, files)
  {
    var a, b := Without(files, {}, more), Without(files, {}, fewer);
    assert Within(a, b) && Within(b, files);
    hide PhaseOf;
    PhaseOfMonotone(spec, a, b);
    PhaseOfMonotone(spec, b, files);
  }

  /** Without a `.syserror` every answer of the worker has the phase of what it saw. */
  lemma NoErrorOutcome(spec: PodSpec, p: Snapshot, files: Files)
    requires Genuine(spec, p, files) && SysError !in files.created && p.origin.ByWorker?
    ensures p.status.phase == PhaseOf(spec, p.view)
    ensures Outcome(spec, p.origin.file, p.origin.loaded.phase, p.view) == PhaseOf(spec, p.view)
  {
  }

  lemma SomethingSent(spec: PodSpec, t: State)
    requires Inv(spec, t) && t.history.reported != NoFiles
    ensures t.sent != []
  {
  }

  // ---- The order of phases ----

  /** The phase of every status ever sent, in every run: Pending from the goroutine that created the
      pod; from the worker, Failed for a `.syserror`, the stored phase of a pod stored in a final one,
      and otherwise the phase of the directory it saw. */
  lemma PhaseExact(spec: PodSpec, t: State, i: nat)
    requires ValidSpec(spec) && Reachable(spec, t) && i < |t.sent|
    ensures Within(t.sent[i].view, t.files)
    ensures t.sent[i].status.phase ==
            match t.sent[i].origin
            case ByCreate => Pending
            case ByWorker(file, loaded) =>
              if file == SysError then Failed
              else if Terminal(loaded.phase) then loaded.phase
              else PhaseOf(spec, t.sent[i].view)
  {
    ReachableInv(spec, t);
    assert Genuine(spec, t.sent[i], t.files);
  }

  /** Exactly when a later status moves backward, in every run: the goroutine that created the pod
      speaks after the worker has reported progress; or the worker, after a Failed, handles another
      event with a stored pod that does not know of it while the directory is not final. */
  lemma BackwardExact(spec: PodSpec, t: State, i: nat, j: nat)
    requires ValidSpec(spec) && Reachable(spec, t) && i < j < |t.sent|
    ensures Rank(t.sent[j].status.phase) < Rank(t.sent[i].status.phase) <==>
            match t.sent[j].origin
            case ByCreate => t.sent[i].status.phase != Pending
            case ByWorker(file, loaded) =>
              && t.sent[i].status.phase == Failed
              && file != SysError && !Terminal(loaded.phase) && !Terminal(PhaseOf(spec, t.sent[j].view))
  {
    ReachableInv(spec, t);
    var p, q := t.sent[i], t.sent[j];
    assert Genuine(spec, p, t.files) && Genuine(spec, q, t.files);
    PhaseNotEmpty(spec, p.view);
    PhaseNotEmpty(spec, q.view);
    if p.origin.ByWorker? && q.origin.ByWorker? {
      PhaseOfMonotone(spec, p.view, q.view);
    }
  }

  /** Exactly when a pod reported as Failed is later reported as anything else. */
  lemma ComesBackExact(spec: PodSpec, t: State, i: nat, j: nat)
    requires ValidSpec(spec) && Reachable(spec, t) && i < j < |t.sent| && t.sent[i].status.phase == Failed
    ensures t.sent[j].status.phase != Failed <==>
            match t.sent[j].origin
            case ByCreate => true
            case ByWorker(file, loaded) =>
              file != SysError && loaded.phase != Failed && PhaseOf(spec, t.sent[j].view) != Failed
  {
    ReachableInv(spec, t);
    assert Genuine(spec, t.sent[j], t.files);
  }

  /** Exactly when a pod reported as Succeeded is later reported as anything else. */
  lemma LeavesSucceededExact(spec: PodSpec, t: State, i: nat, j: nat)
    requires ValidSpec(spec) && Reachable(spec, t) && i < j < |t.sent| && t.sent[i].status.phase == Succeeded
    ensures t.sent[j].status.phase != Succeeded <==>
            match t.sent[j].origin
            case ByCreate => true
            case ByWorker(file, loaded) => file == SysError || loaded.phase == Failed
  {
    ReachableInv(spec, t);
    var p, q := t.sent[i], t.sent[j];
    assert Genuine(spec, p, t.files) && Genuine(spec, q, t.files);
    if q.origin.ByWorker? {
      PhaseOfMonotone(spec, p.view, q.view);
    }
  }

  lemma PhaseNotEmpty(spec: PodSpec, files: Files)
    ensures PhaseOf(spec, files) != NoPhase
  {
  }

  /** In a run without `.syserror` the worker's phases are those of the directories it saw, never move
      backward and never leave a final phase; so does the whole sequence once the goroutine that
      created the pod has spoken, or if it spoke first. */
  lemma PhasesNeverMoveBackward(spec: PodSpec, t: State, i: nat, j: nat)
    requires ValidSpec(spec) && Reachable(spec, t) && SysError !in t.files.created
    requires i <= j < |t.sent| && t.sent[j].origin.ByWorker?
    ensures t.sent[j].status.phase == PhaseOf(spec, t.sent[j].view) && Within(t.sent[j].view, t.files)
    ensures Rank(t.sent[i].status.phase) <= Rank(t.sent[j].status.phase)
    ensures Terminal(t.sent[i].status.phase) ==> t.sent[j].status.phase == t.sent[i].status.phase
  {
    ReachableInv(spec, t);
    var p, q := t.sent[i], t.sent[j];
    assert Genuine(spec, p, t.files) && Genuine(spec, q, t.files);
    NoErrorOutcome(spec, q, t.files);
    PhaseNotEmpty(spec, q.view);
    if p.origin.ByWorker? {
      NoErrorOutcome(spec, p, t.files);
      PhaseOfMonotone(spec, p.view, q.view);
    }
  }

  // ---- What is stored ----

  /** Until something else is stored, every pod that the worker loads is `d`. */
  ghost predicate Loads(s: State, d: Snapshot) {
    s.disk == d && (s.worker.Busy? ==> s.worker.pod == d)
  }

  /** The statuses after the first `n` that the worker sent were computed from the stored pod `d`. */
  ghost predicate FromStored(sent: seq<Snapshot>, n: nat, d: Snapshot) {
    n <= |sent| && forall i :: n <= i < |sent| && sent[i].origin.ByWorker? ==> sent[i].origin.loaded == d.status
  }

  lemma LoadsStep(spec: PodSpec, s: State, step: Step, d: Snapshot, n: nat)
    requires Enabled(spec, s, step) && !step.Persist? && Loads(s, d) && FromStored(s.sent, n, d)
    requires s.submitted.Some? ==> s.submitted.value.origin == ByCreate
    ensures var t := Apply(spec, s, step);
            && Loads(t, d) && FromStored(t.sent, n, d) && s.sent <= t.sent
            && (t.submitted.Some? ==> t.submitted.value.origin == ByCreate)
  {
    hide Listing, Handled;
  }

  lemma {:induction false} LoadsRun(spec: PodSpec, s: State, steps: seq<Step>, t: State, d: Snapshot, n: nat)
    requires Runs(spec, s, steps, t) && Loads(s, d) && FromStored(s.sent, n, d)
    requires s.submitted.Some? ==> s.submitted.value.origin == ByCreate
    requires forall i :: 0 <= i < |steps| ==> !steps[i].Persist?
    ensures Loads(t, d) && FromStored(t.sent, n, d) && s.sent <= t.sent
    decreases |steps|
  {
    hide Loads, FromStored;
    if steps != [] {
      LoadsStep(spec, s, steps[0], d, n);
      LoadsRun(spec, Apply(spec, s, steps[0]), steps[1..], t, d, n);
    }
  }

  /** A status that is stored while the worker is idle is what the worker starts from, until another
      one is stored. So if it is a final one, the worker repeats it, but for a system error. */
  lemma StoredFinalSticks(spec: PodSpec, s: State, k: nat, steps: seq<Step>, t: State, i: nat)
    requires ValidSpec(spec) && Reachable(spec, s) && s.worker == Idle && k < |s.sent|
    requires Runs(spec, s, [Persist(k)] + steps, t) && forall j :: 0 <= j < |steps| ==> !steps[j].Persist?
    requires |s.sent| <= i < |t.sent| && t.sent[i].origin.ByWorker?
    ensures t.disk == s.sent[k] && t.sent[i].origin.loaded == s.sent[k].status
    ensures Terminal(s.sent[k].status.phase) ==>
      t.sent[i].status.phase == if t.sent[i].origin.file == SysError then Failed else s.sent[k].status.phase
  {
    hide Reachable, Runs, Apply, Enabled;
    StoreThenRun(spec, s, k, steps, t);
    ReachableExtend(spec, s, [Persist(k)] + steps, t);
    PhaseExact(spec, t, i);
  }

  lemma StoreThenRun(spec: PodSpec, s: State, k: nat, steps: seq<Step>, t: State)
    requires ValidSpec(spec) && Reachable(spec, s) && s.worker == Idle && k < |s.sent|
    requires Runs(spec, s, [Persist(k)] + steps, t) && forall j :: 0 <= j < |steps| ==> !steps[j].Persist?
    ensures Loads(t, s.sent[k]) && FromStored(t.sent, |s.sent|, s.sent[k]) && s.sent <= t.sent
  {
    hide *;
    SubmittedByCreate(spec, s);
    StoreEffect(spec, s, k);
    RunHead(spec, s, Persist(k), steps, t);
    LoadsRun(spec, Apply(spec, s, Persist(k)), steps, t, s.sent[k], |s.sent|);
  }

  lemma StoreEffect(spec: PodSpec, s: State, k: nat)
    requires s.worker == Idle && k < |s.sent|
    ensures Enabled(spec, s, Persist(k))
    ensures var t := Apply(spec, s, Persist(k));
            && Loads(t, s.sent[k]) && FromStored(t.sent, |s.sent|, s.sent[k])
            && t.sent == s.sent && t.submitted == s.submitted
  {
  }

  lemma SubmittedByCreate(spec: PodSpec, s: State)
    requires ValidSpec(spec) && Reachable(spec, s)
    ensures s.submitted.Some? ==> s.submitted.value.origin == ByCreate
  {
    ReachableInv(spec, s);
  }

  lemma RunHead(spec: PodSpec, s: State, step: Step, rest: seq<Step>, t: State)
    requires Runs(spec, s, [step] + rest, t)
    ensures Enabled(spec, s, step) && Runs(spec, Apply(spec, s, step), rest, t)
  {
    hide Apply, Enabled;
    assert ([step] + rest)[1..] == rest;
  }

  // ---- What the containers do and what is reported ----

  /** The container statuses of every status the worker sends: what the files said, unless the event was
      `.syserror` or the stored pod was final; then those stored. */
  lemma ContainersExact(spec: PodSpec, t: State, i: nat)
    requires ValidSpec(spec) && Reachable(spec, t) && i < |t.sent| && t.sent[i].origin.ByWorker?
    ensures Matches(t.sent[i].status.inits, spec.inits) && Matches(t.sent[i].status.mains, spec.mains)
    ensures ContainersTold(t.sent[i].origin.file, t.sent[i].origin.loaded, t.sent[i].status, t.sent[i].view)
  {
    ReachableInv(spec, t);
    assert Genuine(spec, t.sent[i], t.files);
  }

  /** The phase of a pod by the stages its containers are in. */
  ghost function StagePhase(spec: PodSpec, pause: Pause, files: Files): Phase {
    match pause
    case InMain(stages) =>
      if exists c :: c in spec.mains && c in files.codes && files.codes[c] != 0 then Failed
      else if forall k :: 0 <= k < |stages| ==> stages[k] == Exited then Succeeded
      else if forall k :: 0 <= k < |stages| ==> stages[k] != NotStarted then Running
      else Pending
    case _ => Pending
  }

  /** While `hpk-pause` is at work, the directory tells how far it has got. */
  lemma StagesExact(spec: PodSpec, s: State)
    requires Inv(spec, s) && (s.pause.InInit? || s.pause.InMain?)
    ensures PhaseOf(spec, s.files) == StagePhase(spec, s.pause, s.files)
  {
    InitScanDone(spec.inits, s.files);
    if s.pause.InMain? {
      MainStages(spec, s.pause.stages, s.files);
    } else {
      assert StageFiles(s.pause.stage, spec.inits[s.pause.index], s.files);
      InitCodesZero(spec.inits, s.files);
    }
  }

  lemma MainStages(spec: PodSpec, stages: seq<Stage>, files: Files)
    requires |stages| == |spec.mains|
    requires forall k :: 0 <= k < |stages| ==> StageFiles(stages[k], spec.mains[k], files)
    ensures MainPhase(spec.mains, files) == StagePhase(spec, InMain(stages), files)
  {
    assert forall k :: 0 <= k < |stages| ==> spec.mains[k] in spec.mains;
    assert (forall c :: c in spec.mains ==> c in files.codes) <==>
      (forall k :: 0 <= k < |stages| ==> stages[k] == Exited);
    assert (forall c :: c in spec.mains ==> MainStarted(c, files)) <==>
      (forall k :: 0 <= k < |stages| ==> stages[k] != NotStarted);
  }

  /** A quiet system in which nothing was lost has reported how far `hpk-pause` has got: Pending while init
      containers are left or a main container has not started, then Running, then Succeeded, or Failed
      once a main container has failed. The container statuses sent, unless the stored pod was final,
      are those of the directory. */
  lemma StageReported(spec: PodSpec, t: State)
    requires ValidSpec(spec) && Reachable(spec, t) && Quiescent(t) && (t.pause.InInit? || t.pause.InMain?)
    requires SysError !in t.files.created && NothingLost(t) && !CreateLast(t)
    ensures t.sent != []
    ensures var last := t.sent[|t.sent| - 1];
            && last.origin.ByWorker?
            && last.status.phase == StagePhase(spec, t.pause, t.files)
            && (!Terminal(last.origin.loaded.phase) ==>
                  Displays(last.status.inits, t.files) && Displays(last.status.mains, t.files))
  {
    ReachableInv(spec, t);
    assert Ip in t.files.created;
    Convergence(spec, t);
    StagesExact(spec, t);
    QuietSeesAll(spec, t);
    LastViewed(spec, t);
    WithoutNothing(t.files);
    assert MissedCodes(t) == {} && MissedFiles(t) == {};
    ContainersExact(spec, t, |t.sent| - 1);
  }

  lemma LastViewed(spec: PodSpec, t: State)
    requires Inv(spec, t) && t.sent != [] && t.sent[|t.sent| - 1].origin.ByWorker?
    ensures t.sent[|t.sent| - 1].view == t.history.reported
    ensures t.sent[|t.sent| - 1].origin.file == SysError ==> SysError in t.history.reported.created
  {
    assert Genuine(spec, t.sent[|t.sent| - 1], t.files);
  }

  /** Across both processes, with or without `.syserror`: no file of a main container exists, and no
      status reports Running or Succeeded, before every init container's exit code is there and 0. */
  lemma InitGateHolds(spec: PodSpec, t: State)
    requires ValidSpec(spec) && Reachable(spec, t)
    requires || (exists c :: c in spec.mains && (JobId(c) in t.files.created || ExitCode(c) in t.files.created))
             || (exists i :: 0 <= i < |t.sent| && t.sent[i].status.phase in {Running, Succeeded})
    ensures forall c :: c in spec.inits ==> c in t.files.codes && t.files.codes[c] == 0
  {
    ReachableInv(spec, t);
    hide PauseInv, WatchInv, FlightInv, Reachable, Genuine, PhaseOf, Within;
    if i :| 0 <= i < |t.sent| && t.sent[i].status.phase in {Running, Succeeded} {
      StartedPastInit(spec, t.sent[i], t.files);
    }
  }

  lemma StartedPastInit(spec: PodSpec, p: Snapshot, files: Files)
    requires Genuine(spec, p, files) && (p.status.phase == Running || p.status.phase == Succeeded)
    ensures forall c :: c in spec.inits ==> c in files.codes && files.codes[c] == 0
  {
    InitScanDone(spec.inits, p.view);
  }

  /** In every status stored or sent, also after `.syserror`: PodReady is True exactly when the phase
      is Running, no condition type occurs twice, and the catch-all failure never shows. */
  lemma ReadinessFollowsPhase(spec: PodSpec, t: State, p: Snapshot)
    requires ValidSpec(spec) && Reachable(spec, t)
    requires p == t.disk || p in t.sent
    ensures Holds(p.status.conditions, Ready, CondTrue) <==> p.status.phase == Running
    ensures ConditionsFollow(p.status.phase, p.status.conditions)
    ensures NoDuplicates(p.status.conditions)
    ensures p.status.reason != "PodFailure"
  {
    ReachableInv(spec, t);
    if p in t.sent {
      var i :| 0 <= i < |t.sent| && t.sent[i] == p;
      assert Genuine(spec, t.sent[i], t.files);
    }
  }

  /** As long as an init container has no exit code, unless a `.syserror` appears, every status says
      Pending. `hpk-pause` stops without an exit code when an init container fails: the failure is
      never reported. */
  lemma FailedInitStaysPending(spec: PodSpec, t: State, c: string, i: nat)
    requires ValidSpec(spec) && Reachable(spec, t) && SysError !in t.files.created
    requires c in spec.inits && c !in t.files.codes
    requires i < |t.sent|
    ensures t.sent[i].status.phase == Pending
  {
    ReachableInv(spec, t);
    assert Genuine(spec, t.sent[i], t.files);
    var view := t.sent[i].view;
    if t.sent[i].origin.ByWorker? {
      NoErrorOutcome(spec, t.sent[i], t.files);
    }
    InitScanDone(spec.inits, view);
    InitCodesZero(spec.inits, view);
  }

  lemma {:induction false} InitCodesZero(inits: seq<string>, files: Files)
    requires forall c :: c in inits && c in files.codes ==> files.codes[c] == 0
    ensures InitScan(inits, files) != InitFailed
  {
    if inits != [] {
      assert inits[0] in inits;
      InitCodesZero(inits[1..], files);
    }
  }

  /** In the directories that `hpk-pause` produces, a pod met for the first time is reconciled
      correctly although the init gate is skipped, exactly if it has main containers or its init
      containers are done. */
  lemma FirstReconcileExact(spec: PodSpec, st: Status, files: Files, now: nat)
    requires ValidSpec(spec) && !spec.unsupported && st.phase == NoPhase && FilesInv(spec, files)
    requires Matches(st.mains, spec.mains) && WellFormed(st.mains)
    ensures Reconcile(spec, st, files, now).phase == PhaseOf(spec, files) <==>
            spec.mains != [] || InitScan(spec.inits, files) == InitDone
  {
    assert CodesFit(files);
    FirstReconcileSkipsInitGate(spec, st, files, now);
    InitCodesZero(spec.inits, files);
    InitScanDone(spec.inits, files);
    if spec.mains != [] {
      assert spec.mains[0] in spec.mains;
    }
  }

  // ---- Every state can become quiet ----

  lemma RunCons(spec: PodSpec, s: State, step: Step, rest: seq<Step>, t: State)
    requires Enabled(spec, s, step) && Runs(spec, Apply(spec, s, step), rest, t)
    ensures Runs(spec, s, [step] + rest, t)
  {
    assert ([step] + rest)[1..] == rest;
  }

  lemma {:induction false} RunAppend(spec: PodSpec, s: State, a: seq<Step>, t: State, b: seq<Step>, u: State)
    requires Runs(spec, s, a, t) && Runs(spec, t, b, u)
    ensures Runs(spec, s, a + b, u)
    decreases |a|
  {
    if a == [] {
      assert a + b == b;
    } else {
      RunAppend(spec, Apply(spec, s, a[0]), a[1..], t, b, u);
      assert (a + b)[1..] == a[1..] + b;
    }
  }

  lemma {:induction false} Enumerate<T>(s: set<T>) returns (r: seq<T>)
    ensures Distinct(r) && Elements(r) == s
    decreases |s|
  {
    if s == {} {
      r := [];
    } else {
      var x :| x in s;
      var rest := Enumerate(s - {x});
      assert x !in Elements(rest);
      ElementsAppend(rest, x);
      r := rest + [x];
    }
  }

  /** `t` follows `s` by steps of the watcher and the worker alone. */
  ghost predicate Drains(spec: PodSpec, s: State, steps: seq<Step>, t: State) {
    && Runs(spec, s, steps, t) && Inv(spec, t) && Quiescent(t)
    && (forall i :: 0 <= i < |steps| ==> Watching(steps[i]))
    && t.files == s.files && t.pause == s.pause && t.disk == s.disk && t.submitted == s.submitted
    && t.history.dropped == s.history.dropped && s.sent <= t.sent
  }

  function InHand(s: State): nat {
    if s.worker.Busy? then 1 else 0
  }

  /** What the next poll will report. */
  function Unreported(s: State): set<Event> {
    Poller.Changes(Poller.Snap(DIR, s.seen), Poller.Snap(DIR, Listing(s.files)))
  }

  /** The work left for the watcher and the worker. */
  function Weight(s: State): nat {
    (if s.seen == Listing(s.files) then 0 else 1 + 3 * |Unreported(s)|) + 3 * |s.outbox| + 2 * |s.queue| + InHand(s)
  }

  /** A step that leaves the control directory alone. */
  predicate Watching(step: Step) {
    || step.Poll? || step.Enqueue? || step.Take? || step.LoadFails? || step.Finish?
    || step.Announce? || step.Persist?
  }

  /** A step that does some of the work left. */
  predicate Useful(s: State, step: Step) {
    || step.Enqueue? || step.Take? || step.LoadFails? || step.Finish?
    || (step.Poll? && s.seen != Listing(s.files))
  }

  lemma WeightZero(s: State)
    ensures Weight(s) == 0 <==> Quiescent(s)
  {
  }

  lemma NothingUnreported(m: map<ControlFile, Poller.FileInfo>)
    ensures Poller.Changes(Poller.Snap(DIR, m), Poller.Snap(DIR, m)) == {}
  {
  }

  /** No step of theirs adds to the work, and every useful one does some of it. */
  lemma WeightStep(spec: PodSpec, s: State, step: Step)
    requires Enabled(spec, s, step) && Watching(step)
    ensures var t := Apply(spec, s, step);
            && Weight(t) + (if Useful(s, step) then 1 else 0) <= Weight(s)
            && t.files == s.files && t.pause == s.pause && s.sent <= t.sent
            && (!step.Persist? ==> t.disk == s.disk)
            && (!step.Announce? ==> t.submitted == s.submitted)
            && (!step.LoadFails? ==> t.history.dropped == s.history.dropped)
  {
    hide Listing;
    match step
    case Poll(evs) =>
      DistinctSize(evs);
      NothingUnreported(s.seen);
    case _ =>
  }

  /** The worker can always finish with the directory as it is. */
  lemma BusyFits(spec: PodSpec, s: State)
    requires Inv(spec, s)
    ensures s.worker.Busy? ==> Within(s.worker.since, s.files) && Within(s.files, s.files)
  {
  }

  lemma CanPoll(spec: PodSpec, s: State, evs: seq<Event>)
    requires s.outbox == [] && Distinct(evs) && Elements(evs) == Unreported(s)
    ensures Enabled(spec, s, Poll(evs))
    ensures Apply(spec, s, Poll(evs)) == s.(seen := Listing(s.files), outbox := evs,
                                            history := s.history.(late := s.history.late + Empties(s.files)))
  {
    hide Poller.Changes, Listing, Empties;
  }

  lemma SomePoll(spec: PodSpec, s: State) returns (step: Step)
    requires s.outbox == [] && s.seen != Listing(s.files)
    ensures Enabled(spec, s, step) && step.Poll?
  {
    hide Listing, Enabled, Poller.Changes;
    var evs := Enumerate(Unreported(s));
    CanPoll(spec, s, evs);
    step := Poll(evs);
  }

  lemma SomeUsefulStep(spec: PodSpec, s: State) returns (step: Step)
    requires Inv(spec, s) && !Quiescent(s)
    ensures Enabled(spec, s, step) && Watching(step) && Useful(s, step)
    ensures !step.Persist? && !step.Announce? && !step.LoadFails?
  {
    if s.worker.Busy? {
      BusyFits(spec, s);
      step := Finish(s.files, 1);
    } else if s.queue == [] && s.outbox == [] {
      step := SomePoll(spec, s);
    } else {
      step := if s.queue != [] then Take else Enqueue;
    }
  }

  /** The useful steps of a run. */
  ghost function UsefulSteps(spec: PodSpec, s: State, steps: seq<Step>): nat
    decreases |steps|
  {
    if steps == [] || !Enabled(spec, s, steps[0]) then 0
    else (if Useful(s, steps[0]) then 1 else 0) + UsefulSteps(spec, Apply(spec, s, steps[0]), steps[1..])
  }

  /** Nothing of the work left can be done. */
  ghost predicate NothingToDo(spec: PodSpec, s: State) {
    forall step :: Enabled(spec, s, step) && Watching(step) ==> !Useful(s, step)
  }

  /** The system is quiet exactly when nothing useful can be done. */
  lemma QuietExact(spec: PodSpec, s: State)
    requires Inv(spec, s)
    ensures Quiescent(s) <==> NothingToDo(spec, s)
  {
    hide Inv, Listing;
    if !Quiescent(s) {
      var step := SomeUsefulStep(spec, s);
    } else {
      QuietMeansDone(spec, s);
    }
  }

  lemma QuietMeansDone(spec: PodSpec, s: State)
    requires Quiescent(s)
    ensures NothingToDo(spec, s)
  {
    hide Listing;
  }

  /** Once `hpk-pause` is silent, whatever the scheduler does there is only so much to do, and the
      system is quiet exactly when it is done. */
  lemma {:induction false} WorkIsBounded(spec: PodSpec, s: State, steps: seq<Step>, t: State)
    requires ValidSpec(spec) && Inv(spec, s) && Runs(spec, s, steps, t)
    requires forall i :: 0 <= i < |steps| ==> Watching(steps[i])
    ensures UsefulSteps(spec, s, steps) + Weight(t) <= Weight(s) && t.files == s.files
    ensures UsefulSteps(spec, s, steps) == Weight(s) ==> Quiescent(t)
    ensures Quiescent(t) <==> NothingToDo(spec, t)
    decreases |steps|
  {
    hide Inv, Weight, Useful, Quiescent, NothingToDo;
    if steps == [] {
      QuietExact(spec, t);
    } else {
      WeightStep(spec, s, steps[0]);
      InvPreserved(spec, s, steps[0]);
      WorkIsBounded(spec, Apply(spec, s, steps[0]), steps[1..], t);
    }
    WeightZero(t);
  }

  /** From every state the watcher and the worker alone reach a quiet one. */
  lemma {:induction false} Drain(spec: PodSpec, s: State) returns (steps: seq<Step>, t: State)
    requires ValidSpec(spec) && Inv(spec, s)
    ensures Drains(spec, s, steps, t)
    decreases Weight(s)
  {
    hide Inv, Weight, Useful, Quiescent;
    if Quiescent(s) {
      steps, t := [], s;
    } else {
      var step := SomeUsefulStep(spec, s);
      WeightStep(spec, s, step);
      InvPreserved(spec, s, step);
      var rest;
      rest, t := Drain(spec, Apply(spec, s, step));
      RunCons(spec, s, step, rest, t);
      steps := [step] + rest;
    }
  }

  lemma ReachableExtend(spec: PodSpec, s: State, steps: seq<Step>, t: State)
    requires Reachable(spec, s) && Runs(spec, s, steps, t)
    ensures Reachable(spec, t)
  {
    var s0, before :| Initial(spec, s0) && Runs(spec, s0, before, s);
    RunAppend(spec, s0, before, s, steps, t);
  }

  lemma {:induction false} LateStable(spec: PodSpec, s: State, steps: seq<Step>, t: State)
    requires Runs(spec, s, steps, t) && NoLateCode(s)
    requires forall i :: 0 <= i < |steps| ==> Watching(steps[i])
    ensures NoLateCode(t) && t.files == s.files
    decreases |steps|
  {
    if steps != [] {
      LateStable(spec, Apply(spec, s, steps[0]), steps[1..], t);
    }
  }

  /** After the last write every schedule that leaves nothing to do, whatever its order and with any
      amount of idle polling and storing in between, ends with the right phase reported, provided
      that no load has failed and the goroutine that created the pod has not spoken last. */
  lemma EventualConvergence(spec: PodSpec, s: State, steps: seq<Step>, t: State)
    requires ValidSpec(spec) && Reachable(spec, s) && Runs(spec, s, steps, t)
    requires forall i :: 0 <= i < |steps| ==> Watching(steps[i])
    ensures SysError !in s.files.created && s.files.created != {} && NoLateCode(s)
      && NothingToDo(spec, t) && t.history.dropped == {} && !CreateLast(t)
      ==> Converged(spec, t)
  {
    hide NoLateCode, Quiescent, Weight, Converged, CreateLast, NothingToDo, Inv;
    ReachableInv(spec, s);
    WorkIsBounded(spec, s, steps, t);
    if SysError !in s.files.created && s.files.created != {} && NoLateCode(s)
      && NothingToDo(spec, t) && t.history.dropped == {} && !CreateLast(t)
    {
      LateStable(spec, s, steps, t);
      ReachableExtend(spec, s, steps, t);
      Convergence(spec, t);
    }
  }
}
