/** The incremental status machine agrees with the one-shot reading of the control directory. */
module StatusRefinement {
  import opened Prelude
  import opened Conditions
  import opened ControlFiles
  import opened PodStatus

  ghost predicate Matches(ss: seq<ContainerStatus>, names: seq<string>) {
    |ss| == |names| && forall i :: 0 <= i < |ss| ==> ss[i].name == names[i]
  }

  ghost predicate WellFormed(ss: seq<ContainerStatus>) {
    forall i :: 0 <= i < |ss| ==> Coherent(ss[i].state)
  }

  /** `st` is a status that some reconciliation of this pod produced (or the one it was created
      with) when the control directory was `view`. */
  ghost predicate Fits(spec: PodSpec, st: Status, view: Files) {
    && Matches(st.inits, spec.inits) && Matches(st.mains, spec.mains)
    && WellFormed(st.inits) && WellFormed(st.mains)
    && st.phase != NoPhase
    && (st.phase == Pending || st.phase == PhaseOf(spec, view) || (st.phase == Failed && SysError in view.created))
    && NoDuplicates(st.conditions)
    && ConditionsFollow(st.phase, st.conditions)
  }

  /** The pod is ready exactly while it runs. A running pod has initialized, with its containers
      ready; a succeeded one has initialized, with its containers no longer ready. */
  ghost predicate ConditionsFollow(phase: Phase, conds: seq<Condition>) {
    && (Holds(conds, Ready, CondTrue) <==> phase == Running)
    && (phase == Running ==> Holds(conds, ContainersReady, CondTrue))
    && (phase == Succeeded ==> Holds(conds, ContainersReady, CondFalse))
    && (phase == Running || phase == Succeeded ==> Holds(conds, Initialized, CondTrue))
  }

  ghost predicate Reflects(ss: seq<ContainerStatus>, files: Files) {
    forall i :: 0 <= i < |ss| ==> BucketOf(ss[i].state) == FileBucket(ss[i].name, files)
  }

  /** The container statuses are what the files say. */
  ghost predicate Displays(ss: seq<ContainerStatus>, files: Files) {
    forall i :: 0 <= i < |ss| ==> ss[i].state == FileState(ss[i].name, files)
  }

  lemma SyncReflects(ss: seq<ContainerStatus>, files: Files)
    requires WellFormed(ss) && CodesFit(files)
    ensures WellFormed(SyncAll(ss, files)) && Reflects(SyncAll(ss, files), files) && Displays(SyncAll(ss, files), files)
    ensures forall names :: Matches(ss, names) ==> Matches(SyncAll(ss, files), names)
    ensures forall i :: 0 <= i < |ss| ==>
      SyncAll(ss, files)[i].state.terminated ==
        if ss[i].name in files.codes then Some(files.codes[ss[i].name]) else None
  {
  }

  lemma {:induction false} GateIsScan(ss: seq<ContainerStatus>, names: seq<string>, files: Files)
    requires Matches(ss, names)
    requires forall i :: 0 <= i < |ss| ==>
      ss[i].state.terminated == if ss[i].name in files.codes then Some(files.codes[ss[i].name]) else None
    ensures InitGate(ss) == InitScan(names, files)
  {
    if ss != [] {
      GateIsScan(ss[1..], names[1..], files);
    }
  }

  // ---- The classifier partitions the containers ----

  function Names(ss: seq<ContainerStatus>): set<string> {
    set i | 0 <= i < |ss| :: ss[i].name
  }

  lemma {:induction false} NamesSize(ss: seq<ContainerStatus>)
    requires forall i, j :: 0 <= i < j < |ss| ==> ss[i].name != ss[j].name
    ensures |Names(ss)| == |ss|
  {
    if ss != [] {
      var n := |ss| - 1;
      var front := ss[..n];
      NamesSize(front);
      assert forall i :: 0 <= i < n ==> front[i] == ss[i];
      assert Names(ss) == Names(front) + {ss[n].name};
      assert ss[n].name !in Names(front);
    }
  }

  lemma BucketsUnion(ss: seq<ContainerStatus>)
    ensures Names(ss) == InBucket(ss, PendingJob) + InBucket(ss, RunningJob) + InBucket(ss, SuccessfulJob) +
      InBucket(ss, FailedJob)
  {
    forall x | x in Names(ss)
      ensures x in InBucket(ss, PendingJob) + InBucket(ss, RunningJob) + InBucket(ss, SuccessfulJob) +
        InBucket(ss, FailedJob)
    {
      var i :| 0 <= i < |ss| && ss[i].name == x;
      assert x in InBucket(ss, BucketOf(ss[i].state));
    }
  }

  lemma BucketsDisjoint(ss: seq<ContainerStatus>, a: Bucket, b: Bucket)
    requires forall i, j :: 0 <= i < j < |ss| ==> ss[i].name != ss[j].name
    requires a != b
    ensures InBucket(ss, a) !! InBucket(ss, b)
  {
  }

  /** With distinct container names the four buckets are disjoint and their sizes add up. */
  lemma BucketsPartition(ss: seq<ContainerStatus>)
    requires forall i, j :: 0 <= i < j < |ss| ==> ss[i].name != ss[j].name
    ensures |InBucket(ss, PendingJob)| + |InBucket(ss, RunningJob)| + |InBucket(ss, SuccessfulJob)| +
      |InBucket(ss, FailedJob)| == |ss|
  {
    NamesSize(ss);
    BucketsUnion(ss);
    BucketsDisjoint(ss, PendingJob, RunningJob);
    BucketsDisjoint(ss, PendingJob, SuccessfulJob);
    BucketsDisjoint(ss, PendingJob, FailedJob);
    BucketsDisjoint(ss, RunningJob, SuccessfulJob);
    BucketsDisjoint(ss, RunningJob, FailedJob);
    BucketsDisjoint(ss, SuccessfulJob, FailedJob);
    var p, r, s, f := InBucket(ss, PendingJob), InBucket(ss, RunningJob), InBucket(ss, SuccessfulJob),
      InBucket(ss, FailedJob);
    assert |p + r| == |p| + |r|;
    assert |p + r + s| == |p + r| + |s|;
    assert |p + r + s + f| == |p + r + s| + |f|;
  }

  function PhaseOfChange(change: Change): Phase {
    match change
    case ToFailed => Failed
    case ToSucceeded => Succeeded
    case ToRunning => Running
    case ToPending => Pending
    case ToInvalid => Failed
  }

  lemma BucketMember(ss: seq<ContainerStatus>, names: seq<string>, files: Files, b: Bucket, c: string)
    requires Matches(ss, names) && Reflects(ss, files)
    ensures c in InBucket(ss, b) <==> c in names && FileBucket(c, files) == b
  {
    if c in names && FileBucket(c, files) == b {
      var i :| 0 <= i < |names| && names[i] == c;
      assert ss[i].name == c && BucketOf(ss[i].state) == b;
    }
  }

  /** Which row of the table is chosen depends only on which buckets are empty. */
  lemma ChosenByEmptiness(spec: PodSpec, ss: seq<ContainerStatus>)
    requires Matches(ss, spec.mains) && Distinct(spec.mains)
    ensures Chosen(spec, ss) ==
            if InBucket(ss, FailedJob) != {} then ToFailed
            else if InBucket(ss, PendingJob) != {} then ToPending
            else if InBucket(ss, RunningJob) != {} then ToRunning
            else ToSucceeded
  {
    BucketsPartition(ss);
    forall b ensures |InBucket(ss, b)| == 0 <==> InBucket(ss, b) == {} {}
  }

  lemma MainPhaseByEmptiness(ss: seq<ContainerStatus>, names: seq<string>, files: Files)
    requires Matches(ss, names) && Reflects(ss, files)
    ensures MainPhase(names, files) ==
            if InBucket(ss, FailedJob) != {} then Failed
            else if InBucket(ss, PendingJob) != {} then Pending
            else if InBucket(ss, RunningJob) != {} then Running
            else Succeeded
  {
    forall b, c ensures c in InBucket(ss, b) <==> c in names && FileBucket(c, files) == b {
      BucketMember(ss, names, files, b, c);
    }
    if InBucket(ss, FailedJob) != {} {
      var c :| c in InBucket(ss, FailedJob);
      assert c in names && c in files.codes && files.codes[c] != 0;
    } else {
      assert forall c :: c in names ==> c !in InBucket(ss, FailedJob);
      assert forall c :: c in names && FileBucket(c, files) == PendingJob ==> c in InBucket(ss, PendingJob);
      assert forall c :: c in names && FileBucket(c, files) == RunningJob ==> c in InBucket(ss, RunningJob);
      if c :| c in InBucket(ss, PendingJob) {
        assert c in names && !MainStarted(c, files);
      } else if c :| c in InBucket(ss, RunningJob) {
        assert c in names && c !in files.codes;
      }
    }
  }

  /** The transition table decides as `MainPhase` does, and its catch-all row is never reached. */
  lemma ChosenIsMainPhase(spec: PodSpec, ss: seq<ContainerStatus>, files: Files)
    requires Matches(ss, spec.mains) && Distinct(spec.mains) && Reflects(ss, files)
    ensures PhaseOfChange(Chosen(spec, ss)) == MainPhase(spec.mains, files)
    ensures Chosen(spec, ss) != ToInvalid
  {
    ChosenByEmptiness(spec, ss);
    MainPhaseByEmptiness(ss, spec.mains, files);
  }

  // ---- Main results ----

  /** From any status of the same run, however stale, one reconciliation against the directory
      `files` gives the phase `PhaseOf(files)`, and a status that again fits. A pod that an earlier
      `.syserror` has failed is left exactly as it is. The catch-all failure never shows. Every
      container status is what the files say, and reason and conditions tell how the phase came
      about; only a pod in a final phase is left alone. */
  lemma ReconcileRefinesPhaseOf(spec: PodSpec, st: Status, view: Files, files: Files, now: nat)
    requires ValidSpec(spec) && Fits(spec, st, view) && Within(view, files) && CodesFit(files)
    ensures var r := Reconcile(spec, st, files, now);
            && Fits(spec, r, files)
            && (r.phase == PhaseOf(spec, files) || (r == st && st.phase == Failed && SysError in view.created))
            && (st.reason != "PodFailure" ==> r.reason != "PodFailure")
            && (Terminal(st.phase) ==> r == st)
            && (!Terminal(st.phase) ==>
                  Displays(r.inits, files) && Displays(r.mains, files) && Explained(spec, st, r, files))
  {
    PhaseOfMonotone(spec, view, files);
    if st.phase == Pending {
      PendingRefines(spec, st, files, now);
    } else if st.phase == Running {
      InitScanStable(spec.inits, view, files);
      RunningRefines(spec, st, files, now);
    }
  }

  /** The reason that goes with the phase the main containers are in. */
  function ReasonFor(phase: Phase): string {
    match phase
    case NoPhase => ""
    case Pending => "InQueue"
    case Running => "Running"
    case Succeeded => "Completed"
    case Failed => "ContainerFailed"
  }

  /** Reason and conditions of a reconciled status, by the outcome of the init containers. */
  ghost predicate Explained(spec: PodSpec, st: Status, r: Status, files: Files) {
    match InitScan(spec.inits, files)
    case InitWaiting => r.reason == st.reason && r.conditions == st.conditions
    case InitFailed => r.reason == "InitializationError" && Holds(r.conditions, Ready, CondFalse)
    case InitDone =>
      && r.reason == ReasonFor(MainPhase(spec.mains, files))
      && Holds(r.conditions, Initialized, CondTrue)
      && (Terminal(MainPhase(spec.mains, files)) ==>
            Holds(r.conditions, ContainersReady, CondFalse) && Holds(r.conditions, Ready, CondFalse))
  }

  /** Everything `Fits` says apart from the phase. */
  ghost predicate Consistent(spec: PodSpec, st: Status) {
    && Matches(st.inits, spec.inits) && Matches(st.mains, spec.mains)
    && WellFormed(st.inits) && WellFormed(st.mains)
    && NoDuplicates(st.conditions)
  }

  lemma PendingRefines(spec: PodSpec, st: Status, files: Files, now: nat)
    requires ValidSpec(spec) && CodesFit(files) && Consistent(spec, st)
    requires st.phase == Pending && !Holds(st.conditions, Ready, CondTrue)
    ensures var r := Reconcile(spec, st, files, now);
            && Fits(spec, r, files) && r.phase == PhaseOf(spec, files)
            && (st.reason != "PodFailure" ==> r.reason != "PodFailure")
            && Displays(r.inits, files) && Displays(r.mains, files) && Explained(spec, st, r, files)
  {
    SyncReflects(st.inits, files);
    SyncReflects(st.mains, files);
    var synced := st.(inits := SyncAll(st.inits, files), mains := SyncAll(st.mains, files));
    GateIsScan(synced.inits, spec.inits, files);
    match InitGate(synced.inits)
    case InitWaiting =>
    case InitFailed =>
      ErroredConditions(synced, "InitializationError", now);
    case InitDone =>
      SetProperties(st.conditions, Call(Condition(Initialized, CondTrue, "Initialized",
        "all init containers in the pod have started successfully", now), now));
      TransitionRefines(spec, synced.(conditions := InitializedConditions(st.conditions, now),
        reason := "ContainerCreating"), files, now);
  }

  lemma RunningRefines(spec: PodSpec, st: Status, files: Files, now: nat)
    requires ValidSpec(spec) && CodesFit(files) && Consistent(spec, st)
    requires st.phase == Running && Holds(st.conditions, Initialized, CondTrue)
    requires InitScan(spec.inits, files) == InitDone && MainPhase(spec.mains, files) != Pending
    ensures var r := Reconcile(spec, st, files, now);
            && Fits(spec, r, files) && r.phase == PhaseOf(spec, files) && r.reason != "PodFailure"
            && Displays(r.inits, files) && Displays(r.mains, files) && Explained(spec, st, r, files)
  {
    SyncReflects(st.inits, files);
    SyncReflects(st.mains, files);
    TransitionRefines(spec, st.(inits := SyncAll(st.inits, files), mains := SyncAll(st.mains, files)), files, now);
  }

  /** Past the init gate, the transition table gives the phase of the directory. */
  lemma TransitionRefines(spec: PodSpec, st: Status, files: Files, now: nat)
    requires ValidSpec(spec) && Consistent(spec, st) && Reflects(st.mains, files)
    requires InitScan(spec.inits, files) == InitDone && Holds(st.conditions, Initialized, CondTrue)
    requires MainPhase(spec.mains, files) == Pending ==> !Holds(st.conditions, Ready, CondTrue)
    ensures var r := Transition(spec, st, now);
            && Fits(spec, r, files) && r.phase == PhaseOf(spec, files) && r.reason != "PodFailure"
            && Explained(spec, st, r, files) && r.inits == st.inits && r.mains == st.mains
  {
    MainsDistinct(spec);
    ChosenIsMainPhase(spec, st.mains, files);
    ChangedConditions(Chosen(spec, st.mains), st, now);
    ReasonNotInvalid(Chosen(spec, st.mains), st, now);
  }

  lemma ReasonNotInvalid(change: Change, st: Status, now: nat)
    requires change != ToInvalid
    ensures Changed(change, st, now).reason != "PodFailure"
  {
    assert "PodFailure"[0] == 'P' && "ContainerFailed"[0] == 'C' && "Completed"[0] == 'C' && "Running"[0] == 'R' &&
      "InQueue"[0] == 'I';
  }

  lemma MainsDistinct(spec: PodSpec)
    requires ValidSpec(spec)
    ensures Distinct(spec.mains) && Distinct(spec.inits)
    ensures forall c :: c in spec.inits ==> c !in spec.mains
  {
    var all, n := spec.inits + spec.mains, |spec.inits|;
    forall i, j | 0 <= i < j < |spec.mains| ensures spec.mains[i] != spec.mains[j] {
      assert all[n + i] == spec.mains[i] && all[n + j] == spec.mains[j];
    }
    forall i, j | 0 <= i < j < n ensures spec.inits[i] != spec.inits[j] {
      assert all[i] == spec.inits[i] && all[j] == spec.inits[j];
    }
    forall i, j | 0 <= i < n && 0 <= j < |spec.mains| ensures spec.inits[i] != spec.mains[j] {
      assert all[i] == spec.inits[i] && all[n + j] == spec.mains[j];
    }
  }

  /** A transition keeps the condition list free of duplicates and makes readiness follow it. */
  lemma ChangedConditions(change: Change, st: Status, now: nat)
    requires NoDuplicates(st.conditions)
    ensures var r := Changed(change, st, now);
            && NoDuplicates(r.conditions)
            && (change == ToRunning ==>
                  Holds(r.conditions, Ready, CondTrue) && Holds(r.conditions, ContainersReady, CondTrue))
            && (change == ToFailed || change == ToSucceeded ==>
                  && !Holds(r.conditions, Ready, CondTrue) && Holds(r.conditions, Ready, CondFalse)
                  && Holds(r.conditions, ContainersReady, CondFalse))
            && (Holds(r.conditions, Initialized, CondTrue) <==> Holds(st.conditions, Initialized, CondTrue))
            && (change == ToPending ==> r.conditions == st.conditions)
  {
    var status := if change == ToRunning then CondTrue else CondFalse;
    var c1 := if change == ToRunning
      then Call(Condition(ContainersReady, CondTrue, "ContainersReady", " all containers in the pod are ready.",
        now), now)
      else Call(Condition(ContainersReady, CondFalse, "ContainersUnready", TERMINATED, now), now);
    var c2 := if change == ToRunning
      then Call(Condition(Ready, CondTrue, "PodReady", "the pod is able to service requests", now), now)
      else Call(Condition(Ready, CondFalse, "PodUnready", TERMINATED, now), now);
    SetProperties(st.conditions, c1);
    SetProperties(Set(st.conditions, c1), c2);
  }

  lemma ErroredConditions(st: Status, reason: string, now: nat)
    requires NoDuplicates(st.conditions)
    ensures NoDuplicates(Errored(st, reason, now).conditions)
    ensures !Holds(Errored(st, reason, now).conditions, Ready, CondTrue)
    ensures Holds(Errored(st, reason, now).conditions, Ready, CondFalse)
    ensures forall status :: Holds(Errored(st, reason, now).conditions, ContainersReady, status) <==>
      Holds(st.conditions, ContainersReady, status)
  {
    SetProperties(st.conditions, Call(Condition(Ready, CondFalse, "PodUnready", "Pod Has Failed.", now), now));
  }

  /** A status met for the first time (phase "") skips the init gate: the main containers alone
      decide. So the result is `PhaseOf` exactly when the init containers make no difference. */
  lemma FirstReconcileSkipsInitGate(spec: PodSpec, st: Status, files: Files, now: nat)
    requires ValidSpec(spec) && !spec.unsupported && st.phase == NoPhase && CodesFit(files)
    requires Matches(st.mains, spec.mains) && WellFormed(st.mains)
    ensures Reconcile(spec, st, files, now).phase == MainPhase(spec.mains, files)
    ensures Displays(Reconcile(spec, st, files, now).mains, files)
    ensures WellFormed(st.inits) ==> Displays(Reconcile(spec, st, files, now).inits, files)
    ensures Reconcile(spec, st, files, now).phase == PhaseOf(spec, files) <==>
            match InitScan(spec.inits, files)
            case InitDone => true
            case InitWaiting => MainPhase(spec.mains, files) == Pending
            case InitFailed => MainPhase(spec.mains, files) == Failed
  {
    MainsDistinct(spec);
    SyncReflects(st.mains, files);
    if WellFormed(st.inits) {
      SyncReflects(st.inits, files);
    }
    ChosenIsMainPhase(spec, SyncAll(st.mains, files), files);
  }

  /** A pod with unsupported fields, met for the first time, fails before anything is read. */
  lemma UnsupportedFails(spec: PodSpec, st: Status, files: Files, now: nat)
    requires spec.unsupported && st.phase == NoPhase && NoDuplicates(st.conditions)
    ensures var r := Reconcile(spec, st, files, now);
            && r.phase == Failed && r.reason == "UnsupportedFeatures" && Holds(r.conditions, Ready, CondFalse)
            && r.inits == st.inits && r.mains == st.mains
  {
    ErroredConditions(st, "UnsupportedFeatures", now);
  }

  /** A concrete case: an init container has failed and the first reconciliation reports Pending. */
  lemma FirstReconcileCounterexample()
    ensures var spec := PodSpec(["i"], ["m"], false);
            var st := Status(NoPhase, "", [], [ContainerStatus("i", ContainerState(false, false, None))],
                             [ContainerStatus("m", ContainerState(false, false, None))]);
            var files := Files({JobId("i"), ExitCode("i")}, map["i" := 1]);
            && PhaseOf(spec, files) == Failed
            && Reconcile(spec, st, files, 1).phase == Pending
  {
    var spec := PodSpec(["i"], ["m"], false);
    var st := Status(NoPhase, "", [], [ContainerStatus("i", ContainerState(false, false, None))],
                     [ContainerStatus("m", ContainerState(false, false, None))]);
    var files := Files({JobId("i"), ExitCode("i")}, map["i" := 1]);
    assert "i"[0] == 'i' && "m"[0] == 'm';
    FirstReconcileSkipsInitGate(spec, st, files, 1);
    assert "m" in spec.mains && !MainStarted("m", files);
  }
}
