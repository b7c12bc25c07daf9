/** The incremental status machine of a pod (compute/podhandler/podStatus.go,
    `SyncContainerStatuses` of compute/podhandler/container.go, compute/errors.go). */
module PodStatus {
  import opened Prelude
  import opened Conditions
  import opened ControlFiles

  /** The three optional parts of corev1.ContainerState, kept independent as in the source. */
  datatype ContainerState = ContainerState(waiting: bool, running: bool, terminated: Option<int>)

  /** Running excludes the other two parts. */
  predicate Coherent(s: ContainerState) {
    s.running ==> !s.waiting && s.terminated.None?
  }

  datatype ContainerStatus = ContainerStatus(name: string, state: ContainerState)

  datatype Status = Status(phase: Phase, reason: string, conditions: seq<Condition>,
                           inits: seq<ContainerStatus>, mains: seq<ContainerStatus>)

  // ---- Values: what one reconciliation computes ----

  /** `handleStatus`: an exit code wins over a job id; a running container is left alone. */
  function NextState(s: ContainerState, name: string, files: Files): ContainerState {
    if name in files.codes then
      ContainerState(false, false, Some(Int32(files.codes[name])))
    else if JobId(name) in files.created then
      if s.running then s else ContainerState(false, true, None)
    else
      ContainerState(true, false, None)
  }

  function Synced(c: ContainerStatus, files: Files): ContainerStatus {
    c.(state := NextState(c.state, c.name, files))
  }

  function SyncAll(ss: seq<ContainerStatus>, files: Files): seq<ContainerStatus> {
    seq(|ss|, i requires 0 <= i < |ss| => Synced(ss[i], files))
  }

  /** The loop over the init containers of a pending pod. */
  function InitGate(ss: seq<ContainerStatus>): InitOutcome {
    if ss == [] then InitDone
    else if ss[0].state.terminated.None? then InitWaiting
    else if ss[0].state.terminated.value != 0 then InitFailed
    else InitGate(ss[1..])
  }

  datatype Bucket = PendingJob | RunningJob | SuccessfulJob | FailedJob

  function BucketOf(s: ContainerState): Bucket {
    match s.terminated
    case Some(code) => if code == 0 then SuccessfulJob else FailedJob
    case None => if s.running then RunningJob else PendingJob
  }

  /** The bucket a container belongs to, read off the files. */
  function FileBucket(name: string, files: Files): Bucket {
    if name in files.codes then
      if files.codes[name] == 0 then SuccessfulJob else FailedJob
    else if JobId(name) in files.created then RunningJob
    else PendingJob
  }

  /** What the files say about a container, whatever was known of it before. */
  function FileState(name: string, files: Files): ContainerState {
    var exited, started := name in files.codes, JobId(name) in files.created;
    ContainerState(!exited && !started, !exited && started, if exited then Some(files.codes[name]) else None)
  }

  /** The names the classifier files under `b`. */
  function InBucket(ss: seq<ContainerStatus>, b: Bucket): set<string> {
    set i | 0 <= i < |ss| && BucketOf(ss[i].state) == b :: ss[i].name
  }

  function SetNow(conds: seq<Condition>, kind: ConditionKind, status: ConditionStatus,
                  reason: string, message: string, now: nat): seq<Condition> {
    Set(conds, Call(Condition(kind, status, reason, message, now), now))
  }

  /** compute.PodError */
  function Errored(st: Status, reason: string, now: nat): Status {
    st.(phase := Failed, reason := reason,
        conditions := SetNow(st.conditions, Ready, CondFalse, "PodUnready", "Pod Has Failed.", now))
  }

  const TERMINATED := "Pod Has been Successfully Terminated."

  /** setTerminationConditions */
  function TerminationConditions(conds: seq<Condition>, now: nat): seq<Condition> {
    SetNow(SetNow(conds, ContainersReady, CondFalse, "ContainersUnready", TERMINATED, now),
           Ready, CondFalse, "PodUnready", TERMINATED, now)
  }

  function ReadyConditions(conds: seq<Condition>, now: nat): seq<Condition> {
    SetNow(SetNow(conds, ContainersReady, CondTrue, "ContainersReady", " all containers in the pod are ready.", now),
           Ready, CondTrue, "PodReady", "the pod is able to service requests", now)
  }

  datatype Change = ToFailed | ToSucceeded | ToRunning | ToPending | ToInvalid

  /** The transition table, in the order in which the source lists it. */
  const TABLE := [ToFailed, ToSucceeded, ToRunning, ToPending, ToInvalid]

  /** The condition under which a row of the table applies. */
  predicate Applies(change: Change, spec: PodSpec, mains: seq<ContainerStatus>) {
    var succeeded, total := |InBucket(mains, SuccessfulJob)|, |spec.mains|;
    match change
    case ToFailed => |InBucket(mains, FailedJob)| > 0
    case ToSucceeded => succeeded == total
    case ToRunning => |InBucket(mains, RunningJob)| + succeeded == total
    case ToPending => |InBucket(mains, PendingJob)| > 0
    case ToInvalid => true
  }

  /** The first row that applies. */
  function Chosen(spec: PodSpec, mains: seq<ContainerStatus>): Change {
    if Applies(ToFailed, spec, mains) then ToFailed
    else if Applies(ToSucceeded, spec, mains) then ToSucceeded
    else if Applies(ToRunning, spec, mains) then ToRunning
    else if Applies(ToPending, spec, mains) then ToPending
    else ToInvalid
  }

  lemma FirstIsChosen(spec: PodSpec, mains: seq<ContainerStatus>, i: nat)
    requires i < |TABLE| && Applies(TABLE[i], spec, mains)
    requires forall j :: 0 <= j < i ==> !Applies(TABLE[j], spec, mains)
    ensures Chosen(spec, mains) == TABLE[i]
  {
    assert i > 0 ==> !Applies(TABLE[0], spec, mains);
    assert i > 1 ==> !Applies(TABLE[1], spec, mains);
    assert i > 2 ==> !Applies(TABLE[2], spec, mains);
    assert i > 3 ==> !Applies(TABLE[3], spec, mains);
  }

  function Changed(change: Change, st: Status, now: nat): Status {
    match change
    case ToFailed =>
      st.(phase := Failed, reason := "ContainerFailed", conditions := TerminationConditions(st.conditions, now))
    case ToSucceeded =>
      st.(phase := Succeeded, reason := "Completed", conditions := TerminationConditions(st.conditions, now))
    case ToRunning =>
      st.(phase := Running, reason := "Running", conditions := ReadyConditions(st.conditions, now))
    case ToPending =>
      st.(phase := Pending, reason := "InQueue")
    case ToInvalid =>
      st.(phase := Failed, reason := "PodFailure")
  }

  function Transition(spec: PodSpec, st: Status, now: nat): Status {
    Changed(Chosen(spec, st.mains), st, now)
  }

  function InitializedConditions(conds: seq<Condition>, now: nat): seq<Condition> {
    SetNow(conds, Initialized, CondTrue, "Initialized", "all init containers in the pod have started successfully", now)
  }

  /** UpdateStatusFromRuntime, as a function of the stored status and the directory it reads. */
  function Reconcile(spec: PodSpec, st: Status, files: Files, now: nat): Status {
    if st.phase == NoPhase && spec.unsupported then
      Errored(st, "UnsupportedFeatures", now)
    else if Terminal(st.phase) then
      st
    else
      var synced := st.(inits := SyncAll(st.inits, files), mains := SyncAll(st.mains, files));
      if st.phase == Pending then
        match InitGate(synced.inits)
        case InitWaiting => synced
        case InitFailed => Errored(synced, "InitializationError", now)
        case InitDone =>
          Transition(spec, synced.(conditions := InitializedConditions(st.conditions, now),
            reason := "ContainerCreating"), now)
      else
        Transition(spec, synced, now)
  }

  // ---- The mutable objects of the source ----

  /** Splits containers into pending, running, successful and failed ones. */
  class Classifier {
    var pendingJobs: map<string, ContainerStatus>
    var runningJobs: map<string, ContainerStatus>
    var successfulJobs: map<string, ContainerStatus>
    var failedJobs: map<string, ContainerStatus>

    /** The buckets hold exactly the containers of `ss`. */
    ghost predicate Classifies(ss: seq<ContainerStatus>)
      reads this
    {
      && pendingJobs.Keys == InBucket(ss, PendingJob)
      && runningJobs.Keys == InBucket(ss, RunningJob)
      && successfulJobs.Keys == InBucket(ss, SuccessfulJob)
      && failedJobs.Keys == InBucket(ss, FailedJob)
    }

    constructor ()
      ensures Classifies([])
    {
      pendingJobs, runningJobs, successfulJobs, failedJobs := map[], map[], map[], map[];
    }

    method Classify(ghost before: seq<ContainerStatus>, status: ContainerStatus)
      requires Classifies(before)
      modifies this
      ensures Classifies(before + [status])
    {
      BucketsAppend(before, status);
      if status.state.terminated.Some? {
        if status.state.terminated.value == 0 {
          successfulJobs := successfulJobs[status.name := status];
        } else {
          failedJobs := failedJobs[status.name := status];
        }
      } else if status.state.running {
        runningJobs := runningJobs[status.name := status];
      } else {
        pendingJobs := pendingJobs[status.name := status];
      }
    }
  }

  lemma BucketsAppend(ss: seq<ContainerStatus>, c: ContainerStatus)
    ensures forall b :: InBucket(ss + [c], b) == InBucket(ss, b) + (if BucketOf(c.state) == b then {c.name} else {})
  {
    forall b ensures InBucket(ss + [c], b) == InBucket(ss, b) + (if BucketOf(c.state) == b then {c.name} else {}) {
      var r := ss + [c];
      forall x | x in InBucket(ss, b) ensures x in InBucket(r, b) {
        var i :| 0 <= i < |ss| && BucketOf(ss[i].state) == b && ss[i].name == x;
        assert r[i] == ss[i];
      }
      assert r[|ss|] == c;
    }
  }

  class Pod {
    const spec: PodSpec
    var phase: Phase
    var reason: string
    var conditions: seq<Condition>
    var inits: seq<ContainerStatus>
    var mains: seq<ContainerStatus>

    ghost function Value(): Status
      reads this
    {
      Status(phase, reason, conditions, inits, mains)
    }

    constructor (spec: PodSpec, st: Status)
      ensures this.spec == spec && Value() == st
    {
      this.spec := spec;
      phase, reason, conditions, inits, mains := st.phase, st.reason, st.conditions, st.inits, st.mains;
    }

    method SetPodStatusCondition(call: Call)
      modifies this`conditions
      ensures conditions == Set(old(conditions), call)
    {
      var existing := FindStatusCondition(conditions, call.cond.kind);
      match existing
      case None =>
        conditions := conditions + [if call.cond.since == 0 then call.cond.(since := call.now) else call.cond];
      case Some(i) =>
        var entry := conditions[i];
        if entry.status != call.cond.status {
          entry := entry.(status := call.cond.status);
          if call.cond.since != 0 {
            entry := entry.(since := call.cond.since);
          } else {
            entry := entry.(since := call.now);
          }
        }
        entry := entry.(reason := call.cond.reason, message := call.cond.message);
        conditions := conditions[i := entry];
    }

    method SetCondition(kind: ConditionKind, status: ConditionStatus, reason: string, message: string, now: nat)
      modifies this`conditions
      ensures Holds(conditions, kind, status) && SameExcept(old(conditions), conditions, {kind})
      ensures NoDuplicates(old(conditions)) ==> NoDuplicates(conditions)
      ensures conditions == SetNow(old(conditions), kind, status, reason, message, now)
    {
      SetMeans(conditions, Call(Condition(kind, status, reason, message, now), now));
      SetPodStatusCondition(Call(Condition(kind, status, reason, message, now), now));
    }

    /** The pod has failed and is not ready. Its containers and its other conditions stay. */
    method PodError(reason: string, now: nat)
      modifies this
      ensures phase == Failed && this.reason == reason && inits == old(inits) && mains == old(mains)
      ensures Holds(conditions, Ready, CondFalse)
      ensures SameExcept(old(conditions), conditions, {Ready})
      ensures NoDuplicates(old(conditions)) ==> NoDuplicates(conditions)
      ensures Value() == Errored(old(Value()), reason, now)
    {
      phase := Failed;
      this.reason := reason;
      SetCondition(Ready, CondFalse, "PodUnready", "Pod Has Failed.", now);
    }

    /** Neither the containers nor the pod are ready any more. Other conditions stay. */
    method SetTerminationConditions(now: nat)
      modifies this`conditions
      ensures Holds(conditions, Ready, CondFalse) && Holds(conditions, ContainersReady, CondFalse)
      ensures SameExcept(old(conditions), conditions, {Ready, ContainersReady})
      ensures NoDuplicates(old(conditions)) ==> NoDuplicates(conditions)
      ensures conditions == TerminationConditions(old(conditions), now)
    {
      SetCondition(ContainersReady, CondFalse, "ContainersUnready", TERMINATED, now);
      SetCondition(Ready, CondFalse, "PodUnready", TERMINATED, now);
    }

    /** Both loops run to the end: every container's state is overwritten from the files. */
    method SyncContainerStatuses(files: Files)
      modifies this`inits, this`mains
      ensures inits == SyncAll(old(inits), files)
      ensures mains == SyncAll(old(mains), files)
    {
      var i := 0;
      while i < |inits|
        invariant 0 <= i <= |inits| == |old(inits)|
        invariant mains == old(mains)
        invariant forall k :: 0 <= k < i ==> inits[k] == Synced(old(inits)[k], files)
        invariant forall k :: i <= k < |inits| ==> inits[k] == old(inits)[k]
      {
        var state := HandleStatus(inits[i], files);
        inits := inits[i := inits[i].(state := state)];
        i := i + 1;
      }
      i := 0;
      while i < |mains|
        invariant 0 <= i <= |mains| == |old(mains)|
        invariant inits == SyncAll(old(inits), files)
        invariant forall k :: 0 <= k < i ==> mains[k] == Synced(old(mains)[k], files)
        invariant forall k :: i <= k < |mains| ==> mains[k] == old(mains)[k]
      {
        var state := HandleStatus(mains[i], files);
        mains := mains[i := mains[i].(state := state)];
        i := i + 1;
      }
    }

    /** The generic handler of SyncContainerStatuses, for one container. Whatever the container was
        before, its class afterwards depends on its files alone. */
    method HandleStatus(c: ContainerStatus, files: Files) returns (state: ContainerState)
      ensures CodesFit(files) && Coherent(c.state) ==>
        Coherent(state) && BucketOf(state) == FileBucket(c.name, files) && state == FileState(c.name, files)
      ensures state == NextState(c.state, c.name, files)
    {
      state := c.state;
      if c.name in files.codes {
        state := state.(waiting := false);
        state := state.(running := false);
        state := state.(terminated := Some(Int32(files.codes[c.name])));
        return;
      }
      if JobId(c.name) in files.created {
        if !state.running {
          state := state.(waiting := false);
          state := state.(running := true);
          state := state.(terminated := None);
        }
        return;
      }
      state := state.(waiting := true);
      state := state.(running := false);
      state := state.(terminated := None);
    }

    /** The whole reconciliation. The transition table is searched in order; running off its
        end, which makes the source panic, cannot happen. */
    method UpdateStatusFromRuntime(files: Files, now: nat)
      modifies this
      ensures Value() == Reconcile(spec, old(Value()), files, now)
    {
      hide Errored, Transition, SyncAll, InitGate, SetNow;
      match phase {
        case NoPhase =>
          if spec.unsupported {
            PodError("UnsupportedFeatures", now);
            return;
          }
        case Succeeded => return;
        case Failed => return;
        case _ =>
      }

      SyncContainerStatuses(files);

      if phase == Pending {
        var outcome := CheckInitContainers();
        match outcome {
          case InitWaiting =>
            return;
          case InitFailed =>
            PodError("InitializationError", now);
            return;
          case InitDone =>
        }
        SetCondition(Initialized, CondTrue, "Initialized",
          "all init containers in the pod have started successfully", now);
        reason := "ContainerCreating";
      }

      var state := ClassifyContainers();
      ApplyTransition(state, now);
    }

    method CheckInitContainers() returns (outcome: InitOutcome)
      ensures outcome == InitGate(inits)
    {
      var i := 0;
      while i < |inits|
        invariant 0 <= i <= |inits|
        invariant InitGate(inits) == InitGate(inits[i..])
      {
        if inits[i].state.terminated.None? {
          return InitWaiting;
        } else if inits[i].state.terminated.value != 0 {
          return InitFailed;
        }
        i := i + 1;
      }
      return InitDone;
    }

    method ClassifyContainers() returns (state: Classifier)
      ensures fresh(state) && state.Classifies(mains)
    {
      state := new Classifier();
      var i := 0;
      assert mains[..0] == [];
      while i < |mains|
        invariant 0 <= i <= |mains|
        invariant fresh(state) && state.Classifies(mains[..i])
      {
        state.Classify(mains[..i], mains[i]);
        assert mains[..i] + [mains[i]] == mains[..i + 1];
        i := i + 1;
      }
      assert mains[..i] == mains;
    }

    method ApplyTransition(state: Classifier, now: nat)
      requires state.Classifies(mains)
      modifies this
      ensures Value() == Transition(spec, old(Value()), now)
    {
      var change := FirstTransition(state);
      match change
      case ToFailed =>
        phase, reason := Failed, "ContainerFailed";
        SetTerminationConditions(now);
      case ToSucceeded =>
        phase, reason := Succeeded, "Completed";
        SetTerminationConditions(now);
      case ToRunning =>
        phase, reason := Running, "Running";
        SetCondition(ContainersReady, CondTrue, "ContainersReady", " all containers in the pod are ready.", now);
        SetCondition(Ready, CondTrue, "PodReady", "the pod is able to service requests", now);
      case ToPending =>
        phase, reason := Pending, "InQueue";
      case ToInvalid =>
        phase, reason := Failed, "PodFailure";
    }

    method FirstTransition(state: Classifier) returns (change: Change)
      requires state.Classifies(mains)
      ensures change == Chosen(spec, mains)
    {
      for i := 0 to |TABLE|
        invariant i <= 4
        invariant forall j :: 0 <= j < i ==> !Applies(TABLE[j], spec, mains)
      {
        var expression := Evaluate(TABLE[i], state);
        if expression {
          FirstIsChosen(spec, mains, i);
          return TABLE[i];
        }
      }
      // the last row always applies, so the table never runs out
      assert false;
    }

    method Evaluate(change: Change, state: Classifier) returns (expression: bool)
      requires state.Classifies(mains)
      ensures expression == Applies(change, spec, mains)
    {
      var totalJobs := |spec.mains|;
      expression :=
        match change
        case ToFailed => |state.failedJobs.Keys| > 0
        case ToSucceeded => |state.successfulJobs.Keys| == totalJobs
        case ToRunning => |state.runningJobs.Keys| + |state.successfulJobs.Keys| == totalJobs
        case ToPending => |state.pendingJobs.Keys| > 0
        case ToInvalid => true;
    }
  }
}
