/** Runs that show where convergence and monotonicity end. In all of them `.syserror` appears only
    after `hpk-pause` has ended, or without it ever having started. */
module LifecycleWitnesses {
  import opened Prelude
  import opened ControlFiles
  import opened PodStatus
  import opened StatusRefinement
  import opened Lifecycle
  import opened LifecycleTheorems
  import Poller

  // ---- Single events ----

  lemma ListingFill(files: Files, c: string, code: int)
    requires ExitCode(c) in files.created && c !in files.codes
    ensures Poller.Changes(Poller.Snap(DIR, Listing(files)), Poller.Snap(DIR, Listing(Fill(files, c, code))))
            == {Poller.Event(Poller.Child(ExitCode(c)), Poller.Write)}
  {
    var l, r := Listing(files), Listing(Fill(files, c, code));
    assert l.Keys == r.Keys == files.created;
    Poller.OneDifference(l, r, ExitCode(c), Poller.Write);
  }

  lemma ListingTouch(files: Files, f: ControlFile, later: Files)
    requires f !in files.created && later.created == files.created + {f}
    requires forall c :: ExitCode(c) in files.created ==> (c in files.codes <==> c in later.codes)
    ensures Poller.Changes(Poller.Snap(DIR, Listing(files)), Poller.Snap(DIR, Listing(later))) == {Created(f)}
  {
    var l, r := Listing(files), Listing(later);
    assert l.Keys == files.created && r.Keys == later.created;
    Poller.OneDifference(l, r, f, Poller.Create);
  }

  /** A poll that finds exactly one difference, followed by the delivery of its event. */
  lemma PollOne(spec: PodSpec, s: State, before: Files, e: Event) returns (steps: seq<Step>, t: State)
    requires s.seen == Listing(before) && s.outbox == [] && s.queue == [] && s.worker == Idle
    requires Poller.Changes(Poller.Snap(DIR, Listing(before)), Poller.Snap(DIR, Listing(s.files))) == {e}
    ensures Runs(spec, s, steps, t) && AllWatching(steps)
    ensures t == s.(seen := Listing(s.files), queue := [e],
                    history := s.history.(late := s.history.late + Empties(s.files)))
  {
    assert Elements([e]) == {e};
    CanPoll(spec, s, [e]);
    hide Listing, Empties, Poller.Changes;
    var s1 := Apply(spec, s, Poll([e]));
    t := Apply(spec, s1, Enqueue);
    TwoSteps(spec, s, Poll([e]), s1, Enqueue, t);
    steps := [Poll([e]), Enqueue];
  }

  /** The worker drops an event that is not a creation. */
  lemma DropEvent(spec: PodSpec, s: State, e: Event) returns (steps: seq<Step>, t: State)
    requires s.queue == [e] && s.worker == Idle && e.op != Poller.Create
    ensures Runs(spec, s, steps, t) && t == s.(queue := [])
  {
    t := Apply(spec, s, Take);
    assert Runs(spec, t, [], t);
    RunCons(spec, s, Take, [], t);
    steps := [Take] + [];
  }

  /** The worker handles a creation with the pod on disk. */
  lemma HandleEvent(spec: PodSpec, s: State, f: ControlFile) returns (steps: seq<Step>, t: State)
    requires s.queue == [Created(f)] && s.worker == Idle
    ensures Runs(spec, s, steps, t) && AllWatching(steps)
    ensures t == s.(queue := [], sent := s.sent + [Answer(spec, f, s.disk, s.files, 1)],
                    history := s.history.(reported := s.files, sinceTake := {}, sinceFinish := {}))
  {
    hide Answer;
    var s1 := Apply(spec, s, Take);
    assert s1 == s.(queue := [], worker := Busy(f, s.disk, s.files), history := s.history.(sinceTake := {}));
    t := Apply(spec, s1, Finish(s.files, 1));
    assert Runs(spec, t, [], t);
    RunCons(spec, s1, Finish(s.files, 1), [], t);
    RunCons(spec, s, Take, [Finish(s.files, 1)] + [], t);
    steps := [Take] + ([Finish(s.files, 1)] + []);
  }

  ghost predicate AllWatching(steps: seq<Step>) {
    forall i :: 0 <= i < |steps| ==> Watching(steps[i])
  }

  /** The first pending event is queued and handled. */
  lemma HandleNext(spec: PodSpec, s: State, f: ControlFile) returns (steps: seq<Step>, t: State)
    requires s.outbox != [] && s.outbox[0] == Created(f) && s.queue == [] && s.worker == Idle
    ensures Runs(spec, s, steps, t) && AllWatching(steps)
    ensures t == s.(outbox := s.outbox[1..], sent := s.sent + [Answer(spec, f, s.disk, s.files, 1)],
                    history := s.history.(reported := s.files, sinceTake := {}, sinceFinish := {}))
  {
    var s1 := Apply(spec, s, Enqueue);
    var rest;
    rest, t := HandleEvent(spec, s1, f);
    RunCons(spec, s, Enqueue, rest, t);
    steps := [Enqueue] + rest;
  }

  // ---- An exit code filled in late ----

  /** In a quiet state, filling an empty exit-code file only produces a write event, which the
      worker drops: the system is quiet again and nothing was sent. */
  lemma LateFillIsIgnored(spec: PodSpec, s: State, k: nat, code: int) returns (steps: seq<Step>, t: State)
    requires Quiescent(s) && Enabled(spec, s, MainExitFill(k, code))
    requires ExitCode(spec.mains[k]) in s.files.created && spec.mains[k] !in s.files.codes
    ensures Runs(spec, s, steps, t) && Quiescent(t)
    ensures t.sent == s.sent && t.files == Fill(s.files, spec.mains[k], code)
  {
    var c := spec.mains[k];
    var e := Poller.Event(Poller.Child(ExitCode(c)), Poller.Write);
    var s1 := Apply(spec, s, MainExitFill(k, code));
    ListingFill(s.files, c, code);
    var a, s2 := PollOne(spec, s1, s.files, e);
    var b;
    b, t := DropEvent(spec, s2, e);
    RunAppend(spec, s1, a, s2, b, t);
    RunCons(spec, s, MainExitFill(k, code), a + b, t);
    steps := [MainExitFill(k, code)] + (a + b);
  }

  lemma OpenExitFile(spec: PodSpec, s: State, k: nat, code: int)
    requires Inv(spec, s) && Enabled(spec, s, MainExitFill(k, code))
    ensures ExitCode(spec.mains[k]) in s.files.created && spec.mains[k] !in s.files.codes
    ensures InitsZero(spec, s.files, |spec.inits|) && spec.mains[k] !in spec.inits
  {
  }

  /** Convergence needs its premise: whenever `hpk-pause` has created but not yet filled the
      exit-code file of a container that failed, there is a run to a quiet state in which the
      directory says Failed and Kubernetes has not been told. */
  lemma TornExitCodeIsLost(spec: PodSpec, s: State, k: nat, code: int) returns (steps: seq<Step>, t: State)
    requires ValidSpec(spec) && Inv(spec, s) && SysError !in s.files.created
    requires Enabled(spec, s, MainExitFill(k, code)) && code != 0
    requires PhaseOf(spec, s.files) != Failed
    ensures Runs(spec, s, steps, t) && Quiescent(t) && PhaseOf(spec, t.files) == Failed
    ensures !Converged(spec, t) && t.files == Fill(s.files, spec.mains[k], code)
  {
    OpenExitFile(spec, s, k, code);
    FailedCode(spec, s.files, spec.mains[k], code);
    steps, t := DrainThenFill(spec, s, k, code);
  }

  lemma DrainThenFill(spec: PodSpec, s: State, k: nat, code: int) returns (steps: seq<Step>, t: State)
    requires ValidSpec(spec) && Inv(spec, s) && Enabled(spec, s, MainExitFill(k, code))
    requires ExitCode(spec.mains[k]) in s.files.created && spec.mains[k] !in s.files.codes
    requires SysError !in s.files.created && PhaseOf(spec, s.files) != Failed
    ensures Runs(spec, s, steps, t) && Quiescent(t) && NoneFailed(t)
    ensures t.files == Fill(s.files, spec.mains[k], code)
  {
    var a, quiet := Drain(spec, s);
    NotFailedYet(spec, quiet);
    var b;
    b, t := LateFillIsIgnored(spec, quiet, k, code);
    RunAppend(spec, s, a, quiet, b, t);
    steps := a + b;
  }

  lemma FailedCode(spec: PodSpec, files: Files, c: string, code: int)
    requires InitsZero(spec, files, |spec.inits|) && c in spec.mains && c !in spec.inits && code != 0
    ensures PhaseOf(spec, Fill(files, c, code)) == Failed
  {
    var after := Fill(files, c, code);
    assert c in after.codes && after.codes[c] != 0;
    InitScanDone(spec.inits, after);
  }

  ghost predicate NoneFailed(s: State) {
    forall i :: 0 <= i < |s.sent| ==> s.sent[i].status.phase != Failed
  }

  lemma NotFailedYet(spec: PodSpec, s: State)
    requires Inv(spec, s) && SysError !in s.files.created && PhaseOf(spec, s.files) != Failed
    ensures NoneFailed(s)
  {
    forall i | 0 <= i < |s.sent| ensures s.sent[i].status.phase != Failed {
      assert Genuine(spec, s.sent[i], s.files);
      PhaseOfMonotone(spec, s.sent[i].view, s.files);
    }
  }

  // ---- A load that fails ----

  /** An exit code whose event is dropped because the stored pod cannot be loaded, say because it is
      just being written, is lost as well. */
  lemma DroppedEventIsLost(spec: PodSpec, s: State, k: nat, code: int) returns (steps: seq<Step>, t: State)
    requires ValidSpec(spec) && Inv(spec, s) && Quiescent(s) && SysError !in s.files.created
    requires Enabled(spec, s, MainExitCreate(k)) && ExitCode(spec.mains[k]) !in s.files.created
    requires 0 < code <= 255 && PhaseOf(spec, s.files) != Failed
    ensures Runs(spec, s, steps, t) && Quiescent(t) && PhaseOf(spec, t.files) == Failed
    ensures !Converged(spec, t) && t.history.late == s.history.late + Empties(t.files)
    ensures t.files == Fill(Touch(s.files, ExitCode(spec.mains[k])), spec.mains[k], code)
  {
    NotFailedYet(spec, s);
    NewExitFile(spec, s, k);
    var c := spec.mains[k];
    FailedCode(spec, Touch(s.files, ExitCode(c)), c, code);
    var s1 := ExitWritten(spec, s, k, code);
    ListingTouch(s.files, ExitCode(c), s1.files);
    hide PhaseOf, Inv, Apply, Enabled, Runs, Listing;
    var a, s2 := PollOne(spec, s1, s.files, Created(ExitCode(c)));
    t := LoseEvent(spec, s2, ExitCode(c));
    RunAppend(spec, s1, a, s2, [LoadFails], t);
    RunAppend(spec, s, [MainExitCreate(k), MainExitFill(k, code)], s1, a + [LoadFails], t);
    steps := [MainExitCreate(k), MainExitFill(k, code)] + (a + [LoadFails]);
  }

  /** A main container creates and fills its exit-code file. */
  lemma ExitWritten(spec: PodSpec, s: State, k: nat, code: int) returns (t: State)
    requires Enabled(spec, s, MainExitCreate(k)) && -1 <= code <= 255
    ensures Runs(spec, s, [MainExitCreate(k), MainExitFill(k, code)], t)
    ensures t == s.(files := Fill(Touch(s.files, ExitCode(spec.mains[k])), spec.mains[k], code),
                    pause := t.pause, history := Filled(s.history, spec.mains[k]))
  {
    var s1 := Apply(spec, s, MainExitCreate(k));
    t := Apply(spec, s1, MainExitFill(k, code));
    TwoSteps(spec, s, MainExitCreate(k), s1, MainExitFill(k, code), t);
  }

  lemma TwoSteps(spec: PodSpec, s: State, a: Step, s1: State, b: Step, t: State)
    requires Enabled(spec, s, a) && s1 == Apply(spec, s, a)
    requires Enabled(spec, s1, b) && t == Apply(spec, s1, b)
    ensures Runs(spec, s, [a, b], t)
  {
    hide Enabled, Apply;
    assert Runs(spec, t, [], t);
    RunCons(spec, s1, b, [], t);
    RunCons(spec, s, a, [b] + [], t);
    assert [a] + ([b] + []) == [a, b];
  }

  lemma LoseEvent(spec: PodSpec, s: State, f: ControlFile) returns (t: State)
    requires s.queue == [Created(f)] && s.worker == Idle && f != SysError
    ensures Runs(spec, s, [LoadFails], t)
    ensures t == s.(queue := [], history := s.history.(dropped := s.history.dropped + {f}))
  {
    t := Apply(spec, s, LoadFails);
    assert Runs(spec, t, [], t);
    RunCons(spec, s, LoadFails, [], t);
    assert [LoadFails] + [] == [LoadFails];
  }

  lemma NewExitFile(spec: PodSpec, s: State, k: nat)
    requires ValidSpec(spec) && Inv(spec, s) && Enabled(spec, s, MainExitCreate(k))
    ensures spec.mains[k] !in s.files.codes && spec.mains[k] !in spec.inits
    ensures InitsZero(spec, s.files, |spec.inits|)
  {
    MainsDistinct(spec);
  }

  // ---- A system error that is overwritten ----

  /** A poll that finds at least two new files may report them in any order, these two first. */
  lemma TwoFirst(evs: set<Event>, a: Event, b: Event) returns (list: seq<Event>)
    requires a in evs && b in evs && a != b
    ensures |list| >= 2 && list[0] == a && list[1] == b && Distinct(list) && Elements(list) == evs
  {
    var rest := Enumerate(evs - {a, b});
    list := [a, b] + rest;
    assert a !in Elements(rest) && b !in Elements(rest);
    assert Elements(list) == {a, b} + Elements(rest);
  }

  lemma ErrorKeepsPhase(spec: PodSpec, files: Files)
    ensures PhaseOf(spec, Touch(files, SysError)) == PhaseOf(spec, files)
  {
    SameScan(spec.inits, files, Touch(files, SysError));
    assert forall c :: MainStarted(c, Touch(files, SysError)) == MainStarted(c, files);
  }

  lemma {:induction false} SameScan(inits: seq<string>, a: Files, b: Files)
    requires a.codes == b.codes
    ensures InitScan(inits, a) == InitScan(inits, b)
  {
    if inits != [] {
      SameScan(inits[1..], a, b);
    }
  }

  /** `hpk-pause` has ended and some file of it has not been noticed yet when `.syserror` appears.
      Then the next poll can bring both, and Kubernetes hears Failed and after that, from the pod
      still stored, the phase of the directory. */
  lemma SysErrorIsOverwritten(spec: PodSpec, s: State, f: ControlFile) returns (steps: seq<Step>, t: State)
    requires ValidSpec(spec) && Inv(spec, s) && s.pause == Stopped && SysError !in s.files.created
    requires s.outbox == [] && s.queue == [] && s.worker == Idle
    requires f in s.files.created && f !in s.seen
    requires !Terminal(s.disk.status.phase) && PhaseOf(spec, s.files) != Failed
    ensures Runs(spec, s, [SysErrorAppears] + steps, t) && AllWatching(steps)
    ensures |t.sent| == |s.sent| + 2 && t.sent[|s.sent|].status.phase == Failed
    ensures t.sent[|s.sent| + 1].status.phase == PhaseOf(spec, t.files) != Failed
  {
    var s1 := ErrorAppears(spec, s);
    ErrorKeepsPhase(spec, s.files);
    steps, t := ErrorThenOther(spec, s1, f);
    RunAppend(spec, s, [SysErrorAppears], s1, steps, t);
  }

  lemma ErrorThenOther(spec: PodSpec, s: State, f: ControlFile) returns (steps: seq<Step>, t: State)
    requires ValidSpec(spec) && Inv(spec, s)
    requires s.outbox == [] && s.queue == [] && s.worker == Idle && !Terminal(s.disk.status.phase)
    requires f in s.files.created && f !in s.seen && SysError in s.files.created && SysError !in s.seen && f != SysError
    ensures Runs(spec, s, steps, t) && AllWatching(steps) && t.files == s.files
    ensures |t.sent| == |s.sent| + 2 && t.sent[|s.sent|].status.phase == Failed
    ensures t.sent[|s.sent| + 1].status.phase == PhaseOf(spec, s.files)
  {
    AnswerPhases(spec, s, f);
    steps, t := PollAndHandle(spec, s, f);
  }

  lemma PollAndHandle(spec: PodSpec, s: State, f: ControlFile) returns (steps: seq<Step>, t: State)
    requires Inv(spec, s) && s.outbox == [] && s.queue == [] && s.worker == Idle
    requires f in s.files.created && f !in s.seen && SysError in s.files.created && SysError !in s.seen && f != SysError
    ensures Runs(spec, s, steps, t) && AllWatching(steps) && t.files == s.files
    ensures t.sent == s.sent + [Answer(spec, SysError, s.disk, s.files, 1), Answer(spec, f, s.disk, s.files, 1)]
  {
    hide Answer, Apply, Enabled, Empties, Listing, Inv, Runs;
    var evs, s1 := PollBoth(spec, s, f);
    var rest;
    rest, t := HandleBoth(spec, s1, f);
    RunAppend(spec, s, [Poll(evs)], s1, rest, t);
    steps := [Poll(evs)] + rest;
  }

  lemma HandleBoth(spec: PodSpec, s: State, f: ControlFile) returns (steps: seq<Step>, t: State)
    requires |s.outbox| >= 2 && s.outbox[0] == Created(SysError) && s.outbox[1] == Created(f)
    requires s.queue == [] && s.worker == Idle
    ensures Runs(spec, s, steps, t) && AllWatching(steps) && t.files == s.files
    ensures t.sent == s.sent + [Answer(spec, SysError, s.disk, s.files, 1), Answer(spec, f, s.disk, s.files, 1)]
  {
    hide Answer, Apply, Enabled, Runs;
    var a, s1 := HandleNext(spec, s, SysError);
    var b;
    b, t := HandleNext(spec, s1, f);
    RunAppend(spec, s, a, s1, b, t);
    steps := a + b;
  }

  lemma ErrorAppears(spec: PodSpec, s: State) returns (t: State)
    requires ValidSpec(spec) && Inv(spec, s)
    ensures Runs(spec, s, [SysErrorAppears], t) && Inv(spec, t) && t == s.(files := Touch(s.files, SysError))
  {
    hide Inv;
    t := Apply(spec, s, SysErrorAppears);
    InvPreserved(spec, s, SysErrorAppears);
    assert Runs(spec, t, [], t);
    RunCons(spec, s, SysErrorAppears, [], t);
    assert [SysErrorAppears] + [] == [SysErrorAppears];
  }

  /** A poll that finds the error and another new file, and happens to report them in this order. */
  lemma PollBoth(spec: PodSpec, s: State, f: ControlFile) returns (evs: seq<Event>, t: State)
    requires Inv(spec, s) && s.outbox == []
    requires f in s.files.created && f !in s.seen && SysError in s.files.created && SysError !in s.seen && f != SysError
    ensures Runs(spec, s, [Poll(evs)], t)
    ensures |evs| >= 2 && evs[0] == Created(SysError) && evs[1] == Created(f)
    ensures t == s.(seen := Listing(s.files), outbox := evs,
                    history := s.history.(late := s.history.late + Empties(s.files)))
  {
    SeenExists(spec, s);
    PollReports(s.seen, s.files);
    hide Inv, Listing, Empties, Poller.Changes, Enabled, Apply;
    evs := TwoFirst(Unreported(s), Created(SysError), Created(f));
    CanPoll(spec, s, evs);
    t := Apply(spec, s, Poll(evs));
    assert Runs(spec, t, [], t);
    RunCons(spec, s, Poll(evs), [], t);
    assert [Poll(evs)] + [] == [Poll(evs)];
  }

  lemma SeenExists(spec: PodSpec, s: State)
    requires Inv(spec, s)
    ensures s.seen.Keys <= s.files.created
  {
  }

  lemma AnswerPhases(spec: PodSpec, s: State, f: ControlFile)
    requires ValidSpec(spec) && Inv(spec, s) && !Terminal(s.disk.status.phase)
    requires f != SysError && SysError in s.files.created
    ensures Answer(spec, SysError, s.disk, s.files, 1).status.phase == Failed
    ensures Answer(spec, f, s.disk, s.files, 1).status.phase == PhaseOf(spec, s.files)
  {
    WithinReflexive(s.files);
    AnswerIsGenuine(spec, f, s.disk, s.files, s.files, 1);
  }

  // ---- All of this happens to every pod ----

  /** A pod as it is created: pending, nothing known about its containers. */
  lemma SomeInitial(spec: PodSpec) returns (s: State)
    ensures Initial(spec, s)
  {
    var blank := ContainerState(false, false, None);
    var status := Status(Pending, "", [],
                         seq(|spec.inits|, i requires 0 <= i < |spec.inits| => ContainerStatus(spec.inits[i], blank)),
                         seq(|spec.mains|, i requires 0 <= i < |spec.mains| => ContainerStatus(spec.mains[i], blank)));
    var pod := Snapshot(status, NoFiles, ByCreate);
    s := State(Preparing, NoFiles, History({}, {}, NoFiles, {}, {}), map[], [], [], Idle, pod, Some(pod), []);
    assert |status.reason| == 0 && |"PodFailure"| == 10;
  }

  /** `hpk-pause` alone has run; nobody has looked at the directory yet. */
  ghost predicate Untouched(spec: PodSpec, s: State) {
    && Inv(spec, s) && SysError !in s.files.created && NoMainFiles(spec, s.files)
    && s.disk.status.phase == Pending && s.submitted.Some?
    && s.history.late == {} && s.history.dropped == {}
  }

  /** All init containers from number `i` on run and succeed. */
  lemma {:induction false} RunInits(spec: PodSpec, s: State, i: nat) returns (steps: seq<Step>, t: State)
    requires ValidSpec(spec) && Untouched(spec, s) && i <= |spec.inits| && s.pause == AfterInit(spec, i)
    ensures Runs(spec, s, steps, t) && Untouched(spec, t) && t.pause == AfterInit(spec, |spec.inits|)
    decreases |spec.inits| - i
  {
    if i == |spec.inits| {
      steps, t := [], s;
    } else {
      var s3 := RunInit(spec, s, i);
      var rest;
      rest, t := RunInits(spec, s3, i + 1);
      var all := [InitStart, InitExitCreate, InitExitFill];
      RunAppend(spec, s, all, s3, rest, t);
      steps := all + rest;
    }
  }

  lemma RunInit(spec: PodSpec, s: State, i: nat) returns (t: State)
    requires ValidSpec(spec) && Untouched(spec, s) && i < |spec.inits| && s.pause == AfterInit(spec, i)
    ensures Runs(spec, s, [InitStart, InitExitCreate, InitExitFill], t)
    ensures Untouched(spec, t) && t.pause == AfterInit(spec, i + 1)
  {
    hide Inv, PhaseOf;
    MainsDistinct(spec);
    var s1 := Apply(spec, s, InitStart);
    var s2 := Apply(spec, s1, InitExitCreate);
    t := Apply(spec, s2, InitExitFill);
    ThreeSteps(spec, s, InitStart, s1, InitExitCreate, s2, InitExitFill, t);
    InvRun(spec, s, [InitStart, InitExitCreate, InitExitFill], t);
  }

  lemma ThreeSteps(spec: PodSpec, s: State, a: Step, s1: State, b: Step, s2: State, c: Step, t: State)
    requires Enabled(spec, s, a) && s1 == Apply(spec, s, a)
    requires Enabled(spec, s1, b) && s2 == Apply(spec, s1, b)
    requires Enabled(spec, s2, c) && t == Apply(spec, s2, c)
    ensures Runs(spec, s, [a, b, c], t)
  {
    hide Enabled, Apply;
    assert Runs(spec, t, [], t);
    RunCons(spec, s2, c, [], t);
    RunCons(spec, s1, b, [c] + [], t);
    RunCons(spec, s, a, [b] + ([c] + []), t);
    assert [a] + ([b] + ([c] + [])) == [a, b, c];
  }

  lemma ReachableStep(spec: PodSpec, s: State, step: Step)
    requires Reachable(spec, s) && Enabled(spec, s, step)
    ensures Reachable(spec, Apply(spec, s, step))
  {
    hide Reachable;
    var t := Apply(spec, s, step);
    assert Runs(spec, t, [], t);
    RunCons(spec, s, step, [], t);
    ReachableExtend(spec, s, [step] + [], t);
  }

  /** Every pod can get through its init containers. */
  lemma InitsDone(spec: PodSpec) returns (t: State)
    requires ValidSpec(spec)
    ensures Reachable(spec, t) && Untouched(spec, t) && t.pause == AfterInit(spec, |spec.inits|)
  {
    var s0 := SomeInitial(spec);
    assert Runs(spec, s0, [], s0);
    InvInitial(spec, s0);
    hide Inv, PhaseOf, Fits;
    var s1 := Apply(spec, s0, AnnounceIP);
    assert Reachable(spec, s0);
    ReachableStep(spec, s0, AnnounceIP);
    InvPreserved(spec, s0, AnnounceIP);
    var steps;
    steps, t := RunInits(spec, s1, 0);
    ReachableExtend(spec, s1, steps, t);
  }

  /** Main containers run, none has exited, and the stored pod is still pending. */
  ghost predicate MainUnderWay(spec: PodSpec, s: State) {
    && Reachable(spec, s) && Inv(spec, s) && SysError !in s.files.created && s.files.created != {}
    && s.pause.InMain? && Exited !in s.pause.stages && s.disk.status.phase == Pending
    && s.submitted.Some? && s.history.late == {} && s.history.dropped == {}
  }

  /** Every pod can get to the point where its first main container has started. */
  lemma FirstMainStarts(spec: PodSpec) returns (t: State)
    requires ValidSpec(spec) && spec.mains != []
    ensures MainUnderWay(spec, t)
    ensures Enabled(spec, t, MainExitCreate(0)) && ExitCode(spec.mains[0]) !in t.files.created
  {
    var s := InitsDone(spec);
    hide Reachable, Inv, PhaseOf, Fits, Within;
    MainStartEffect(spec, s);
    hide Apply;
    t := Apply(spec, s, MainStart(0));
    ReachableStep(spec, s, MainStart(0));
    InvPreserved(spec, s, MainStart(0));
  }

  lemma MainStartEffect(spec: PodSpec, s: State)
    requires s.pause == AfterInit(spec, |spec.inits|) && spec.mains != []
    ensures Enabled(spec, s, MainStart(0))
    ensures var t := Apply(spec, s, MainStart(0));
            && t == s.(files := Touch(s.files, JobId(spec.mains[0])), pause := t.pause)
            && Enabled(spec, t, MainExitCreate(0)) && t.pause.InMain? && Exited !in t.pause.stages
  {
  }

  lemma NoCodesNotFailed(spec: PodSpec, s: State)
    requires Inv(spec, s) && s.pause.InMain? && Exited !in s.pause.stages
    ensures PhaseOf(spec, s.files) != Failed
  {
    InitScanDone(spec.inits, s.files);
    forall c | c in spec.mains ensures c !in s.files.codes {
      var k :| 0 <= k < |spec.mains| && spec.mains[k] == c;
      assert s.pause.stages[k] in s.pause.stages;
    }
  }

  /** For every pod with a main container there is a run, without `.syserror`, that ends quiet while
      the last status sent is not the phase of the directory. */
  lemma EveryPodCanBeMisreported(spec: PodSpec) returns (t: State)
    requires ValidSpec(spec) && spec.mains != []
    ensures Reachable(spec, t) && Quiescent(t) && !Converged(spec, t)
    ensures SysError !in t.files.created && t.files.created != {}
  {
    var s := FirstMainStarts(spec);
    s := FirstExitOpens(spec, s);
    NoCodesNotFailed(spec, s);
    hide PhaseOf, Reachable;
    var steps;
    steps, t := TornExitCodeIsLost(spec, s, 0, 1);
    ReachableExtend(spec, s, steps, t);
  }

  lemma FirstExitOpens(spec: PodSpec, s: State) returns (t: State)
    requires ValidSpec(spec) && MainUnderWay(spec, s) && Enabled(spec, s, MainExitCreate(0))
    ensures MainUnderWay(spec, t) && Enabled(spec, t, MainExitFill(0, 1))
  {
    hide Inv, Reachable;
    t := Apply(spec, s, MainExitCreate(0));
    ReachableStep(spec, s, MainExitCreate(0));
    InvPreserved(spec, s, MainExitCreate(0));
  }

  /** The same for an event dropped because the stored pod could not be loaded. */
  lemma EveryPodCanLoseAnEvent(spec: PodSpec) returns (t: State)
    requires ValidSpec(spec) && spec.mains != []
    ensures Reachable(spec, t) && Quiescent(t) && !Converged(spec, t) && NoLateCode(t)
    ensures SysError !in t.files.created && t.files.created != {}
  {
    hide *;
    var s := FirstMainStarts(spec);
    var quiet := QuietMain(spec, s);
    MainFacts(spec, s);
    SameEnabled(spec, s, quiet);
    t := LoseOne(spec, quiet);
  }

  lemma MainFacts(spec: PodSpec, s: State)
    requires MainUnderWay(spec, s)
    ensures SysError !in s.files.created && PhaseOf(spec, s.files) != Failed
  {
    NoCodesNotFailed(spec, s);
  }

  lemma SameEnabled(spec: PodSpec, s: State, t: State)
    requires Enabled(spec, s, MainExitCreate(0)) && t.pause == s.pause
    ensures Enabled(spec, t, MainExitCreate(0))
  {
  }

  lemma QuietMain(spec: PodSpec, s: State) returns (t: State)
    requires ValidSpec(spec) && MainUnderWay(spec, s)
    ensures Reachable(spec, t) && Inv(spec, t) && Quiescent(t) && NoLateCode(t)
    ensures t.files == s.files && t.pause == s.pause
  {
    hide PhaseOf, Reachable, Apply, Inv, Quiescent, Runs;
    var a;
    a, t := Drain(spec, s);
    ReachableExtend(spec, s, a, t);
    LateStable(spec, s, a, t);
  }

  lemma LoseOne(spec: PodSpec, s: State) returns (t: State)
    requires ValidSpec(spec) && Reachable(spec, s) && Inv(spec, s) && Quiescent(s)
    requires Enabled(spec, s, MainExitCreate(0)) && ExitCode(spec.mains[0]) !in s.files.created
    ensures SysError !in s.files.created && PhaseOf(spec, s.files) != Failed && NoLateCode(s) ==>
      && Reachable(spec, t) && Quiescent(t) && !Converged(spec, t) && NoLateCode(t)
      && SysError !in t.files.created && t.files.created != {}
  {
    hide PhaseOf, Reachable, Apply, Inv, Quiescent, Converged, Runs, NoLateCode, Empties;
    t := s;
    if SysError !in s.files.created && PhaseOf(spec, s.files) != Failed && NoLateCode(s) {
      var steps;
      steps, t := DroppedEventIsLost(spec, s, 0, 1);
      ReachableExtend(spec, s, steps, t);
      StillNotLate(spec, s, t, spec.mains[0]);
    }
  }

  lemma StillNotLate(spec: PodSpec, s: State, t: State, c: string)
    requires Inv(spec, s) && NoLateCode(s) && ExitCode(c) !in s.files.created
    requires t.history.late == s.history.late + Empties(t.files)
    requires t.files.codes == s.files.codes[c := 1]
    ensures NoLateCode(t)
  {
    LateFilesExist(spec, s);
  }

  lemma LateFilesExist(spec: PodSpec, s: State)
    requires Inv(spec, s)
    ensures forall c :: c in s.history.late ==> ExitCode(c) in s.files.created
  {
  }

  /** For every pod with a main container there is a run in which the worker reports that it has failed
      and the goroutine that created it then reports, for good, that it is pending. Nothing was lost. */
  lemma EveryPodCanBeAnnouncedLate(spec: PodSpec) returns (t: State)
    requires ValidSpec(spec) && spec.mains != []
    ensures Reachable(spec, t) && Quiescent(t) && NothingLost(t) && !Converged(spec, t)
    ensures SysError !in t.files.created && |t.sent| >= 2
    ensures t.sent[|t.sent| - 2].status.phase == PhaseOf(spec, t.files) == Failed
    ensures t.sent[|t.sent| - 1].status.phase == Pending
  {
    var s := FirstMainStarts(spec);
    NewExitFile(spec, s, 0);
    var s2 := FirstMainFails(spec, s);
    t := AnnounceLate(spec, s2);
  }

  lemma AnnounceLate(spec: PodSpec, s: State) returns (t: State)
    requires ValidSpec(spec) && Reachable(spec, s) && Inv(spec, s) && NothingLost(s) && s.submitted.Some?
    requires PhaseOf(spec, s.files) == Failed && SysError !in s.files.created && s.files.created != {}
    ensures Reachable(spec, t) && Quiescent(t) && NothingLost(t) && !Converged(spec, t) && t.files == s.files
    ensures |t.sent| >= 2
    ensures t.sent[|t.sent| - 2].status.phase == Failed
    ensures t.sent[|t.sent| - 1].status.phase == Pending
  {
    hide Reachable, PhaseOf, Inv, Apply, Enabled, Runs, Listing;
    var a, quiet := Drain(spec, s);
    LateStable(spec, s, a, quiet);
    ReachableExtend(spec, s, a, quiet);
    WorkerSpoke(spec, quiet);
    Convergence(spec, quiet);
    AnnounceEffect(spec, quiet);
    t := Apply(spec, quiet, Announce);
    ReachableStep(spec, quiet, Announce);
  }

  lemma AnnounceEffect(spec: PodSpec, s: State)
    requires s.submitted.Some?
    ensures Enabled(spec, s, Announce)
    ensures Apply(spec, s, Announce) == s.(sent := s.sent + [s.submitted.value], submitted := None)
  {
  }

  lemma FirstMainFails(spec: PodSpec, s: State) returns (t: State)
    requires ValidSpec(spec) && MainUnderWay(spec, s) && Enabled(spec, s, MainExitCreate(0))
    requires InitsZero(spec, s.files, |spec.inits|) && spec.mains[0] !in spec.inits
    ensures Reachable(spec, t) && Inv(spec, t) && NothingLost(t) && t.submitted.Some?
    ensures PhaseOf(spec, t.files) == Failed && SysError !in t.files.created && t.files.created != {}
  {
    var c := spec.mains[0];
    FailedCode(spec, Touch(s.files, ExitCode(c)), c, 1);
    t := ExitWritten(spec, s, 0, 1);
    hide Reachable, Inv, PhaseOf, Enabled, Apply, Runs;
    ReachableExtend(spec, s, [MainExitCreate(0), MainExitFill(0, 1)], t);
    ReachableInv(spec, t);
  }

  /** As long as the goroutine that created the pod is silent, the worker has spoken last; and what
      that goroutine has to say is that the pod is pending. */
  lemma WorkerSpoke(spec: PodSpec, s: State)
    requires Inv(spec, s) && s.submitted.Some?
    ensures !CreateLast(s) && s.submitted.value.status.phase == Pending
  {
  }

  /** A run from the creation of the pod: first `hpk-pause` and the job script, then nobody writes. */
  ghost predicate FromStart(spec: PodSpec, s: State, written: seq<Step>, steps: seq<Step>, t: State) {
    Initial(spec, s) && Runs(spec, s, written + steps, t) && AllWatching(steps)
  }

  lemma FromStartAppend(spec: PodSpec, s: State, written: seq<Step>, s1: State, steps: seq<Step>, t: State)
    requires Initial(spec, s) && Runs(spec, s, written, s1) && Runs(spec, s1, steps, t) && AllWatching(steps)
    ensures FromStart(spec, s, written, steps, t)
  {
    hide Initial, Runs, AllWatching;
    RunAppend(spec, s, written, s1, steps, t);
  }

  // `hpk-pause` never starts

  /** For every pod there is a run in which `hpk-pause` cannot be started, the worker reports the system
      error, and the goroutine that created the pod then reports, for good, that it is pending. */
  lemma EveryPodCanComeBack(spec: PodSpec) returns (s: State, steps: seq<Step>, t: State)
    requires ValidSpec(spec)
    ensures FromStart(spec, s, [Stop, SysErrorAppears], steps, t) && Quiescent(t)
    ensures |t.sent| == 2 && t.sent[0].status.phase == Failed && t.sent[1].status.phase == Pending
  {
    s := SomeInitial(spec);
    hide *;
    var s1 := NeverStarts(spec, s);
    steps, t := ErrorThenCreator(spec, s1);
    FromStartAppend(spec, s, [Stop, SysErrorAppears], s1, steps, t);
  }

  /** All that is there is the error, and nobody has noticed it. */
  ghost predicate ErrorAlone(s: State) {
    && s.files == Touch(NoFiles, SysError) && s.seen == map[]
    && s.outbox == [] && s.queue == [] && s.worker == Idle && s.sent == []
    && s.submitted.Some? && s.submitted.value.status.phase == Pending
  }

  lemma NeverStarts(spec: PodSpec, s: State) returns (t: State)
    requires ValidSpec(spec) && Initial(spec, s)
    ensures Runs(spec, s, [Stop, SysErrorAppears], t) && ErrorAlone(t)
  {
    hide Fits;
    var s1 := Apply(spec, s, Stop);
    t := Apply(spec, s1, SysErrorAppears);
    TwoSteps(spec, s, Stop, s1, SysErrorAppears, t);
  }

  lemma ErrorThenCreator(spec: PodSpec, s: State) returns (steps: seq<Step>, t: State)
    requires ErrorAlone(s)
    ensures Runs(spec, s, steps, t) && AllWatching(steps) && Quiescent(t)
    ensures |t.sent| == 2 && t.sent[0].status.phase == Failed && t.sent[1].status.phase == Pending
  {
    var a, s1 := ErrorReported(spec, s);
    AnnounceEffect(spec, s1);
    hide Runs, Apply, Enabled, Listing;
    t := Apply(spec, s1, Announce);
    RunOne(spec, s1, Announce);
    RunAppend(spec, s, a, s1, [Announce], t);
    steps := a + [Announce];
  }

  lemma RunOne(spec: PodSpec, s: State, step: Step)
    requires Enabled(spec, s, step)
    ensures Runs(spec, s, [step], Apply(spec, s, step))
  {
    hide Apply, Enabled;
    var t := Apply(spec, s, step);
    assert Runs(spec, t, [], t);
    RunCons(spec, s, step, [], t);
    assert [step] + [] == [step];
  }

  lemma ErrorReported(spec: PodSpec, s: State) returns (steps: seq<Step>, t: State)
    requires ErrorAlone(s)
    ensures Runs(spec, s, steps, t) && AllWatching(steps) && Quiescent(t) && t.submitted == s.submitted
    ensures |t.sent| == 1 && t.sent[0].status.phase == Failed
  {
    assert Listing(NoFiles) == map[];
    ListingTouch(NoFiles, SysError, s.files);
    hide Runs, Apply, Enabled, Listing, Poller.Changes;
    var a, s1 := PollOne(spec, s, NoFiles, Created(SysError));
    var b;
    b, t := HandleEvent(spec, s1, SysError);
    RunAppend(spec, s, a, s1, b, t);
    steps := a + b;
  }

  // `hpk-pause` has started and ended

  /** For every pod there is a run in which `hpk-pause` announces its address and ends, the worker
      reports the system error and then, for the address, that the pod is alive. */
  lemma EveryPodCanBeRevived(spec: PodSpec) returns (s: State, steps: seq<Step>, t: State)
    requires ValidSpec(spec)
    ensures FromStart(spec, s, [AnnounceIP, Stop, SysErrorAppears], steps, t)
    ensures |t.sent| == 2 && t.sent[0].status.phase == Failed && t.sent[1].status.phase != Failed
  {
    s := SomeInitial(spec);
    hide *;
    var s1 := EndsEarly(spec, s);
    steps, t := Revive(spec, s1);
    FromStartAppend(spec, s, [AnnounceIP, Stop, SysErrorAppears], s1, steps, t);
  }

  /** The address and the error are there, and nobody has noticed them. */
  ghost predicate AddressAndError(spec: PodSpec, s: State) {
    && Inv(spec, s) && s.files == Touch(Touch(NoFiles, Ip), SysError) && s.seen == map[]
    && s.outbox == [] && s.queue == [] && s.worker == Idle && s.sent == []
    && s.disk.status.phase == Pending
  }

  lemma Revive(spec: PodSpec, s: State) returns (steps: seq<Step>, t: State)
    requires ValidSpec(spec) && AddressAndError(spec, s)
    ensures Runs(spec, s, steps, t) && AllWatching(steps)
    ensures |t.sent| == 2 && t.sent[0].status.phase == Failed && t.sent[1].status.phase != Failed
  {
    hide *;
    AddressFacts(spec, s);
    steps, t := ErrorThenOther(spec, s, Ip);
  }

  lemma AddressFacts(spec: PodSpec, s: State)
    requires AddressAndError(spec, s)
    ensures Inv(spec, s) && s.outbox == [] && s.queue == [] && s.worker == Idle && s.sent == []
    ensures !Terminal(s.disk.status.phase) && PhaseOf(spec, s.files) != Failed
    ensures Ip in s.files.created && Ip !in s.seen && SysError in s.files.created && SysError !in s.seen
  {
    NoCodesAlive(spec, s.files);
    hide Inv, PhaseOf;
  }

  lemma NoCodesAlive(spec: PodSpec, files: Files)
    requires files.codes == map[]
    ensures PhaseOf(spec, files) != Failed
  {
    InitCodesZero(spec.inits, files);
  }

  /** `hpk-pause` announces its address and ends, and then the error appears. */
  lemma EndsEarly(spec: PodSpec, s: State) returns (t: State)
    requires ValidSpec(spec) && Initial(spec, s)
    ensures Runs(spec, s, [AnnounceIP, Stop, SysErrorAppears], t) && AddressAndError(spec, t)
  {
    InvInitial(spec, s);
    hide Inv, Fits;
    var s1 := Apply(spec, s, AnnounceIP);
    var s2 := Apply(spec, s1, Stop);
    t := Apply(spec, s2, SysErrorAppears);
    ThreeSteps(spec, s, AnnounceIP, s1, Stop, s2, SysErrorAppears, t);
    InvRun(spec, s, [AnnounceIP, Stop, SysErrorAppears], t);
  }
}
