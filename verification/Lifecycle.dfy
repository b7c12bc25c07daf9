/** The control-file protocol end to end: `hpk-pause` writes control files (cmd/pause/main.go), the
    poller notices them (`Poller`), a bounded queue carries the events, and one worker reloads the
    stored pod, reconciles it and sends the status to Kubernetes (compute/events/listener.go).
    The goroutine that created the pod sends its first status at some time of its own
    (provider/provider.go:203-209). All of them interleave freely.

    A reconciliation is not atomic: it reads files one by one while `hpk-pause` keeps writing. What
    it sees is a `view` that contains every file present when it started and nothing that is not
    there when it ends. Writing an exit code takes two steps, creating the file and filling it. */
module Lifecycle {
  import opened Prelude
  import opened ControlFiles
  import opened PodStatus
  import opened StatusRefinement
  import Poller

  type Event = Poller.Event<ControlFile>

  const MAX_QUEUE := 20

  datatype Stage = NotStarted | Started | ExitOpen | Exited

  /** `hpk-pause`: init containers one by one, then all main containers at once. */
  datatype Pause = Preparing | InInit(index: nat, stage: Stage) | InMain(stages: seq<Stage>) | Stopped

  /** Where a status comes from: the goroutine that created the pod, or the worker, which handled
      the creation of `file` with the stored status `loaded`. */
  datatype Origin = ByCreate | ByWorker(file: ControlFile, loaded: Status)

  /** A status together with the directory contents it was computed from. */
  datatype Snapshot = Snapshot(status: Status, view: Files, origin: Origin)

  /** `since` is the directory at the moment the event was taken. */
  datatype Worker = Idle | Busy(file: ControlFile, pod: Snapshot, since: Files)

  /** What happened when, as far as the theorems need it: the exit-code files that some poll saw
      still empty, the files whose event was dropped because the stored pod could not be loaded,
      what the worker's last status was computed from, and the exit codes filled in since the worker
      last took an event to handle, and since it last finished one. */
  datatype History = History(
    late: set<string>, dropped: set<ControlFile>, reported: Files,
    sinceTake: set<string>, sinceFinish: set<string>)

  /** `submitted` is the status of the pod as it was created, until it is sent. */
  datatype State = State(
    pause: Pause, files: Files, history: History,
    seen: map<ControlFile, Poller.FileInfo>, outbox: seq<Event>, queue: seq<Event>,
    worker: Worker, disk: Snapshot, submitted: Option<Snapshot>, sent: seq<Snapshot>)

  datatype Step =
    | AnnounceIP
    | InitStart
    | InitExitCreate
    | InitExitFill
    | InitFail
    | MainStart(k: nat)
    | MainExitCreate(k: nat)
    | MainExitFill(k: nat, code: int)
    | Stop
    | SysErrorAppears
    | Poll(evs: seq<Event>)
    | Enqueue
    | Take
    | LoadFails
    | Finish(view: Files, now: nat)
    | Announce
    | Persist(i: nat)

  function Touch(files: Files, f: ControlFile): Files {
    files.(created := files.created + {f})
  }

  function Fill(files: Files, c: string, code: int): Files {
    files.(codes := files.codes[c := code])
  }

  /** How the control directory looks to os.Stat. */
  function Info(files: Files, f: ControlFile): Poller.FileInfo {
    Poller.FileInfo(false, 0x1A4, 0, if f.ExitCode? && f.container !in files.codes then 0 else 1)
  }

  function Listing(files: Files): map<ControlFile, Poller.FileInfo> {
    map f | f in files.created :: Info(files, f)
  }

  const DIR := Some(Poller.FileInfo(true, 0x1FF, 0, 0))

  function Created(f: ControlFile): Event {
    Poller.Event(Poller.Child(f), Poller.Create)
  }

  function Empties(files: Files): set<string> {
    set f | f in files.created && f.ExitCode? && f.container !in files.codes :: f.container
  }

  ghost predicate Initial(spec: PodSpec, s: State) {
    && s.pause == Preparing && s.files == NoFiles && s.history == History({}, {}, NoFiles, {}, {})
    && s.seen == map[] && s.outbox == [] && s.queue == [] && s.worker == Idle
    && s.disk.view == NoFiles && s.disk.origin == ByCreate
    && s.disk.status.phase == Pending && Fits(spec, s.disk.status, NoFiles)
    && s.disk.status.reason != "PodFailure"
    && s.submitted == Some(s.disk) && s.sent == []
  }

  /** The worker reloads the pod for the creation of a control file and for nothing else. */
  predicate NeedsPod(e: Event) {
    e.op == Poller.Create && e.target.Child?
  }

  function Filled(h: History, c: string): History {
    h.(sinceTake := h.sinceTake + {c}, sinceFinish := h.sinceFinish + {c})
  }

  ghost predicate Enabled(spec: PodSpec, s: State, step: Step) {
    match step
    case AnnounceIP => s.pause == Preparing
    case InitStart => s.pause.InInit? && s.pause.stage == NotStarted && s.pause.index < |spec.inits|
    case InitExitCreate => s.pause.InInit? && s.pause.stage == Started && s.pause.index < |spec.inits|
    case InitExitFill => s.pause.InInit? && s.pause.stage == ExitOpen && s.pause.index < |spec.inits|
    case InitFail => s.pause.InInit? && s.pause.stage == Started
    case MainStart(k) => s.pause.InMain? && k < |s.pause.stages| == |spec.mains| && s.pause.stages[k] == NotStarted
    case MainExitCreate(k) => s.pause.InMain? && k < |s.pause.stages| == |spec.mains| && s.pause.stages[k] == Started
    case MainExitFill(k, code) =>
      s.pause.InMain? && k < |s.pause.stages| == |spec.mains| && s.pause.stages[k] == ExitOpen && -1 <= code <= 255
    case Stop => true
    case SysErrorAppears => true
    case Poll(evs) =>
      && s.outbox == [] && Distinct(evs)
      && Elements(evs) == Poller.Changes(Poller.Snap(DIR, s.seen), Poller.Snap(DIR, Listing(s.files)))
    case Enqueue => s.outbox != [] && |s.queue| < MAX_QUEUE
    case Take => s.worker == Idle && s.queue != []
    case LoadFails => s.worker == Idle && s.queue != [] && NeedsPod(s.queue[0]) && s.queue[0].target.name != SysError
    case Announce => s.submitted.Some?
    case Finish(view, _) => s.worker.Busy? && Within(s.worker.since, view) && Within(view, s.files)
    case Persist(i) => i < |s.sent|
  }

  /** `hpk-pause` after its init containers number `i` and before. */
  function AfterInit(spec: PodSpec, i: nat): Pause {
    if i < |spec.inits| then InInit(i, NotStarted) else InMain(seq(|spec.mains|, _ => NotStarted))
  }

  /** What the worker makes of the loaded pod. */
  function Handled(spec: PodSpec, file: ControlFile, st: Status, view: Files, now: nat): Status {
    if file == SysError then Errored(st, "SYSERROR", now) else Reconcile(spec, st, view, now)
  }

  /** What the worker sends. */
  function Answer(spec: PodSpec, file: ControlFile, pod: Snapshot, view: Files, now: nat): Snapshot {
    Snapshot(Handled(spec, file, pod.status, view, now), view, ByWorker(file, pod.status))
  }

  ghost function Apply(spec: PodSpec, s: State, step: Step): State
    requires Enabled(spec, s, step)
  {
    match step
    case AnnounceIP => s.(files := Touch(s.files, Ip), pause := AfterInit(spec, 0))
    case InitStart => s.(files := Touch(s.files, JobId(spec.inits[s.pause.index])), pause := s.pause.(stage := Started))
    case InitExitCreate => s.(files := Touch(s.files, ExitCode(spec.inits[s.pause.index])),
      pause := s.pause.(stage := ExitOpen))
    case InitExitFill =>
      var c := spec.inits[s.pause.index];
      s.(files := Fill(s.files, c, 0), history := Filled(s.history, c), pause := AfterInit(spec, s.pause.index + 1))
    case InitFail => s.(pause := Stopped)
    case MainStart(k) => s.(files := Touch(s.files, JobId(spec.mains[k])),
      pause := InMain(s.pause.stages[k := Started]))
    case MainExitCreate(k) => s.(files := Touch(s.files, ExitCode(spec.mains[k])),
      pause := InMain(s.pause.stages[k := ExitOpen]))
    case MainExitFill(k, code) =>
      var c := spec.mains[k];
      s.(files := Fill(s.files, c, code), history := Filled(s.history, c), pause := InMain(s.pause.stages[k := Exited]))
    case Stop => s.(pause := Stopped)
    case SysErrorAppears => s.(files := Touch(s.files, SysError))
    case Poll(evs) =>
      s.(seen := Listing(s.files), outbox := evs, history := s.history.(late := s.history.late + Empties(s.files)))
    case Enqueue => s.(outbox := s.outbox[1..], queue := s.queue + [s.outbox[0]])
    case Take =>
      var e := s.queue[0];
      if !NeedsPod(e) then s.(queue := s.queue[1..])
      else
        s.(queue := s.queue[1..], worker := Busy(e.target.name, s.disk, s.files),
           history := s.history.(sinceTake := {}))
    case LoadFails =>
      s.(queue := s.queue[1..], history := s.history.(dropped := s.history.dropped + {s.queue[0].target.name}))
    case Finish(view, now) =>
      s.(worker := Idle, sent := s.sent + [Answer(spec, s.worker.file, s.worker.pod, view, now)],
         history := s.history.(reported := view, sinceFinish := {}))
    case Announce => s.(sent := s.sent + [s.submitted.value], submitted := None)
    case Persist(i) => s.(disk := s.sent[i])
  }

  ghost predicate Runs(spec: PodSpec, s: State, steps: seq<Step>, t: State)
    decreases |steps|
  {
    if steps == [] then t == s
    else Enabled(spec, s, steps[0]) && Runs(spec, Apply(spec, s, steps[0]), steps[1..], t)
  }

  // ---- Invariant 1: the files and hpk-pause ----

  ghost predicate InitsZero(spec: PodSpec, files: Files, n: nat) {
    n <= |spec.inits| && forall j :: 0 <= j < n ==> spec.inits[j] in files.codes && files.codes[spec.inits[j]] == 0
  }

  ghost predicate NoMainFiles(spec: PodSpec, files: Files) {
    forall c :: c in spec.mains ==> JobId(c) !in files.created && ExitCode(c) !in files.created
  }

  /** Only zero exit codes of init containers are ever written, and nothing about a main
      container before all of them are there. */
  ghost predicate FilesInv(spec: PodSpec, files: Files) {
    && (forall c :: c in files.codes ==> ExitCode(c) in files.created && -1 <= files.codes[c] <= 255)
    && (forall c :: c in spec.inits && c in files.codes ==> files.codes[c] == 0)
    && (NoMainFiles(spec, files) || InitsZero(spec, files, |spec.inits|))
  }

  /** The stages of a container as its files show them. */
  ghost predicate StageFiles(stage: Stage, c: string, files: Files) {
    && (stage != NotStarted <==> JobId(c) in files.created)
    && (stage == ExitOpen || stage == Exited <==> ExitCode(c) in files.created)
    && (stage == Exited <==> c in files.codes)
  }

  ghost predicate PauseInv(spec: PodSpec, pause: Pause, files: Files) {
    match pause
    case Preparing => files.created <= {SysError} && files.codes == map[]
    case InInit(i, stage) =>
      && Ip in files.created && i < |spec.inits| && stage != Exited
      && InitsZero(spec, files, i) && NoMainFiles(spec, files)
      && (forall j :: 0 <= j < |spec.inits| ==>
            StageFiles(if j < i then Exited else if j == i then stage else NotStarted, spec.inits[j], files))
    case InMain(stages) =>
      && Ip in files.created && |stages| == |spec.mains| && InitsZero(spec, files, |spec.inits|)
      && (forall j :: 0 <= j < |spec.inits| ==> StageFiles(Exited, spec.inits[j], files))
      && (forall k :: 0 <= k < |stages| ==> StageFiles(stages[k], spec.mains[k], files))
    case Stopped => true
  }

  /** Creating a file other than one of a main container, or one of a main container once the
      init containers are done, keeps the file invariant. */
  lemma TouchKeeps(spec: PodSpec, files: Files, f: ControlFile)
    requires FilesInv(spec, files)
    requires f == Ip || f == SysError || f.container !in spec.mains || InitsZero(spec, files, |spec.inits|)
    ensures FilesInv(spec, Touch(files, f)) && Within(files, Touch(files, f))
  {
  }

  lemma FillKeeps(spec: PodSpec, files: Files, c: string, code: int)
    requires FilesInv(spec, files) && ExitCode(c) in files.created && c !in files.codes && -1 <= code <= 255
    requires c in spec.inits ==> code == 0
    ensures FilesInv(spec, Fill(files, c, code)) && Within(files, Fill(files, c, code))
  {
  }

  lemma InitPreserved(spec: PodSpec, s: State, step: Step)
    requires ValidSpec(spec) && FilesInv(spec, s.files) && PauseInv(spec, s.pause, s.files) && Enabled(spec, s, step)
    requires s.pause.Preparing? || s.pause.InInit?
    ensures var t := Apply(spec, s, step);
            FilesInv(spec, t.files) && PauseInv(spec, t.pause, t.files) && Within(s.files, t.files)
  {
    hide FilesInv, PauseInv, Within, ValidSpec;
    match step
    case AnnounceIP => IPAnnounced(spec, s.pause, s.files);
    case InitStart => InitTouched(spec, s.pause, s.files, Started, JobId(spec.inits[s.pause.index]));
    case InitExitCreate => InitTouched(spec, s.pause, s.files, ExitOpen, ExitCode(spec.inits[s.pause.index]));
    case InitExitFill => InitFilled(spec, s.pause, s.files);
    case SysErrorAppears => ErrorTouched(spec, s.pause, s.files);
    case _ => PauseStopped(spec, s.files);
  }

  lemma PauseStopped(spec: PodSpec, files: Files)
    ensures PauseInv(spec, Stopped, files) && Within(files, files)
  {
  }

  lemma IPAnnounced(spec: PodSpec, pause: Pause, files: Files)
    requires FilesInv(spec, files) && PauseInv(spec, pause, files) && pause == Preparing
    ensures FilesInv(spec, Touch(files, Ip)) && Within(files, Touch(files, Ip))
    ensures PauseInv(spec, AfterInit(spec, 0), Touch(files, Ip))
  {
    TouchKeeps(spec, files, Ip);
    hide FilesInv;
  }

  lemma ErrorTouched(spec: PodSpec, pause: Pause, files: Files)
    requires FilesInv(spec, files) && PauseInv(spec, pause, files)
    ensures FilesInv(spec, Touch(files, SysError)) && Within(files, Touch(files, SysError))
    ensures PauseInv(spec, pause, Touch(files, SysError))
  {
    TouchKeeps(spec, files, SysError);
    hide FilesInv;
  }

  /** The init container in turn starts, or opens its exit-code file. */
  lemma InitTouched(spec: PodSpec, pause: Pause, files: Files, next: Stage, f: ControlFile)
    requires ValidSpec(spec) && FilesInv(spec, files) && PauseInv(spec, pause, files) && pause.InInit?
    requires var c := spec.inits[pause.index];
             || (pause.stage == NotStarted && next == Started && f == JobId(c))
             || (pause.stage == Started && next == ExitOpen && f == ExitCode(c))
    ensures FilesInv(spec, Touch(files, f)) && Within(files, Touch(files, f))
    ensures PauseInv(spec, pause.(stage := next), Touch(files, f))
  {
    MainsDistinct(spec);
    TouchKeeps(spec, files, f);
    hide FilesInv, ValidSpec;
  }

  lemma InitFilled(spec: PodSpec, pause: Pause, files: Files)
    requires ValidSpec(spec) && FilesInv(spec, files) && PauseInv(spec, pause, files)
    requires pause.InInit? && pause.stage == ExitOpen
    ensures var after := Fill(files, spec.inits[pause.index], 0);
            FilesInv(spec, after) && Within(files, after) && PauseInv(spec, AfterInit(spec, pause.index + 1), after)
  {
    MainsDistinct(spec);
    var c := spec.inits[pause.index];
    assert StageFiles(ExitOpen, c, files);
    FillKeeps(spec, files, c, 0);
    hide FilesInv, ValidSpec;
  }

  lemma MainPreserved(spec: PodSpec, s: State, step: Step)
    requires ValidSpec(spec) && FilesInv(spec, s.files) && PauseInv(spec, s.pause, s.files) && Enabled(spec, s, step)
    requires s.pause.InMain? || s.pause.Stopped?
    ensures var t := Apply(spec, s, step);
            FilesInv(spec, t.files) && PauseInv(spec, t.pause, t.files) && Within(s.files, t.files)
  {
    hide FilesInv, PauseInv, Within, ValidSpec;
    match step
    case MainStart(k) => MainTouched(spec, s.pause, s.files, k, Started, JobId(spec.mains[k]));
    case MainExitCreate(k) => MainTouched(spec, s.pause, s.files, k, ExitOpen, ExitCode(spec.mains[k]));
    case MainExitFill(k, code) => MainFilled(spec, s.pause, s.files, k, code);
    case SysErrorAppears => ErrorTouched(spec, s.pause, s.files);
    case _ => PauseStopped(spec, s.files);
  }

  /** A main container starts, or opens its exit-code file. */
  lemma MainTouched(spec: PodSpec, pause: Pause, files: Files, k: nat, next: Stage, f: ControlFile)
    requires ValidSpec(spec) && FilesInv(spec, files) && PauseInv(spec, pause, files)
    requires pause.InMain? && k < |pause.stages| == |spec.mains|
    requires var c := spec.mains[k];
             || (pause.stages[k] == NotStarted && next == Started && f == JobId(c))
             || (pause.stages[k] == Started && next == ExitOpen && f == ExitCode(c))
    ensures FilesInv(spec, Touch(files, f)) && Within(files, Touch(files, f))
    ensures PauseInv(spec, InMain(pause.stages[k := next]), Touch(files, f))
  {
    MainsDistinct(spec);
    TouchKeeps(spec, files, f);
    hide FilesInv, ValidSpec;
  }

  lemma MainFilled(spec: PodSpec, pause: Pause, files: Files, k: nat, code: int)
    requires ValidSpec(spec) && FilesInv(spec, files) && PauseInv(spec, pause, files)
    requires pause.InMain? && k < |pause.stages| == |spec.mains| && pause.stages[k] == ExitOpen && -1 <= code <= 255
    ensures var after := Fill(files, spec.mains[k], code);
            FilesInv(spec, after) && Within(files, after) && PauseInv(spec, InMain(pause.stages[k := Exited]), after)
  {
    MainsDistinct(spec);
    var c := spec.mains[k];
    assert StageFiles(ExitOpen, c, files);
    FillKeeps(spec, files, c, code);
    hide FilesInv, ValidSpec;
  }

  lemma FilesPreserved(spec: PodSpec, s: State, step: Step)
    requires ValidSpec(spec) && FilesInv(spec, s.files) && PauseInv(spec, s.pause, s.files) && Enabled(spec, s, step)
    ensures var t := Apply(spec, s, step);
            FilesInv(spec, t.files) && PauseInv(spec, t.pause, t.files) && Within(s.files, t.files)
  {
    if s.pause.Preparing? || s.pause.InInit? {
      InitPreserved(spec, s, step);
    } else {
      MainPreserved(spec, s, step);
    }
  }

  // ---- Invariant 2: the poller and the events on their way ----

  ghost predicate EventsKnown(evs: seq<Event>, seen: set<ControlFile>) {
    forall e :: e in evs ==> e.target.Child? && e.target.name in seen
  }

  ghost predicate WatchInv(s: State) {
    && s.seen.Keys <= s.files.created
    && EventsKnown(s.outbox, s.seen.Keys) && EventsKnown(s.queue, s.seen.Keys)
    && (forall c :: ExitCode(c) in s.seen && c !in s.files.codes ==> c in s.history.late)
    && (forall c :: c in s.history.late ==> ExitCode(c) in s.files.created)
    && |s.queue| <= MAX_QUEUE
  }

  /** A poll reports one creation for every new name, and nothing about unknown ones. */
  lemma PollReports(seen: map<ControlFile, Poller.FileInfo>, files: Files)
    requires seen.Keys <= files.created
    ensures var evs := Poller.Changes(Poller.Snap(DIR, seen), Poller.Snap(DIR, Listing(files)));
            && (forall e :: e in evs ==> e.target.Child? && e.target.name in files.created)
            && (forall f :: Created(f) in evs <==> f in files.created && f !in seen)
  {
    assert Listing(files).Keys == files.created;
    Poller.GrowingReport(seen, Listing(files));
  }

  lemma WatchPreserved(spec: PodSpec, s: State, step: Step)
    requires WatchInv(s) && Enabled(spec, s, step)
    requires Within(s.files, Apply(spec, s, step).files)
    ensures WatchInv(Apply(spec, s, step))
  {
    var t := Apply(spec, s, step);
    match step
    case Poll(evs) =>
      PollReports(s.seen, s.files);
      assert Listing(s.files).Keys == s.files.created;
      forall e | e in evs ensures e.target.Child? && e.target.name in t.seen.Keys {
        assert e in Elements(evs);
      }
      forall c | ExitCode(c) in t.seen && c !in t.files.codes ensures c in t.history.late {
        assert c in Empties(s.files);
      }
    case Enqueue =>
      assert forall e :: e in t.outbox ==> e in s.outbox;
      assert forall e :: e in t.queue ==> e in s.queue || e == s.outbox[0];
    case Take =>
      assert forall e :: e in t.queue ==> e in s.queue;
    case LoadFails =>
      assert forall e :: e in t.queue ==> e in s.queue;
    case _ =>
  }

  // ---- Invariant 3: every status belongs to this run ----

  /** The phase of an answer: a system error, the one just announced or one already stored, makes it
      Failed; otherwise it is the phase of the directory. */
  function Outcome(spec: PodSpec, file: ControlFile, loaded: Phase, view: Files): Phase {
    if file == SysError || loaded == Failed then Failed else PhaseOf(spec, view)
  }

  /** The container statuses of an answer: those stored, after a system error or in a final phase, and
      otherwise what the files say. */
  ghost predicate ContainersTold(file: ControlFile, loaded: Status, st: Status, view: Files) {
    if file == SysError || Terminal(loaded.phase) then st.inits == loaded.inits && st.mains == loaded.mains
    else Displays(st.inits, view) && Displays(st.mains, view)
  }

  /** The phase of a status is determined by where it comes from. */
  ghost predicate Accountable(spec: PodSpec, p: Snapshot) {
    match p.origin
    case ByCreate => p.status.phase == Pending && p.view == NoFiles
    case ByWorker(file, loaded) =>
      && p.status.phase == Outcome(spec, file, loaded.phase, p.view)
      && (loaded.phase == Succeeded ==> PhaseOf(spec, p.view) == Succeeded)
      && (loaded.phase == Failed ==> PhaseOf(spec, p.view) == Failed || SysError in p.view.created)
      && ContainersTold(file, loaded, p.status, p.view)
      && (file == SysError ==> SysError in p.view.created)
  }

  /** A stored or sent status was computed from an earlier state of the directory. */
  ghost predicate Genuine(spec: PodSpec, p: Snapshot, files: Files) {
    && Fits(spec, p.status, p.view) && Within(p.view, files)
    && Accountable(spec, p)
    && p.status.reason != "PodFailure"
  }

  /** The worker's statuses come from ever later states of the directory. */
  ghost predicate Ordered(sent: seq<Snapshot>, reported: Files) {
    && (forall i :: 0 <= i < |sent| && sent[i].origin.ByWorker? ==> Within(sent[i].view, reported))
    && (forall i, j :: 0 <= i <= j < |sent| && sent[i].origin.ByWorker? && sent[j].origin.ByWorker? ==>
          Within(sent[i].view, sent[j].view))
    && (sent == [] ==> reported == NoFiles)
    && (sent != [] && sent[|sent| - 1].origin.ByWorker? ==> sent[|sent| - 1].view == reported)
  }

  ghost predicate WorkerInv(spec: PodSpec, worker: Worker, reported: Files, files: Files) {
    && Within(reported, files)
    && (worker.Busy? ==>
          && Genuine(spec, worker.pod, worker.since) && Within(worker.since, files)
          && worker.file in worker.since.created
          && Within(reported, worker.since))
  }

  ghost predicate StatusInv(spec: PodSpec, s: State) {
    && Genuine(spec, s.disk, s.files)
    && (s.submitted.Some? ==>
          && Genuine(spec, s.submitted.value, s.files) && s.submitted.value.origin == ByCreate
          && forall i :: 0 <= i < |s.sent| ==> s.sent[i].origin.ByWorker?)
    && (forall i :: 0 <= i < |s.sent| ==> Genuine(spec, s.sent[i], s.files))
    && Ordered(s.sent, s.history.reported)
    && WorkerInv(spec, s.worker, s.history.reported, s.files)
  }

  lemma WithinTransitive(a: Files, b: Files, c: Files)
    requires Within(a, b) && Within(b, c)
    ensures Within(a, c)
  {
  }

  lemma WithinReflexive(a: Files)
    ensures Within(a, a)
  {
  }

  /** Whatever pod of the run was loaded, the answer belongs to the run; a pod stored in a final
      phase is answered with that phase. */
  lemma AnswerIsGenuine(spec: PodSpec, file: ControlFile, p: Snapshot, view: Files, files: Files, now: nat)
    requires ValidSpec(spec) && FilesInv(spec, files) && Genuine(spec, p, view) && Within(view, files)
    requires file == SysError ==> SysError in view.created
    ensures Genuine(spec, Answer(spec, file, p, view, now), files)
    ensures file != SysError && Terminal(p.status.phase) ==>
      Answer(spec, file, p, view, now).status.phase == p.status.phase
  {
    PhaseOfMonotone(spec, p.view, view);
    if file == SysError {
      ErroredConditions(p.status, "SYSERROR", now);
      assert "SYSERROR"[0] == 'S' && "PodFailure"[0] == 'P';
    } else {
      assert CodesFit(view);
      ReconcileRefinesPhaseOf(spec, p.status, p.view, view, now);
    }
  }

  lemma OrderedAppend(sent: seq<Snapshot>, reported: Files, p: Snapshot)
    requires Ordered(sent, reported) && p.origin.ByWorker? && Within(reported, p.view)
    ensures Ordered(sent + [p], p.view)
  {
    hide Within;
    WithinReflexive(p.view);
    forall i | 0 <= i < |sent| && sent[i].origin.ByWorker? ensures Within(sent[i].view, p.view) {
      WithinTransitive(sent[i].view, reported, p.view);
    }
  }

  lemma OrderedCreate(sent: seq<Snapshot>, reported: Files, p: Snapshot)
    requires Ordered(sent, reported) && p.origin == ByCreate
    ensures Ordered(sent + [p], reported)
  {
    hide Within;
  }

  lemma StatusFinish(spec: PodSpec, s: State, view: Files, now: nat)
    requires ValidSpec(spec) && FilesInv(spec, s.files) && StatusInv(spec, s) && Enabled(spec, s, Finish(view, now))
    ensures StatusInv(spec, Apply(spec, s, Finish(view, now)))
  {
    hide FilesInv, Fits, Within, Ordered, Accountable, Handled;
    var w := s.worker;
    GenuineLater(spec, w.pod, w.since, view);
    SinceInView(w.since, view, w.file);
    AnswerIsGenuine(spec, w.file, w.pod, view, s.files, now);
    WithinTransitive(s.history.reported, w.since, view);
    OrderedAppend(s.sent, s.history.reported, Answer(spec, w.file, w.pod, view, now));
  }

  lemma GenuineLater(spec: PodSpec, p: Snapshot, a: Files, b: Files)
    requires Genuine(spec, p, a) && Within(a, b)
    ensures Genuine(spec, p, b)
  {
    hide Fits, Accountable;
    WithinTransitive(p.view, a, b);
  }

  lemma SinceInView(a: Files, b: Files, f: ControlFile)
    requires Within(a, b) && f in a.created
    ensures f in b.created
  {
  }

  lemma StatusTake(spec: PodSpec, s: State)
    requires WatchInv(s) && StatusInv(spec, s) && Enabled(spec, s, Take)
    ensures StatusInv(spec, Apply(spec, s, Take))
  {
    hide Genuine, Ordered;
    assert s.queue[0] in s.queue;
  }

  lemma StatusPersist(spec: PodSpec, s: State, i: nat)
    requires StatusInv(spec, s) && i < |s.sent|
    ensures StatusInv(spec, s.(disk := s.sent[i]))
  {
    hide Genuine, Within, Ordered;
  }

  lemma StatusAnnounce(spec: PodSpec, s: State)
    requires StatusInv(spec, s) && s.submitted.Some?
    ensures StatusInv(spec, s.(sent := s.sent + [s.submitted.value], submitted := None))
  {
    hide Genuine, Within, Ordered;
    OrderedCreate(s.sent, s.history.reported, s.submitted.value);
  }

  lemma StatusPreserved(spec: PodSpec, s: State, step: Step)
    requires ValidSpec(spec) && FilesInv(spec, s.files) && WatchInv(s) && StatusInv(spec, s) && Enabled(spec, s, step)
    requires Within(s.files, Apply(spec, s, step).files)
    ensures StatusInv(spec, Apply(spec, s, step))
  {
    hide StatusInv, FilesInv, WatchInv, Within;
    match step
    case Finish(view, now) => StatusFinish(spec, s, view, now);
    case Take => StatusTake(spec, s);
    case Persist(i) => StatusPersist(spec, s, i);
    case Announce => StatusAnnounce(spec, s);
    case _ => StatusInvGrows(spec, s, Apply(spec, s, step));
  }

  lemma StatusInvGrows(spec: PodSpec, s: State, t: State)
    requires StatusInv(spec, s) && Within(s.files, t.files)
    requires t.worker == s.worker && t.sent == s.sent && t.disk == s.disk && t.submitted == s.submitted
    requires t.history.reported == s.history.reported
    ensures StatusInv(spec, t)
  {
    hide Genuine, Ordered, Within;
    forall p | Genuine(spec, p, s.files) ensures Genuine(spec, p, t.files) {
      GenuineLater(spec, p, s.files, t.files);
    }
    WithinTransitive(s.history.reported, s.files, t.files);
    if s.worker.Busy? {
      WithinTransitive(s.worker.since, s.files, t.files);
    }
  }

  // ---- Invariant 4: nothing the last status has missed is lost ----

  ghost predicate OnItsWay(s: State, f: ControlFile) {
    || f !in s.seen
    || Created(f) in s.outbox
    || Created(f) in s.queue
    || f in s.history.dropped
  }

  /** A file or an exit code that the worker's last status did not see is still unreported, on its
      way to the worker, or in the worker's hands -- or its event was dropped, or the poller saw it
      empty. */
  ghost predicate FlightInv(s: State) {
    && (forall f :: f in s.files.created && f !in s.history.reported.created ==>
          OnItsWay(s, f) || (s.worker.Busy? && f in s.worker.since.created))
    && (forall c :: c in s.files.codes && c !in s.history.reported.codes ==>
          c in s.history.late || OnItsWay(s, ExitCode(c)) || (s.worker.Busy? && c in s.worker.since.codes))
  }

  lemma FlightPreserved(spec: PodSpec, s: State, step: Step)
    requires ValidSpec(spec) && FilesInv(spec, s.files) && PauseInv(spec, s.pause, s.files)
    requires WatchInv(s) && StatusInv(spec, s) && FlightInv(s) && Enabled(spec, s, step)
    ensures FlightInv(Apply(spec, s, step))
  {
    hide FlightInv, StatusInv, FilesInv, PauseInv, WatchInv, Apply;
    match step
    case Poll(evs) => FlightPoll(spec, s, evs);
    case Enqueue => FlightEnqueue(spec, s);
    case Take => FlightTake(spec, s);
    case LoadFails => FlightLoadFails(spec, s);
    case Finish(view, now) => FlightFinish(spec, s, view, now);
    case _ => FlightWrite(spec, s, step);
  }

  lemma FlightPoll(spec: PodSpec, s: State, evs: seq<Event>)
    requires WatchInv(s) && FlightInv(s) && FilesInv(spec, s.files) && Enabled(spec, s, Poll(evs))
    ensures FlightInv(Apply(spec, s, Poll(evs)))
  {
    var t := Apply(spec, s, Poll(evs));
    PollReports(s.seen, s.files);
    forall f | OnItsWay(s, f) && f in s.files.created ensures OnItsWay(t, f) {
      if f !in s.seen {
        assert Created(f) in Elements(evs);
      }
    }
  }

  lemma FlightEnqueue(spec: PodSpec, s: State)
    requires FlightInv(s) && Enabled(spec, s, Enqueue)
    ensures FlightInv(Apply(spec, s, Enqueue))
  {
    var t := Apply(spec, s, Enqueue);
    forall f | OnItsWay(s, f) ensures OnItsWay(t, f) {
      assert forall e :: e in s.outbox ==> e == s.outbox[0] || e in s.outbox[1..];
      assert forall e :: e in s.queue + [s.outbox[0]] <==> e in s.queue || e == s.outbox[0];
    }
  }

  lemma FlightTake(spec: PodSpec, s: State)
    requires FlightInv(s) && WatchInv(s) && Enabled(spec, s, Take)
    ensures FlightInv(Apply(spec, s, Take))
  {
    var t := Apply(spec, s, Take);
    assert forall e :: e in s.queue ==> e == s.queue[0] || e in s.queue[1..];
    forall f | OnItsWay(s, f) && s.queue[0] != Created(f) ensures OnItsWay(t, f) {}
  }

  lemma FlightLoadFails(spec: PodSpec, s: State)
    requires FlightInv(s) && Enabled(spec, s, LoadFails)
    ensures FlightInv(Apply(spec, s, LoadFails))
  {
    var t := Apply(spec, s, LoadFails);
    assert forall e :: e in s.queue ==> e == s.queue[0] || e in s.queue[1..];
    forall f | OnItsWay(s, f) ensures OnItsWay(t, f) {}
  }

  lemma FlightFinish(spec: PodSpec, s: State, view: Files, now: nat)
    requires FlightInv(s) && StatusInv(spec, s) && Enabled(spec, s, Finish(view, now))
    ensures FlightInv(Apply(spec, s, Finish(view, now)))
  {
    hide Genuine, Ordered, Answer;
    var t := Apply(spec, s, Finish(view, now));
    WithinTransitive(s.history.reported, s.worker.since, view);
    forall f | OnItsWay(s, f) ensures OnItsWay(t, f) {}
  }

  lemma FlightWrite(spec: PodSpec, s: State, step: Step)
    requires WatchInv(s) && FlightInv(s) && Enabled(spec, s, step)
    requires !step.Poll? && !step.Enqueue? && !step.Take? && !step.LoadFails? && !step.Finish?
    ensures FlightInv(Apply(spec, s, step))
  {
    var t := Apply(spec, s, step);
    assert t.seen == s.seen && t.outbox == s.outbox && t.queue == s.queue && t.worker == s.worker;
    assert t.history.late == s.history.late && t.history.dropped == s.history.dropped;
    assert t.history.reported == s.history.reported;
    forall f | OnItsWay(s, f) ensures OnItsWay(t, f) {}
    WrittenIsUnseen(spec, s, step);
  }

  /** A name that a step adds has not been seen by the poller; neither has an exit code that is
      filled in, unless the poller saw its file empty. */
  lemma WrittenIsUnseen(spec: PodSpec, s: State, step: Step)
    requires WatchInv(s) && Enabled(spec, s, step)
    ensures var t := Apply(spec, s, step);
            && (forall f :: f in t.files.created && f !in s.files.created ==> f !in s.seen)
            && (forall c :: c in t.files.codes && c !in s.files.codes ==> c in s.history.late || ExitCode(c) !in s.seen)
  {
  }

  // ---- Invariant 5: which exit codes a reconciliation can and cannot have seen ----

  ghost predicate TimeInv(s: State) {
    && s.history.sinceFinish <= s.files.codes.Keys
    && s.history.sinceFinish !! s.history.reported.codes.Keys
    && s.files.codes.Keys - s.history.sinceTake <=
       (if s.worker.Busy? then s.worker.since.codes.Keys else s.history.reported.codes.Keys)
  }

  lemma TimePreserved(spec: PodSpec, s: State, step: Step)
    requires PauseInv(spec, s.pause, s.files) && StatusInv(spec, s) && TimeInv(s) && Enabled(spec, s, step)
    ensures TimeInv(Apply(spec, s, step))
  {
    hide Genuine, Ordered, Answer;
    var t := Apply(spec, s, step);
    match step
    case InitExitFill => assert t.files.codes.Keys == s.files.codes.Keys + {spec.inits[s.pause.index]};
    case MainExitFill(k, _) => assert t.files.codes.Keys == s.files.codes.Keys + {spec.mains[k]};
    case _ =>
  }

  // ---- The whole invariant ----

  ghost predicate Inv(spec: PodSpec, s: State) {
    && FilesInv(spec, s.files) && PauseInv(spec, s.pause, s.files)
    && WatchInv(s) && StatusInv(spec, s) && FlightInv(s) && TimeInv(s)
  }

  lemma InvInitial(spec: PodSpec, s: State)
    requires ValidSpec(spec) && Initial(spec, s)
    ensures Inv(spec, s)
  {
  }

  lemma InvPreserved(spec: PodSpec, s: State, step: Step)
    requires ValidSpec(spec) && Inv(spec, s) && Enabled(spec, s, step)
    ensures Inv(spec, Apply(spec, s, step)) && Within(s.files, Apply(spec, s, step).files)
  {
    FilesPreserved(spec, s, step);
    WatchPreserved(spec, s, step);
    StatusPreserved(spec, s, step);
    FlightPreserved(spec, s, step);
    TimePreserved(spec, s, step);
  }

  lemma {:induction false} InvRun(spec: PodSpec, s: State, steps: seq<Step>, t: State)
    requires ValidSpec(spec) && Inv(spec, s) && Runs(spec, s, steps, t)
    ensures Inv(spec, t)
    decreases |steps|
  {
    if steps != [] {
      InvPreserved(spec, s, steps[0]);
      InvRun(spec, Apply(spec, s, steps[0]), steps[1..], t);
    }
  }

  ghost predicate Reachable(spec: PodSpec, t: State) {
    exists s, steps :: Initial(spec, s) && Runs(spec, s, steps, t)
  }

  lemma ReachableInv(spec: PodSpec, t: State)
    requires ValidSpec(spec) && Reachable(spec, t)
    ensures Inv(spec, t)
  {
    var s, steps :| Initial(spec, s) && Runs(spec, s, steps, t);
    InvInitial(spec, s);
    InvRun(spec, s, steps, t);
  }
}
