/** The control directory of a pod and the phase it stands for.

    `hpk-pause` announces progress by creating files in the pod's control directory
    (compute/endpoint/paths.go:36-49). `PhaseOf` reads a whole directory at once; it is the
    specification that the incremental status machine of `PodStatus` is compared with. */
module ControlFiles {
  import opened Prelude

  datatype ControlFile = Ip | SysError | JobId(container: string) | ExitCode(container: string)

  /** `created` holds the names present in the directory; `codes` the exit codes that can be
      read. An exit-code file that is still empty is in `created` only. */
  datatype Files = Files(created: set<ControlFile>, codes: map<string, int>)

  const NoFiles := Files({}, map[])

  /** Control files are written once: `b` is a later state of the directory than `a`. */
  ghost predicate Within(a: Files, b: Files) {
    && a.created <= b.created
    && (forall c :: c in a.codes ==> c in b.codes && b.codes[c] == a.codes[c])
  }

  ghost predicate CodesFit(files: Files) {
    forall c :: c in files.codes ==> -0x8000_0000 <= files.codes[c] < 0x8000_0000
  }

  datatype PodSpec = PodSpec(inits: seq<string>, mains: seq<string>, unsupported: bool)

  ghost predicate ValidSpec(spec: PodSpec) {
    Distinct(spec.inits + spec.mains)
  }

  datatype Phase = NoPhase | Pending | Running | Succeeded | Failed

  predicate Terminal(phase: Phase) {
    phase == Succeeded || phase == Failed
  }

  function Rank(phase: Phase): nat {
    match phase
    case NoPhase => 0
    case Pending => 1
    case Running => 2
    case Succeeded => 3
    case Failed => 3
  }

  datatype InitOutcome = InitWaiting | InitFailed | InitDone

  /** The first init container, in order, without an exit code or with a non-zero one decides. */
  function InitScan(inits: seq<string>, files: Files): InitOutcome {
    if inits == [] then InitDone
    else if inits[0] !in files.codes then InitWaiting
    else if files.codes[inits[0]] != 0 then InitFailed
    else InitScan(inits[1..], files)
  }

  predicate MainStarted(c: string, files: Files) {
    JobId(c) in files.created || c in files.codes
  }

  function MainPhase(mains: seq<string>, files: Files): Phase {
    if exists c :: c in mains && c in files.codes && files.codes[c] != 0 then Failed
    else if forall c :: c in mains ==> c in files.codes then Succeeded
    else if forall c :: c in mains ==> MainStarted(c, files) then Running
    else Pending
  }

  /** The phase of a pod, from nothing but its specification and its control directory. */
  function PhaseOf(spec: PodSpec, files: Files): Phase {
    match InitScan(spec.inits, files)
    case InitWaiting => Pending
    case InitFailed => Failed
    case InitDone => MainPhase(spec.mains, files)
  }

  lemma {:induction false} InitScanDone(inits: seq<string>, files: Files)
    ensures InitScan(inits, files) == InitDone <==> forall c :: c in inits ==> c in files.codes && files.codes[c] == 0
  {
    if inits != [] {
      InitScanDone(inits[1..], files);
      assert forall c :: c in inits <==> c == inits[0] || c in inits[1..];
    }
  }

  lemma {:induction false} InitScanStable(inits: seq<string>, a: Files, b: Files)
    requires Within(a, b)
    ensures InitScan(inits, a) != InitWaiting ==> InitScan(inits, b) == InitScan(inits, a)
  {
    if inits != [] {
      InitScanStable(inits[1..], a, b);
    }
  }

  /** As the directory grows the phase only moves forward, and a final phase stays. */
  lemma PhaseOfMonotone(spec: PodSpec, a: Files, b: Files)
    requires Within(a, b)
    ensures Rank(PhaseOf(spec, a)) <= Rank(PhaseOf(spec, b))
    ensures Terminal(PhaseOf(spec, a)) ==> PhaseOf(spec, b) == PhaseOf(spec, a)
  {
    InitScanStable(spec.inits, a, b);
    if MainPhase(spec.mains, a) == Failed {
      var c :| c in spec.mains && c in a.codes && a.codes[c] != 0;
      assert c in b.codes && b.codes[c] != 0;
    }
    assert forall c :: MainStarted(c, a) ==> MainStarted(c, b);
  }
}
