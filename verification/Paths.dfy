/** The control-file paths: printing and parsing (compute/endpoint/paths.go). */
module Paths {
  import opened Prelude
  import opened Text
  import opened ControlFiles

  // ---- path/filepath ----

  /** The elements left after resolving "", "." and "..". */
  function Resolve(parts: seq<string>, rooted: bool): seq<string> {
    if parts == [] then []
    else
      var stack, part := Resolve(parts[..|parts| - 1], rooted), parts[|parts| - 1];
      if part == "" || part == "." then stack
      else if part != ".." then stack + [part]
      else if stack != [] && stack[|stack| - 1] != ".." then stack[..|stack| - 1]
      else if rooted then stack
      else stack + [".."]
  }

  function Clean(path: string): string {
    var rooted := path != "" && path[0] == '/';
    var stack := Resolve(Split(path, '/'), rooted);
    var out := if stack == [] then "" else Join(stack, '/');
    if rooted then "/" + out else if out == "" then "." else out
  }

  function FilepathJoin(elems: seq<string>): string {
    if elems == [] then ""
    else if elems[0] == "" then FilepathJoin(elems[1..])
    else Clean(Join(elems, '/'))
  }

  /** From the last dot of the last element on. */
  function Ext(path: string): string {
    var dot, slash := LastIndexOf(path, '.'), LastIndexOf(path, '/');
    if dot > slash then path[dot..] else ""
  }

  // ---- Printing ----

  datatype NamespacedName = NamespacedName(namespace: string, name: string)

  function Extension(f: ControlFile): string {
    match f
    case SysError => ".syserror"
    case Ip => ".ip"
    case JobId(_) => ".jobid"
    case ExitCode(_) => ".exitCode"
  }

  function FileName(f: ControlFile): string {
    match f
    case SysError => Extension(f)
    case Ip => Extension(f)
    case JobId(container) => container + Extension(f)
    case ExitCode(container) => container + Extension(f)
  }

  function HPK(rootPath: string): string {
    FilepathJoin([rootPath, ".hpk"])
  }

  function PodDir(hpk: string, pod: NamespacedName): string {
    FilepathJoin([hpk, pod.namespace, pod.name])
  }

  function ControlFileDir(podDir: string): string {
    FilepathJoin([podDir, "controlfiles"])
  }

  function ControlFilePath(hpk: string, pod: NamespacedName, f: ControlFile): string {
    FilepathJoin([ControlFileDir(PodDir(hpk, pod)), FileName(f)])
  }

  // ---- Parsing ----

  predicate NoSpace(s: string) {
    forall c :: c in s ==> c !in {' ', '\t', '\n', '\r', '\U{000C}'}
  }

  const MIDDLE := "/controlfiles/"

  /** One way for the expression `^/(\S+)/(\S+?)/controlfiles/(.*)$` to match: the namespace ends
      at `i` and the pod at `j`. */
  predicate Fits(rel: string, i: nat, j: nat) {
    && 2 <= i < j - 1 && j <= |rel|
    && rel[0] == '/' && NoSpace(rel[1..i])
    && rel[i] == '/' && NoSpace(rel[i + 1..j])
    && MIDDLE <= rel[j..] && '\n' !in rel[j + |MIDDLE|..]
  }

  /** The lazy pod group: the first end from `j` on that lets the rest match. */
  function FirstPodEnd(rel: string, i: nat, j: nat): (r: Option<nat>)
    requires j <= |rel| + 1
    ensures r.Some? ==> Fits(rel, i, r.value)
    decreases |rel| + 1 - j
  {
    if j == |rel| + 1 then None
    else if Fits(rel, i, j) then Some(j)
    else FirstPodEnd(rel, i, j + 1)
  }

  lemma {:induction false} AnyFits(rel: string)
    ensures forall i: nat, j: nat :: Fits(rel, i, j) ==> i <= |rel| && j <= |rel|
  {
  }

  lemma {:induction false} FirstPodEndExact(rel: string, i: nat, j: nat)
    requires j <= |rel| + 1
    ensures var r := FirstPodEnd(rel, i, j);
            && (r.Some? ==> j <= r.value && forall k :: j <= k < r.value ==> !Fits(rel, i, k))
            && (r.None? ==> forall k :: j <= k ==> !Fits(rel, i, k))
    decreases |rel| + 1 - j
  {
    AnyFits(rel);
    hide Fits;
    if j <= |rel| {
      FirstPodEndExact(rel, i, j + 1);
    }
  }

  /** The greedy namespace group: the last end up to `i` that lets the rest match. */
  function LastNamespaceEnd(rel: string, i: nat): (r: Option<nat>)
    ensures r.Some? ==> r.value <= i && FirstPodEnd(rel, r.value, 0).Some?
    ensures r.Some? ==> forall k :: r.value < k <= i ==> FirstPodEnd(rel, k, 0).None?
    ensures r.None? ==> forall k: nat :: k <= i ==> FirstPodEnd(rel, k, 0).None?
  {
    if FirstPodEnd(rel, i, 0).Some? then Some(i)
    else if i == 0 then None
    else LastNamespaceEnd(rel, i - 1)
  }

  function Groups(rel: string, i: nat, j: nat): seq<string>
    requires Fits(rel, i, j)
  {
    [rel, rel[1..i], rel[i + 1..j], rel[j + |MIDDLE|..]]
  }

  /** The submatches of the expression: the whole match and its three groups, or nothing. */
  function FindStringSubmatch(rel: string): (match_: seq<string>)
    ensures match_ == [] || |match_| == 4
  {
    var ns := LastNamespaceEnd(rel, |rel|);
    if ns.None? then []
    else
      Groups(rel, ns.value, FirstPodEnd(rel, ns.value, 0).value)
  }

  const SUBEXP_NAMES := ["", "namespace", "pod", "file"]

  function TrimPrefix(s: string, prefix: string): string {
    if prefix <= s then s[|prefix|..] else s
  }

  datatype Parsed = Parsed(pod: NamespacedName, file: string, invalid: bool)

  method ParseControlFilePath(hpk: string, absPath: string) returns (r: Parsed)
    ensures r == Parse(hpk, absPath)
  {
    hide FindStringSubmatch;
    r := Parsed(NamespacedName("", ""), "", false);
    if !("/" <= absPath) {
      return r.(invalid := true);
    }
    var groups := FindStringSubmatch(TrimPrefix(absPath, hpk));
    if |groups| == 0 {
      return r.(invalid := true);
    }
    for i := 0 to |SUBEXP_NAMES|
      invariant !r.invalid
      invariant r.pod.namespace == if i > 1 then groups[1] else ""
      invariant r.pod.name == if i > 2 then groups[2] else ""
      invariant r.file == if i > 3 then groups[3] else ""
    {
      if i > 0 && i <= |groups| {
        match SUBEXP_NAMES[i]
        case "namespace" => r := r.(pod := r.pod.(namespace := groups[i]));
        case "pod" => r := r.(pod := r.pod.(name := groups[i]));
        case "file" => r := r.(file := groups[i]);
        case _ =>
      }
    }
  }

  function Parse(hpk: string, absPath: string): Parsed {
    var groups := FindStringSubmatch(TrimPrefix(absPath, hpk));
    if !("/" <= absPath) || groups == [] then Parsed(NamespacedName("", ""), "", true)
    else Parsed(NamespacedName(groups[1], groups[2]), groups[3], false)
  }

  // ---- Properties of printing ----

  /** A path element that survives cleaning. */
  predicate Plain(s: string) {
    s != "" && s != "." && s != ".." && '/' !in s
  }

  predicate AllPlain(parts: seq<string>) {
    forall part :: part in parts ==> Plain(part)
  }

  /** The absolute path through the given elements. */
  function Absolute(elems: seq<string>): string
    requires elems != []
  {
    "/" + Join(elems, '/')
  }

  lemma {:induction false} ResolvePlain(parts: seq<string>, more: seq<string>)
    requires AllPlain(more)
    ensures Resolve(parts + more, true) == Resolve(parts, true) + more
    decreases |more|
  {
    if more == [] {
      assert parts + more == parts;
    } else {
      var k := |more| - 1;
      assert (parts + more)[..|parts| + k] == parts + more[..k];
      assert Plain(more[k]);
      ResolvePlain(parts, more[..k]);
    }
  }

  lemma {:induction false} ResolveLeavesPlain(parts: seq<string>)
    requires forall part :: part in parts ==> '/' !in part
    ensures AllPlain(Resolve(parts, true))
    decreases |parts|
  {
    if parts != [] {
      var k := |parts| - 1;
      assert parts[k] in parts;
      ResolveLeavesPlain(parts[..k]);
    }
  }

  lemma {:induction false} SplitAbsolute(elems: seq<string>)
    requires elems != [] && AllPlain(elems)
    ensures Split(Absolute(elems), '/') == [""] + elems
  {
    JoinSplit(elems, '/');
    SplitSeparator("", Join(elems, '/'), '/');
    assert "" + ['/'] + Join(elems, '/') == Absolute(elems);
  }

  lemma {:induction false} CleanAbsolute(elems: seq<string>)
    requires elems != [] && AllPlain(elems)
    ensures Clean(Absolute(elems)) == Absolute(elems)
  {
    hide Split, Join;
    SplitAbsolute(elems);
    ResolvePlain([""], elems);
    assert [""][..0] == [];
    assert Resolve([""], true) == [];
    assert Resolve([""] + elems, true) == elems;
  }

  /** Joining plain elements to a clean absolute path only puts slashes between them. */
  lemma {:induction false} JoinPlain(elems: seq<string>, more: seq<string>)
    requires elems != [] && AllPlain(elems) && more != [] && AllPlain(more)
    ensures FilepathJoin([Absolute(elems)] + more) == Absolute(elems + more)
  {
    hide Clean;
    var first := Absolute(elems);
    assert Join([first], '/') == first;
    JoinAppend([first], more, '/');
    JoinAppend(elems, more, '/');
    assert ([first] + more)[0] == first;
    assert Join([first] + more, '/') == first + "/" + Join(more, '/');
    AbsoluteAppend(elems, more);
    assert Join([first] + more, '/') == Absolute(elems + more);
    CleanAbsolute(elems + more);
  }

  /** The HPK directory of any absolute root is a clean absolute path. */
  lemma {:induction false} HPKIsAbsolute(rootPath: string) returns (elems: seq<string>)
    requires "/" <= rootPath
    ensures elems != [] && AllPlain(elems) && HPK(rootPath) == Absolute(elems)
  {
    var parts := Split(rootPath, '/');
    assert [rootPath, ".hpk"] == [rootPath] + [".hpk"];
    JoinAppend([rootPath], [".hpk"], '/');
    var joined := rootPath + "/" + ".hpk";
    assert Join([rootPath, ".hpk"], '/') == joined;
    SplitSeparator(rootPath, ".hpk", '/');
    SplitNone(".hpk", '/');
    SplitJoin(rootPath, '/');
    ResolvePlain(parts, [".hpk"]);
    ResolveLeavesPlain(parts);
    elems := Resolve(parts, true) + [".hpk"];
  }

  predicate PlainPod(pod: NamespacedName) {
    Plain(pod.namespace) && Plain(pod.name)
  }

  predicate PlainFile(f: ControlFile) {
    match f
    case SysError => true
    case Ip => true
    case JobId(container) => Plain(container)
    case ExitCode(container) => Plain(container)
  }

  lemma {:induction false} PlainFileName(f: ControlFile)
    requires PlainFile(f)
    ensures Plain(FileName(f))
  {
    assert '/' !in Extension(f) && |Extension(f)| > 2;
    assert FileName(f) != ".." && FileName(f) != ".";
  }

  lemma {:induction false} PrintedPath(elems: seq<string>, pod: NamespacedName, f: ControlFile)
    requires elems != [] && AllPlain(elems) && PlainPod(pod) && PlainFile(f)
    ensures ControlFilePath(Absolute(elems), pod, f) ==
      Absolute(elems) + "/" + Join([pod.namespace, pod.name, "controlfiles", FileName(f)], '/')
  {
    hide Absolute, Join, FilepathJoin;
    PlainFileName(f);
    var podElems := elems + [pod.namespace, pod.name];
    JoinPlain(elems, [pod.namespace, pod.name]);
    assert [Absolute(elems)] + [pod.namespace, pod.name] == [Absolute(elems), pod.namespace, pod.name];
    JoinPlain(podElems, ["controlfiles"]);
    assert [Absolute(podElems)] + ["controlfiles"] == [Absolute(podElems), "controlfiles"];
    var dirElems := podElems + ["controlfiles"];
    JoinPlain(dirElems, [FileName(f)]);
    assert [Absolute(dirElems)] + [FileName(f)] == [Absolute(dirElems), FileName(f)];
    assert dirElems + [FileName(f)] == elems + [pod.namespace, pod.name, "controlfiles", FileName(f)];
    AbsoluteAppend(elems, [pod.namespace, pod.name, "controlfiles", FileName(f)]);
  }

  lemma {:induction false} AbsoluteAppend(elems: seq<string>, more: seq<string>)
    requires elems != [] && more != []
    ensures Absolute(elems + more) == Absolute(elems) + "/" + Join(more, '/')
  {
    JoinAppend(elems, more, '/');
  }

  // ---- Properties of parsing ----

  lemma {:induction false} SplitFitting(rel: string, i: nat, j: nat)
    requires Fits(rel, i, j)
    ensures Split(rel, '/') == [""] + Split(rel[1..i], '/') + Split(rel[i + 1..j], '/') + ["controlfiles"] +
      Split(rel[j + |MIDDLE|..], '/')
  {
    hide Split;
    var ns, pod, file := rel[1..i], rel[i + 1..j], rel[j + |MIDDLE|..];
    assert rel[j..] == MIDDLE + file;
    var tail := "controlfiles" + "/" + file;
    assert MIDDLE + file == "/" + tail;
    assert rel == "" + "/" + (ns + "/" + (pod + "/" + tail));
    SplitSeparator("", ns + "/" + (pod + "/" + tail), '/');
    SplitSeparator(ns, pod + "/" + tail, '/');
    SplitSeparator(pod, tail, '/');
    SplitSeparator("controlfiles", file, '/');
    SplitNone("controlfiles", '/');
    SplitNone("", '/');
  }

  /** A path of four plain elements matches in one way only, whatever the groups prefer. */
  lemma {:induction false} OneWayToFit(ns: string, pod: string, file: string, i: nat, j: nat)
    requires '/' !in ns && '/' !in pod && '/' !in file
    requires Fits("/" + Join([ns, pod, "controlfiles", file], '/'), i, j)
    ensures var rel := "/" + Join([ns, pod, "controlfiles", file], '/');
            Groups(rel, i, j) == [rel, ns, pod, file] && NoSpace(ns) && NoSpace(pod) && '\n' !in file
  {
    var parts := [ns, pod, "controlfiles", file];
    var rel := "/" + Join(parts, '/');
    var a, b, c := rel[1..i], rel[i + 1..j], rel[j + |MIDDLE|..];
    SplitFitting(rel, i, j);
    hide Split, Fits, Join;
    SplitSeparator("", Join(parts, '/'), '/');
    assert rel == "" + ['/'] + Join(parts, '/');
    SplitNone("", '/');
    JoinSplit(parts, '/');
    var x, y, z := Split(a, '/'), Split(b, '/'), Split(c, '/');
    assert [""] + parts == [""] + x + y + ["controlfiles"] + z;
    Aligned(parts, x, y, z);
    OnePart(a);
    OnePart(b);
    OnePart(c);
  }

  lemma {:induction false} Aligned(parts: seq<string>, x: seq<string>, y: seq<string>, z: seq<string>)
    requires |parts| == 4 && |x| > 0 && |y| > 0 && |z| > 0
    requires [""] + parts == [""] + x + y + ["controlfiles"] + z
    ensures x == [parts[0]] && y == [parts[1]] && z == [parts[3]]
  {
    var whole := [""] + x + y + ["controlfiles"] + z;
    assert |x| == 1 && |y| == 1 && |z| == 1;
    assert whole[1] == x[0] && whole[2] == y[0] && whole[4] == z[0];
  }

  lemma {:induction false} OnePart(s: string)
    requires |Split(s, '/')| == 1
    ensures Split(s, '/') == [s]
  {
    SplitJoin(s, '/');
  }

  lemma {:induction false} FourElements(ns: string, pod: string, file: string)
    ensures "/" + Join([ns, pod, "controlfiles", file], '/') == "/" + ns + "/" + pod + MIDDLE + file
  {
    assert [ns, pod, "controlfiles", file][1..] == [pod, "controlfiles", file];
    assert [pod, "controlfiles", file][1..] == ["controlfiles", file];
    assert ["controlfiles", file][1..] == [file];
    assert Join(["controlfiles", file], '/') == "controlfiles" + "/" + file;
    assert "/" + ("controlfiles" + "/" + file) == MIDDLE + file;
  }

  lemma {:induction false} ItFits(ns: string, pod: string, file: string)
    requires ns != "" && pod != ""
    ensures var rel := "/" + ns + "/" + pod + MIDDLE + file;
            var i, j := |ns| + 1, |ns| + |pod| + 2;
            Fits(rel, i, j) <==> NoSpace(ns) && NoSpace(pod) && '\n' !in file
  {
    hide NoSpace;
    var rel := "/" + ns + "/" + pod + MIDDLE + file;
    var i, j := |ns| + 1, |ns| + |pod| + 2;
    assert rel[1..i] == ns && rel[i + 1..j] == pod && rel[j..] == MIDDLE + file;
    assert rel[j + |MIDDLE|..] == file;
  }

  /** The match that the groups prefer: the longest namespace, and then the shortest pod. */
  ghost predicate Preferred(rel: string, i: nat, j: nat) {
    Fits(rel, i, j) && forall k: nat, l: nat :: Fits(rel, k, l) ==> k < i || (k == i && j <= l)
  }

  /** Submatches exist exactly when there is a way to match, and are those of the preferred way. */
  lemma {:induction false} SubmatchExact(rel: string)
    ensures FindStringSubmatch(rel) == [] <==> forall i: nat, j: nat :: !Fits(rel, i, j)
    ensures var g := FindStringSubmatch(rel);
            g != [] ==> exists i: nat, j: nat :: Preferred(rel, i, j) && g == Groups(rel, i, j)
  {
    AnyFits(rel);
    hide Fits;
    var ns := LastNamespaceEnd(rel, |rel|);
    if ns.Some? {
      var i, j := ns.value, FirstPodEnd(rel, ns.value, 0).value;
      forall k: nat, l: nat | Fits(rel, k, l) ensures k < i || (k == i && j <= l) {
        FirstPodEndExact(rel, k, 0);
        assert FirstPodEnd(rel, k, 0).Some?;
      }
      assert Preferred(rel, i, j);
    } else {
      forall i: nat, j: nat ensures !Fits(rel, i, j) {
        FirstPodEndExact(rel, i, 0);
        assert i <= |rel| ==> FirstPodEnd(rel, i, 0).None?;
      }
    }
  }

  /** A relative path of plain elements is parsed exactly if its namespace and pod have no white
      space and its file name no line break. */
  lemma {:induction false} SubmatchOfPrinted(ns: string, pod: string, file: string)
    requires Plain(ns) && Plain(pod) && Plain(file)
    ensures var rel := "/" + Join([ns, pod, "controlfiles", file], '/');
            FindStringSubmatch(rel) == if NoSpace(ns) && NoSpace(pod) && '\n' !in file then [rel, ns, pod, file] else []
  {
    hide Fits, FindStringSubmatch, NoSpace, Join;
    var rel := "/" + Join([ns, pod, "controlfiles", file], '/');
    SubmatchExact(rel);
    FourElements(ns, pod, file);
    ItFits(ns, pod, file);
    forall i: nat, j: nat | Fits(rel, i, j)
      ensures Groups(rel, i, j) == [rel, ns, pod, file] && NoSpace(ns) && NoSpace(pod) && '\n' !in file {
      OneWayToFit(ns, pod, file, i, j);
    }
  }

  // ---- The dispatch of the worker ----

  /** What the worker does about the creation of a file. */
  datatype Action = Ignores | ReportsError(pod: NamespacedName) | Reconciles(pod: NamespacedName)

  /** The worker parses the path and then looks at the extension of the file. */
  function Dispatch(hpk: string, path: string): Action {
    var r := Parse(hpk, path);
    if r.invalid then Ignores else ActionOn(Ext(r.file), r.pod)
  }

  function ActionOn(ext: string, pod: NamespacedName): Action {
    if ext == Extension(SysError) then ReportsError(pod)
    else if ext == Extension(Ip) || ext == Extension(JobId("")) || ext == Extension(ExitCode("")) then Reconciles(pod)
    else Ignores
  }

  lemma {:induction false} ActionOnKind(f: ControlFile, pod: NamespacedName)
    ensures ActionOn(Extension(f), pod) == if f == SysError then ReportsError(pod) else Reconciles(pod)
  {
    assert ".syserror"[1] == 's' && ".ip"[1] == 'i' && ".jobid"[1] == 'j' && ".exitCode"[1] == 'e';
  }

  // ---- The round trip ----

  /** Names that the expression can take. */
  predicate Parsable(pod: NamespacedName, f: ControlFile) {
    NoSpace(pod.namespace) && NoSpace(pod.name) && '\n' !in FileName(f)
  }

  lemma {:induction false} TrimRoot(root: string, rest: string)
    ensures TrimPrefix(root + rest, root) == rest
  {
  }

  /** Parsing a printed path gives back its pod and file, or rejects it for white space. */
  lemma {:induction false} RoundTrip(rootPath: string, pod: NamespacedName, f: ControlFile)
    requires "/" <= rootPath && PlainPod(pod) && PlainFile(f)
    ensures Parse(HPK(rootPath), ControlFilePath(HPK(rootPath), pod, f)) ==
            if Parsable(pod, f) then Parsed(pod, FileName(f), false) else Parsed(NamespacedName("", ""), "", true)
  {
    var elems := HPKIsAbsolute(rootPath);
    PlainFileName(f);
    hide HPK, Join, ControlFilePath, FileName, Parse, NoSpace, AllPlain, Plain;
    PrintedPath(elems, pod, f);
    ParsePrinted(HPK(rootPath), pod, FileName(f));
  }

  lemma {:induction false} ParsePrinted(hpk: string, pod: NamespacedName, file: string)
    requires "/" <= hpk && PlainPod(pod) && Plain(file)
    ensures Parse(hpk, hpk + "/" + Join([pod.namespace, pod.name, "controlfiles", file], '/')) ==
            if NoSpace(pod.namespace) && NoSpace(pod.name) && '\n' !in file then Parsed(pod, file, false)
            else Parsed(NamespacedName("", ""), "", true)
  {
    hide Join, FindStringSubmatch, NoSpace, Plain, TrimPrefix;
    var rest := "/" + Join([pod.namespace, pod.name, "controlfiles", file], '/');
    assert hpk + "/" + Join([pod.namespace, pod.name, "controlfiles", file], '/') == hpk + rest;
    TrimRoot(hpk, rest);
    SubmatchOfPrinted(pod.namespace, pod.name, file);
  }

  lemma {:induction false} LastDot(s: string, ext: string)
    requires ext != "" && ext[0] == '.' && '.' !in ext[1..] && '/' !in ext
    ensures Ext(s + ext) == ext
  {
    var path := s + ext;
    var dot, slash := LastIndexOf(path, '.'), LastIndexOf(path, '/');
    assert path[|s|] == '.';
    assert forall k :: |s| < k < |path| ==> path[k] == ext[1..][k - |s| - 1];
    assert forall k :: |s| <= k < |path| ==> path[k] == ext[k - |s|];
  }

  /** The dispatch on the extension sees the kind of the file. */
  lemma {:induction false} ExtensionRecoversKind(f: ControlFile)
    ensures Ext(FileName(f)) == Extension(f)
  {
    hide Ext;
    match f
    case SysError =>
      LastDot("", ".syserror");
      assert "" + ".syserror" == ".syserror";
    case Ip =>
      LastDot("", ".ip");
      assert "" + ".ip" == ".ip";
    case JobId(c) => LastDot(c, ".jobid");
    case ExitCode(c) => LastDot(c, ".exitCode");
  }

  lemma {:induction false} FileNameInjective(f: ControlFile, g: ControlFile)
    requires FileName(f) == FileName(g)
    ensures f == g
  {
    ExtensionRecoversKind(f);
    ExtensionRecoversKind(g);
    hide Ext;
    var e := Extension(f);
    assert e == Extension(g);
    if f.JobId? || f.ExitCode? {
      var n := |FileName(f)| - |e|;
      assert FileName(f)[..n] == f.container && FileName(g)[..n] == g.container;
    }
  }

  /** Different pods, containers or kinds never share a path. */
  lemma {:induction false} PathsDistinct(rootPath: string, pod: NamespacedName, f: ControlFile,
    pod': NamespacedName, f': ControlFile)
    requires "/" <= rootPath && PlainPod(pod) && PlainFile(f) && PlainPod(pod') && PlainFile(f')
    requires ControlFilePath(HPK(rootPath), pod, f) == ControlFilePath(HPK(rootPath), pod', f')
    ensures pod == pod' && f == f'
  {
    var elems := HPKIsAbsolute(rootPath);
    PlainFileName(f);
    PlainFileName(f');
    hide HPK, Join, ControlFilePath, FileName, AllPlain, FilepathJoin;
    PrintedPath(elems, pod, f);
    PrintedPath(elems, pod', f');
    var x := [pod.namespace, pod.name, "controlfiles", FileName(f)];
    var y := [pod'.namespace, pod'.name, "controlfiles", FileName(f')];
    JoinSplit(x, '/');
    JoinSplit(y, '/');
    SameRest(Absolute(elems) + "/", Join(x, '/'), Join(y, '/'));
    assert x[0] == y[0] && x[1] == y[1] && x[3] == y[3];
    FileNameInjective(f, f');
  }

  lemma {:induction false} SameRest(p: string, a: string, b: string)
    requires p + a == p + b
    ensures a == b
  {
    assert a == (p + a)[|p|..] && b == (p + b)[|p|..];
  }

  lemma {:induction false} Pieces(rel: string, i: nat, j: nat)
    requires 1 <= i < j <= |rel| && rel[0] == '/' && rel[i] == '/'
    ensures rel == "/" + rel[1..i] + "/" + rel[i + 1..j] + rel[j..]
  {
  }

  lemma {:induction false} FittingText(rel: string, i: nat, j: nat)
    requires Fits(rel, i, j)
    ensures var g := Groups(rel, i, j); rel == "/" + g[1] + "/" + g[2] + MIDDLE + g[3]
  {
    hide NoSpace;
    assert rel[j..] == MIDDLE + rel[j + |MIDDLE|..];
    Pieces(rel, i, j);
  }

  /** Whatever is parsed from any path, printed by this program or not, is a reading of it: the
      one with the longest possible namespace and then the shortest possible pod name. */
  lemma {:induction false} ParseSound(hpk: string, absPath: string)
    ensures var r, rel := Parse(hpk, absPath), TrimPrefix(absPath, hpk);
            !r.invalid ==>
              && "/" <= absPath
              && rel == "/" + r.pod.namespace + "/" + r.pod.name + MIDDLE + r.file
              && Preferred(rel, |r.pod.namespace| + 1, |r.pod.namespace| + |r.pod.name| + 2)
  {
    var rel := TrimPrefix(absPath, hpk);
    SubmatchExact(rel);
    hide FindStringSubmatch, Fits;
    if !Parse(hpk, absPath).invalid {
      var i: nat, j: nat :| Preferred(rel, i, j) && FindStringSubmatch(rel) == Groups(rel, i, j);
      PreferredFits(rel, i, j);
      FittingText(rel, i, j);
    }
  }

  lemma {:induction false} PreferredFits(rel: string, i: nat, j: nat)
    requires Preferred(rel, i, j)
    ensures Fits(rel, i, j) && |Groups(rel, i, j)[1]| == i - 1 && |Groups(rel, i, j)[2]| == j - i - 1
  {
  }

  /** The creation of a printed control file is dispatched on its kind, to its own pod. */
  lemma {:induction false} DispatchExact(rootPath: string, pod: NamespacedName, f: ControlFile)
    requires "/" <= rootPath && PlainPod(pod) && PlainFile(f)
    ensures Dispatch(HPK(rootPath), ControlFilePath(HPK(rootPath), pod, f)) ==
            if !Parsable(pod, f) then Ignores
            else if f == SysError then ReportsError(pod)
            else Reconciles(pod)
  {
    RoundTrip(rootPath, pod, f);
    ExtensionRecoversKind(f);
    ActionOnKind(f, pod);
    hide Parse, HPK, ControlFilePath, Ext, FileName, Extension, ActionOn, NoSpace, Plain;
  }

  /** The paths of the control files, written out. */
  lemma {:induction false} PrintedLiterally(rootPath: string, pod: NamespacedName, c: string)
    requires "/" <= rootPath && PlainPod(pod) && Plain(c)
    ensures var hpk := HPK(rootPath);
            var dir := hpk + "/" + pod.namespace + "/" + pod.name + "/controlfiles/";
            && ControlFilePath(hpk, pod, SysError) == dir + ".syserror"
            && ControlFilePath(hpk, pod, Ip) == dir + ".ip"
            && ControlFilePath(hpk, pod, JobId(c)) == dir + c + ".jobid"
            && ControlFilePath(hpk, pod, ExitCode(c)) == dir + c + ".exitCode"
  {
    FileNameTexts(c);
    hide HPK, ControlFilePath, FileName, Plain;
    PrintedText(rootPath, pod, SysError);
    PrintedText(rootPath, pod, Ip);
    PrintedText(rootPath, pod, JobId(c));
    PrintedText(rootPath, pod, ExitCode(c));
    var dir := HPK(rootPath) + "/" + pod.namespace + "/" + pod.name + "/controlfiles/";
    Regroup(dir, c, ".jobid");
    Regroup(dir, c, ".exitCode");
  }

  lemma {:induction false} FileNameTexts(c: string)
    ensures FileName(SysError) == ".syserror" && FileName(Ip) == ".ip"
    ensures FileName(JobId(c)) == c + ".jobid" && FileName(ExitCode(c)) == c + ".exitCode"
  {
  }

  lemma {:induction false} Regroup(a: string, b: string, c: string)
    ensures a + (b + c) == a + b + c
  {
  }

  lemma {:induction false} RegroupFive(h: string, n: string, p: string, m: string, f: string)
    ensures h + ("/" + n + "/" + p + m + f) == h + "/" + n + "/" + p + m + f
  {
  }

  lemma {:induction false} PrintedText(rootPath: string, pod: NamespacedName, f: ControlFile)
    requires "/" <= rootPath && PlainPod(pod) && PlainFile(f)
    ensures ControlFilePath(HPK(rootPath), pod, f) ==
            HPK(rootPath) + "/" + pod.namespace + "/" + pod.name + "/controlfiles/" + FileName(f)
  {
    var elems := HPKIsAbsolute(rootPath);
    hide HPK, ControlFilePath, Join, FileName, Plain, AllPlain, Absolute;
    PrintedPath(elems, pod, f);
    var hpk, rest := HPK(rootPath), Join([pod.namespace, pod.name, "controlfiles", FileName(f)], '/');
    Regroup(hpk, "/", rest);
    FourElements(pod.namespace, pod.name, FileName(f));
    RegroupFive(hpk, pod.namespace, pod.name, MIDDLE, FileName(f));
  }

  /** The dispatch, written out: what the creation of each kind of file leads to. */
  lemma {:induction false} DispatchLiterally(rootPath: string, pod: NamespacedName, c: string)
    requires "/" <= rootPath && PlainPod(pod) && Plain(c)
    requires NoSpace(pod.namespace) && NoSpace(pod.name) && '\n' !in c
    ensures var hpk := HPK(rootPath);
            var dir := hpk + "/" + pod.namespace + "/" + pod.name + "/controlfiles/";
            && Dispatch(hpk, dir + ".syserror") == ReportsError(pod)
            && Dispatch(hpk, dir + ".ip") == Reconciles(pod)
            && Dispatch(hpk, dir + c + ".jobid") == Reconciles(pod)
            && Dispatch(hpk, dir + c + ".exitCode") == Reconciles(pod)
  {
    AllParsable(pod, c);
    hide HPK, ControlFilePath, Dispatch, NoSpace, Parsable, Plain;
    PrintedLiterally(rootPath, pod, c);
    DispatchExact(rootPath, pod, SysError);
    DispatchExact(rootPath, pod, Ip);
    DispatchExact(rootPath, pod, JobId(c));
    DispatchExact(rootPath, pod, ExitCode(c));
  }

  lemma {:induction false} AllParsable(pod: NamespacedName, c: string)
    requires NoSpace(pod.namespace) && NoSpace(pod.name) && '\n' !in c
    ensures Parsable(pod, SysError) && Parsable(pod, Ip) && Parsable(pod, JobId(c)) && Parsable(pod, ExitCode(c))
  {
    hide NoSpace;
    assert '\n' !in ".syserror" && '\n' !in ".ip" && '\n' !in ".jobid" && '\n' !in ".exitCode";
  }

  /** A root given through its parent, or with "." or empty elements, names the same directory. */
  lemma {:induction false} HPKResolves(elems: seq<string>, x: string, detour: seq<string>)
    requires elems != [] && AllPlain(elems) && Plain(x)
    requires detour == [x, ".."] || detour == ["."] || detour == [""]
    ensures HPK(Absolute(elems) + "/" + Join(detour, '/')) == Absolute(elems) + "/.hpk"
  {
    var root := Absolute(elems) + "/" + Join(detour, '/');
    assert "/" <= Absolute(elems);
    SplitAbsolute(elems);
    DetourSplit(detour, x);
    hide Split, Absolute, Resolve, HPK, Join, Plain, AllPlain;
    SplitSeparator(Absolute(elems), Join(detour, '/'), '/');
    DetourResolved(elems, x, detour);
    HPKOfRoot(root);
    AbsoluteAppend(elems, [".hpk"]);
    OneElement(".hpk");
    Regroup(Absolute(elems), "/", ".hpk");
    assert "/" + ".hpk" == "/.hpk";
  }

  lemma {:induction false} OneElement(s: string)
    ensures Join([s], '/') == s
  {
  }

  lemma {:induction false} DetourSplit(detour: seq<string>, x: string)
    requires Plain(x) && (detour == [x, ".."] || detour == ["."] || detour == [""])
    ensures Split(Join(detour, '/'), '/') == detour
  {
    JoinSplit(detour, '/');
  }

  lemma {:induction false} HPKOfRoot(root: string)
    requires "/" <= root
    ensures HPK(root) == Absolute(Resolve(Split(root, '/'), true) + [".hpk"])
  {
    var parts := Split(root, '/');
    assert [root, ".hpk"] == [root] + [".hpk"];
    JoinAppend([root], [".hpk"], '/');
    SplitSeparator(root, ".hpk", '/');
    SplitNone(".hpk", '/');
    ResolvePlain(parts, [".hpk"]);
    hide Split, Resolve;
    assert Join([root, ".hpk"], '/') == root + "/" + ".hpk";
  }

  lemma {:induction false} DetourResolved(elems: seq<string>, x: string, detour: seq<string>)
    requires AllPlain(elems) && Plain(x)
    requires detour == [x, ".."] || detour == ["."] || detour == [""]
    ensures Resolve([""] + elems + detour, true) == elems
  {
    ResolvePlain([""], elems);
    assert [""][..0] == [] && Resolve([""], true) == [];
    var base := [""] + elems;
    assert Resolve(base, true) == elems;
    if detour == [x, ".."] {
      ResolvePlain(base, [x]);
      UpAgain(base + [x], elems, x);
      assert base + detour == (base + [x]) + [".."];
    } else {
      Skipped(base, detour[0]);
    }
  }

  lemma {:induction false} UpAgain(parts: seq<string>, elems: seq<string>, x: string)
    requires Resolve(parts, true) == elems + [x] && x != ".."
    ensures Resolve(parts + [".."], true) == elems
  {
    assert (parts + [".."])[..|parts|] == parts;
  }

  lemma {:induction false} Skipped(parts: seq<string>, part: string)
    requires part == "" || part == "."
    ensures Resolve(parts + [part], true) == Resolve(parts, true)
  {
    assert (parts + [part])[..|parts|] == parts;
  }

  lemma {:induction false} NoExtension(s: string)
    requires '.' !in s
    ensures Ext(s) == ""
  {
  }

  /** Any other file in the directory is ignored. */
  lemma {:induction false} OthersIgnored(rootPath: string, pod: NamespacedName, file: string)
    requires "/" <= rootPath && PlainPod(pod) && Plain(file)
    requires Ext(file) !in {".syserror", ".ip", ".jobid", ".exitCode"}
    ensures var hpk := HPK(rootPath);
            Dispatch(hpk, hpk + "/" + pod.namespace + "/" + pod.name + "/controlfiles/" + file) == Ignores
  {
    var elems := HPKIsAbsolute(rootPath);
    hide HPK, Join, Ext, Parse, NoSpace, Plain, AllPlain;
    var hpk, rest := HPK(rootPath), Join([pod.namespace, pod.name, "controlfiles", file], '/');
    ParsePrinted(hpk, pod, file);
    Regroup(hpk, "/", rest);
    FourElements(pod.namespace, pod.name, file);
    RegroupFive(hpk, pod.namespace, pod.name, MIDDLE, file);
  }

  /** Below a clean absolute root the HPK directory is `.hpk`. */
  lemma {:induction false} HPKLiterally(elems: seq<string>)
    requires elems != [] && AllPlain(elems)
    ensures HPK(Absolute(elems)) == Absolute(elems) + "/.hpk"
  {
    JoinPlain(elems, [".hpk"]);
    assert [Absolute(elems)] + [".hpk"] == [Absolute(elems), ".hpk"];
    AbsoluteAppend(elems, [".hpk"]);
    hide Absolute, FilepathJoin;
    assert Absolute(elems) + "/" + ".hpk" == Absolute(elems) + "/.hpk";
  }
}
