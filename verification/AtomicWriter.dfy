/** The atomic projection of a payload into a volume directory (compute/volume/util/atomic_writer.go).

    The target directory is modelled as what the algorithm distinguishes in it: the timestamped
    directories with their trees, the links `..data` and `..data_tmp`, and the user-visible links.
    Every operating-system call may fail, and non-atomic calls pass through arbitrary intermediate
    contents. `trace` records the directory after every change, so a crash can be placed anywhere.
    What the calls that only read answer is a parameter, `Answers`, because the code overlooks some
    of their errors and goes on. */
module AtomicWriter {
  import opened Prelude
  import opened Text

  type Bytes = seq<nat>

  /** The contents of one timestamped directory: file contents and sub-directories by path. */
  datatype Tree = Tree(files: map<string, Bytes>, dirs: set<string>)

  datatype Dir = Dir(
    stamped: map<string, Tree>, data: Option<string>, dataTmp: Option<string>, links: map<string, string>)

  const EMPTY_TREE := Tree(map[], {})
  const EMPTY_DIR := Dir(map[], None, None, map[])

  /** What a reader sees through `..data`. */
  datatype View = Nothing | Dangling | Shows(files: map<string, Bytes>)

  function ViewOf(d: Dir): View {
    if d.data.None? then Nothing
    else if d.data.value !in d.stamped then Dangling
    else Shows(d.stamped[d.data.value].files)
  }

  // ---- Paths ----

  /** The proper ancestors of a relative path. */
  function Ancestors(p: string): set<string> {
    set i | 0 < i < |p| && p[i] == '/' :: p[..i]
  }

  function AllAncestors(ps: set<string>): set<string> {
    set p, a | p in ps && a in Ancestors(p) :: a
  }

  /** The part of a path before its first slash. */
  function Top(p: string): string {
    p[..IndexOf(p, '/')]
  }

  function Tops(ps: set<string>): set<string> {
    set p | p in ps :: Top(p)
  }

  /** No payload path is also a directory of another one. */
  ghost predicate ConflictFree(ps: set<string>) {
    "." !in ps && forall p, q :: p in ps && q in ps ==> p !in Ancestors(q)
  }

  /** A file cannot be put at `p`: a directory is in its place, or a file in its way. */
  ghost predicate Blocked(t: Tree, p: string) {
    p == "." || p in t.dirs || exists a :: a in Ancestors(p) && a in t.files
  }

  /** The tree that holds exactly a payload. */
  function TreeOf(payload: map<string, Bytes>): Tree {
    Tree(payload, AllAncestors(payload.Keys))
  }

  const MAX_FILE_NAME := 255
  const MAX_PATH := 4096

  ghost predicate ValidPath(p: string) {
    && p != "" && p[0] != '/' && |p| <= 4096
    && (forall item :: item in Split(p, '/') ==> item != ".." && |item| <= 255)
    && !(".." <= Split(p, '/')[0])
  }

  method ValidatePath(p: string) returns (ok: bool)
    ensures ok <==> ValidPath(p)
  {
    hide Split;
    if p == "" || p[0] == '/' || |p| > MAX_PATH {
      return false;
    }
    var items := Split(p, '/');
    for i := 0 to |items|
      invariant forall j :: 0 <= j < i ==> items[j] != ".." && |items[j]| <= MAX_FILE_NAME
    {
      if items[i] == ".." || |items[i]| > MAX_FILE_NAME {
        assert items[i] in Split(p, '/');
        return false;
      }
    }
    assert items[0] in items;
    return !(".." <= items[0] && |items[0]| > 2);
  }

  method ValidatePayload(payload: map<string, Bytes>) returns (ok: bool)
    ensures ok <==> forall p :: p in payload ==> ValidPath(p)
  {
    var remaining := payload.Keys;
    while remaining != {}
      invariant remaining <= payload.Keys
      invariant forall p :: p in payload.Keys - remaining ==> ValidPath(p)
      decreases |remaining|
    {
      var p :| p in remaining;
      var valid := ValidatePath(p);
      if !valid {
        return false;
      }
      remaining := remaining - {p};
    }
    return true;
  }

  /** The ancestor loop: cut the last component off, again and again. It stops, and what it
      collects is the path and all its proper ancestors. */
  method SubPaths(file: string) returns (paths: set<string>)
    requires file != ""
    ensures paths == Ancestors(file) + {file}
  {
    paths := {};
    var subPath := file;
    while subPath != ""
      invariant subPath <= file
      invariant subPath == file || subPath == "" || (|subPath| < |file| && file[|subPath|] == '/')
      invariant paths == set i | |subPath| < i <= |file| && (i == |file| || file[i] == '/') :: file[..i]
      decreases |subPath|
    {
      assert subPath == file[..|subPath|];
      ghost var n := |subPath|;
      paths := paths + {subPath};
      var slash := LastIndexOf(subPath, '/');
      // filepath.Split keeps everything up to the last slash, TrimSuffix drops that slash
      subPath := if slash < 0 then "" else subPath[..slash];
      assert forall i :: |subPath| < i < n ==> file[i] != '/' by {
        forall i | |subPath| < i < n ensures file[i] != '/' {
          assert file[i] == file[..n][i];
        }
      }
    }
    assert paths == Ancestors(file) + {file} by {
      assert file[..|file|] == file;
      forall x | x in Ancestors(file) + {file} ensures x in paths {
        if x == file {
          assert file[..|file|] in paths;
        }
      }
      forall x | x in paths ensures x in Ancestors(file) + {file} {
        var i :| 0 < i <= |file| && (i == |file| || file[i] == '/') && x == file[..i];
        if i == |file| { assert x == file; }
      }
    }
  }

  // ---- The stored version ----

  /** The failures of the calls that only read: reading the `..data` link, listing directories of the
      stored version (its root is ""), examining or reading its files, and reading the visible link of
      a path. `faults` says of the calls that change something which ones fail of their own accord,
      counted from the creation of the volume object. */
  datatype Answers = Answers(
    dataLinkFails: bool, unlisted: set<string>, unread: set<string>, unprobed: set<string>, faults: nat -> bool)

  const NO_FAILURES := Answers(false, {}, {}, {}, _ => false)

  /** The paths that filepath.Walk visits: a directory that cannot be listed is visited itself, and
      nothing in it. The visitor of the code ignores such errors. */
  function Walked(t: Tree, unlisted: set<string>): set<string> {
    set p | p in t.files.Keys + t.dirs && "" !in unlisted && Ancestors(p) !! unlisted
  }

  datatype Found = Absent | FileFound(content: Bytes) | NotAFile

  /** What os.Lstat and os.ReadFile find at `p` inside a timestamped directory. */
  function Lookup(t: Tree, p: string): Found {
    if p in t.files then FileFound(t.files[p])
    else if p == "." || p in t.dirs || (exists a :: a in Ancestors(p) && a in t.files) then NotAFile
    else Absent
  }

  ghost predicate SameContent(payload: map<string, Bytes>, t: Tree) {
    forall p :: p in payload ==> p in t.files && t.files[p] == payload[p]
  }

  method ShouldWritePayload(payload: map<string, Bytes>, t: Tree, unread: set<string>)
    returns (should: bool, failed: bool)
    ensures !failed ==> (should <==> !SameContent(payload, t))
    ensures SameContent(payload, t) ==> !should && (failed <==> exists p :: p in payload && p in unread)
    ensures failed ==> exists p :: p in payload && (p in unread || Lookup(t, p).NotAFile?)
  {
    var remaining := payload.Keys;
    while remaining != {}
      invariant remaining <= payload.Keys
      invariant forall p :: p in payload.Keys - remaining ==> p in t.files && t.files[p] == payload[p] && p !in unread
      decreases |remaining|
    {
      var p :| p in remaining;
      // an Lstat that fails other than with "does not exist" is followed by a ReadFile that fails
      if p in unread {
        return false, true;
      }
      match Lookup(t, p) {
        case Absent =>
          return true, false;
        case NotAFile =>
          return false, true;
        case FileFound(content) =>
          if content != payload[p] {
            return true, false;
          }
      }
      remaining := remaining - {p};
    }
    return false, false;
  }

  function AllPaths(payload: map<string, Bytes>): set<string> {
    payload.Keys + AllAncestors(payload.Keys)
  }

  method PathsToRemove(payload: map<string, Bytes>, t: Tree, unlisted: set<string>) returns (paths: set<string>)
    requires "" !in payload
    ensures paths == Walked(t, unlisted) - AllPaths(payload)
  {
    var newPaths := {};
    var remaining := payload.Keys;
    while remaining != {}
      invariant remaining <= payload.Keys
      invariant newPaths == (payload.Keys - remaining) + AllAncestors(payload.Keys - remaining)
      decreases |remaining|
    {
      var file :| file in remaining;
      var subPaths := SubPaths(file);
      ghost var done := payload.Keys - remaining;
      remaining := remaining - {file};
      assert payload.Keys - remaining == done + {file};
      assert AllAncestors(done + {file}) == AllAncestors(done) + Ancestors(file);
      newPaths := newPaths + subPaths;
    }
    assert payload.Keys - remaining == payload.Keys;
    paths := Walked(t, unlisted) - newPaths;
  }

  /** Nothing differs and nothing is to be removed exactly when the stored payload is the new one. */
  lemma {:induction false} EarlyExitExact(stored: map<string, Bytes>, payload: map<string, Bytes>)
    requires ConflictFree(stored.Keys)
    ensures SameContent(payload, TreeOf(stored)) && AllPaths(stored) <= AllPaths(payload) <==> stored == payload
  {
    if SameContent(payload, TreeOf(stored)) && AllPaths(stored) <= AllPaths(payload) {
      forall p | p in stored ensures p in payload {
        assert p in AllPaths(payload);
        assert forall q :: q in payload ==> q in stored && p !in Ancestors(q);
      }
      assert stored.Keys == payload.Keys;
    }
  }

  /** The code finds nothing to write and nothing to remove. */
  ghost predicate EarlyExit(d: Dir, payload: map<string, Bytes>, os: Answers) {
    && d.data.Some? && d.data.value in d.stamped
    && var t := d.stamped[d.data.value];
    && SameContent(payload, t) && Walked(t, os.unlisted) <= AllPaths(payload)
  }

  /** Some payload path cannot be compared with the stored version. */
  ghost predicate Doubtful(d: Dir, payload: map<string, Bytes>, os: Answers) {
    && d.data.Some? && d.data.value in d.stamped
    && exists p :: p in payload && (p in os.unread || Lookup(d.stamped[d.data.value], p).NotAFile?)
  }

  /** An update is refused: the payload is not valid or conflicts with itself, the data link cannot be
      read, a temporary link is in the way, or a link that has to go is not there. */
  ghost predicate Refused(d: Dir, payload: map<string, Bytes>, os: Answers) {
    || (exists p :: p in payload && !ValidPath(p))
    || os.dataLinkFails
    || (!EarlyExit(d, payload, os) && Obstructed(d, payload, os))
  }

  ghost predicate Obstructed(d: Dir, payload: map<string, Bytes>, os: Answers) {
    || !ConflictFree(payload.Keys)
    || d.dataTmp.Some?
    || !(StaleTops(d, payload, os) <= d.links.Keys + Tops(payload.Keys - os.unprobed))
  }

  /** Nothing goes wrong in the operating system. */
  ghost predicate Harmless(os: Answers) {
    !os.dataLinkFails && os.unlisted == {} && os.unread == {} && os.unprobed == {} && forall n :: !os.faults(n)
  }

  /** Every path is valid, and none is a directory of another. */
  ghost predicate Acceptable(payload: map<string, Bytes>) {
    ConflictFree(payload.Keys) && forall p :: p in payload ==> ValidPath(p)
  }

  /** The top-level names that the code finds no longer wanted. */
  ghost function StaleTops(d: Dir, payload: map<string, Bytes>, os: Answers): set<string> {
    if d.data.Some? && d.data.value in d.stamped
    then SlashFree(Walked(d.stamped[d.data.value], os.unlisted) - AllPaths(payload))
    else {}
  }

  /** Some stored path is not wanted any more, and the failed listings hide all of those. */
  ghost predicate Overlooked(d: Dir, payload: map<string, Bytes>, os: Answers) {
    && EarlyExit(d, payload, os)
    && var t := d.stamped[d.data.value];
    && !(t.files.Keys + t.dirs <= AllPaths(payload))
  }

  function VersionsWithout(stamped: map<string, Tree>, previous: Option<string>): map<string, Tree> {
    if previous.Some? then stamped - {previous.value} else stamped
  }

  /** The links after a complete update from any state. */
  ghost function UpdatedLinks(d: Dir, payload: map<string, Bytes>, os: Answers): map<string, string> {
    WithLinks(d.links, Tops(payload.Keys - os.unprobed)) - StaleTops(d, payload, os)
  }

  /** What the overlooked errors must leave visible for an update of a tidy directory to come out
      right: no unwanted path hidden from an early exit; else a probe of every link not there yet, and
      a listing of the root if some link has to go. */
  ghost predicate ComesOutRight(d: Dir, payload: map<string, Bytes>, os: Answers) {
    if EarlyExit(d, payload, os) then !Overlooked(d, payload, os)
    else
      && Tops(payload.Keys) <= d.links.Keys + Tops(payload.Keys - os.unprobed)
      && ("" !in os.unlisted || d.links.Keys <= Tops(payload.Keys))
  }

  // ---- The directory ----

  /** A link that is there points to the complete, consistent tree of some payload. */
  ghost predicate WellStored(d: Dir) {
    d.data.Some? ==>
      && d.data.value in d.stamped
      && var t := d.stamped[d.data.value];
      && t == TreeOf(t.files) && ConflictFree(t.files.Keys)
  }

  /** Every directory state recorded from index `start` on shows `view`, through a sound link. */
  ghost predicate Steady(trace: seq<Dir>, start: nat, view: View) {
    forall i :: start <= i < |trace| ==> ViewOf(trace[i]) == view && WellStored(trace[i])
  }

  function LinkTarget(name: string): string {
    "..data/" + name
  }

  function LinksFor(names: set<string>): map<string, string> {
    map n | n in names :: LinkTarget(n)
  }

  lemma {:induction false} SteadyExtend(t0: seq<Dir>, t1: seq<Dir>, t2: seq<Dir>, view: View)
    requires t0 <= t1 <= t2 && Steady(t1, |t0|, view) && Steady(t2, |t1|, view)
    ensures Steady(t2, |t0|, view)
  {
    assert forall i :: 0 <= i < |t1| ==> t2[i] == t1[i];
  }

  /** Nothing but one complete version: its directory, the data link and the visible links. */
  ghost predicate Tidy(d: Dir) {
    || d == EMPTY_DIR
    || (&& d.data.Some? && d.data.value in d.stamped
        && var payload := d.stamped[d.data.value].files;
        && d.stamped == map[d.data.value := TreeOf(payload)]
        && d.dataTmp == None
        && d.links == LinksFor(Tops(payload.Keys))
        && ConflictFree(payload.Keys) && Relative(payload.Keys))
  }

  ghost predicate Relative(ps: set<string>) {
    forall p :: p in ps ==> p != "" && p[0] != '/'
  }

  /** The atomicity of an update: up to some moment every recorded state shows the complete old
      contents, from then on every one shows the complete new contents. */
  ghost predicate SwitchesOnce(trace: seq<Dir>, start: nat, before: View, after: View) {
    exists k :: SwitchesAt(trace, start, k, before, after)
  }

  ghost predicate SwitchesAt(trace: seq<Dir>, start: nat, k: nat, before: View, after: View) {
    && start <= k <= |trace|
    && Steady(trace[..k], start, before)
    && Steady(trace, k, after)
  }

  /** The outcome of the read-only steps 1 to 4. */
  datatype Verdict = Rejected | UpToDate | Update(toRemove: set<string>)

  class Volume {
    var stamped: map<string, Tree>
    var data: Option<string>
    var dataTmp: Option<string>
    var links: map<string, string>
    var calls: nat
    ghost var trace: seq<Dir>

    ghost function Now(): Dir
      reads this
    {
      Dir(stamped, data, dataTmp, links)
    }

    ghost predicate Valid()
      reads this
    {
      WellStored(Now())
    }

    /** Only new directory states were recorded, all showing what was there before. */
    twostate predicate Kept()
      reads this
    {
      && old(trace) <= trace
      && Steady(trace, |old(trace)|, ViewOf(old(Now())))
      && ViewOf(Now()) == ViewOf(old(Now()))
      && Valid()
    }

    constructor ()
      ensures Valid() && Now() == EMPTY_DIR && trace == [] && calls == 0
    {
      stamped, data, dataTmp, links, calls, trace := map[], None, None, map[], 0, [];
    }

    /** A restart after a crash finds the directory in some recorded state. */
    constructor Recover(d: Dir)
      requires WellStored(d)
      ensures Valid() && Now() == d && trace == []
    {
      stamped, data, dataTmp, links, calls, trace := d.stamped, d.data, d.dataTmp, d.links, 0, [];
    }

    /** No call since then has failed of its own accord. */
    twostate predicate NoFault(faults: nat -> bool)
      reads this
    {
      forall n :: old(calls) <= n < calls ==> !faults(n)
    }

    /** At most one call since then has failed of its own accord. */
    twostate predicate OneFault(faults: nat -> bool)
      reads this
    {
      forall m, n :: old(calls) <= m < n < calls ==> !faults(m) || !faults(n)
    }

    /** The operating system decides about a call. */
    method Fails(faults: nat -> bool) returns (fails: bool)
      modifies this`calls
      ensures calls == old(calls) + 1 && fails == faults(old(calls))
    {
      fails := faults(calls);
      calls := calls + 1;
    }

    ghost method Log()
      modifies this`trace
      ensures trace == old(trace) + [Now()]
    {
      trace := trace + [Now()];
    }

    /** os.MkdirTemp and os.Chmod; `stamp` is the name they come up with. */
    method NewTimestampDir(stamp: string, faults: nat -> bool) returns (ok: bool)
      requires Valid() && stamp !in stamped
      modifies this`stamped, this`trace, this`calls
      ensures Kept()
      ensures ok ==> stamped == old(stamped)[stamp := EMPTY_TREE]
      ensures calls >= old(calls) && (ok ==> NoFault(faults))
      ensures !ok ==> !NoFault(faults)
    {
      var mkdirFails := Fails(faults);
      if mkdirFails {
        return false;
      }
      stamped := stamped[stamp := EMPTY_TREE];
      Log();
      var chmodFails := Fails(faults);
      return !chmodFails;
    }

    /** os.RemoveAll passes through arbitrary partial contents and may stop half-way. */
    method RemoveAll(name: string, faults: nat -> bool) returns (ok: bool)
      requires Valid() && data != Some(name)
      modifies this`stamped, this`trace, this`calls
      ensures Kept()
      ensures ok ==> stamped == old(stamped) - {name}
      ensures calls >= old(calls) && (ok ==> NoFault(faults))
      ensures !ok ==> !NoFault(faults)
      ensures stamped - {name} == old(stamped) - {name}
    {
      var partial: Tree := *;
      if name in stamped {
        stamped := stamped[name := partial];
        Log();
      }
      var fails := Fails(faults);
      if fails {
        return false;
      }
      stamped := stamped - {name};
      Log();
      return true;
    }

    /** Replace the contents of a directory nobody sees. */
    method PutTree(stamp: string, t: Tree)
      requires Valid() && stamp in stamped && data != Some(stamp)
      modifies this`stamped, this`trace
      ensures Kept() && stamped == old(stamped)[stamp := t]
    {
      stamped := stamped[stamp := t];
      Log();
    }

    /** os.MkdirAll; it fails below a file, and may leave anything behind when it fails. */
    method MkdirAll(stamp: string, p: string, faults: nat -> bool) returns (ok: bool)
      requires Valid() && stamp in stamped && data != Some(stamp)
      modifies this`stamped, this`trace, this`calls
      ensures Kept() && stamp in stamped && stamped - {stamp} == old(stamped) - {stamp}
      ensures ok ==> stamped[stamp] == old(stamped[stamp]).(dirs := old(stamped[stamp]).dirs + Ancestors(p))
      ensures ok ==> forall a :: a in Ancestors(p) ==> a !in old(stamped[stamp]).files
      ensures calls >= old(calls) && (ok ==> NoFault(faults))
      ensures !ok ==> !NoFault(faults) || exists a :: a in Ancestors(p) && a in old(stamped[stamp]).files
    {
      var t := stamped[stamp];
      var partial: Tree := *;
      PutTree(stamp, partial);
      var fails := Fails(faults);
      if fails || exists a :: a in Ancestors(p) && a in t.files {
        return false;
      }
      ghost var before := trace;
      PutTree(stamp, t.(dirs := t.dirs + Ancestors(p)));
      SteadyExtend(old(trace), before, trace, ViewOf(old(Now())));
      return true;
    }

    /** os.WriteFile; it fails on a directory, and passes through partial contents. */
    method WriteFile(stamp: string, p: string, content: Bytes, faults: nat -> bool) returns (ok: bool)
      requires Valid() && stamp in stamped && data != Some(stamp)
      modifies this`stamped, this`trace, this`calls
      ensures Kept() && stamp in stamped && stamped - {stamp} == old(stamped) - {stamp}
      ensures ok ==> stamped[stamp] == old(stamped[stamp]).(files := old(stamped[stamp]).files[p := content])
      ensures ok ==> p != "." && p !in old(stamped[stamp]).dirs
      ensures calls >= old(calls) && (ok ==> NoFault(faults))
      ensures !ok ==> !NoFault(faults) || p == "." || p in old(stamped[stamp]).dirs
    {
      var t := stamped[stamp];
      if p == "." || p in t.dirs {
        return false;
      }
      var written: Bytes := *;
      PutTree(stamp, t.(files := t.files[p := written]));
      var fails := Fails(faults);
      if fails {
        return false;
      }
      ghost var before := trace;
      PutTree(stamp, t.(files := t.files[p := content]));
      SteadyExtend(old(trace), before, trace, ViewOf(old(Now())));
      return true;
    }

    method WriteOne(stamp: string, p: string, content: Bytes, faults: nat -> bool) returns (ok: bool)
      requires Valid() && stamp in stamped && data != Some(stamp)
      modifies this`stamped, this`trace, this`calls
      ensures Kept() && stamp in stamped && stamped - {stamp} == old(stamped) - {stamp}
      ensures ok ==> var t := old(stamped[stamp]);
        && stamped[stamp] == Tree(t.files[p := content], t.dirs + Ancestors(p))
        && p != "." && p !in t.dirs
        && (forall a :: a in Ancestors(p) ==> a !in t.files)
      ensures calls >= old(calls) && (ok ==> NoFault(faults))
      ensures !ok ==> !NoFault(faults) || Blocked(old(stamped[stamp]), p)
    {
      ok := MkdirAll(stamp, p, faults);
      if ok {
        ghost var before := trace;
        ok := WriteFile(stamp, p, content, faults);
        SteadyExtend(old(trace), before, trace, ViewOf(old(Now())));
      }
    }

    method WritePayloadToDir(payload: map<string, Bytes>, stamp: string, faults: nat -> bool) returns (ok: bool)
      requires Valid() && stamp in stamped && data != Some(stamp) && stamped[stamp] == EMPTY_TREE
      modifies this`stamped, this`trace, this`calls
      ensures Kept() && stamp in stamped && stamped - {stamp} == old(stamped) - {stamp}
      ensures ok ==> stamped[stamp] == TreeOf(payload) && ConflictFree(payload.Keys)
      ensures calls >= old(calls) && (ok ==> NoFault(faults))
      ensures !ok ==> !NoFault(faults) || !ConflictFree(payload.Keys)
    {
      var remaining := payload.Keys;
      ghost var done: set<string> := {};
      while remaining != {}
        invariant remaining <= payload.Keys && done == payload.Keys - remaining
        invariant Kept() && stamp in stamped && stamped - {stamp} == old(stamped) - {stamp}
        invariant calls >= old(calls) && NoFault(faults)
        invariant stamped[stamp] == TreeOf(Restrict(payload, done))
        invariant ConflictFree(done)
        decreases |remaining|
      {
        var p :| p in remaining;
        ghost var before := trace;
        var written := WriteOne(stamp, p, payload[p], faults);
        SteadyExtend(old(trace), before, trace, ViewOf(old(Now())));
        if !written {
          BlockedConflict(payload, done, p);
          return false;
        }
        AddFile(payload, done, p);
        done := done + {p};
        remaining := remaining - {p};
      }
      assert Restrict(payload, done) == payload;
      return true;
    }

    /** os.Symlink(stamp, "..data_tmp"); it fails if the name exists. */
    method LinkTmp(stamp: string, faults: nat -> bool) returns (ok: bool)
      requires Valid()
      modifies this`dataTmp, this`trace, this`calls
      ensures Kept()
      ensures ok ==> old(dataTmp) == None && dataTmp == Some(stamp)
      ensures !ok ==> dataTmp == old(dataTmp)
      ensures calls >= old(calls) && (ok ==> NoFault(faults))
      ensures !ok ==> !NoFault(faults) || old(dataTmp).Some?
    {
      var fails := Fails(faults);
      if fails || dataTmp.Some? {
        return false;
      }
      dataTmp := Some(stamp);
      Log();
      return true;
    }

    /** os.Rename("..data_tmp", "..data"), the atomic switch. */
    method SwitchData(faults: nat -> bool) returns (ok: bool)
      requires Valid() && dataTmp.Some? && dataTmp.value in stamped
      requires var t := stamped[dataTmp.value]; t == TreeOf(t.files) && ConflictFree(t.files.Keys)
      modifies this`data, this`dataTmp, this`trace, this`calls
      ensures Valid()
      ensures ok ==> data == old(dataTmp) && dataTmp == None && trace == old(trace) + [Now()]
      ensures !ok ==> Now() == old(Now()) && trace == old(trace)
      ensures calls >= old(calls) && (ok ==> NoFault(faults))
      ensures !ok ==> !NoFault(faults)
    {
      var fails := Fails(faults);
      if fails {
        return false;
      }
      data, dataTmp := dataTmp, None;
      Log();
      return true;
    }

    method RemoveTmp(faults: nat -> bool)
      requires Valid()
      modifies this`dataTmp, this`trace, this`calls
      ensures Kept() && calls == old(calls) + 1
      ensures dataTmp == if faults(old(calls)) then old(dataTmp) else None
    {
      var fails := Fails(faults);
      if !fails {
        dataTmp := None;
        Log();
      }
    }

    /** Only user-visible links were touched. */
    twostate predicate LinksOnly()
      reads this
    {
      && old(trace) <= trace
      && stamped == old(stamped) && data == old(data)
      && (forall i :: |old(trace)| <= i < |trace| ==> trace[i].stamped == stamped && trace[i].data == data)
    }

    /** A link is created if reading it says that it does not exist; after any other error the code
        goes on as if it were there. */
    method CreateLink(name: string, unprobed: bool, faults: nat -> bool) returns (ok: bool)
      modifies this`links, this`trace, this`calls
      ensures LinksOnly()
      ensures ok ==> links == if unprobed || name in old(links) then old(links)
        else old(links)[name := LinkTarget(name)]
      ensures calls >= old(calls) && (ok ==> NoFault(faults))
      ensures !ok ==> !NoFault(faults)
    {
      if unprobed || name in links {
        return true;
      }
      var fails := Fails(faults);
      if fails {
        return false;
      }
      links := links[name := LinkTarget(name)];
      Log();
      return true;
    }

    method CreateUserVisibleFiles(payload: map<string, Bytes>, unprobed: set<string>, faults: nat -> bool)
      returns (ok: bool)
      modifies this`links, this`trace, this`calls
      ensures LinksOnly()
      ensures ok ==> links == WithLinks(old(links), Tops(payload.Keys - unprobed))
      ensures calls >= old(calls) && (ok ==> NoFault(faults))
      ensures !ok ==> !NoFault(faults)
    {
      hide Tops, WithLinks, Top;
      var remaining := payload.Keys;
      ghost var names: set<string> := {};
      NothingLinked(links, remaining, unprobed);
      while remaining != {}
        invariant remaining <= payload.Keys
        invariant LinksOnly()
        invariant calls >= old(calls) && NoFault(faults)
        invariant names == Tops(payload.Keys - remaining - unprobed) && links == WithLinks(old(links), names)
        decreases |remaining|
      {
        var p :| p in remaining;
        var created := CreateLink(Top(p), p in unprobed, faults);
        if !created {
          return false;
        }
        WithLinksAdd(old(links), names, Top(p));
        TopsAdd(payload.Keys, remaining, unprobed, p);
        names := if p in unprobed then names else names + {Top(p)};
        remaining := remaining - {p};
      }
      assert payload.Keys - remaining - unprobed == payload.Keys - unprobed;
      return true;
    }

    method RemoveLink(name: string, faults: nat -> bool) returns (ok: bool)
      modifies this`links, this`trace, this`calls
      ensures LinksOnly()
      ensures ok ==> links == old(links) - {name} && name in old(links)
      ensures calls >= old(calls) && (ok ==> NoFault(faults))
      ensures !ok ==> !NoFault(faults) || name !in old(links)
    {
      var fails := Fails(faults);
      if fails || name !in links {
        return false;
      }
      links := links - {name};
      Log();
      return true;
    }

    method RemoveUserVisiblePaths(paths: set<string>, faults: nat -> bool) returns (ok: bool)
      modifies this`links, this`trace, this`calls
      ensures LinksOnly()
      ensures ok ==> links == old(links) - SlashFree(paths) && SlashFree(paths) <= old(links).Keys
      ensures calls >= old(calls) && (ok ==> NoFault(faults))
      ensures !ok ==> !NoFault(faults) || !(SlashFree(paths) <= old(links).Keys)
    {
      ok := true;
      var remaining := paths;
      assert paths - remaining == {} && links == links - SlashFree({});
      while remaining != {}
        invariant remaining <= paths
        invariant LinksOnly()
        invariant ok ==> links == old(links) - SlashFree(paths - remaining)
        invariant ok ==> SlashFree(paths - remaining) <= old(links).Keys
        invariant calls >= old(calls) && (ok ==> NoFault(faults))
        invariant !ok ==> !NoFault(faults) || !(SlashFree(paths) <= old(links).Keys)
        decreases |remaining|
      {
        var p :| p in remaining;
        SlashFreeAdd(paths, remaining, p);
        if '/' !in p {
          var removed := RemoveLink(p, faults);
          ok := ok && removed;
        }
        remaining := remaining - {p};
      }
      assert paths - remaining == paths;
    }

    /** Steps 1 to 4: validate, find the stored version, compare. Nothing is changed. */
    method Examine(payload: map<string, Bytes>, os: Answers) returns (verdict: Verdict)
      requires Valid()
      ensures verdict.UpToDate? ==> EarlyExit(Now(), payload, os)
      ensures verdict.Update? ==> !EarlyExit(Now(), payload, os) && forall p :: p in payload ==> ValidPath(p)
      ensures verdict.Update? ==>
        verdict.toRemove == if data.None? then {} else Walked(stamped[data.value], os.unlisted) - AllPaths(payload)
      ensures EarlyExit(Now(), payload, os) ==>
        (verdict.UpToDate? <==>
          (forall p :: p in payload ==> ValidPath(p) && p !in os.unread) && !os.dataLinkFails)
      ensures verdict.Rejected? ==>
        (exists p :: p in payload && !ValidPath(p)) || os.dataLinkFails || Doubtful(Now(), payload, os)
      ensures !verdict.Rejected? ==> !os.dataLinkFails && forall p :: p in payload ==> ValidPath(p)
    {
      var valid := ValidatePayload(payload);
      if !valid {
        return Rejected;
      }
      if os.dataLinkFails {
        return Rejected;
      }
      if data.None? {
        return Update({});
      }
      var t := stamped[data.value];
      var toRemove := PathsToRemove(payload, t, os.unlisted);
      var should, failed := ShouldWritePayload(payload, t, os.unread);
      assert toRemove == {} <==> Walked(t, os.unlisted) <= AllPaths(payload) by {
        assert forall p :: p in toRemove <==> p in Walked(t, os.unlisted) && p !in AllPaths(payload);
      }
      if failed {
        return Rejected;
      }
      if !should && toRemove == {} {
        return UpToDate;
      }
      return Update(toRemove);
    }

    /** Steps 5 to 7: a complete new version, linked from `..data_tmp`, that nobody sees yet. */
    method Prepare(payload: map<string, Bytes>, stamp: string, faults: nat -> bool) returns (ok: bool)
      requires Valid() && stamp !in stamped
      modifies this`stamped, this`dataTmp, this`trace, this`calls
      ensures Kept()
      ensures calls >= old(calls) && (ok ==> NoFault(faults))
      ensures !ok ==> !NoFault(faults) || !ConflictFree(payload.Keys) || old(dataTmp).Some?
      ensures !ok ==> dataTmp == old(dataTmp)
      ensures !ok && NoFault(faults) && ConflictFree(payload.Keys) ==> stamped == old(stamped)
      ensures ok ==> old(dataTmp) == None && dataTmp == Some(stamp) && ConflictFree(payload.Keys)
      ensures ok ==> stamped == old(stamped)[stamp := TreeOf(payload)]
    {
      ok := NewTimestampDir(stamp, faults);
      if !ok {
        return;
      }
      ghost var t1 := trace;
      ok := WritePayloadToDir(payload, stamp, faults);
      SteadyExtend(old(trace), t1, trace, ViewOf(old(Now())));
      if !ok {
        return;
      }
      assert stamped - {stamp} == old(stamped) by {
        assert old(stamped)[stamp := EMPTY_TREE] - {stamp} == old(stamped);
      }
      assert stamped == old(stamped)[stamp := TreeOf(payload)];
      ghost var t2 := trace;
      ok := LinkTmp(stamp, faults);
      SteadyExtend(old(trace), t2, trace, ViewOf(old(Now())));
      if !ok {
        ghost var t3 := trace;
        var _ := RemoveAll(stamp, faults);
        SteadyExtend(old(trace), t3, trace, ViewOf(old(Now())));
      }
    }

    /** Clean-up after a failed rename. */
    method Abandon(stamp: string, faults: nat -> bool)
      requires Valid() && data != Some(stamp)
      modifies this`stamped, this`dataTmp, this`trace, this`calls
      ensures Kept() && calls > old(calls)
      ensures dataTmp == if faults(old(calls)) then old(dataTmp) else None
      ensures NoFault(faults) ==> stamped == old(stamped) - {stamp}
    {
      RemoveTmp(faults);
      ghost var t := trace;
      var _ := RemoveAll(stamp, faults);
      SteadyExtend(old(trace), t, trace, ViewOf(old(Now())));
    }

    /** Steps 9 to 11, after the switch: visible links, and removal of the old version. */
    method Publish(payload: map<string, Bytes>, toRemove: set<string>, oldStamp: Option<string>, os: Answers)
      returns (ok: bool)
      requires Valid() && (oldStamp.Some? ==> data != oldStamp)
      modifies this`stamped, this`links, this`trace, this`calls
      ensures Kept()
      ensures calls >= old(calls) && (ok ==> NoFault(os.faults))
      ensures ok ==> SlashFree(toRemove) <= old(links).Keys + Tops(payload.Keys - os.unprobed)
      ensures !ok ==>
        !NoFault(os.faults) || !(SlashFree(toRemove) <= old(links).Keys + Tops(payload.Keys - os.unprobed))
      ensures ok ==> links == WithLinks(old(links), Tops(payload.Keys - os.unprobed)) - SlashFree(toRemove)
      ensures ok ==> stamped == if oldStamp.Some? then old(stamped) - {oldStamp.value} else old(stamped)
    {
      ok := CreateUserVisibleFiles(payload, os.unprobed, os.faults);
      if !ok {
        return;
      }
      ok := RemoveUserVisiblePaths(toRemove, os.faults);
      if !ok {
        return;
      }
      if oldStamp.Some? {
        ghost var t := trace;
        ok := RemoveAll(oldStamp.value, os.faults);
        SteadyExtend(old(trace), t, trace, ViewOf(old(Now())));
      }
    }

    /** Steps 5 to 11: a new version is prepared, switched to and published. */
    method Replace(payload: map<string, Bytes>, stamp: string, os: Answers, toRemove: set<string>) returns (ok: bool)
      requires Valid() && stamp !in stamped && !EarlyExit(Now(), payload, os)
      requires forall p :: p in payload ==> ValidPath(p)
      requires toRemove == if data.None? then {} else Walked(stamped[data.value], os.unlisted) - AllPaths(payload)
      modifies this
      ensures Valid()
      ensures old(trace) <= trace && SwitchesOnce(trace, |old(trace)|, ViewOf(old(Now())), Shows(payload))
      ensures ViewOf(Now()) == ViewOf(old(Now())) || ViewOf(Now()) == Shows(payload)
      ensures calls >= old(calls)
      ensures ok ==> NoFault(os.faults) && !Obstructed(old(Now()), payload, os)
      ensures !ok ==> !NoFault(os.faults) || Obstructed(old(Now()), payload, os)
      ensures old(dataTmp) == None && OneFault(os.faults) ==> dataTmp == None
      ensures old(dataTmp).Some? && ConflictFree(payload.Keys) && NoFault(os.faults) ==> Now() == old(Now())
      ensures ok ==>
        && ViewOf(Now()) == Shows(payload)
        && data == Some(stamp) && old(dataTmp) == None && dataTmp == None
        && stamped == VersionsWithout(old(stamped), old(data))[stamp := TreeOf(payload)]
        && links == UpdatedLinks(old(Now()), payload, os)
        && Tops(payload.Keys - os.unprobed) <= links.Keys
      ensures ok && Tidy(old(Now())) ==> (Tidy(Now()) <==> ComesOutRight(old(Now()), payload, os))
    {
      hide EarlyExit, UpdatedLinks, ComesOutRight, Tidy, Walked, SlashFree, WithLinks, Tops, AllPaths, StaleTops;
      ghost var start, before := trace, Now();
      UpdatedIs(before, payload, os, toRemove);
      var oldStamp := data;
      ok := Prepare(payload, stamp, os.faults);
      if !ok {
        NotSwitched(start, trace, ViewOf(before), Shows(payload));
        return;
      }
      ghost var prepared, t1 := Now(), trace;
      ok := SwitchData(os.faults);
      if !ok {
        Abandon(stamp, os.faults);
        SteadyExtend(start, t1, trace, ViewOf(before));
        NotSwitched(start, trace, ViewOf(before), Shows(payload));
        return;
      }
      ghost var switched, t2 := Now(), trace;
      ok := Publish(payload, toRemove, oldStamp, os);
      Switched(start, t1, t2, trace, ViewOf(before), Shows(payload));
      if ok {
        TopsStay(before, payload, os);
        assert stamped == VersionsWithout(before.stamped, oldStamp)[stamp := TreeOf(payload)];
        if Tidy(before) {
          TidyExact(before, switched, Now(), payload, os);
        }
      }
    }

    /** The whole algorithm. Wherever it stops, readers of `..data` have seen the complete old
        contents up to one moment and the complete new contents from then on. A success shows the
        payload unless unwanted paths were overlooked. It changes nothing exactly on an early exit,
        in particular when the payload is what is stored. It succeeds with a change only if no
        earlier run left `..data_tmp` behind. A tidy directory stays tidy and shows the payload exactly
        if what was overlooked does no harm. */
    method Write(payload: map<string, Bytes>, stamp: string, os: Answers) returns (ok: bool)
      requires Valid() && stamp !in stamped
      modifies this
      ensures Valid()
      ensures old(trace) <= trace && SwitchesOnce(trace, |old(trace)|, ViewOf(old(Now())), Shows(payload))
      ensures ViewOf(Now()) == ViewOf(old(Now())) || ViewOf(Now()) == Shows(payload)
      ensures ok ==> (ViewOf(Now()) == Shows(payload) <==> !Overlooked(old(Now()), payload, os))
      ensures EarlyExit(old(Now()), payload, os) ==> Now() == old(Now()) && trace == old(trace)
      ensures EarlyExit(old(Now()), payload, os) ==>
        (ok <==> (forall p :: p in payload ==> ValidPath(p) && p !in os.unread) && !os.dataLinkFails)
      ensures ViewOf(old(Now())) == Shows(payload) ==> EarlyExit(old(Now()), payload, os)
      ensures calls >= old(calls)
      ensures ok ==> NoFault(os.faults) && !Refused(old(Now()), payload, os)
      ensures !ok ==> !NoFault(os.faults) || Refused(old(Now()), payload, os) || Doubtful(old(Now()), payload, os)
      ensures old(dataTmp) == None && OneFault(os.faults) ==> dataTmp == None
      ensures old(dataTmp).Some? && Acceptable(payload) && NoFault(os.faults) ==> Now() == old(Now())
      ensures Tidy(old(Now())) && Harmless(os) && Acceptable(payload) && !Doubtful(old(Now()), payload, os) ==>
        ok && TidyWith(Now(), payload)
      ensures ok && !EarlyExit(old(Now()), payload, os) ==>
        && data == Some(stamp) && old(dataTmp) == None && dataTmp == None
        && stamped == VersionsWithout(old(stamped), old(data))[stamp := TreeOf(payload)]
        && links == UpdatedLinks(old(Now()), payload, os)
        && Tops(payload.Keys - os.unprobed) <= links.Keys
      ensures ok && Tidy(old(Now())) ==>
        (TidyWith(Now(), payload) <==> ComesOutRight(old(Now()), payload, os))
    {
      hide EarlyExit, Overlooked, UpdatedLinks, ComesOutRight, Tidy, Walked, Tops, AllPaths, Doubtful, Harmless,
        Acceptable, Obstructed;
      ghost var start, before := trace, Now();
      var verdict := Examine(payload, os);
      assert SwitchesAt(start, |start|, |start|, ViewOf(before), Shows(payload));
      StoredExact(before, payload, os);
      AcceptableIs(payload);
      if Tidy(before) {
        TidySucceeds(before, payload, os);
      }
      match verdict {
        case Rejected => return false;
        case UpToDate => return true;
        case Update(toRemove) => ok := Replace(payload, stamp, os, toRemove);
      }
    }
  }

  /** With the stored version sound: an early exit is right exactly if nothing was overlooked, and a
      payload that is stored already always leads to one. */
  lemma {:induction false} StoredExact(d: Dir, payload: map<string, Bytes>, os: Answers)
    requires WellStored(d)
    ensures EarlyExit(d, payload, os) ==> (ViewOf(d) == Shows(payload) <==> !Overlooked(d, payload, os))
    ensures ViewOf(d) == Shows(payload) ==> EarlyExit(d, payload, os)
    ensures !EarlyExit(d, payload, os) ==> !Overlooked(d, payload, os)
    ensures EarlyExit(d, payload, os) ==> (ComesOutRight(d, payload, os) <==> !Overlooked(d, payload, os))
  {
    if d.data.Some? {
      var t := d.stamped[d.data.value];
      EarlyExitExact(t.files, payload);
      assert AllPaths(t.files) == t.files.Keys + t.dirs;
    }
  }

  const ONE: map<string, Bytes> := map["a" := [1]]
  const TWO: map<string, Bytes> := map["a" := [1], "b" := [2]]
  const TWO_STORED := Dir(map["s" := TreeOf(TWO)], Some("s"), None, LinksFor({"a", "b"}))
  const ROOT_UNLISTED := Answers(false, {""}, {}, {}, _ => false)
  const LINK_UNPROBED := Answers(false, {}, {}, {"a"}, _ => false)

  /** A listing of the stored root that fails lets a success leave a deleted file in place. */
  method DeletedFileStays() returns (volume: Volume, ok: bool)
    ensures fresh(volume) && ok && ViewOf(volume.Now()) == Shows(TWO)
  {
    BothStored();
    hide EarlyExit, ValidPath, Tidy, SwitchesOnce, UpdatedLinks, ComesOutRight, Overlooked, WellStored, Tops, TreeOf;
    volume := new Volume.Recover(TWO_STORED);
    ok := volume.Write(ONE, "t", ROOT_UNLISTED);
  }

  lemma {:induction false} BothStored()
    ensures WellStored(TWO_STORED) && ViewOf(TWO_STORED) == Shows(TWO) && "t" !in TWO_STORED.stamped
    ensures EarlyExit(TWO_STORED, ONE, ROOT_UNLISTED) && forall p :: p in ONE ==> ValidPath(p)
  {
    PlainNames();
    assert TWO.Keys == {"a", "b"};
    assert Walked(TreeOf(TWO), {""}) == {};
    assert "t"[0] == 't' && "s"[0] == 's';
  }

  /** A link whose probe fails is not made, and no later write of the same payload makes it. */
  method MissingLinkStays() returns (volume: Volume, first: bool, second: bool)
    ensures fresh(volume) && first && second && "a" !in volume.links && ViewOf(volume.Now()) == Shows(ONE)
  {
    PlainNames();
    OneUnlinked();
    hide ValidPath, Tidy, SwitchesOnce, ComesOutRight, Overlooked, UpdatedLinks, EarlyExit, Tops, WellStored,
      Refused, Doubtful, Harmless, Acceptable;
    volume := new Volume();
    first := volume.Write(ONE, "s", LINK_UNPROBED);
    assert "t"[0] != "s"[0];
    second := volume.Write(ONE, "t", NO_FAILURES);
  }

  /** Any sequence of successful writes to an empty directory: after every one of them the directory
      is tidy and shows the payload just written, exactly if none overlooks anything that matters. */
  method WriteAll(payloads: seq<map<string, Bytes>>, stamps: seq<string>, os: seq<Answers>)
    returns (volume: Volume, ok: bool, ghost states: seq<Dir>)
    requires |payloads| == |stamps| == |os| > 0
    ensures fresh(volume) && volume.Valid()
    ensures ok ==> |states| == |payloads| + 1 && states[0] == EMPTY_DIR && states[|payloads|] == volume.Now()
    ensures ok ==> (AllRight(states, payloads, |payloads|) <==> AllSeen(states, payloads, os, |payloads|))
    ensures ok && (forall i :: 0 <= i < |os| ==> os[i].unlisted == {} && os[i].unprobed == {}) ==>
      Tidy(volume.Now()) && ViewOf(volume.Now()) == Shows(payloads[|payloads| - 1])
    ensures Smooth(payloads, stamps, os) ==> ok
  {
    hide Tidy, TidyWith, ViewOf, ComesOutRight, AllRight, AllSeen, WellStored, EarlyExit, Overlooked, UpdatedLinks,
      SwitchesOnce, Tops, Refused, Doubtful, Harmless, Acceptable, Smooth, OnTrack;
    volume := new Volume();
    ok, states := true, [EMPTY_DIR];
    NothingYet(payloads, os);
    if Smooth(payloads, stamps, os) {
      StartOnTrack(payloads, stamps, os);
    }
    for i := 0 to |payloads|
      invariant fresh(volume) && volume.Valid() && ok
      invariant |states| == i + 1 && states[0] == EMPTY_DIR && states[i] == volume.Now()
      invariant forall k :: 0 <= k <= i ==> WellStored(states[k])
      invariant AllRight(states, payloads, i) <==> AllSeen(states, payloads, os, i)
      invariant Smooth(payloads, stamps, os) ==> OnTrack(volume.Now(), payloads, stamps, i)
    {
      ghost var before := volume.Now();
      if Smooth(payloads, stamps, os) {
        SmoothNext(before, payloads, stamps, os, i);
      }
      if stamps[i] in volume.stamped {
        return volume, false, states;
      }
      ok := volume.Write(payloads[i], stamps[i], os[i]);
      if !ok {
        return volume, false, states;
      }
      if Smooth(payloads, stamps, os) {
        StillOnTrack(before, volume.Now(), payloads, stamps, os, i);
      }
      NextRight(states, volume.Now(), payloads, os);
      states := states + [volume.Now()];
    }
    if forall i :: 0 <= i < |os| ==> os[i].unlisted == {} && os[i].unprobed == {} {
      NoFailuresSeen(states, payloads, os, |payloads|);
      LastRight(states, payloads);
    }
  }

  /** Different stamps, acceptable payloads, no path of one in the way of the next, and an operating
      system that does its work. */
  ghost predicate Smooth(payloads: seq<map<string, Bytes>>, stamps: seq<string>, os: seq<Answers>) {
    && |payloads| == |stamps| == |os| && Distinct(stamps)
    && (forall i :: 0 <= i < |payloads| ==> Acceptable(payloads[i]) && Harmless(os[i]))
    && (forall i, p :: 0 < i < |payloads| && p in payloads[i] ==> !Lookup(TreeOf(payloads[i - 1]), p).NotAFile?)
  }

  /** After `n` smooth writes: tidy, with the last payload, under one of the stamps used. */
  ghost predicate OnTrack(d: Dir, payloads: seq<map<string, Bytes>>, stamps: seq<string>, n: nat) {
    && n <= |payloads| == |stamps| && Tidy(d)
    && (if n == 0 then d == EMPTY_DIR else ViewOf(d) == Shows(payloads[n - 1]))
    && (forall t :: t in d.stamped ==> t in stamps[..n])
  }

  lemma {:induction false} SmoothNext(
    d: Dir, payloads: seq<map<string, Bytes>>, stamps: seq<string>, os: seq<Answers>, n: nat)
    requires Smooth(payloads, stamps, os) && OnTrack(d, payloads, stamps, n) && n < |payloads|
    ensures stamps[n] !in d.stamped && Tidy(d)
    ensures Harmless(os[n]) && Acceptable(payloads[n]) && !Doubtful(d, payloads[n], os[n])
  {
    hide Harmless, Acceptable, LinksFor, Tops, ConflictFree;
    assert Harmless(os[n]) && Acceptable(payloads[n]);
    assert os[n].unread == {} by {
      HarmlessReads(os[n]);
    }
    if d.data.Some? && n > 0 {
      assert d.stamped[d.data.value] == TreeOf(payloads[n - 1]);
    }
  }

  lemma {:induction false} StartOnTrack(payloads: seq<map<string, Bytes>>, stamps: seq<string>, os: seq<Answers>)
    requires Smooth(payloads, stamps, os)
    ensures OnTrack(EMPTY_DIR, payloads, stamps, 0)
  {
  }

  lemma {:induction false} HarmlessReads(os: Answers)
    requires Harmless(os)
    ensures os.unread == {}
  {
  }

  lemma {:induction false} StillOnTrack(
    d: Dir, next: Dir, payloads: seq<map<string, Bytes>>, stamps: seq<string>, os: seq<Answers>, n: nat)
    requires OnTrack(d, payloads, stamps, n) && n < |payloads| == |os| && TidyWith(next, payloads[n])
    requires || next == d
             || next.stamped == VersionsWithout(d.stamped, d.data)[stamps[n] := TreeOf(payloads[n])]
    ensures OnTrack(next, payloads, stamps, n + 1)
  {
    hide Tidy, TreeOf;
    forall t | t in next.stamped ensures t in stamps[..n + 1] {
      if t == stamps[n] {
        assert stamps[..n + 1][n] == t;
      } else {
        assert t in stamps[..n];
      }
    }
  }

  /** Tidy, and the contents are the payload. */
  ghost predicate TidyWith(d: Dir, payload: map<string, Bytes>) {
    Tidy(d) && ViewOf(d) == Shows(payload)
  }

  /** The first `n` writes each left a tidy directory that showed their payload. */
  ghost predicate AllRight(states: seq<Dir>, payloads: seq<map<string, Bytes>>, n: nat)
    requires n < |states| && n <= |payloads|
  {
    forall i :: 0 < i <= n ==> TidyWith(states[i], payloads[i - 1])
  }

  ghost predicate AllSeen(states: seq<Dir>, payloads: seq<map<string, Bytes>>, os: seq<Answers>, n: nat)
    requires n < |states| && n <= |payloads| && n <= |os|
  {
    forall i :: 0 <= i < n ==> ComesOutRight(states[i], payloads[i], os[i])
  }

  /** A file opened by its user-visible path: top-level link, data link, file. */
  function ReadVisible(d: Dir, p: string): Option<Bytes> {
    if Top(p) in d.links && d.links[Top(p)] == LinkTarget(Top(p)) && d.data.Some? && d.data.value in d.stamped
       && p in d.stamped[d.data.value].files
    then Some(d.stamped[d.data.value].files[p]) else None
  }

  /** In a tidy directory the user-visible files are exactly the payload. */
  lemma {:induction false} TidyShowsPayload(d: Dir, payload: map<string, Bytes>)
    requires Tidy(d) && ViewOf(d) == Shows(payload)
    ensures forall p :: ReadVisible(d, p) == if p in payload then Some(payload[p]) else None
    ensures d.links.Keys == Tops(payload.Keys) && d.dataTmp == None && |d.stamped| == 1
    ensures forall n :: n in d.links ==> d.links[n] == "..data/" + n
  {
    forall p | p in payload ensures Top(p) in d.links {}
    assert d.stamped.Keys == {d.data.value};
    assert |d.stamped| == |d.stamped.Keys|;
  }

  lemma {:induction false} NotSwitched(start: seq<Dir>, trace: seq<Dir>, before: View, after: View)
    requires start <= trace && Steady(trace, |start|, before)
    ensures SwitchesOnce(trace, |start|, before, after)
  {
    assert trace[..|trace|] == trace;
    assert SwitchesAt(trace, |start|, |trace|, before, after);
  }

  lemma {:induction false} Switched(start: seq<Dir>, t1: seq<Dir>, t2: seq<Dir>, trace: seq<Dir>, before: View,
    after: View)
    requires start <= t1 <= t2 <= trace && |t2| == |t1| + 1
    requires Steady(t1, |start|, before) && Steady(t2, |t1|, after) && Steady(trace, |t2|, after)
    ensures SwitchesOnce(trace, |start|, before, after)
  {
    SteadyExtend(t1, t2, trace, after);
    assert trace[..|t1|] == t1;
    assert SwitchesAt(trace, |start|, |t1|, before, after);
  }

  /** The slash-free paths of a stored payload are its top-level names. */
  lemma {:induction false} SlashFreePaths(payload: map<string, Bytes>)
    requires Relative(payload.Keys)
    ensures SlashFree(AllPaths(payload)) == Tops(payload.Keys)
  {
    forall x | x in AllPaths(payload) && '/' !in x ensures x in Tops(payload.Keys) {
      if x in payload {
        assert Top(x) == x;
      } else {
        var p :| p in payload && x in Ancestors(p);
        var i :| 0 < i < |p| && p[i] == '/' && x == p[..i];
        assert forall j :: 0 <= j < i ==> p[j] == x[j] != '/';
        assert IndexOf(p, '/') == i;
        assert Top(p) == x;
      }
    }
    forall x | x in Tops(payload.Keys) ensures x in AllPaths(payload) && '/' !in x {
      var p :| p in payload && Top(p) == x;
      var i := IndexOf(p, '/');
      if i < |p| {
        assert p[..i] in Ancestors(p);
      } else {
        assert p[..i] == p;
      }
    }
  }

  /** The bookkeeping of the visible links and of the timestamped directories comes out even exactly
      if every missing link was probed and the stale ones were listed. */
  lemma {:induction false} TidyExact(before: Dir, switched: Dir, after: Dir, payload: map<string, Bytes>, os: Answers)
    requires Tidy(before) && switched.data.Some? && switched.data.value !in before.stamped
    requires switched.stamped == before.stamped[switched.data.value := TreeOf(payload)]
    requires switched.dataTmp == None && switched.links == before.links
    requires ConflictFree(payload.Keys) && forall p :: p in payload ==> ValidPath(p)
    requires !EarlyExit(before, payload, os)
    requires after.data == switched.data && after.dataTmp == None
    requires after.links == UpdatedLinks(before, payload, os)
    requires after.stamped == VersionsWithout(before.stamped, before.data)[after.data.value := TreeOf(payload)]
    ensures Tidy(after) <==> ComesOutRight(before, payload, os)
  {
    var stored: map<string, Bytes> := if before.data.None? then map[] else before.stamped[before.data.value].files;
    TidyStored(before, payload, os, stored);
    AfterTidy(after, payload);
    hide EarlyExit, SlashFree, Walked, Tops, WithLinks, AllPaths, Tidy, UpdatedLinks, TreeOf, ConflictFree,
      ValidPath, LinksFor;
    OneVersionLeft(before.stamped, before.data, after.data.value, TreeOf(payload));
    LinksExact(stored, payload, os);
  }

  lemma {:induction false} TidyStored(d: Dir, payload: map<string, Bytes>, os: Answers, stored: map<string, Bytes>)
    requires Tidy(d) && stored == if d.data.None? then map[] else d.stamped[d.data.value].files
    ensures Relative(stored.Keys) && d.links == LinksFor(Tops(stored.Keys)) && d.links.Keys == Tops(stored.Keys)
    ensures d.data.Some? ==> d.stamped == map[d.data.value := TreeOf(stored)]
    ensures d.data.None? ==> d.stamped == map[]
    ensures UpdatedLinks(d, payload, os) == WithLinks(LinksFor(Tops(stored.Keys)), Tops(payload.Keys - os.unprobed))
      - SlashFree(Walked(TreeOf(stored), os.unlisted) - AllPaths(payload))
  {
    if d.data.None? {
      assert d == EMPTY_DIR && Tops({}) == {};
      assert Walked(TreeOf(map[]), os.unlisted) == {};
    }
  }

  lemma {:induction false} OneVersionLeft(stamped: map<string, Tree>, previous: Option<string>, stamp: string, t: Tree)
    requires stamp !in stamped && stamped.Keys == if previous.Some? then {previous.value} else {}
    ensures VersionsWithout(stamped, previous)[stamp := t] == map[stamp := t]
  {
  }

  lemma {:induction false} AfterTidy(d: Dir, payload: map<string, Bytes>)
    requires ConflictFree(payload.Keys) && forall p :: p in payload ==> ValidPath(p)
    requires d.data.Some? && d.dataTmp == None
    ensures Relative(payload.Keys)
    ensures d.stamped == map[d.data.value := TreeOf(payload)] ==>
      (Tidy(d) <==> d.links == LinksFor(Tops(payload.Keys)))
  {
  }

  /** In a tidy directory nothing but the payload itself can obstruct an update. */
  lemma {:induction false} TidySucceeds(d: Dir, payload: map<string, Bytes>, os: Answers)
    requires Tidy(d)
    ensures Obstructed(d, payload, os) <==> !ConflictFree(payload.Keys)
    ensures Harmless(os) && Acceptable(payload) ==> !Refused(d, payload, os)
    ensures Harmless(os) ==> ComesOutRight(d, payload, os) && forall n :: !os.faults(n)
  {
    var stored: map<string, Bytes> := if d.data.None? then map[] else d.stamped[d.data.value].files;
    TidyStored(d, payload, os, stored);
    WalkedTops(stored, os.unlisted);
    assert StaleTops(d, payload, os) <= d.links.Keys;
    if Harmless(os) {
      AllInSight(d, payload, os);
    }
  }

  lemma {:induction false} AllInSight(d: Dir, payload: map<string, Bytes>, os: Answers)
    requires Tidy(d) && os.unlisted == {} && os.unprobed == {}
    ensures ComesOutRight(d, payload, os)
  {
    assert payload.Keys - {} == payload.Keys;
    if d.data.Some? && d.data.value in d.stamped {
      var t := d.stamped[d.data.value];
      assert Walked(t, {}) == t.files.Keys + t.dirs;
    }
  }

  lemma {:induction false} AcceptableIs(payload: map<string, Bytes>)
    ensures Acceptable(payload) ==> ConflictFree(payload.Keys)
  {
  }

  /** The slash-free paths among those visited: all of them, or none if the root was not listed. */
  lemma {:induction false} WalkedTops(stored: map<string, Bytes>, unlisted: set<string>)
    requires Relative(stored.Keys)
    ensures SlashFree(Walked(TreeOf(stored), unlisted)) == if "" in unlisted then {} else Tops(stored.Keys)
  {
    SlashFreePaths(stored);
    assert forall p :: '/' !in p ==> Ancestors(p) == {};
  }

  lemma {:induction false} LinksExact(stored: map<string, Bytes>, payload: map<string, Bytes>, os: Answers)
    requires Relative(stored.Keys) && Relative(payload.Keys)
    ensures var probed := Tops(payload.Keys - os.unprobed);
            WithLinks(LinksFor(Tops(stored.Keys)), probed) -
              SlashFree(Walked(TreeOf(stored), os.unlisted) - AllPaths(payload))
            == LinksFor(Tops(payload.Keys))
            <==>
            (&& Tops(payload.Keys) <= Tops(stored.Keys) + probed
             && ("" !in os.unlisted || Tops(stored.Keys) <= Tops(payload.Keys)))
  {
    var walked, probed := Walked(TreeOf(stored), os.unlisted), Tops(payload.Keys - os.unprobed);
    WalkedTops(stored, os.unlisted);
    SlashFreePaths(payload);
    assert SlashFree(walked - AllPaths(payload)) == SlashFree(walked) - SlashFree(AllPaths(payload));
    assert probed <= Tops(payload.Keys);
    hide SlashFree, Walked, AllPaths, Tops;
    LinkSets(Tops(stored.Keys), Tops(payload.Keys), probed, SlashFree(walked - AllPaths(payload)));
  }

  lemma {:induction false} UpdatedIs(d: Dir, payload: map<string, Bytes>, os: Answers, toRemove: set<string>)
    requires WellStored(d)
    requires toRemove == if d.data.None? then {} else Walked(d.stamped[d.data.value], os.unlisted) - AllPaths(payload)
    ensures StaleTops(d, payload, os) == SlashFree(toRemove)
    ensures UpdatedLinks(d, payload, os) == WithLinks(d.links, Tops(payload.Keys - os.unprobed)) - SlashFree(toRemove)
  {
  }

  /** An update never removes a link that its payload needs. */
  lemma {:induction false} TopsStay(d: Dir, payload: map<string, Bytes>, os: Answers)
    requires forall p :: p in payload ==> ValidPath(p)
    ensures Tops(payload.Keys - os.unprobed) <= UpdatedLinks(d, payload, os).Keys
  {
    assert Relative(payload.Keys);
    SlashFreePaths(payload);
    assert Tops(payload.Keys - os.unprobed) <= Tops(payload.Keys);
  }

  lemma {:induction false} NextRight(states: seq<Dir>, next: Dir, payloads: seq<map<string, Bytes>>, os: seq<Answers>)
    requires 0 < |states| <= |payloads| == |os| && states[0] == EMPTY_DIR
    requires var n := |states| - 1;
             && (AllRight(states, payloads, n) <==> AllSeen(states, payloads, os, n))
             && (Tidy(states[n]) ==> (TidyWith(next, payloads[n]) <==> ComesOutRight(states[n], payloads[n], os[n])))
    ensures AllRight(states + [next], payloads, |states|) <==> AllSeen(states + [next], payloads, os, |states|)
  {
    var n := |states| - 1;
    if AllRight(states, payloads, n) {
      TidySoFar(states, payloads, n);
    }
    hide Tidy, TidyWith, ComesOutRight, AllRight, AllSeen;
    RightStep(states, next, payloads, n);
    SeenStep(states, next, payloads, os, n);
  }

  lemma {:induction false} TidySoFar(states: seq<Dir>, payloads: seq<map<string, Bytes>>, n: nat)
    requires |states| == n + 1 && n <= |payloads| && states[0] == EMPTY_DIR && AllRight(states, payloads, n)
    ensures Tidy(states[n])
  {
    hide Tidy, ViewOf;
    if n == 0 {
      EmptyIsTidy();
    } else {
      assert TidyWith(states[n], payloads[n - 1]);
    }
  }

  lemma {:induction false} RightStep(states: seq<Dir>, next: Dir, payloads: seq<map<string, Bytes>>, n: nat)
    requires |states| == n + 1 <= |payloads|
    ensures AllRight(states + [next], payloads, n + 1) <==> AllRight(states, payloads, n) && TidyWith(next, payloads[n])
  {
    hide TidyWith;
    var longer := states + [next];
    assert forall i :: 0 <= i <= n ==> longer[i] == states[i];
    assert longer[n + 1] == next;
  }

  lemma {:induction false} SeenStep(states: seq<Dir>, next: Dir, payloads: seq<map<string, Bytes>>,
    os: seq<Answers>, n: nat)
    requires |states| == n + 1 <= |payloads| == |os|
    ensures AllSeen(states + [next], payloads, os, n + 1) <==>
            AllSeen(states, payloads, os, n) && ComesOutRight(states[n], payloads[n], os[n])
  {
    hide ComesOutRight;
    var longer := states + [next];
    assert forall i :: 0 <= i <= n ==> longer[i] == states[i];
  }

  lemma {:induction false} NothingYet(payloads: seq<map<string, Bytes>>, os: seq<Answers>)
    ensures AllRight([EMPTY_DIR], payloads, 0) && AllSeen([EMPTY_DIR], payloads, os, 0)
  {
  }

  lemma {:induction false} LastRight(states: seq<Dir>, payloads: seq<map<string, Bytes>>)
    requires |states| == |payloads| + 1 > 1 && AllRight(states, payloads, |payloads|)
    ensures Tidy(states[|payloads|]) && ViewOf(states[|payloads|]) == Shows(payloads[|payloads| - 1])
  {
    assert TidyWith(states[|payloads|], payloads[|payloads| - 1]);
  }

  lemma {:induction false} EmptyIsTidy()
    ensures Tidy(EMPTY_DIR)
  {
  }

  /** Without failing listings and probes everything that matters is seen. */
  lemma {:induction false} NoFailuresSeen(states: seq<Dir>, payloads: seq<map<string, Bytes>>, os: seq<Answers>, n: nat)
    requires n < |states| && n <= |payloads| && n <= |os|
    requires forall i :: 0 <= i < n ==> WellStored(states[i]) && os[i].unlisted == {} && os[i].unprobed == {}
    ensures AllSeen(states, payloads, os, n)
  {
    forall i | 0 <= i < n ensures ComesOutRight(states[i], payloads[i], os[i]) {
      assert payloads[i].Keys - {} == payloads[i].Keys;
      if states[i].data.Some? && states[i].data.value in states[i].stamped {
        var t := states[i].stamped[states[i].data.value];
        assert Walked(t, {}) == t.files.Keys + t.dirs;
      }
    }
  }

  lemma {:induction false} OneUnlinked()
    ensures !EarlyExit(EMPTY_DIR, ONE, LINK_UNPROBED) && !Overlooked(EMPTY_DIR, ONE, LINK_UNPROBED)
    ensures !Refused(EMPTY_DIR, ONE, LINK_UNPROBED) && !Doubtful(EMPTY_DIR, ONE, LINK_UNPROBED)
    ensures UpdatedLinks(EMPTY_DIR, ONE, LINK_UNPROBED) == map[]
    ensures ViewOf(EMPTY_DIR) != Shows(ONE)
  {
    assert ONE.Keys - {"a"} == {} && Tops({}) == {};
    PlainNames();
    assert ONE.Keys == {"a"};
  }

  lemma {:induction false} PlainNames()
    ensures ValidPath("a") && ConflictFree({"a", "b"}) && Ancestors("a") == {} && Ancestors("b") == {}
  {
    SplitNone("a", '/');
    assert Split("a", '/') == ["a"];
  }

  lemma {:induction false} LinkSets(stored: set<string>, wanted: set<string>, probed: set<string>, gone: set<string>)
    requires probed <= wanted && gone !! wanted
    ensures WithLinks(LinksFor(stored), probed) - gone == LinksFor(wanted) <==>
            wanted <= stored + probed && stored - wanted <= gone
  {
    var links := WithLinks(LinksFor(stored), probed) - gone;
    assert links.Keys == (stored + probed) - gone;
    assert LinksFor(wanted).Keys == wanted;
    if wanted <= stored + probed && stored - wanted <= gone {
      assert links.Keys == wanted;
    }
  }

  /** The links `before`, and a link into the data directory for every other one of `names`. */
  function WithLinks(before: map<string, string>, names: set<string>): map<string, string> {
    map n | n in before.Keys + names :: if n in before then before[n] else LinkTarget(n)
  }

  lemma {:induction false} WithLinksAdd(before: map<string, string>, names: set<string>, n: string)
    ensures var links := WithLinks(before, names);
            WithLinks(before, names + {n}) == if n in links then links else links[n := LinkTarget(n)]
  {
  }

  function SlashFree(ps: set<string>): set<string> {
    set p | p in ps && '/' !in p
  }

  lemma {:induction false} SlashFreeAdd(ps: set<string>, remaining: set<string>, p: string)
    requires p in remaining && remaining <= ps
    ensures SlashFree(ps - (remaining - {p})) == SlashFree(ps - remaining) + if '/' in p then {} else {p}
    ensures forall links: map<string, string> :: '/' !in p ==>
      links - SlashFree(ps - (remaining - {p})) == links - SlashFree(ps - remaining) - {p}
  {
  }

  lemma {:induction false} TopsAdd(ps: set<string>, remaining: set<string>, unprobed: set<string>, p: string)
    requires p in remaining && remaining <= ps
    ensures Tops(ps - (remaining - {p}) - unprobed) ==
            Tops(ps - remaining - unprobed) + if p in unprobed then {} else {Top(p)}
  {
    if p in unprobed {
      assert ps - (remaining - {p}) - unprobed == ps - remaining - unprobed;
    } else {
      assert ps - (remaining - {p}) - unprobed == (ps - remaining - unprobed) + {p};
    }
  }

  lemma {:induction false} NothingLinked(links: map<string, string>, ps: set<string>, unprobed: set<string>)
    ensures Tops(ps - ps - unprobed) == {} && WithLinks(links, {}) == links
  {
    assert ps - ps - unprobed == {};
  }

  function Restrict(payload: map<string, Bytes>, keys: set<string>): map<string, Bytes>
    requires keys <= payload.Keys
  {
    map p | p in keys :: payload[p]
  }

  lemma {:induction false} BlockedConflict(payload: map<string, Bytes>, done: set<string>, p: string)
    requires p in payload && done <= payload.Keys
    ensures Blocked(TreeOf(Restrict(payload, done)), p) ==> !ConflictFree(payload.Keys)
  {
    var t := TreeOf(Restrict(payload, done));
    if p in t.dirs {
      var q :| q in done && p in Ancestors(q);
    } else if a :| a in Ancestors(p) && a in t.files {
      assert a in done;
    }
  }

  lemma {:induction false} AddFile(payload: map<string, Bytes>, done: set<string>, p: string)
    requires p in payload && done <= payload.Keys
    ensures var t := TreeOf(Restrict(payload, done));
            Tree(t.files[p := payload[p]], t.dirs + Ancestors(p)) == TreeOf(Restrict(payload, done + {p}))
    ensures var t := TreeOf(Restrict(payload, done));
            ConflictFree(done) && p != "." && p !in t.dirs && (forall a :: a in Ancestors(p) ==> a !in t.files) ==>
              ConflictFree(done + {p})
  {
    var m, m' := Restrict(payload, done), Restrict(payload, done + {p});
    assert m[p := payload[p]] == m';
    assert m.Keys == done && m'.Keys == done + {p};
    assert AllAncestors(done + {p}) == AllAncestors(done) + Ancestors(p);
  }
}
