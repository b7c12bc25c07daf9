/** The polling file watcher (pkg/filenotify/poller.go). What the operating system answers
    to a poll is a parameter; the two reused snapshot buffers are objects. */
module Poller {
  import opened Prelude

  datatype FileInfo = FileInfo(isDir: bool, mode: nat, modTime: int, size: nat)
  datatype Op = Create | Remove | Chmod | Write

  /** The watched item itself, or an entry of the watched directory. */
  datatype Target<N> = Itself | Child(name: N)
  datatype Event<N> = Event(target: Target<N>, op: Op)

  /** The outcome of os.Open and Readdir. `Vanished` is their "does not exist" error. */
  datatype Listing<N> = ListError | Vanished | Entries(list: seq<(N, FileInfo)>)

  /** The outcome of one look at the watched item. */
  datatype Observation<N> = StatError | Missing | Plain(info: FileInfo) | Directory(info: FileInfo, listing: Listing<N>)

  /** The value held by a snapshot buffer. */
  datatype Snap<N> = Snap(info: Option<FileInfo>, entries: map<N, FileInfo>)

  function CheckChange(a: Option<FileInfo>, b: Option<FileInfo>): Option<Op> {
    if a.None? && b.Some? then Some(Create)
    else if a.Some? && b.None? then Some(Remove)
    else if a.None? && b.None? then None
    else if a.value.isDir || b.value.isDir then None
    else if a.value.mode != b.value.mode then Some(Chmod)
    else if a.value.modTime != b.value.modTime || a.value.size != b.value.size then Some(Write)
    else None
  }

  function At<N>(m: map<N, FileInfo>, n: N): Option<FileInfo> {
    if n in m then Some(m[n]) else None
  }

  function ChangeOf<N>(left: map<N, FileInfo>, right: map<N, FileInfo>, n: N): Option<Op> {
    CheckChange(At(left, n), At(right, n))
  }

  function EventsOver<N>(names: set<N>, left: map<N, FileInfo>, right: map<N, FileInfo>): set<Event<N>> {
    set n | n in names && ChangeOf(left, right, n).Some? :: Event(Child(n), ChangeOf(left, right, n).value)
  }

  /** Everything that changed between two directory listings. */
  function Difference<N>(left: map<N, FileInfo>, right: map<N, FileInfo>): set<Event<N>> {
    EventsOver(left.Keys + right.Keys, left, right)
  }

  /** What the poller reports: it walks the larger of the two listings only. */
  function Reported<N>(left: map<N, FileInfo>, right: map<N, FileInfo>): set<Event<N>> {
    EventsOver(Larger(left, right).Keys, left, right)
  }

  function Larger<N>(left: map<N, FileInfo>, right: map<N, FileInfo>): map<N, FileInfo> {
    if |right| > |left| then right else left
  }

  function Smaller<N>(left: map<N, FileInfo>, right: map<N, FileInfo>): map<N, FileInfo> {
    if |right| > |left| then left else right
  }

  /** The events of one poll that found `right` where `left` was recorded. */
  function Changes<N>(left: Snap<N>, right: Snap<N>): set<Event<N>> {
    var op := CheckChange(left.info, right.info);
    if op.Some? then {Event(Itself, op.value)}
    else if left.info.None? || !left.info.value.isDir then {}
    else Reported(left.entries, right.entries)
  }

  function ToMap<N>(list: seq<(N, FileInfo)>): map<N, FileInfo> {
    if list == [] then map[] else ToMap(list[..|list| - 1])[list[|list| - 1].0 := list[|list| - 1].1]
  }

  /** `i` is the last entry of a listing for `n`. */
  ghost predicate LastEntry<N>(list: seq<(N, FileInfo)>, n: N, i: nat) {
    i < |list| && list[i].0 == n && forall j :: i < j < |list| ==> list[j].0 != n
  }

  /** An observation lists `n`. */
  ghost predicate Lists<N>(obs: Observation<N>, n: N) {
    && obs.Directory? && obs.info.isDir && obs.listing.Entries?
    && exists i :: 0 <= i < |obs.listing.list| && obs.listing.list[i].0 == n
  }

  lemma {:induction false} ToMapExact<N>(list: seq<(N, FileInfo)>, n: N)
    ensures n in ToMap(list) <==> exists i :: 0 <= i < |list| && list[i].0 == n
    ensures n in ToMap(list) ==> exists i: nat :: LastEntry(list, n, i) && ToMap(list)[n] == list[i].1
    decreases |list|
  {
    if list != [] {
      var k := |list| - 1;
      var front := list[..k];
      ToMapExact(front, n);
      assert forall i :: 0 <= i < k ==> front[i] == list[i];
      if list[k].0 == n {
        assert LastEntry(list, n, k);
      } else if n in ToMap(front) {
        var i: nat :| LastEntry(front, n, i) && ToMap(front)[n] == front[i].1;
        assert LastEntry(list, n, i);
      }
    }
  }

  /** A snapshot holds exactly what the observation shows: the item itself unless it is missing, and
      of a directory every listed name, with the information listed last. */
  ghost predicate Mirrors<N(!new)>(snap: Snap<N>, obs: Observation<N>) {
    && snap.info == (if obs.Plain? || obs.Directory? then Some(obs.info) else None)
    && (forall n :: n in snap.entries <==> Lists(obs, n))
    && (forall n :: n in snap.entries ==>
          exists i: nat :: LastEntry(obs.listing.list, n, i) && snap.entries[n] == obs.listing.list[i].1)
  }

  lemma {:induction false} RecordedExact<N(!new)>(obs: Observation<N>)
    ensures Mirrors(Recorded(obs), obs)
  {
    if obs.Directory? && obs.info.isDir && obs.listing.Entries? {
      forall n {
        ToMapExact(obs.listing.list, n);
      }
    }
  }

  /** What `record` leaves in a buffer, whatever it held before. */
  function Recorded<N>(obs: Observation<N>): Snap<N> {
    match obs
    case StatError => Snap(None, map[])
    case Missing => Snap(None, map[])
    case Plain(info) => Snap(Some(info), map[])
    case Directory(info, listing) =>
      Snap(Some(info), if info.isDir && listing.Entries? then ToMap(listing.list) else map[])
  }

  predicate RecordFails<N>(obs: Observation<N>) {
    obs.StatError? || (obs.Directory? && obs.info.isDir && obs.listing.ListError?)
  }

  lemma EventsOverAdd<N>(names: set<N>, n: N, left: map<N, FileInfo>, right: map<N, FileInfo>)
    ensures var op := ChangeOf(left, right, n);
            EventsOver(names + {n}, left, right) ==
              EventsOver(names, left, right) + if op.Some? then {Event(Child(n), op.value)} else {}
    ensures n !in names ==> forall op :: Event(Child(n), op) !in EventsOver(names, left, right)
  {
  }

  class Recording<N(==, !new)> {
    var info: Option<FileInfo>
    var entries: map<N, FileInfo>

    ghost function Value(): Snap<N>
      reads this
    {
      Snap(info, entries)
    }

    constructor ()
      ensures Value() == Snap(None, map[])
    {
      info, entries := None, map[];
    }

    method Clear()
      modifies this
      ensures Value() == Snap(None, map[])
    {
      info := None;
      entries := map[];
    }

    method Record(obs: Observation<N>) returns (failed: bool)
      modifies this
      ensures Mirrors(Value(), obs)
      ensures Value() == Recorded(obs)
      ensures failed == RecordFails(obs)
    {
      RecordedExact(obs);
      Clear();
      match obs
      case StatError => return true;
      case Missing => return false;
      case Plain(fi) =>
        info := Some(fi);
        return false;
      case Directory(fi, listing) =>
        info := Some(fi);
        if fi.isDir {
          match listing
          case ListError => return true;
          case Vanished => return false;
          case Entries(list) =>
            for i := 0 to |list|
              invariant info == Some(fi)
              invariant entries == ToMap(list[..i])
            {
              entries := entries[list[i].0 := list[i].1];
              assert list[..i + 1][..i] == list[..i];
            }
            assert list[..|list|] == list;
        }
        return false;
    }
  }

  class ItemToWatch<N(==, !new)> {
    var left: Recording<N>
    var right: Recording?<N>

    /** The two buffers are never the same object. */
    ghost predicate Valid()
      reads this
    {
      right != left
    }

    constructor (obs: Observation<N>)
      ensures Valid() && fresh(left) && right == null
      ensures left.Value() == Recorded(obs)
    {
      var r := new Recording<N>();
      var _ := r.Record(obs);
      left, right := r, null;
    }

    method CheckForChanges(obs: Observation<N>) returns (evs: seq<Event<N>>, failed: bool)
      requires Valid()
      modifies this`right, right
      ensures Valid() && left == old(left) && left.Value() == old(left.Value())
      ensures right != null && (right == old(right) || fresh(right))
      ensures right.Value() == Recorded(obs)
      ensures failed == RecordFails(obs)
      ensures Distinct(evs)
      ensures Elements(evs) == if failed then {} else Changes(left.Value(), right.Value())
    {
      if right == null {
        right := new Recording<N>();
      }
      failed := right.Record(obs);
      if failed {
        return [], true;
      }
      var op := CheckChange(left.info, right.info);
      if op.Some? {
        evs := [Event(Itself, op.value)];
        return evs, false;
      }
      if left.info.None? || !left.info.value.isDir {
        return [], false;
      }
      evs := CompareEntries(left.entries, right.entries);
    }

    /** The comparison loop. Go walks a map in no particular order. */
    method CompareEntries(leftEntries: map<N, FileInfo>, rightEntries: map<N, FileInfo>) returns (evs: seq<Event<N>>)
      ensures Distinct(evs)
      ensures Elements(evs) == Reported(leftEntries, rightEntries)
    {
      var l, r, leftIsIn := leftEntries, rightEntries, false;
      if |r| > |l| {
        l, r := r, l;
        leftIsIn := true;
      }
      evs := [];
      var remaining := l.Keys;
      while remaining != {}
        invariant remaining <= l.Keys
        invariant Distinct(evs)
        invariant Elements(evs) == EventsOver(l.Keys - remaining, leftEntries, rightEntries)
        decreases |remaining|
      {
        var name :| name in remaining;
        var fil, fir := Some(l[name]), At(r, name);
        if leftIsIn {
          fil, fir := fir, fil;
        }
        var op := CheckChange(fil, fir);
        ghost var done := l.Keys - remaining;
        remaining := remaining - {name};
        assert l.Keys - remaining == done + {name};
        EventsOverAdd(done, name, leftEntries, rightEntries);
        if op.Some? {
          ElementsAppend(evs, Event(Child(name), op.value));
          evs := evs + [Event(Child(name), op.value)];
        }
      }
      assert l.Keys - remaining == l.Keys;
    }

    /** The watch loop over a sequence of ticks. Batch `i` is what tick `i` sends: each change between
        two consecutive observations once. If the directory only grows, every name that appears is
        announced once over the whole watch. */
    method Watch(ticks: seq<Observation<N>>) returns (batches: seq<seq<Event<N>>>)
      requires Valid()
      modifies this, left, right
      ensures Sends(old(left.Value()), ticks, batches)
      ensures OnlyGrows(old(left.Value()), ticks) ==> AnnouncedOnce(old(left.Value()), ticks, batches)
    {
      batches := [];
      ghost var first := left.Value();
      for i := 0 to |ticks|
        invariant Valid()
        invariant left == old(left) || left == old(right) || fresh(left)
        invariant right == null || right == old(left) || right == old(right) || fresh(right)
        invariant left.Value() == Before(first, ticks, i)
        invariant |batches| == i
        invariant forall k :: 0 <= k < i ==> SendsAt(first, ticks, k, batches[k])
      {
        var evs, failed := CheckForChanges(ticks[i]);
        left, right := right, left;
        batches := batches + [evs];
      }
      if OnlyGrows(first, ticks) {
        WatchAnnouncesOnce(first, ticks, batches);
      }
    }
  }

  /** What was recorded before tick `i`. */
  function Before<N>(first: Snap<N>, ticks: seq<Observation<N>>, i: nat): Snap<N>
    requires i <= |ticks|
  {
    if i == 0 then first else Recorded(ticks[i - 1])
  }

  /** A batch holds each change between two consecutive observations once, or nothing if the later
      one failed. */
  ghost predicate SendsAt<N>(first: Snap<N>, ticks: seq<Observation<N>>, i: nat, batch: seq<Event<N>>)
    requires i < |ticks|
  {
    && Distinct(batch)
    && Elements(batch) == if RecordFails(ticks[i]) then {} else Changes(Before(first, ticks, i), Recorded(ticks[i]))
  }

  ghost predicate Sends<N>(first: Snap<N>, ticks: seq<Observation<N>>, batches: seq<seq<Event<N>>>) {
    |batches| == |ticks| && forall i :: 0 <= i < |ticks| ==> SendsAt(first, ticks, i, batches[i])
  }

  // ---- Properties ----

  /** Every reported event is a true difference. The report is the whole difference exactly when
      the names of the smaller listing all occur in the larger one. */
  lemma ReportExact<N>(left: map<N, FileInfo>, right: map<N, FileInfo>)
    ensures Reported(left, right) <= Difference(left, right)
    ensures Reported(left, right) == Difference(left, right) <==> Smaller(left, right).Keys <= Larger(left, right).Keys
  {
    hide EventsOver, ChangeOf, CheckChange;
    var small, large, both := Smaller(left, right), Larger(left, right), left.Keys + right.Keys;
    EventsOverSubset(large.Keys, both, left, right);
    if n :| n in small && n !in large {
      MissedEvent(large.Keys, both, n, left, right);
    } else {
      assert both == large.Keys;
    }
  }

  lemma EventsOverSubset<N>(some: set<N>, all: set<N>, left: map<N, FileInfo>, right: map<N, FileInfo>)
    requires some <= all
    ensures EventsOver(some, left, right) <= EventsOver(all, left, right)
  {
  }

  /** A name held by one listing only is missed by a walk that does not visit it. */
  lemma MissedEvent<N>(some: set<N>, all: set<N>, n: N, left: map<N, FileInfo>, right: map<N, FileInfo>)
    requires n in all && n !in some && (n in left <==> n !in right)
    ensures EventsOver(some, left, right) != EventsOver(all, left, right)
  {
    var e := Event(Child(n), ChangeOf(left, right, n).value);
    assert e in EventsOver(all, left, right) && e !in EventsOver(some, left, right);
  }

  lemma ChangeIsReported<N>(left: map<N, FileInfo>, right: map<N, FileInfo>, n: N)
    requires n in Larger(left, right)
    ensures ChangeOf(left, right, n).Some? ==> Event(Child(n), ChangeOf(left, right, n).value) in Reported(left, right)
  {
  }

  /** In a directory of plain files a poll is silent exactly when nothing has changed. */
  lemma SilenceExact<N>(left: map<N, FileInfo>, right: map<N, FileInfo>)
    requires forall n :: n in left ==> !left[n].isDir
    requires forall n :: n in right ==> !right[n].isDir
    ensures Reported(left, right) == {} <==> left == right
  {
    var small, large := Smaller(left, right), Larger(left, right);
    if Reported(left, right) == {} {
      forall n | n in large ensures n in small && small[n] == large[n] {
        ChangeIsReported(left, right, n);
      }
      KeysSubsetSize(large, small);
    }
  }

  /** The events of a difference, kind by kind. */
  lemma DifferenceExact<N>(left: map<N, FileInfo>, right: map<N, FileInfo>, n: N)
    ensures Event(Child(n), Create) in Difference(left, right) <==> n in right && n !in left
    ensures Event(Child(n), Remove) in Difference(left, right) <==> n in left && n !in right
    ensures Event(Child(n), Chmod) in Difference(left, right) <==>
      n in left && n in right && !left[n].isDir && !right[n].isDir && left[n].mode != right[n].mode
    ensures Event(Child(n), Write) in Difference(left, right) <==>
      && n in left && n in right && !left[n].isDir && !right[n].isDir && left[n].mode == right[n].mode
      && (left[n].modTime != right[n].modTime || left[n].size != right[n].size)
  {
    EventInDifference(left, right, n);
  }

  lemma EventInDifference<N>(left: map<N, FileInfo>, right: map<N, FileInfo>, n: N)
    ensures forall op :: Event(Child(n), op) in Difference(left, right) <==> ChangeOf(left, right, n) == Some(op)
  {
    var both := left.Keys + right.Keys;
    assert n !in both ==> ChangeOf(left, right, n) == None;
    forall op | ChangeOf(left, right, n) == Some(op) ensures Event(Child(n), op) in EventsOver(both, left, right) {
      assert n in both;
    }
  }

  /** What happens to the watched item itself. Entries are compared only in a directory that stays. */
  lemma ItselfExact<N>(left: Snap<N>, right: Snap<N>)
    ensures left.info.None? && right.info.Some? ==> Changes(left, right) == {Event(Itself, Create)}
    ensures left.info.Some? && right.info.None? ==> Changes(left, right) == {Event(Itself, Remove)}
    ensures left.info.None? && right.info.None? ==> Changes(left, right) == {}
    ensures left.info.Some? && right.info.Some? && left.info.value.isDir ==>
      Changes(left, right) == Reported(left.entries, right.entries)
    ensures left.info.Some? && right.info.Some? && !left.info.value.isDir && right.info.value.isDir ==>
      Changes(left, right) == {}
    ensures left.info.Some? && right.info.Some? && !left.info.value.isDir && !right.info.value.isDir ==>
      var a, b := left.info.value, right.info.value;
      Changes(left, right) ==
        if a.mode != b.mode then {Event(Itself, Chmod)}
        else if a.modTime != b.modTime || a.size != b.size then {Event(Itself, Write)}
        else {}
  {
  }

  /** When one file replaces another between two polls, the new one is never announced. */
  lemma ReplacedFileIsMissed()
    ensures var fi := FileInfo(false, 0, 0, 0);
            && Event(Child(2), Create) in Difference(map[1 := fi], map[2 := fi])
            && Reported(map[1 := fi], map[2 := fi]) == {Event(Child(1), Remove)}
  {
    var fi := FileInfo(false, 0, 0, 0);
    var l, r := map[1 := fi], map[2 := fi];
    assert ChangeOf(l, r, 2) == Some(Create) && ChangeOf(l, r, 1) == Some(Remove);
    assert |l| == 1 && |r| == 1;
    assert 2 in l.Keys + r.Keys;
    assert Event(Child(2), Create) in Difference(l, r);
  }

  /** After a failed poll the next good one either announces the directory alone, so that files
      created meanwhile are never announced, or announces every file again. */
  lemma AfterFailedPoll<N>(bad: Observation<N>, info: FileInfo, list: seq<(N, FileInfo)>)
    requires RecordFails(bad) && info.isDir
    ensures var good := Directory(info, Entries(list));
            Changes(Recorded(bad), Recorded(good)) ==
            if bad.StatError? then {Event(Itself, Create)}
            else set n | n in ToMap(list) :: Event(Child(n), Create)
  {
    if !bad.StatError? {
      var left, right: map<N, FileInfo> := map[], ToMap(list);
      KeysSubsetSize(left, right);
      assert Larger(left, right).Keys == right.Keys;
      assert forall n :: n in right ==> ChangeOf(left, right, n) == Some(Create);
    }
  }

  lemma KeysSubsetSize<N>(a: map<N, FileInfo>, b: map<N, FileInfo>)
    requires a.Keys <= b.Keys
    ensures |a| <= |b|
    ensures |a| == |b| ==> a.Keys == b.Keys
  {
    SubsetSize(a.Keys, b.Keys);
    assert |a| == |a.Keys| && |b| == |b.Keys|;
  }

  lemma {:induction false} SubsetSize<N>(a: set<N>, b: set<N>)
    requires a <= b
    ensures |a| <= |b|
    ensures |a| == |b| ==> a == b
  {
    assert b == a + (b - a);
    assert |b| == |a| + |b - a|;
    if |b - a| == 0 {
      assert b - a == {};
    }
  }

  /** In a directory that only grows the report is always the whole difference. */
  lemma GrowingReport<N>(left: map<N, FileInfo>, right: map<N, FileInfo>)
    requires left.Keys <= right.Keys
    ensures Reported(left, right) == Difference(left, right)
    ensures forall n :: Event(Child(n), Create) in Reported(left, right) <==> n in right.Keys - left.Keys
  {
    KeysSubsetSize(left, right);
    ReportExact(left, right);
    forall n | n in right.Keys - left.Keys ensures Event(Child(n), Create) in Reported(left, right) {
      assert n in left.Keys + right.Keys && ChangeOf(left, right, n) == Some(Create);
    }
  }

  /** A directory in which one thing has changed gives rise to one event. */
  lemma OneDifference<N>(left: map<N, FileInfo>, right: map<N, FileInfo>, n: N, op: Op)
    requires left.Keys <= right.Keys && n in right && ChangeOf(left, right, n) == Some(op)
    requires forall m :: m in right && m != n ==> ChangeOf(left, right, m) == None
    ensures Reported(left, right) == {Event(Child(n), op)}
  {
    hide ChangeOf;
    KeysSubsetSize(left, right);
    assert Larger(left, right).Keys == right.Keys;
    assert Event(Child(n), op) in EventsOver(right.Keys, left, right);
  }

  /** Successive listings of a directory that is only added to. */
  ghost predicate Growing<N>(snaps: seq<Snap<N>>) {
    && (forall i :: 0 <= i < |snaps| ==> snaps[i].info.Some? && snaps[i].info.value.isDir)
    && (forall i :: 0 <= i < |snaps| - 1 ==> snaps[i].entries.Keys <= snaps[i + 1].entries.Keys)
  }

  /** The number of polls that announce the creation of `n`. */
  function Announcements<N>(snaps: seq<Snap<N>>, n: N): nat {
    if |snaps| < 2 then 0
    else Announcements(snaps[..|snaps| - 1], n)
         + if Event(Child(n), Create) in Changes(snaps[|snaps| - 2], snaps[|snaps| - 1]) then 1 else 0
  }

  /** Over a whole run in a growing directory, a name absent when the watch was added is announced
      exactly once if it ever appears; a name present from the start is never announced. */
  lemma {:induction false} CreatedExactlyOnce<N>(snaps: seq<Snap<N>>, n: N)
    requires Growing(snaps) && |snaps| > 0
    ensures Announcements(snaps, n) == if n in snaps[|snaps| - 1].entries && n !in snaps[0].entries then 1 else 0
    ensures n in snaps[0].entries ==> n in snaps[|snaps| - 1].entries
    decreases |snaps|
  {
    if |snaps| >= 2 {
      var k := |snaps| - 1;
      var front := snaps[..k];
      assert forall i :: 0 <= i < k ==> front[i] == snaps[i];
      assert Growing(front) by {
        forall i | 0 <= i < |front| - 1 ensures front[i].entries.Keys <= front[i + 1].entries.Keys {
          assert front[i] == snaps[i] && front[i + 1] == snaps[i + 1];
        }
      }
      CreatedExactlyOnce(front, n);
      assert snaps[k - 1].entries.Keys <= snaps[k - 1 + 1].entries.Keys;
      GrowingReport(snaps[k - 1].entries, snaps[k].entries);
      assert n in snaps[k - 1].entries ==> n in snaps[k].entries;
    }
  }

  // ---- What a whole watch sends ----

  /** The successive contents of the left buffer. */
  function Snapshots<N>(first: Snap<N>, ticks: seq<Observation<N>>): seq<Snap<N>> {
    [first] + seq(|ticks|, i requires 0 <= i < |ticks| => Recorded(ticks[i]))
  }

  /** Every poll finds the directory, none fails, and no name that was there is missing later. */
  ghost predicate OnlyGrows<N(!new)>(first: Snap<N>, ticks: seq<Observation<N>>) {
    && first.info.Some? && first.info.value.isDir
    && (forall i :: 0 <= i < |ticks| ==> !RecordFails(ticks[i]) && ticks[i].Directory? && ticks[i].info.isDir)
    && (forall n, j :: 0 <= j < |ticks| && n in first.entries ==> Lists(ticks[j], n))
    && (forall n, i, j :: 0 <= i <= j < |ticks| && Lists(ticks[i], n) ==> Lists(ticks[j], n))
  }

  lemma {:induction false} OnlyGrowsGrowing<N(!new)>(first: Snap<N>, ticks: seq<Observation<N>>)
    requires OnlyGrows(first, ticks)
    ensures Growing(Snapshots(first, ticks))
  {
    var snaps := Snapshots(first, ticks);
    assert |snaps| == |ticks| + 1 && snaps[0] == first;
    forall i | 0 < i < |snaps| ensures snaps[i] == Recorded(ticks[i - 1]) {}
    hide Recorded, Snapshots, Lists, RecordFails, Mirrors;
    forall i | 0 <= i < |snaps| ensures snaps[i].info.Some? && snaps[i].info.value.isDir {
      if i > 0 {
        RecordedNames(ticks[i - 1]);
      }
    }
    forall i | 0 <= i < |snaps| - 1 ensures snaps[i].entries.Keys <= snaps[i + 1].entries.Keys {
      RecordedNames(ticks[i]);
      assert snaps[i + 1] == Recorded(ticks[i]);
      if i > 0 {
        RecordedNames(ticks[i - 1]);
      }
    }
  }

  lemma {:induction false} RecordedNames<N(!new)>(obs: Observation<N>)
    ensures forall n :: n in Recorded(obs).entries <==> Lists(obs, n)
    ensures obs.Directory? ==> Recorded(obs).info == Some(obs.info)
  {
    RecordedExact(obs);
  }

  /** How often an event was sent in all. */
  function TimesSent<N(==)>(batches: seq<seq<Event<N>>>, e: Event<N>): nat {
    if batches == [] then 0
    else TimesSent(batches[..|batches| - 1], e) + multiset(batches[|batches| - 1])[e]
  }

  /** Each name that is listed while watched and was not there at first is announced once, and no other
      name ever. */
  ghost predicate AnnouncedOnce<N(!new)>(first: Snap<N>, ticks: seq<Observation<N>>, batches: seq<seq<Event<N>>>) {
    forall n :: TimesSent(batches, Event(Child(n), Create)) ==
      if (exists i :: 0 <= i < |ticks| && Lists(ticks[i], n)) && n !in first.entries then 1 else 0
  }

  lemma {:induction false} DistinctCount<T>(s: seq<T>, x: T)
    requires Distinct(s)
    ensures multiset(s)[x] == if x in Elements(s) then 1 else 0
    decreases |s|
  {
    if s != [] {
      var k := |s| - 1;
      var front := s[..k];
      assert s == front + [s[k]];
      assert forall i :: 0 <= i < k ==> front[i] == s[i];
      DistinctCount(front, x);
      ElementsAppend(front, s[k]);
      assert s[k] !in front;
    }
  }

  lemma {:induction false} SentIsAnnounced<N>(first: Snap<N>, ticks: seq<Observation<N>>,
    batches: seq<seq<Event<N>>>, n: N)
    requires Sends(first, ticks, batches) && forall i :: 0 <= i < |ticks| ==> !RecordFails(ticks[i])
    ensures TimesSent(batches, Event(Child(n), Create)) == Announcements(Snapshots(first, ticks), n)
    decreases |ticks|
  {
    if ticks != [] {
      var k := |ticks| - 1;
      SendsFront(first, ticks, batches, k);
      SnapshotsFront(first, ticks);
      assert SendsAt(first, ticks, k, batches[k]);
      hide Changes, Recorded, Snapshots, Sends, RecordFails, Before;
      SentIsAnnounced(first, ticks[..k], batches[..k], n);
      DistinctCount(batches[k], Event(Child(n), Create));
    }
  }

  lemma {:induction false} SendsFront<N>(first: Snap<N>, ticks: seq<Observation<N>>,
    batches: seq<seq<Event<N>>>, k: nat)
    requires Sends(first, ticks, batches) && k <= |ticks|
    ensures Sends(first, ticks[..k], batches[..k])
  {
    hide Changes, Recorded, RecordFails;
    forall i | 0 <= i < k ensures SendsAt(first, ticks[..k], i, batches[..k][i]) {
      assert SendsAt(first, ticks, i, batches[i]) && Before(first, ticks[..k], i) == Before(first, ticks, i);
    }
  }

  lemma {:induction false} SnapshotsFront<N>(first: Snap<N>, ticks: seq<Observation<N>>)
    requires ticks != []
    ensures var k, snaps := |ticks| - 1, Snapshots(first, ticks);
            && |snaps| == k + 2 && snaps[..k + 1] == Snapshots(first, ticks[..k])
            && snaps[k] == Before(first, ticks, k) && snaps[k + 1] == Recorded(ticks[k])
  {
    hide Recorded;
  }

  lemma {:induction false} WatchAnnouncesOnce<N(!new)>(first: Snap<N>, ticks: seq<Observation<N>>,
    batches: seq<seq<Event<N>>>)
    requires Sends(first, ticks, batches) && OnlyGrows(first, ticks)
    ensures AnnouncedOnce(first, ticks, batches)
  {
    var snaps := Snapshots(first, ticks);
    OnlyGrowsGrowing(first, ticks);
    hide Sends, Announcements, Growing, Snapshots;
    forall n ensures TimesSent(batches, Event(Child(n), Create)) ==
      if (exists i :: 0 <= i < |ticks| && Lists(ticks[i], n)) && n !in first.entries then 1 else 0
    {
      SentIsAnnounced(first, ticks, batches, n);
      CreatedExactlyOnce(snaps, n);
      ListedInTheEnd(first, ticks, n);
    }
  }

  /** A name is in the last snapshot exactly if it was there at first or was ever listed. */
  lemma {:induction false} ListedInTheEnd<N(!new)>(first: Snap<N>, ticks: seq<Observation<N>>, n: N)
    requires OnlyGrows(first, ticks)
    ensures var snaps := Snapshots(first, ticks);
            && |snaps| == |ticks| + 1 && snaps[0] == first
            && (n in snaps[|ticks|].entries <==>
                  n in first.entries || exists i :: 0 <= i < |ticks| && Lists(ticks[i], n))
  {
    if ticks != [] {
      RecordedExact(ticks[|ticks| - 1]);
      SnapshotsFront(first, ticks);
      hide Recorded, Lists;
    }
  }
}
