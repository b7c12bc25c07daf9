/** Mount points to create inside a volume for the mounts nested in it
    (compute/volume/util/nested_volumes.go). Mount paths have passed filepath.Clean. */
module NestedMounts {
  import opened Prelude
  import opened Text

  datatype VolumeMount = VolumeMount(volume: string, path: string)
  datatype Container = Container(mounts: seq<VolumeMount>)
  datatype PodSpec = PodSpec(initContainers: seq<Container>, containers: seq<Container>, ephemeral: seq<Container>)
  datatype Mountpoints = Dirs(dirs: seq<string>) | InvalidMountPoint(path: string)

  const PARENT_PREFIX := "../"

  // ---- sort.Strings ----

  /** Byte-wise lexicographic order. */
  predicate AtMost(a: string, b: string) {
    a == "" || (b != "" && (a[0] < b[0] || (a[0] == b[0] && AtMost(a[1..], b[1..]))))
  }

  ghost predicate Ascending(s: seq<string>) {
    forall i, j :: 0 <= i < j < |s| ==> AtMost(s[i], s[j])
  }

  function Insert(x: string, s: seq<string>): seq<string> {
    if s == [] || AtMost(x, s[0]) then [x] + s else [s[0]] + Insert(x, s[1..])
  }

  function Sorted(s: seq<string>): seq<string> {
    if s == [] then [] else Insert(s[0], Sorted(s[1..]))
  }

  lemma {:induction false} AtMostTotal(a: string, b: string)
    ensures AtMost(a, b) || AtMost(b, a)
  {
    if a != "" && b != "" {
      AtMostTotal(a[1..], b[1..]);
    }
  }

  lemma {:induction false} AtMostTransitive(a: string, b: string, c: string)
    requires AtMost(a, b) && AtMost(b, c)
    ensures AtMost(a, c)
  {
    if a != "" && a[0] == b[0] == c[0] {
      AtMostTransitive(a[1..], b[1..], c[1..]);
    }
  }

  /** A path comes before every longer path that it is a prefix of. */
  lemma {:induction false} PrefixComesFirst(p: string, q: string)
    requires p < q
    ensures !AtMost(q, p)
  {
    if p != "" {
      assert p[1..] < q[1..];
      PrefixComesFirst(p[1..], q[1..]);
    }
  }

  lemma {:induction false} LeastInFront(least: string, x: string, s: seq<string>, longer: seq<string>)
    requires Ascending(longer) && multiset(longer) == multiset(s) + multiset{x}
    requires AtMost(least, x) && forall y :: y in s ==> AtMost(least, y)
    ensures Ascending([least] + longer)
  {
    hide AtMost;
    forall y | y in longer ensures AtMost(least, y) {
      assert y in multiset(longer);
    }
  }

  lemma {:induction false} InsertSorts(x: string, s: seq<string>)
    requires Ascending(s)
    ensures Ascending(Insert(x, s))
    ensures multiset(Insert(x, s)) == multiset(s) + multiset{x}
  {
    if s != [] && !AtMost(x, s[0]) {
      var rest := Insert(x, s[1..]);
      assert s == [s[0]] + s[1..];
      InsertSorts(x, s[1..]);
      AtMostTotal(x, s[0]);
      assert multiset(Insert(x, s)) == multiset{s[0]} + multiset(rest);
      LeastInFront(s[0], x, s[1..], rest);
    } else if s != [] {
      forall j | 0 <= j < |s| ensures AtMost(x, s[j]) {
        if j > 0 {
          AtMostTransitive(x, s[0], s[j]);
        }
      }
    }
  }

  lemma {:induction false} SortedSorts(s: seq<string>)
    ensures Ascending(Sorted(s))
    ensures multiset(Sorted(s)) == multiset(s)
  {
    hide Insert;
    if s != [] {
      SortedSorts(s[1..]);
      InsertSorts(s[0], Sorted(s[1..]));
      assert s == [s[0]] + s[1..];
    }
  }

  // ---- Specification ----

  /** The code's test for a mount point nested in another one. */
  predicate Below(m: string, mp: string) {
    m + "/" <= mp
  }

  /** Nested in `m`, with no other mount point in between. */
  predicate Nearest(all: seq<string>, m: string, mp: string) {
    Below(m, mp) && forall p :: p in all && Below(m, p) ==> !Below(p, mp)
  }

  function RelativeTo(m: string, mp: string): string
    requires Below(m, mp)
  {
    mp[|m| + 1..]
  }

  /** The nearest mount points among `some`, relative to `m`. */
  function NearestOf(all: seq<string>, m: string, some: seq<string>): seq<string> {
    if some == [] then []
    else
      var k := |some| - 1;
      NearestOf(all, m, some[..k]) + if Nearest(all, m, some[k]) then [RelativeTo(m, some[k])] else []
  }

  /** The directories to create in a volume mounted at each of `mine`. */
  function Nested(all: seq<string>, mine: seq<string>): seq<string> {
    if mine == [] then []
    else
      var k := |mine| - 1;
      Nested(all, mine[..k]) + NearestOf(all, mine[k], Sorted(all))
  }

  function AllPaths(mounts: seq<VolumeMount>): seq<string> {
    seq(|mounts|, i requires 0 <= i < |mounts| => mounts[i].path)
  }

  function PathsOf(volume: string, mounts: seq<VolumeMount>): seq<string> {
    if mounts == [] then []
    else
      var k := |mounts| - 1;
      PathsOf(volume, mounts[..k]) + if mounts[k].volume == volume then [mounts[k].path] else []
  }

  predicate Invalid(path: string) {
    PARENT_PREFIX <= path
  }

  function OfContainers(volume: string, cs: seq<Container>): seq<string> {
    if cs == [] then []
    else
      var k := |cs| - 1;
      OfContainers(volume, cs[..k]) + Nested(AllPaths(cs[k].mounts), PathsOf(volume, cs[k].mounts))
  }

  /** VisitContainers with all features enabled: init, main, then ephemeral containers. */
  function Visited(spec: PodSpec): seq<Container> {
    spec.initContainers + spec.containers + spec.ephemeral
  }

  // ---- The implementation ----

  /** One place where the volume is mounted. The sorted list is walked once; a mount point is
      compared with the nested ones already found only. */
  method NearestBelow(all: seq<string>, m: string) returns (dirs: seq<string>)
    ensures dirs == NearestOf(all, m, Sorted(all))
  {
    hide Nearest, Sorted, NearestOf, Remembered;
    NothingRemembered(all, m);
    var sorted := Sorted(all);
    var prevNested: seq<string> := [];
    dirs := [];
    for i := 0 to |sorted|
      invariant dirs == NearestOf(all, m, sorted[..i])
      invariant Remembered(all, m, sorted[..i], prevNested)
    {
      var mp := sorted[i];
      assert sorted[..i + 1] == sorted[..i] + [mp];
      NearestOfStep(all, m, sorted[..i], mp);
      Remember(all, m, sorted[..i], mp, prevNested);
      if !(m + "/" <= mp) {
        continue;
      }
      var isNested := false;
      for j := 0 to |prevNested|
        invariant forall k :: 0 <= k < j ==> !(prevNested[k] <= mp)
      {
        if prevNested[j] <= mp {
          assert prevNested[j] in prevNested;
          isNested := true;
          break;
        }
      }
      Decide(all, m, i, prevNested);
      if isNested {
        continue;
      }
      prevNested := prevNested + [mp + "/"];
      dirs := dirs + [mp[|m + "/"|..]];
    }
    assert sorted[..|sorted|] == sorted;
  }

  method CheckContainer(volume: string, c: Container) returns (r: Mountpoints)
    ensures var mine := PathsOf(volume, c.mounts);
            && (r.Dirs? <==> forall m :: m in mine ==> !Invalid(m))
            && (r.Dirs? ==> r.dirs == Nested(AllPaths(c.mounts), mine))
            && (r.InvalidMountPoint? ==> r.path in mine && Invalid(r.path))
  {
    hide NearestOf, Sorted;
    var all: seq<string>, mine: seq<string> := [], [];
    for i := 0 to |c.mounts|
      invariant all == AllPaths(c.mounts[..i])
      invariant mine == PathsOf(volume, c.mounts[..i])
    {
      assert c.mounts[..i + 1][..i] == c.mounts[..i];
      all := all + [c.mounts[i].path];
      if c.mounts[i].volume == volume {
        mine := mine + [c.mounts[i].path];
      }
    }
    assert c.mounts[..|c.mounts|] == c.mounts;
    var retval: seq<string> := [];
    for i := 0 to |mine|
      invariant retval == Nested(all, mine[..i])
      invariant forall k :: 0 <= k < i ==> !Invalid(mine[k])
    {
      if PARENT_PREFIX <= mine[i] {
        assert mine[i] in mine && Invalid(mine[i]);
        return InvalidMountPoint(mine[i]);
      }
      var dirs := NearestBelow(all, mine[i]);
      assert mine[..i + 1][..i] == mine[..i];
      retval := retval + dirs;
    }
    assert mine[..|mine|] == mine;
    return Dirs(retval);
  }

  /** Container `c` mounts the volume at `m`. */
  ghost predicate MountedAt(c: Container, volume: string, m: string) {
    exists i :: 0 <= i < |c.mounts| && c.mounts[i].volume == volume && c.mounts[i].path == m
  }

  /** Container `c` mounts the volume at `m` and something else at `m/d`, with nothing in between. */
  ghost predicate Needed(c: Container, volume: string, m: string, d: string) {
    && MountedAt(c, volume, m)
    && (exists i :: 0 <= i < |c.mounts| && c.mounts[i].path == m + "/" + d)
    && (forall i :: 0 <= i < |c.mounts| && m + "/" <= c.mounts[i].path ==> !(c.mounts[i].path + "/" <= m + "/" + d))
  }

  ghost predicate InPod(spec: PodSpec, c: Container) {
    c in spec.initContainers || c in spec.containers || c in spec.ephemeral
  }

  method GetNestedMountpoints(volume: string, spec: PodSpec) returns (r: Mountpoints)
    ensures r.InvalidMountPoint? <==> exists c, m :: InPod(spec, c) && MountedAt(c, volume, m) && "../" <= m
    ensures r.Dirs? ==> forall d :: d in r.dirs <==> exists c, m :: InPod(spec, c) && Needed(c, volume, m, d)
    ensures r.Dirs? ==> r.dirs == OfContainers(volume, spec.initContainers + spec.containers + spec.ephemeral)
  {
    PodMembers(volume, spec);
    hide Nested, PathsOf, OfContainers, Needed, MountedAt;
    OfNone(volume);
    var cs := Visited(spec);
    var retval: seq<string> := [];
    for i := 0 to |cs|
      invariant retval == OfContainers(volume, cs[..i])
      invariant forall k, m :: 0 <= k < i && m in PathsOf(volume, cs[k].mounts) ==> !Invalid(m)
    {
      var one := CheckContainer(volume, cs[i]);
      if one.InvalidMountPoint? {
        assert cs[i] in cs;
        return one;
      }
      OfOneMore(volume, cs, i);
      retval := retval + one.dirs;
    }
    assert cs[..|cs|] == cs;
    forall c, m | InPod(spec, c) && MountedAt(c, volume, m) ensures !("../" <= m) {
      assert c in cs && m in PathsOf(volume, c.mounts);
      var k :| 0 <= k < |cs| && cs[k] == c;
      assert !Invalid(m);
    }
    return Dirs(retval);
  }

  lemma {:induction false} OfNone(volume: string)
    ensures OfContainers(volume, []) == []
  {
  }

  lemma {:induction false} OfOneMore(volume: string, cs: seq<Container>, i: nat)
    requires i < |cs|
    ensures OfContainers(volume, cs[..i + 1]) ==
            OfContainers(volume, cs[..i]) + Nested(AllPaths(cs[i].mounts), PathsOf(volume, cs[i].mounts))
  {
    assert cs[..i + 1][..i] == cs[..i];
  }

  lemma {:induction false} NearestOfStep(all: seq<string>, m: string, some: seq<string>, mp: string)
    ensures Nearest(all, m, mp) ==> Below(m, mp)
    ensures Nearest(all, m, mp) ==> NearestOf(all, m, some + [mp]) == NearestOf(all, m, some) + [mp[|m| + 1..]]
    ensures !Nearest(all, m, mp) ==> NearestOf(all, m, some + [mp]) == NearestOf(all, m, some)
  {
    assert (some + [mp])[..|some|] == some;
  }

  // ---- Why looking back is enough ----

  /** `prev` holds the nearest mount points among `some`, each with a slash. */
  ghost predicate Remembered(all: seq<string>, m: string, some: seq<string>, prev: seq<string>) {
    && (forall p :: p in some && Nearest(all, m, p) ==> p + "/" in prev)
    && (forall x :: x in prev ==> exists p :: p in some && Nearest(all, m, p) && x == p + "/")
  }

  lemma {:induction false} NothingRemembered(all: seq<string>, m: string)
    ensures NearestOf(all, m, []) == [] && Remembered(all, m, [], [])
  {
  }

  lemma {:induction false} Remember(all: seq<string>, m: string, some: seq<string>, mp: string, prev: seq<string>)
    requires Remembered(all, m, some, prev)
    ensures Nearest(all, m, mp) ==> Remembered(all, m, some + [mp], prev + [mp + "/"])
    ensures !Nearest(all, m, mp) ==> Remembered(all, m, some + [mp], prev)
    ensures Nearest(all, m, mp) ==> Below(m, mp)
  {
    forall x | x in prev ensures exists p :: p in some + [mp] && Nearest(all, m, p) && x == p + "/" {
      var p :| p in some && Nearest(all, m, p) && x == p + "/";
      assert p in some + [mp];
    }
  }

  /** A mount point that is not nearest lies below one that is. */
  lemma {:induction false} NearestAbove(all: seq<string>, m: string, mp: string, p: string) returns (q: string)
    requires p in all && Below(m, p) && Below(p, mp)
    ensures q in all && Nearest(all, m, q) && Below(q, mp)
    decreases |p|
  {
    if Nearest(all, m, p) {
      q := p;
    } else {
      var p' :| p' in all && Below(m, p') && Below(p', p);
      q := NearestAbove(all, m, mp, p');
    }
  }

  lemma {:induction false} InFront(all: seq<string>, q: string, i: nat)
    requires q in all && i < |Sorted(all)| && q < Sorted(all)[i]
    ensures q in Sorted(all)[..i]
  {
    var sorted := Sorted(all);
    SortedSorts(all);
    assert q in multiset(sorted);
    var j: nat :| j < |sorted| && sorted[j] == q;
    PrefixComesFirst(q, sorted[i]);
    assert j < i;
    assert sorted[..i][j] == q;
  }

  lemma {:induction false} InAll(all: seq<string>, p: string, i: nat)
    requires i <= |Sorted(all)| && p in Sorted(all)[..i]
    ensures p in all
  {
    SortedSorts(all);
    assert p in multiset(Sorted(all));
  }

  /** A nested mount point is nearest exactly when it lies below none of those found before it. */
  lemma {:induction false} Decide(all: seq<string>, m: string, i: nat, prev: seq<string>)
    requires i < |Sorted(all)| && Remembered(all, m, Sorted(all)[..i], prev)
    requires Below(m, Sorted(all)[i])
    ensures Nearest(all, m, Sorted(all)[i]) <==> forall x :: x in prev ==> !(x <= Sorted(all)[i])
  {
    hide Sorted;
    var mp := Sorted(all)[i];
    if !Nearest(all, m, mp) {
      var p :| p in all && Below(m, p) && Below(p, mp);
      var q := NearestAbove(all, m, mp, p);
      InFront(all, q, i);
      assert q + "/" in prev;
    } else {
      forall x | x in prev ensures !(x <= mp) {
        var p :| p in Sorted(all)[..i] && Nearest(all, m, p) && x == p + "/";
        InAll(all, p, i);
        assert Below(m, p);
      }
    }
  }

  // ---- Properties ----

  lemma {:induction false} NearestOfMember(all: seq<string>, m: string, some: seq<string>)
    ensures forall d :: d in NearestOf(all, m, some) <==> m + "/" + d in some && Nearest(all, m, m + "/" + d)
    decreases |some|
  {
    hide Nearest;
    if some != [] {
      var k := |some| - 1;
      NearestOfMember(all, m, some[..k]);
      assert some == some[..k] + [some[k]];
      Relative(all, m, some[k]);
    }
  }

  lemma {:induction false} Relative(all: seq<string>, m: string, mp: string)
    ensures Nearest(all, m, mp) ==> Below(m, mp) && mp == m + "/" + RelativeTo(m, mp)
    ensures forall d :: m + "/" + d == mp ==> Below(m, mp) && RelativeTo(m, mp) == d
  {
  }

  lemma {:induction false} PathsOfMember(volume: string, mounts: seq<VolumeMount>, m: string)
    ensures m in PathsOf(volume, mounts) <==> MountedAt(Container(mounts), volume, m)
    decreases |mounts|
  {
    if mounts != [] {
      var k := |mounts| - 1;
      var front := mounts[..k];
      PathsOfMember(volume, front, m);
      assert forall i :: 0 <= i < k ==> front[i] == mounts[i];
    }
  }

  lemma {:induction false} NestedMember(all: seq<string>, mine: seq<string>, d: string)
    ensures d in Nested(all, mine) <==> exists m :: m in mine && d in NearestOf(all, m, Sorted(all))
    decreases |mine|
  {
    hide NearestOf, Sorted;
    if mine != [] {
      var k := |mine| - 1;
      NestedMember(all, mine[..k], d);
      assert mine == mine[..k] + [mine[k]];
      if d in Nested(all, mine[..k]) {
        var m :| m in mine[..k] && d in NearestOf(all, m, Sorted(all));
        assert m in mine;
      } else if d in NearestOf(all, mine[k], Sorted(all)) {
        assert mine[k] in mine;
      }
    }
  }

  /** What one container needs, in terms of its mounts. */
  lemma {:induction false} ContainerMember(volume: string, c: Container, d: string)
    ensures d in Nested(AllPaths(c.mounts), PathsOf(volume, c.mounts)) <==> exists m :: Needed(c, volume, m, d)
  {
    var all, mine := AllPaths(c.mounts), PathsOf(volume, c.mounts);
    NestedMember(all, mine, d);
    forall m ensures m in mine && d in NearestOf(all, m, Sorted(all)) <==> Needed(c, volume, m, d) {
      hide Nested, PathsOf, Sorted, NearestOf;
      PathsOfMember(volume, c.mounts, m);
      NearestExact(all, m);
      NearestByMounts(c, m, d);
    }
  }

  lemma {:induction false} NearestByMounts(c: Container, m: string, d: string)
    ensures var all := AllPaths(c.mounts);
            m + "/" + d in all && Nearest(all, m, m + "/" + d) <==>
            (&& (exists i :: 0 <= i < |c.mounts| && c.mounts[i].path == m + "/" + d)
             && (forall i :: 0 <= i < |c.mounts| && m + "/" <= c.mounts[i].path ==>
                   !(c.mounts[i].path + "/" <= m + "/" + d)))
  {
    var all := AllPaths(c.mounts);
    assert forall i :: 0 <= i < |all| ==> all[i] == c.mounts[i].path;
    assert forall i :: 0 <= i < |c.mounts| ==> c.mounts[i].path in all;
    BelowShifted(m, d, d);
  }

  lemma {:induction false} OfContainersMember(volume: string, cs: seq<Container>, d: string)
    ensures d in OfContainers(volume, cs) <==> exists c, m :: c in cs && Needed(c, volume, m, d)
    decreases |cs|
  {
    hide Nested, PathsOf, Needed;
    if cs != [] {
      var k := |cs| - 1;
      OfContainersMember(volume, cs[..k], d);
      ContainerMember(volume, cs[k], d);
      assert cs == cs[..k] + [cs[k]];
      assert cs[..k + 1] == cs;
      OfOneMore(volume, cs, k);
    }
  }

  /** What the containers of a pod need, list by list. */
  lemma {:induction false} PodMembers(volume: string, spec: PodSpec)
    ensures forall c :: c in Visited(spec) <==> InPod(spec, c)
    ensures forall d :: d in OfContainers(volume, Visited(spec)) <==>
      exists c, m :: InPod(spec, c) && Needed(c, volume, m, d)
    ensures forall c: Container, m :: m in PathsOf(volume, c.mounts) <==> MountedAt(c, volume, m)
  {
    hide OfContainers, Needed, PathsOf, MountedAt;
    forall d {
      OfContainersMember(volume, Visited(spec), d);
    }
    forall c: Container, m {
      PathsOfMember(volume, c.mounts, m);
    }
  }

  lemma {:induction false} BelowShifted(m: string, d: string, e: string)
    ensures Below(m, m + "/" + d)
    ensures Below(d, e) ==> Below(m + "/" + d, m + "/" + e)
  {
    if Below(d, e) {
      assert e == d + "/" + e[|d| + 1..];
      assert m + "/" + e == (m + "/" + d) + "/" + e[|d| + 1..];
    }
  }

  /** The directories created for one mount of the volume are exactly the nearest nested mount
      points: each is a mount of the container, none lies below another, and every deeper mount
      is covered by one. */
  lemma {:induction false} NearestExact(all: seq<string>, m: string)
    ensures var dirs := NearestOf(all, m, Sorted(all));
            && (forall d :: d in dirs <==> m + "/" + d in all && Nearest(all, m, m + "/" + d))
            && (forall d, e :: d in dirs && e in dirs ==> !Below(d, e))
            && (forall mp :: mp in all && Below(m, mp) ==>
                  exists d :: d in dirs && (mp == m + "/" + d || Below(m + "/" + d, mp)))
  {
    hide Sorted, NearestOf;
    var sorted := Sorted(all);
    var dirs := NearestOf(all, m, sorted);
    SortedSorts(all);
    assert forall p :: p in all <==> p in multiset(sorted);
    NearestOfMember(all, m, sorted);
    forall d, e | d in dirs && e in dirs ensures !Below(d, e) {
      BelowShifted(m, d, e);
    }
    forall mp | mp in all && Below(m, mp)
      ensures exists d :: d in dirs && (mp == m + "/" + d || Below(m + "/" + d, mp))
    {
      var q := mp;
      if !Nearest(all, m, mp) {
        var p :| p in all && Below(m, p) && Below(p, mp);
        q := NearestAbove(all, m, mp, p);
      }
      Relative(all, m, q);
      assert RelativeTo(m, q) in dirs;
    }
  }

  ghost predicate Once(m: multiset<string>) {
    forall x :: x in m ==> m[x] == 1
  }

  lemma {:induction false} OnceStep(m: multiset<string>, x: string)
    ensures Once(m + multiset{x}) <==> Once(m) && x !in m
  {
    var n := m + multiset{x};
    if Once(n) {
      assert n[x] == 1;
      assert forall y :: y in m ==> n[y] == 1;
    }
  }

  lemma {:induction false} DistinctOnce(s: seq<string>)
    ensures Distinct(s) <==> Once(multiset(s))
    decreases |s|
  {
    hide Once;
    if s != [] {
      var k := |s| - 1;
      var front := s[..k];
      assert s == front + [s[k]];
      DistinctOnce(front);
      OnceStep(multiset(front), s[k]);
      assert Distinct(s) <==> Distinct(front) && s[k] !in front by {
        assert forall i :: 0 <= i < k ==> front[i] == s[i];
      }
    } else {
      NothingTwice();
    }
  }

  lemma {:induction false} NothingTwice()
    ensures Once(multiset{})
  {
  }

  /** With distinct mount paths no directory is listed twice. */
  lemma {:induction false} NearestDistinct(all: seq<string>, m: string)
    requires Distinct(all)
    ensures Distinct(NearestOf(all, m, Sorted(all)))
  {
    SortedSorts(all);
    DistinctOnce(all);
    DistinctOnce(Sorted(all));
    NearestOfDistinct(all, m, Sorted(all));
  }

  lemma {:induction false} NearestOfDistinct(all: seq<string>, m: string, some: seq<string>)
    requires Distinct(some)
    ensures Distinct(NearestOf(all, m, some))
    decreases |some|
  {
    hide Nearest;
    if some != [] {
      var k := |some| - 1;
      var front := some[..k];
      assert forall i :: 0 <= i < k ==> front[i] == some[i];
      NearestOfDistinct(all, m, front);
      NearestOfMember(all, m, front);
      Relative(all, m, some[k]);
    }
  }

  // ---- Against the directory tree ----

  /** An absolute path in the form filepath.Clean gives it. */
  predicate CleanAbsolute(p: string) {
    p == "/" || (|p| > 1 && p[0] == '/' && "" !in Split(p[1..], '/'))
  }

  /** The names on the way from the root to a directory. */
  function Components(p: string): seq<string>
    requires CleanAbsolute(p)
  {
    if p == "/" then [] else Split(p[1..], '/')
  }

  /** The prefix test compares whole path elements. */
  lemma {:induction false} BelowElements(a: string, b: string)
    ensures Below(a, b) <==> Split(a, '/') < Split(b, '/')
  {
    hide Split, Join;
    var x, y := Split(a, '/'), Split(b, '/');
    if Below(a, b) {
      var r := b[|a| + 1..];
      assert b == a + "/" + r;
      SplitSeparator(a, r, '/');
    } else if x < y {
      SplitJoin(a, '/');
      SplitJoin(b, '/');
      assert y == x + y[|x|..];
      JoinAppend(x, y[|x|..], '/');
      assert false;
    }
  }

  /** The prefix test misses the root, and nothing else. */
  lemma {:induction false} BelowExact(m: string, mp: string)
    requires CleanAbsolute(m) && CleanAbsolute(mp)
    ensures Below(m, mp) <==> Components(m) < Components(mp) && m != "/"
  {
    hide Split;
    if m == "/" {
      RootTest(mp);
    } else if mp != "/" {
      assert m == "/" + m[1..] && mp == "/" + mp[1..];
      assert Below(m, mp) <==> Below(m[1..], mp[1..]);
      BelowElements(m[1..], mp[1..]);
    }
  }

  lemma {:induction false} RootTest(mp: string)
    requires CleanAbsolute(mp)
    ensures !Below("/", mp)
  {
    assert ("/" + "/")[1] == '/';
    if |mp| > 1 && mp[1] == '/' {
      EmptyFirst(mp[1..]);
    }
  }

  lemma {:induction false} EmptyFirst(s: string)
    requires s != "" && s[0] == '/'
    ensures "" in Split(s, '/')
  {
    assert Split(s, '/')[0] == "";
  }

  /** A mount point in the tree below `m` with no other one in between. */
  ghost predicate NearestInTree(all: seq<string>, m: string, mp: string)
    requires CleanAbsolute(m) && CleanAbsolute(mp) && forall p :: p in all ==> CleanAbsolute(p)
  {
    && Components(m) < Components(mp)
    && forall p :: p in all && Components(m) < Components(p) ==> !(Components(p) < Components(mp))
  }

  lemma {:induction false} SomeNearest(all: seq<string>, m: string, mp: string) returns (q: string)
    requires CleanAbsolute(m) && (forall p :: p in all ==> CleanAbsolute(p))
    requires mp in all && Components(m) < Components(mp)
    ensures q in all && NearestInTree(all, m, q)
    decreases |Components(mp)|
  {
    if NearestInTree(all, m, mp) {
      q := mp;
    } else {
      var p :| p in all && Components(m) < Components(p) && Components(p) < Components(mp);
      q := SomeNearest(all, m, p);
    }
  }

  /** The code finds the nearest mount points of the tree, except for a volume mounted at the
      root: that one gets no directory for any mount nested in it. */
  lemma {:induction false} TreeExact(all: seq<string>, m: string)
    requires CleanAbsolute(m) && forall p :: p in all ==> CleanAbsolute(p)
    ensures (forall mp :: mp in all ==> (Nearest(all, m, mp) <==> NearestInTree(all, m, mp)))
       <==> (m != "/" || forall mp :: mp in all ==> mp == "/")
    ensures m == "/" ==> NearestOf(all, m, Sorted(all)) == []
  {
    hide Nearest, NearestInTree, Sorted, NearestOf;
    if m != "/" {
      forall mp | mp in all ensures Nearest(all, m, mp) <==> NearestInTree(all, m, mp) {
        NearestAgree(all, m, mp);
      }
    } else {
      forall mp | mp in all ensures !Nearest(all, m, mp) {
        RootNotNearest(all, mp);
      }
      NearestExact(all, m);
      SomeElement(NearestOf(all, m, Sorted(all)));
      if mp :| mp in all && mp != "/" {
        var q := SomeNearest(all, m, mp);
      } else {
        forall mp | mp in all ensures !NearestInTree(all, m, mp) {
          RootNotInRoot(all);
        }
      }
    }
  }

  lemma {:induction false} SomeElement(s: seq<string>)
    ensures s == [] || exists x :: x in s
  {
    if s != [] {
      assert s[0] in s;
    }
  }

  lemma {:induction false} RootNotNearest(all: seq<string>, mp: string)
    requires CleanAbsolute(mp)
    ensures !Nearest(all, "/", mp)
  {
    RootTest(mp);
  }

  lemma {:induction false} RootNotInRoot(all: seq<string>)
    requires forall p :: p in all ==> CleanAbsolute(p)
    ensures !NearestInTree(all, "/", "/")
  {
  }

  lemma {:induction false} NearestAgree(all: seq<string>, m: string, mp: string)
    requires CleanAbsolute(m) && m != "/" && mp in all && forall p :: p in all ==> CleanAbsolute(p)
    ensures Nearest(all, m, mp) <==> NearestInTree(all, m, mp)
  {
    hide CleanAbsolute;
    BelowExact(m, mp);
    forall p | p in all
      ensures Below(m, p) <==> Components(m) < Components(p)
      ensures Below(m, p) ==> (Below(p, mp) <==> Components(p) < Components(mp))
    {
      BelowExact(m, p);
      BelowExact(p, mp);
    }
  }
}
