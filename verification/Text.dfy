/** String helpers with the meaning of Go's `strings` package. */
module Text {

  /** The index of the first `c`, or the length. */
  function IndexOf(s: string, c: char): (i: nat)
    ensures i <= |s|
    ensures forall j :: 0 <= j < i ==> s[j] != c
    ensures i < |s| ==> s[i] == c
  {
    if s == "" || s[0] == c then 0
    else
      var i := IndexOf(s[1..], c);
      assert forall j :: 0 < j < i + 1 ==> s[j] == s[1..][j - 1];
      i + 1
  }

  /** The index of the last `c`, or -1. */
  function LastIndexOf(s: string, c: char): (i: int)
    ensures -1 <= i < |s|
    ensures forall j :: i < j < |s| ==> s[j] != c
    ensures i >= 0 ==> s[i] == c
  {
    if s == "" then -1
    else if s[|s| - 1] == c then |s| - 1
    else LastIndexOf(s[..|s| - 1], c)
  }

  /** strings.Split for a one-character separator. */
  function Split(s: string, sep: char): (parts: seq<string>)
    ensures |parts| > 0
  {
    if s == "" then [""]
    else
      var rest := Split(s[1..], sep);
      if s[0] == sep then [""] + rest else Prepend(s[0], rest)
  }

  /** Put a character in front of the first part. */
  function Prepend(c: char, parts: seq<string>): (r: seq<string>)
    requires |parts| > 0
    ensures |r| == |parts|
  {
    [[c] + parts[0]] + parts[1..]
  }

  /** Join two lists of parts at their seam. */
  function Glue(x: seq<string>, y: seq<string>): (r: seq<string>)
    requires |x| > 0 && |y| > 0
    ensures |r| == |x| + |y| - 1
  {
    x[..|x| - 1] + [x[|x| - 1] + y[0]] + y[1..]
  }

  function Join(parts: seq<string>, sep: char): string
    requires |parts| > 0
  {
    if |parts| == 1 then parts[0] else parts[0] + [sep] + Join(parts[1..], sep)
  }

  /** Splitting loses nothing and leaves no separator inside a part. */
  lemma {:induction false} SplitJoin(s: string, sep: char)
    ensures Join(Split(s, sep), sep) == s
    ensures forall part :: part in Split(s, sep) ==> sep !in part
  {
    if s != "" {
      SplitJoin(s[1..], sep);
      var rest := Split(s[1..], sep);
      assert s == [s[0]] + s[1..];
      if s[0] == sep {
        assert ([""] + rest)[1..] == rest;
      } else {
        var r := Prepend(s[0], rest);
        assert r[1..] == rest[1..];
        assert rest[0] in rest;
        forall part | part in r ensures sep !in part {
          if part != r[0] { assert part in rest; }
        }
      }
    }
  }

  lemma {:induction false} GluePrepend(c: char, x: seq<string>, y: seq<string>)
    requires |x| > 0 && |y| > 0
    ensures Glue(Prepend(c, x), y) == Prepend(c, Glue(x, y))
  {
    var l, r := Glue(Prepend(c, x), y), Prepend(c, Glue(x, y));
    if |x| == 1 {
      assert l[0] == ([c] + x[0]) + y[0] && r[0] == [c] + (x[0] + y[0]);
      assert l[0] == r[0];
      assert l[1..] == y[1..] == r[1..];
    } else {
      assert l[0] == [c] + x[0] == r[0];
      assert l[1..] == x[1..|x| - 1] + [x[|x| - 1] + y[0]] + y[1..] == r[1..];
    }
    assert l == [l[0]] + l[1..] && r == [r[0]] + r[1..];
  }

  lemma {:induction false} GlueCons(x: seq<string>, y: seq<string>)
    requires |x| > 0 && |y| > 0
    ensures Glue([""] + x, y) == [""] + Glue(x, y)
  {
    assert ([""] + x)[..|x|] == [""] + x[..|x| - 1];
  }

  lemma {:induction false} GlueEmpty(y: seq<string>)
    requires |y| > 0
    ensures Glue([""], y) == y
  {
    assert "" + y[0] == y[0] && y == [y[0]] + y[1..];
  }

  /** Splitting a concatenation joins the last part of the one with the first of the other. */
  lemma {:induction false} SplitConcat(a: string, b: string, sep: char)
    ensures Split(a + b, sep) == Glue(Split(a, sep), Split(b, sep))
  {
    hide Glue, Prepend;
    var y := Split(b, sep);
    if a == "" {
      assert a + b == b;
      GlueEmpty(y);
    } else {
      SplitConcat(a[1..], b, sep);
      assert (a + b)[1..] == a[1..] + b;
      GluePrepend(a[0], Split(a[1..], sep), y);
      GlueCons(Split(a[1..], sep), y);
    }
  }

  lemma {:induction false} SplitNone(s: string, sep: char)
    requires sep !in s
    ensures Split(s, sep) == [s]
  {
    if s != "" {
      SplitNone(s[1..], sep);
      assert s == [s[0]] + s[1..];
    }
  }

  lemma {:induction false} GlueSeparator(x: seq<string>, y: seq<string>)
    requires |x| > 0 && |y| > 0
    ensures Glue(x, ["", ""]) == x + [""] && Glue(x + [""], y) == x + y
  {
    assert x[|x| - 1] + "" == x[|x| - 1];
    assert "" + y[0] == y[0];
  }

  lemma {:induction false} SplitSeparator(a: string, r: string, sep: char)
    ensures Split(a + [sep] + r, sep) == Split(a, sep) + Split(r, sep)
  {
    hide Glue;
    var x, y := Split(a, sep), Split(r, sep);
    assert Split([sep], sep) == ["", ""] by {
      assert [sep][1..] == "";
    }
    SplitConcat(a, [sep], sep);
    SplitConcat(a + [sep], r, sep);
    GlueSeparator(x, y);
  }

  lemma {:induction false} JoinAppend(x: seq<string>, y: seq<string>, sep: char)
    requires |x| > 0 && |y| > 0
    ensures Join(x + y, sep) == Join(x, sep) + [sep] + Join(y, sep)
  {
    assert (x + y)[1..] == x[1..] + y;
    if |x| > 1 {
      JoinAppend(x[1..], y, sep);
    } else {
      assert x[1..] + y == y;
    }
  }

  /** Splitting undoes joining when no part contains the separator. */
  lemma {:induction false} JoinSplit(parts: seq<string>, sep: char)
    requires |parts| > 0 && forall part :: part in parts ==> sep !in part
    ensures Split(Join(parts, sep), sep) == parts
    decreases |parts|
  {
    hide Split;
    SplitNone(parts[0], sep);
    if |parts| > 1 {
      JoinSplit(parts[1..], sep);
      SplitSeparator(parts[0], Join(parts[1..], sep), sep);
      assert parts == [parts[0]] + parts[1..];
    }
  }
}
