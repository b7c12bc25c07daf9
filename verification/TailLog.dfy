/** Reading the last lines of a container log backwards, page by page (pkg/container/logs.go). */
module TailLog {
  import opened Text

  const NEWLINE: char := '\n'

  /** The outcome of one backward read. */
  datatype Read = AtStart | Failed | Page(text: string)

  /** Reads a file from its end. The file does not change while it is read. */
  class ReverseReader {
    const file: string
    const readSize: nat
    var offset: int

    /** The offset is a page boundary at most one page before the start of the file. */
    ghost predicate Valid()
      reads this
    {
      readSize > 0 && Boundary(offset, readSize) && offset <= |file|
    }

    constructor (file: string, pageSize: nat)
      requires pageSize > 0
      ensures Valid() && this.file == file && readSize == pageSize
      ensures offset == LastBoundary(file, pageSize)
    {
      var remainder := |file| % pageSize;
      var startOffset := |file| - remainder;
      this.file, this.readSize, this.offset := file, pageSize, startOffset;
      LastIsBoundary(file, pageSize);
    }

    method Read(fault: int -> bool) returns (r: Read)
      requires Valid()
      modifies this
      ensures Valid()
      ensures r.AtStart? <==> old(offset) < 0
      ensures r.Failed? <==> old(offset) >= 0 && fault(old(offset))
      ensures r.Page? ==> r.text == Slice(file, old(offset), readSize)
      ensures offset == if r.Page? then old(offset) - readSize else old(offset)
    {
      if offset < 0 {
        return AtStart;
      }
      if fault(offset) {
        return Failed;
      }
      r := Page(Slice(file, offset, readSize));
      BoundaryStep(offset, readSize);
      offset := offset - readSize;
    }
  }

  function LastBoundary(file: string, pageSize: nat): int
    requires pageSize > 0
  {
    |file| - |file| % pageSize
  }

  /** os.File.ReadAt: at most `n` bytes from an offset on. */
  function Slice(file: string, offset: int, n: nat): string
    requires 0 <= offset <= |file|
  {
    if offset + n <= |file| then file[offset..offset + n] else file[offset..]
  }

  /** A page boundary, or one page before the start of the file. */
  ghost predicate Boundary(offset: int, page: nat) {
    exists k: int :: k >= -1 && offset == Times(page, k)
  }

  function Times(page: nat, k: int): int {
    page * k
  }

  lemma {:induction false} LastIsBoundary(file: string, page: nat)
    requires page > 0
    ensures Boundary(LastBoundary(file, page), page)
    ensures 0 <= LastBoundary(file, page) <= |file| < LastBoundary(file, page) + page
  {
    assert LastBoundary(file, page) == Times(page, |file| / page);
  }

  lemma {:induction false} BoundaryStep(offset: int, page: nat)
    requires page > 0 && Boundary(offset, page)
    ensures offset + page >= 0
    ensures offset < 0 ==> offset == 0 - page
    ensures offset >= 0 ==> Boundary(offset - page, page)
  {
    var k: int :| k >= -1 && offset == Times(page, k);
    if k >= 0 {
      assert offset - page == Times(page, k - 1);
    }
  }

  // ---- What is returned ----

  /** The non-empty parts, last first. */
  function Newest(parts: seq<string>): seq<string> {
    if parts == [] then [] else Newest(parts[1..]) + if parts[0] == "" then [] else [parts[0]]
  }

  /** `r` consists of non-empty parts, whole and in reverse order: entry `i` is part `idx[i]`. */
  ghost predicate Picks(parts: seq<string>, r: seq<string>, idx: seq<nat>) {
    && |idx| == |r|
    && (forall i :: 0 <= i < |r| ==> idx[i] < |parts| && r[i] == parts[idx[i]] && r[i] != "")
    && (forall i, j :: 0 <= i < j < |idx| ==> idx[i] > idx[j])
  }

  /** No non-empty part from `start` on is left out, and none before it is taken. */
  ghost predicate AllFrom(parts: seq<string>, idx: seq<nat>, start: nat) {
    && (forall j :: start <= j < |parts| && parts[j] != "" ==> j in idx)
    && (forall j :: j in idx ==> j >= start)
  }

  /** `r` is the non-empty parts from some part on, last first. */
  ghost predicate LastParts(parts: seq<string>, r: seq<string>) {
    exists idx: seq<nat>, start: nat :: Picks(parts, r, idx) && AllFrom(parts, idx, start)
  }

  /** `r` is all the non-empty parts, last first. */
  ghost predicate AllParts(parts: seq<string>, r: seq<string>) {
    exists idx: seq<nat> :: Picks(parts, r, idx) && AllFrom(parts, idx, 0)
  }

  lemma {:induction false} NewestPicks(parts: seq<string>) returns (idx: seq<nat>)
    ensures Picks(parts, Newest(parts), idx) && AllFrom(parts, idx, 0)
  {
    if parts == [] {
      idx := [];
    } else {
      var rest := NewestPicks(parts[1..]);
      var shifted := seq(|rest|, i requires 0 <= i < |rest| => rest[i] + 1);
      hide Picks, AllFrom;
      ShiftPicks(parts, Newest(parts[1..]), rest, shifted);
      FirstPicked(parts, Newest(parts[1..]), shifted);
      idx := if parts[0] == "" then shifted else shifted + [0];
    }
  }

  lemma {:induction false} FirstPicked(parts: seq<string>, r: seq<string>, idx: seq<nat>)
    requires parts != [] && Picks(parts, r, idx) && AllFrom(parts, idx, 1)
    ensures parts[0] == "" ==> AllFrom(parts, idx, 0)
    ensures parts[0] != "" ==> Picks(parts, r + [parts[0]], idx + [0]) && AllFrom(parts, idx + [0], 0)
  {
    forall i | 0 <= i < |idx| ensures idx[i] >= 1 {
      assert idx[i] in idx;
    }
    assert (idx + [0])[|idx|] == 0;
  }

  lemma {:induction false} ShiftPicks(parts: seq<string>, r: seq<string>, rest: seq<nat>, shifted: seq<nat>)
    requires parts != [] && Picks(parts[1..], r, rest) && AllFrom(parts[1..], rest, 0)
    requires |shifted| == |rest| && forall i :: 0 <= i < |rest| ==> shifted[i] == rest[i] + 1
    ensures Picks(parts, r, shifted) && AllFrom(parts, shifted, 1)
  {
    forall j | 1 <= j < |parts| && parts[j] != "" ensures j in shifted {
      assert parts[1..][j - 1] == parts[j];
      var i :| 0 <= i < |rest| && rest[i] == j - 1;
      assert shifted[i] == j;
    }
  }

  /** A prefix of the newest parts leaves no gap. */
  lemma {:induction false} PrefixPicks(parts: seq<string>, r: seq<string>)
    requires r <= Newest(parts)
    ensures LastParts(parts, r)
  {
    var idx := NewestPicks(parts);
    hide Newest, Picks, AllFrom;
    FrontPicks(parts, Newest(parts), idx, |r|);
    assert Newest(parts)[..|r|] == r;
  }

  lemma {:induction false} FrontPicks(parts: seq<string>, all: seq<string>, idx: seq<nat>, n: nat)
    requires Picks(parts, all, idx) && AllFrom(parts, idx, 0) && n <= |all|
    ensures |idx| == |all| && LastParts(parts, all[..n])
  {
    var some := idx[..n];
    var start: nat := if n == 0 then |parts| else idx[n - 1];
    forall j | start <= j < |parts| && parts[j] != "" ensures j in some {
      var p :| 0 <= p < |idx| && idx[p] == j;
      assert some[p] == j;
    }
    assert Picks(parts, all[..n], some) && AllFrom(parts, some, start);
  }

  /** All lines of a log that are not empty, newest first. */
  function AllLines(file: string): seq<string> {
    Newest(Split(file, NEWLINE))
  }

  function Suffix(file: string, offset: nat): string {
    if offset >= |file| then "" else file[offset..]
  }

  /** The lines that certainly begin at or after `offset`: the text before the first newline may
      belong to an earlier line. */
  function LinesFrom(file: string, offset: nat): seq<string> {
    Newest(Split(Suffix(file, offset), NEWLINE)[1..])
  }

  predicate HasNewline(file: string, offset: nat) {
    |Split(Suffix(file, offset), NEWLINE)| > 1
  }

  predicate Enough(file: string, offset: nat, tail: int) {
    HasNewline(file, offset) && |LinesFrom(file, offset)| >= tail
  }

  /** What is returned by a reader about to read at `offset`, having found too little so far. */
  function Collected(file: string, page: nat, tail: int, fault: int -> bool, offset: int): seq<string>
    requires page > 0 && offset + page >= 0
    decreases offset + page
  {
    if offset < 0 then AllLines(file)
    else if fault(offset) then LinesFrom(file, offset + page)
    else if Enough(file, offset, tail) then LinesFrom(file, offset)
    else Collected(file, page, tail, fault, offset - page)
  }

  /** Page by page with the cut line carried over, the result is a function of the whole file. */
  method GetTailLog(file: string, pageSize: nat, tail: int, fault: int -> bool) returns (tailLog: seq<string>)
    requires pageSize > 0
    ensures tailLog == Collected(file, pageSize, tail, fault, LastBoundary(file, pageSize))
    ensures IsTail(file, pageSize, tail, fault, tailLog)
  {
    hide Split, Newest, LinesFrom, AllLines, HasNewline, Slice, Suffix, Boundary, LastBoundary, IsTail;
    var rr := new ReverseReader(file, pageSize);
    var leftover, nllCounter := "", 0;
    tailLog := [];
    LastIsBoundary(file, pageSize);
    NothingRead(file, LastBoundary(file, pageSize) + pageSize);
    while true
      invariant rr.Valid() && rr.file == file && rr.readSize == pageSize && rr.offset + pageSize >= 0
      invariant nllCounter == |tailLog|
      invariant Carried(file, rr.offset + pageSize, leftover, tailLog)
      invariant !Enough(file, rr.offset + pageSize, tail)
      invariant Collected(file, pageSize, tail, fault, rr.offset) ==
        Collected(file, pageSize, tail, fault, LastBoundary(file, pageSize))
      decreases rr.offset + pageSize
    {
      BoundaryStep(rr.offset, pageSize);
      ghost var at := rr.offset;
      var r := rr.Read(fault);
      match r
      case AtStart =>
        ghost var before := tailLog;
        tailLog, nllCounter := Consume([leftover], tailLog, nllCounter);
        LastLine(file, leftover, before);
        break;
      case Failed =>
        break;
      case Page(s) =>
        PageStep(file, at, pageSize, leftover, tailLog);
        var line := Split(s + leftover, NEWLINE);
        leftover := line[0];
        if |line| > 1 {
          tailLog, nllCounter := Consume(line[1..], tailLog, nllCounter);
          if nllCounter >= tail {
            break;
          }
        } else {
          NewestEmpty(line[1..]);
        }
    }
    TailLogCorrect(file, pageSize, tail, fault);
  }

  /** One batch taken from the channel. */
  method Consume(batch: seq<string>, tailLog: seq<string>, counter: nat) returns (r: seq<string>, n: nat)
    requires counter == |tailLog|
    ensures tailLog <= r && AllParts(batch, r[|tailLog|..])
    ensures r == tailLog + Newest(batch)
    ensures n == |r|
  {
    var _ := NewestPicks(batch);
    r, n := tailLog, counter;
    var j := |batch|;
    while j > 0
      invariant 0 <= j <= |batch|
      invariant r == tailLog + Newest(batch[j..]) && n == |r|
    {
      j := j - 1;
      assert batch[j..][1..] == batch[j + 1..];
      if |batch[j]| < 1 {
        continue;
      }
      r := r + [batch[j]];
      n := n + 1;
    }
    assert batch[0..] == batch;
  }

  /** The state between two reads: the unfinished first line, and the lines after it. */
  ghost predicate Carried(file: string, offset: nat, leftover: string, lines: seq<string>) {
    lines == LinesFrom(file, offset) && leftover == Split(Suffix(file, offset), NEWLINE)[0]
  }

  lemma {:induction false} NothingRead(file: string, offset: nat)
    requires offset >= |file|
    ensures Carried(file, offset, "", []) && !HasNewline(file, offset)
  {
    assert Split("", NEWLINE) == [""];
  }

  lemma {:induction false} NewestEmpty(parts: seq<string>)
    requires parts == []
    ensures Newest(parts) == []
  {
  }

  lemma {:induction false} NewestAppend(a: seq<string>, b: seq<string>)
    ensures Newest(a + b) == Newest(b) + Newest(a)
  {
    if a == [] {
      assert a + b == b;
    } else {
      assert (a + b)[1..] == a[1..] + b;
      NewestAppend(a[1..], b);
    }
  }

  /** Splitting a page with the carried text gives the same lines as splitting everything from
      the page on. */
  lemma {:induction false} SplitCarried(s: string, rest: string)
    ensures var y := Split(rest, NEWLINE);
            Split(s + rest, NEWLINE) == Split(s + y[0], NEWLINE) + y[1..]
  {
    hide Split, Glue;
    var x, y := Split(s, NEWLINE), Split(rest, NEWLINE);
    SplitConcat(s, rest, NEWLINE);
    SplitConcat(s, y[0], NEWLINE);
    SplitJoin(rest, NEWLINE);
    assert y[0] in y;
    SplitNone(y[0], NEWLINE);
    GlueFirst(x, y);
  }

  lemma {:induction false} GlueFirst(x: seq<string>, y: seq<string>)
    requires |x| > 0 && |y| > 0
    ensures Glue(x, y) == Glue(x, [y[0]]) + y[1..]
  {
  }

  lemma {:induction false} PageStep(file: string, at: nat, page: nat, leftover: string, lines: seq<string>)
    requires page > 0 && at <= |file|
    requires Carried(file, at + page, leftover, lines)
    ensures var line := Split(Slice(file, at, page) + leftover, NEWLINE);
            && Carried(file, at, line[0], lines + Newest(line[1..]))
            && (HasNewline(file, at) <==> |line| > 1 || HasNewline(file, at + page))
  {
    hide Split, Newest;
    var text, rest := Slice(file, at, page), Suffix(file, at + page);
    assert text + rest == Suffix(file, at);
    var y, line := Split(rest, NEWLINE), Split(text + leftover, NEWLINE);
    SplitCarried(text, rest);
    assert Split(Suffix(file, at), NEWLINE) == line + y[1..];
    assert (line + y[1..])[1..] == line[1..] + y[1..];
    NewestAppend(line[1..], y[1..]);
  }

  lemma {:induction false} LastLine(file: string, leftover: string, lines: seq<string>)
    requires Carried(file, 0, leftover, lines)
    ensures lines + Newest([leftover]) == AllLines(file)
  {
    hide Split, Newest;
    assert Suffix(file, 0) == file;
    var y := Split(file, NEWLINE);
    assert y == [leftover] + y[1..];
    NewestAppend([leftover], y[1..]);
  }

  // ---- Properties ----

  /** Going further back only adds older lines at the end. */
  lemma {:induction false} FurtherBack(file: string, from: nat, to: nat)
    requires to <= from
    ensures LinesFrom(file, from) <= LinesFrom(file, to) <= AllLines(file)
  {
    hide Split, Newest;
    LinesPrefix(file, from, to);
    assert Suffix(file, 0) == file;
    var y := Split(Suffix(file, to), NEWLINE);
    LinesPrefix(file, to, 0);
    LastLine(file, Split(file, NEWLINE)[0], LinesFrom(file, 0));
  }

  lemma {:induction false} LinesPrefix(file: string, from: nat, to: nat)
    requires to <= from
    ensures LinesFrom(file, from) <= LinesFrom(file, to)
  {
    hide Split, Newest;
    if to <= |file| {
      PageStepPrefix(file, to, from - to);
    } else {
      assert Suffix(file, from) == Suffix(file, to);
    }
  }

  lemma {:induction false} PageStepPrefix(file: string, at: nat, n: nat)
    requires at <= |file|
    ensures LinesFrom(file, at + n) <= LinesFrom(file, at)
  {
    if n > 0 {
      PageStep(file, at, n, Split(Suffix(file, at + n), NEWLINE)[0], LinesFrom(file, at + n));
    }
  }

  /** The result is always a prefix of the log read newest first, even when a read fails. */
  lemma {:induction false} CollectedIsPrefix(file: string, page: nat, tail: int, fault: int -> bool, offset: int)
    requires page > 0 && offset + page >= 0
    ensures Collected(file, page, tail, fault, offset) <= AllLines(file)
    decreases offset + page
  {
    hide LinesFrom, AllLines, Enough;
    if offset >= 0 {
      FurtherBack(file, offset + page, 0);
      FurtherBack(file, offset, 0);
      CollectedIsPrefix(file, page, tail, fault, offset - page);
    }
  }

  /** Without read errors the wanted number of lines is returned, or all lines there are. */
  lemma {:induction false} CollectedIsEnough(file: string, page: nat, tail: int, fault: int -> bool, offset: int)
    requires page > 0 && offset + page >= 0
    requires forall o :: !fault(o)
    ensures var r := Collected(file, page, tail, fault, offset);
            |r| >= tail || r == AllLines(file)
    decreases offset + page
  {
    hide LinesFrom, AllLines;
    if offset >= 0 {
      CollectedIsEnough(file, page, tail, fault, offset - page);
    }
  }

  lemma {:induction false} NoNewline(file: string, offset: nat)
    ensures !HasNewline(file, offset) ==> LinesFrom(file, offset) == []
  {
  }

  /** The lines from `o` on were too few, and `result` adds at most the page before `o`, or at
      the start of the file the first line. */
  ghost predicate StoppedAt(file: string, page: nat, tail: int, o: nat, result: seq<string>) {
    && LinesFrom(file, o) <= result
    && |LinesFrom(file, o)| < tail
    && (result == LinesFrom(file, o)
        || (o >= page && result == LinesFrom(file, o - page))
        || (o == 0 && result == AllLines(file)))
  }

  /** Reading stops as early as it can: the lines in sight one page earlier were too few. */
  lemma {:induction false} CollectedIsLeast(file: string, page: nat, tail: int, fault: int -> bool, offset: int)
    requires page > 0 && Boundary(offset, page) && offset + page >= 0
    requires tail > 0 && |LinesFrom(file, offset + page)| < tail
    ensures exists o: nat :: StoppedAt(file, page, tail, o, Collected(file, page, tail, fault, offset))
    decreases offset + page
  {
    hide LinesFrom, AllLines, HasNewline;
    BoundaryStep(offset, page);
    if offset >= 0 && !fault(offset) && !Enough(file, offset, tail) {
      NoNewline(file, offset);
      CollectedIsLeast(file, page, tail, fault, offset - page);
      assert Collected(file, page, tail, fault, offset) == Collected(file, page, tail, fault, offset - page);
    } else {
      FurtherBack(file, offset + page, if offset < 0 then 0 else offset);
      assert StoppedAt(file, page, tail, offset + page, Collected(file, page, tail, fault, offset));
    }
  }

  /** What a caller may rely on. The result is the non-empty lines from some line on, whole and newest
      first, read errors or not. Without read errors it is long enough, and no page was read in vain. It has more than
      the wanted lines exactly when the log does and no page begins where the wanted lines do. */
  ghost predicate IsTail(file: string, page: nat, tail: int, fault: int -> bool, r: seq<string>)
    requires page > 0
  {
    && LastParts(Split(file, NEWLINE), r)
    && r <= AllLines(file)
    && (tail > 0 ==> exists o: nat :: StoppedAt(file, page, tail, o, r))
    && ((forall o :: !fault(o)) ==>
          && (|r| >= tail || (r == AllLines(file) && AllParts(Split(file, NEWLINE), r)))
          && (tail > 0 ==>
                (|r| > tail <==> |AllLines(file)| > tail && !CutsExactly(file, page, tail, LastBoundary(file, page)))))
  }

  lemma {:induction false} LinesPicked(file: string, r: seq<string>)
    requires r <= AllLines(file)
    ensures LastParts(Split(file, NEWLINE), r)
    ensures r == AllLines(file) ==> AllParts(Split(file, NEWLINE), r)
  {
    PrefixPicks(Split(file, NEWLINE), r);
    var _ := NewestPicks(Split(file, NEWLINE));
  }

  lemma {:induction false} TailLogCorrect(file: string, page: nat, tail: int, fault: int -> bool)
    requires page > 0
    ensures IsTail(file, page, tail, fault, Collected(file, page, tail, fault, LastBoundary(file, page)))
  {
    hide Collected, AllLines, StoppedAt, CutsExactly, LinesFrom, LastParts, AllParts;
    var start := LastBoundary(file, page);
    LastIsBoundary(file, page);
    CollectedIsPrefix(file, page, tail, fault, start);
    LinesPicked(file, Collected(file, page, tail, fault, start));
    if tail > 0 {
      NothingRead(file, start + page);
      CollectedIsLeast(file, page, tail, fault, start);
    }
    if forall o :: !fault(o) {
      CollectedIsEnough(file, page, tail, fault, start);
      if tail > 0 {
        ExactLength(file, page, tail, fault, start);
      }
    }
  }

  /** The wanted number of lines can be read off at some page boundary. */
  ghost predicate CutsExactly(file: string, page: nat, tail: int, last: int) {
    exists o: nat :: o <= last && Boundary(o, page) && |LinesFrom(file, o)| == tail
  }

  /** A tail has exactly the wanted length if the log has no more lines than that or one of its
      pages begins just there; otherwise it is longer. */
  lemma {:induction false} ExactLength(file: string, page: nat, tail: int, fault: int -> bool, offset: int)
    requires page > 0 && Boundary(offset, page) && offset + page >= 0
    requires tail > 0 && |LinesFrom(file, offset + page)| < tail && forall o :: !fault(o)
    ensures var n := |Collected(file, page, tail, fault, offset)|;
            && (|AllLines(file)| <= tail ==> n == |AllLines(file)|)
            && (|AllLines(file)| > tail ==> (n == tail <==> CutsExactly(file, page, tail, offset)))
    decreases offset + page
  {
    hide LinesFrom, AllLines, HasNewline, Boundary;
    CollectedIsPrefix(file, page, tail, fault, offset);
    CollectedIsEnough(file, page, tail, fault, offset);
    BoundaryStep(offset, page);
    if offset >= 0 {
      NoNewline(file, offset);
      if Enough(file, offset, tail) {
        forall o: nat | o <= offset && |LinesFrom(file, o)| == tail ensures |LinesFrom(file, offset)| == tail {
          FurtherBack(file, offset, o);
        }
      } else {
        ExactLength(file, page, tail, fault, offset - page);
        BoundaryBelow(offset, page);
        assert Collected(file, page, tail, fault, offset) == Collected(file, page, tail, fault, offset - page);
        if CutsExactly(file, page, tail, offset) {
          var o: nat :| o <= offset && Boundary(o, page) && |LinesFrom(file, o)| == tail;
          assert o <= offset - page;
        }
      }
    }
  }

  lemma {:induction false} BoundaryBelow(offset: int, page: nat)
    requires page > 0 && Boundary(offset, page)
    ensures forall o: int :: Boundary(o, page) && o < offset ==> o <= offset - page
  {
    hide Times;
    var k: int :| k >= -1 && offset == Times(page, k);
    forall o: int | Boundary(o, page) && o < offset ensures o <= offset - page {
      var j: int :| j >= -1 && o == Times(page, j);
      TimesGap(page, j, k);
    }
  }

  lemma {:induction false} TimesGap(page: nat, j: int, k: int)
    requires page > 0 && Times(page, j) < Times(page, k)
    ensures Times(page, j) + page <= Times(page, k)
  {
    var d := k - j;
    assert Times(page, k) == Times(page, j) + page * d;
    if d > 1 {
      assert page * d == page + page * (d - 1);
    }
  }

  /** Reading goes on past every page boundary above `b`, up to `last`. */
  ghost predicate PassesAbove(file: string, page: nat, tail: int, fault: int -> bool, last: int, b: int) {
    forall o: nat :: b < o <= last && Boundary(o, page) ==> !fault(o) && !Enough(file, o, tail)
  }

  /** Where reading ends and what it returns. A read error keeps the lines read before it; a page that
      completes the wanted lines adds its own; otherwise the whole log is returned. */
  lemma {:induction false} CollectedExact(file: string, page: nat, tail: int, fault: int -> bool, offset: int, b: int)
    requires page > 0 && Boundary(offset, page) && offset + page >= 0 && Boundary(b, page) && b <= offset
    requires PassesAbove(file, page, tail, fault, offset, b)
    ensures b >= 0 && fault(b) ==> Collected(file, page, tail, fault, offset) == LinesFrom(file, b + page)
    ensures b >= 0 && !fault(b) && Enough(file, b, tail) ==>
      Collected(file, page, tail, fault, offset) == LinesFrom(file, b)
    ensures b < 0 ==> Collected(file, page, tail, fault, offset) == AllLines(file)
    decreases offset + page
  {
    hide LinesFrom, AllLines, Enough, Boundary;
    BoundaryStep(offset, page);
    BoundaryBelow(offset, page);
    if b < offset && offset >= 0 {
      assert !fault(offset) && !Enough(file, offset, tail);
      CollectedExact(file, page, tail, fault, offset - page, b);
    }
  }

  lemma {:induction false} NewestReversed(lines: seq<string>)
    requires "" !in lines
    ensures |Newest(lines)| == |lines| && forall i :: 0 <= i < |lines| ==> Newest(lines)[i] == lines[|lines| - 1 - i]
  {
    if lines != [] {
      NewestReversed(lines[1..]);
      assert lines[0] != "";
    }
  }

  /** A log written line by line is read back in reverse when enough lines are asked for. */
  lemma {:induction false} WrittenLinesReadBack(lines: seq<string>, page: nat, tail: int, fault: int -> bool)
    requires page > 0 && lines != [] && "" !in lines && (forall line :: line in lines ==> NEWLINE !in line)
    requires tail >= |lines| && forall o :: !fault(o)
    ensures var file := Join(lines, NEWLINE);
            var r := Collected(file, page, tail, fault, LastBoundary(file, page));
            |r| == |lines| && forall i :: 0 <= i < |lines| ==> r[i] == lines[|lines| - 1 - i]
  {
    var file := Join(lines, NEWLINE);
    JoinSplit(lines, NEWLINE);
    NewestReversed(lines);
    TailLogCorrect(file, page, tail, fault);
    hide Split, Newest, Collected, Join, LastParts, AllParts, CutsExactly, StoppedAt, LastBoundary;
  }

  /** Asking for the last line of a short log returns more than that line. */
  lemma {:induction false} TailCanBeTooLong()
    ensures Collected("a\nb\nc\n", 4096, 1, o => false, LastBoundary("a\nb\nc\n", 4096)) == ["c", "b"]
  {
    var file := "a\nb\nc\n";
    ThreeLines();
    ThreeNewest();
    hide Split, Newest;
    assert Suffix(file, 0) == file;
    assert ["a", "b", "c", ""][1..] == ["b", "c", ""];
  }

  lemma {:induction false} ThreeLines()
    ensures Split("a\nb\nc\n", NEWLINE) == ["a", "b", "c", ""]
  {
    OneLine('a');
    OneLine('b');
    OneLine('c');
    hide Split;
    assert "a\nb\nc\n" == (['a'] + "\n") + ((['b'] + "\n") + (['c'] + "\n"));
    SplitConcat(['b'] + "\n", ['c'] + "\n", NEWLINE);
    SplitConcat(['a'] + "\n", (['b'] + "\n") + (['c'] + "\n"), NEWLINE);
  }

  lemma {:induction false} ThreeNewest()
    ensures Newest(["b", "c", ""]) == ["c", "b"]
  {
    assert ["b", "c", ""][1..] == ["c", ""] && ["c", ""][1..] == [""];
    assert Newest([""]) == [] && Newest(["c", ""]) == ["c"];
  }

  lemma {:induction false} OneLine(c: char)
    requires c != NEWLINE
    ensures Split([c] + "\n", NEWLINE) == [[c], ""]
  {
    assert ([c] + "\n")[1..] == "\n" && "\n"[1..] == "";
    assert Split("\n", NEWLINE) == ["", ""];
    assert [c] + "" == [c];
  }
}
