/** The pod condition list (pkg/crdtools/pod-conditions.go). */
module Conditions {
  import opened Prelude

  datatype ConditionKind = Initialized | ContainersReady | Ready | OtherKind(name: string)
  datatype ConditionStatus = CondTrue | CondFalse | CondUnknown

  /** `since` is the last transition time; 0 stands for Go's zero time. */
  datatype Condition = Condition(kind: ConditionKind, status: ConditionStatus,
                                 reason: string, message: string, since: nat)

  /** One call of SetPodStatusCondition: its argument and the clock at that moment. */
  datatype Call = Call(cond: Condition, now: nat)

  /** The transition time a call stands for: the one given, or the clock if unset. */
  function CallTime(call: Call): nat {
    if call.cond.since == 0 then call.now else call.cond.since
  }

  /** The first index of `kind`, or the length of the list. */
  function FindFrom(conds: seq<Condition>, kind: ConditionKind, i: nat): (r: nat)
    requires i <= |conds|
    ensures i <= r <= |conds|
    ensures forall j :: i <= j < r ==> conds[j].kind != kind
    ensures r < |conds| ==> conds[r].kind == kind
    decreases |conds| - i
  {
    if i == |conds| || conds[i].kind == kind then i else FindFrom(conds, kind, i + 1)
  }

  function Find(conds: seq<Condition>, kind: ConditionKind): (r: nat)
    ensures r <= |conds|
    ensures forall j :: 0 <= j < r ==> conds[j].kind != kind
    ensures r < |conds| ==> conds[r].kind == kind
  {
    FindFrom(conds, kind, 0)
  }

  method FindStatusCondition(conds: seq<Condition>, kind: ConditionKind) returns (r: Option<nat>)
    ensures r.None? <==> forall j :: 0 <= j < |conds| ==> conds[j].kind != kind
    ensures r.Some? ==> r.value < |conds| && conds[r.value].kind == kind
    ensures r.Some? ==> forall j :: 0 <= j < r.value ==> conds[j].kind != kind
  {
    for i := 0 to |conds|
      invariant forall j :: 0 <= j < i ==> conds[j].kind != kind
    {
      if conds[i].kind == kind {
        return Some(i);
      }
    }
    return None;
  }

  method IsStatusConditionPresentAndEqual(conds: seq<Condition>, kind: ConditionKind, status: ConditionStatus)
    returns (r: bool)
    ensures r <==> Holds(conds, kind, status)
  {
    for i := 0 to |conds|
      invariant forall j :: 0 <= j < i ==> conds[j].kind != kind
    {
      if conds[i].kind == kind {
        assert Find(conds, kind) == i;
        return conds[i].status == status;
      }
    }
    return false;
  }

  /** The first entry of `kind` exists and has the given status. */
  predicate Holds(conds: seq<Condition>, kind: ConditionKind, status: ConditionStatus) {
    var i := Find(conds, kind);
    i < |conds| && conds[i].status == status
  }

  /** What SetPodStatusCondition makes of the list. */
  function Set(conds: seq<Condition>, call: Call): seq<Condition> {
    var i := Find(conds, call.cond.kind);
    if i == |conds| then
      conds + [call.cond.(since := CallTime(call))]
    else
      var entry := conds[i];
      conds[i := entry.(status := call.cond.status,
                      reason := call.cond.reason,
                      message := call.cond.message,
                      since := if entry.status != call.cond.status then CallTime(call) else entry.since)]
  }

  ghost predicate NoDuplicates(conds: seq<Condition>) {
    forall i, j :: 0 <= i < j < |conds| ==> conds[i].kind != conds[j].kind
  }

  /** Setting a condition keeps its place in the list, and leaves every other type's entry
      where and as it was. */
  lemma SetFind(conds: seq<Condition>, call: Call, kind: ConditionKind)
    ensures var r, i := Set(conds, call), Find(conds, kind);
            && |conds| <= |r|
            && (kind == call.cond.kind ==> Find(r, kind) == i && i < |r| && r[i].status == call.cond.status)
            && (kind != call.cond.kind && i == |conds| ==> Find(r, kind) == |r|)
            && (kind != call.cond.kind && i < |conds| ==> Find(r, kind) == i && r[i] == conds[i])
  {
    var r, i, i' := Set(conds, call), Find(conds, kind), Find(Set(conds, call), kind);
    assert forall j :: 0 <= j < |conds| ==> r[j].kind == conds[j].kind;
    if i < i' {
      assert r[i].kind != kind;
    }
  }

  /** No condition type is ever duplicated, the type that is set gets the status that
      was asked for, and every other type keeps its status. */
  lemma SetProperties(conds: seq<Condition>, call: Call)
    requires NoDuplicates(conds)
    ensures NoDuplicates(Set(conds, call))
    ensures forall s :: Holds(Set(conds, call), call.cond.kind, s) <==> s == call.cond.status
    ensures forall kind, s :: kind != call.cond.kind ==> (Holds(Set(conds, call), kind, s) <==> Holds(conds, kind, s))
  {
    SetFind(conds, call, call.cond.kind);
    forall kind, s | kind != call.cond.kind
      ensures Holds(Set(conds, call), kind, s) <==> Holds(conds, kind, s)
    {
      SetFind(conds, call, kind);
    }
  }

  /** The entries of all other kinds are the same in both lists. */
  ghost predicate SameExcept(a: seq<Condition>, b: seq<Condition>, kinds: set<ConditionKind>) {
    forall kind :: kind !in kinds ==>
      && (Find(a, kind) < |a| <==> Find(b, kind) < |b|)
      && (Find(a, kind) < |a| ==> b[Find(b, kind)] == a[Find(a, kind)])
  }

  lemma SetMeans(conds: seq<Condition>, call: Call)
    ensures Holds(Set(conds, call), call.cond.kind, call.cond.status)
    ensures SameExcept(conds, Set(conds, call), {call.cond.kind})
    ensures NoDuplicates(conds) ==> NoDuplicates(Set(conds, call))
  {
    SetFind(conds, call, call.cond.kind);
    forall kind | kind != call.cond.kind
      ensures Find(conds, kind) < |conds| <==> Find(Set(conds, call), kind) < |Set(conds, call)|
      ensures Find(conds, kind) < |conds| ==> Set(conds, call)[Find(Set(conds, call), kind)] == conds[Find(conds, kind)]
    {
      SetFind(conds, call, kind);
    }
    if NoDuplicates(conds) {
      SetProperties(conds, call);
    }
  }

  /** The list after a whole sequence of calls on an initially empty list. */
  function Replay(calls: seq<Call>): seq<Condition> {
    if calls == [] then [] else Set(Replay(calls[..|calls| - 1]), calls[|calls| - 1])
  }

  /** Call `j` is the last one about `kind` before call `first`. */
  ghost predicate LastBefore(calls: seq<Call>, kind: ConditionKind, j: int, first: nat)
    requires first <= |calls|
  {
    && 0 <= j < first && calls[j].cond.kind == kind
    && (forall k :: j < k < first ==> calls[k].cond.kind != kind)
  }

  /** Calls `first` and `last` delimit the latest unbroken run of one status for `kind`. */
  ghost predicate LatestRun(calls: seq<Call>, kind: ConditionKind, first: nat, last: nat) {
    && first <= last < |calls|
    && calls[first].cond.kind == kind && calls[last].cond.kind == kind
    // nothing about this kind was said later
    && (forall j :: last < j < |calls| ==> calls[j].cond.kind != kind)
    // one status all along the run
    && (forall j :: first <= j <= last && calls[j].cond.kind == kind ==>
          calls[j].cond.status == calls[last].cond.status)
    // and the run cannot be extended backwards
    && (forall j :: LastBefore(calls, kind, j, first) ==> calls[j].cond.status != calls[last].cond.status)
  }

  /** The entry of `kind` says what its latest run of calls said. */
  ghost predicate Remembers(conds: seq<Condition>, calls: seq<Call>, kind: ConditionKind, first: nat, last: nat)
  {
    && LatestRun(calls, kind, first, last)
    && var i := Find(conds, kind);
    && i < |conds|
    && conds[i] == calls[last].cond.(
         since := if calls[first].cond.since == 0 then calls[first].now else calls[first].cond.since)
  }

  /** After any sequence of calls every type that was set has exactly one entry; it carries the
      status, reason and message of the last call, and the time of the first call of the latest
      unbroken run of that status. A type never set has no entry. */
  lemma {:induction false} ConditionHistory(calls: seq<Call>, kind: ConditionKind)
    ensures NoDuplicates(Replay(calls))
    ensures (forall j :: 0 <= j < |calls| ==> calls[j].cond.kind != kind) <==>
      Find(Replay(calls), kind) == |Replay(calls)|
    ensures (exists j :: 0 <= j < |calls| && calls[j].cond.kind == kind)
            ==> exists first: nat, last: nat :: Remembers(Replay(calls), calls, kind, first, last)
    decreases |calls|
  {
    if calls == [] {
      return;
    }
    var n := |calls| - 1;
    var before, call := calls[..n], calls[n];
    ConditionHistory(before, kind);
    SetProperties(Replay(before), call);
    SetFind(Replay(before), call, kind);
    if call.cond.kind == kind {
      SameKindHistory(calls, kind);
    } else if first: nat, last: nat :| Remembers(Replay(before), before, kind, first, last) {
      OtherKindHistory(calls, kind, first, last);
    }
  }

  lemma {:induction false} OtherKindHistory(calls: seq<Call>, kind: ConditionKind, first: nat, last: nat)
    requires |calls| > 0 && calls[|calls| - 1].cond.kind != kind
    requires Remembers(Replay(calls[..|calls| - 1]), calls[..|calls| - 1], kind, first, last)
    ensures Remembers(Replay(calls), calls, kind, first, last)
  {
    var n := |calls| - 1;
    var before := calls[..n];
    SetFind(Replay(before), calls[n], kind);
    assert forall j :: 0 <= j < n ==> before[j] == calls[j];
    forall j | LastBefore(calls, kind, j, first) ensures calls[j].cond.status != calls[last].cond.status {
      assert LastBefore(before, kind, j, first);
      assert before[j].cond.status != before[last].cond.status;
    }
  }

  lemma SameKindHistory(calls: seq<Call>, kind: ConditionKind)
    requires |calls| > 0 && calls[|calls| - 1].cond.kind == kind
    requires var before := calls[..|calls| - 1];
             if Find(Replay(before), kind) == |Replay(before)|
             then forall j :: 0 <= j < |before| ==> before[j].cond.kind != kind
             else exists first: nat, last: nat :: Remembers(Replay(before), before, kind, first, last)
    ensures exists first: nat, last: nat :: Remembers(Replay(calls), calls, kind, first, last)
  {
    var n := |calls| - 1;
    var before := calls[..n];
    var conds := Replay(before);
    SetFind(conds, calls[n], kind);
    if Find(conds, kind) == |conds| {
      assert forall j :: 0 <= j < n ==> before[j] == calls[j];
      assert Remembers(Replay(calls), calls, kind, n, n);
    } else {
      var first: nat, last: nat :| Remembers(conds, before, kind, first, last);
      ExtendRun(calls, kind, first, last);
      assert before[last] == calls[last] && before[first] == calls[first];
      var start := if calls[last].cond.status == calls[n].cond.status then first else n;
      assert Remembers(Replay(calls), calls, kind, start, n);
    }
  }

  /** A new call of the same type either prolongs the latest run or starts a new one. */
  lemma ExtendRun(calls: seq<Call>, kind: ConditionKind, first: nat, last: nat)
    requires |calls| > 0 && calls[|calls| - 1].cond.kind == kind
    requires LatestRun(calls[..|calls| - 1], kind, first, last)
    ensures var n := |calls| - 1;
            if calls[last].cond.status == calls[n].cond.status
            then LatestRun(calls, kind, first, n)
            else LatestRun(calls, kind, n, n)
  {
    var n := |calls| - 1;
    assert forall j :: 0 <= j < n ==> calls[..n][j] == calls[j];
    if calls[last].cond.status == calls[n].cond.status {
      forall j | LastBefore(calls, kind, j, first) ensures calls[j].cond.status != calls[n].cond.status {
        assert LastBefore(calls[..n], kind, j, first);
      }
    } else {
      forall j | 0 <= j < n && calls[j].cond.kind == kind && (forall k :: j < k < n ==> calls[k].cond.kind != kind)
        ensures calls[j].cond.status != calls[n].cond.status
      {
        assert !(j < last);
        assert j == last;
      }
    }
  }
}
