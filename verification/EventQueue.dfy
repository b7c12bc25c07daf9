/** The bounded event queue and its workers (compute/events/listener.go:45-117, 225-228) as a
    transition system: `Push` callers, the worker goroutines, the `Listen` loop and cancellation
    interleave freely under the read/write lock. */
module EventQueue {
  /** Where a worker goroutine is. `WantsLock` and `HoldsLock` belong to the shutdown branch. */
  datatype Worker<E> = Selecting | Handling(event: E) | WantsLock | HoldsLock

  /** `Listen` spawns a worker and then waits for the wait group inside the same loop. */
  datatype ListenAt = Spawning | Waiting

  /** `readers` are the callers of Push that hold the read lock, each with the event it is about
      to send. `accepted`, `taken` and `handled` record the history of events. */
  datatype State<E> = State(
    capacity: nat, maxWorkers: nat,
    queue: seq<E>, readers: map<nat, E>, finished: bool, cancelled: bool,
    workers: map<nat, Worker<E>>, waitGroup: int, spawned: nat, listen: ListenAt,
    accepted: seq<E>, taken: seq<E>, handled: seq<E>)

  /** `HandOver` is how a queue without room passes an event on: from a blocked caller straight to a
      worker that is waiting for one. */
  datatype Step<E> =
    | Spawn
    | WaitReturns
    | Enter(caller: nat, event: E)
    | Send(caller: nat)
    | HandOver(caller: nat, id: nat)
    | Cancel
    | Take(id: nat)
    | Complete(id: nat)
    | SeeCancel(id: nat)
    | Lock(id: nat)
    | Close(id: nat)

  function Initial<E>(capacity: nat, maxWorkers: nat): State<E> {
    State(capacity, maxWorkers, [], map[], false, false, map[], 0, 0, Spawning, [], [], [])
  }

  /** A pending or active writer keeps new readers out, as Go's RWMutex does. */
  predicate WriterPresent<E>(s: State<E>) {
    exists id :: id in s.workers && (s.workers[id].WantsLock? || s.workers[id].HoldsLock?)
  }

  predicate WriterActive<E>(s: State<E>) {
    exists id :: id in s.workers && s.workers[id].HoldsLock?
  }

  predicate Enabled<E>(s: State<E>, step: Step<E>) {
    match step
    case Spawn => s.listen == Spawning && s.spawned < s.maxWorkers
    case WaitReturns => s.listen == Waiting && s.waitGroup == 0
    case Enter(caller, _) => caller !in s.readers && !WriterPresent(s)
    case Send(caller) => caller in s.readers && |s.queue| < s.capacity
    case HandOver(caller, id) =>
      s.capacity == 0 && caller in s.readers && id in s.workers && s.workers[id].Selecting?
    case Cancel => true
    case Take(id) => id in s.workers && s.workers[id].Selecting? && s.queue != []
    case Complete(id) => id in s.workers && s.workers[id].Handling?
    case SeeCancel(id) => id in s.workers && s.workers[id].Selecting? && s.cancelled
    case Lock(id) => id in s.workers && s.workers[id].WantsLock? && s.readers == map[] && !WriterActive(s)
    case Close(id) => id in s.workers && s.workers[id].HoldsLock?
  }

  function Apply<E>(s: State<E>, step: Step<E>): State<E>
    requires Enabled(s, step)
  {
    match step
    case Spawn => s.(workers := s.workers[s.spawned := Selecting], spawned := s.spawned + 1,
                     waitGroup := s.waitGroup + 1, listen := Waiting)
    case WaitReturns => s.(listen := Spawning)
    case Enter(caller, event) => if s.finished then s else s.(readers := s.readers[caller := event])
    case Send(caller) => s.(queue := s.queue + [s.readers[caller]], accepted := s.accepted + [s.readers[caller]],
                            readers := s.readers - {caller})
    case HandOver(caller, id) =>
      var e := s.readers[caller];
      s.(workers := s.workers[id := Handling(e)], accepted := s.accepted + [e], taken := s.taken + [e],
         readers := s.readers - {caller})
    case Cancel => s.(cancelled := true)
    case Take(id) => s.(workers := s.workers[id := Handling(s.queue[0])], queue := s.queue[1..], taken := s.taken +
      [s.queue[0]])
    case Complete(id) => s.(workers := s.workers[id := Selecting], handled := s.handled + [s.workers[id].event])
    case SeeCancel(id) => s.(workers := s.workers[id := WantsLock])
    case Lock(id) => s.(workers := s.workers[id := HoldsLock])
    case Close(id) => s.(workers := s.workers - {id}, finished := true, waitGroup := s.waitGroup - 1)
  }

  ghost predicate Runs<E>(s: State<E>, steps: seq<Step<E>>, t: State<E>)
    decreases |steps|
  {
    if steps == [] then t == s
    else Enabled(s, steps[0]) && Runs(Apply(s, steps[0]), steps[1..], t)
  }

  /** The event the most recently spawned worker is busy with, if any. */
  function InHand<E>(s: State<E>): seq<E> {
    if s.spawned > 0 && s.spawned - 1 in s.workers && s.workers[s.spawned - 1].Handling?
    then [s.workers[s.spawned - 1].event] else []
  }

  /** The wait group counts the live workers, and there is at most one: the last one spawned. */
  ghost predicate WorkersInv<E>(s: State<E>) {
    && s.waitGroup == |s.workers|
    && (forall id :: id in s.workers ==> id == s.spawned - 1)
    && (s.listen == Spawning ==> s.workers == map[])
    && s.spawned <= s.maxWorkers
  }

  /** Events are conserved, in order. */
  ghost predicate EventsInv<E>(s: State<E>) {
    && s.accepted == s.taken + s.queue
    && s.taken == s.handled + InHand(s)
    && |s.queue| <= s.capacity
  }

  /** Closing is final, and excludes callers inside Push. */
  ghost predicate LockInv<E>(s: State<E>) {
    && (s.finished ==> s.readers == map[])
    && (WriterActive(s) ==> s.readers == map[])
    && ((s.finished || WriterPresent(s)) ==> s.cancelled)
  }

  ghost predicate Inv<E>(s: State<E>) {
    WorkersInv(s) && EventsInv(s) && LockInv(s)
  }

  lemma WorkersSize<E>(workers: map<nat, Worker<E>>, id: nat)
    requires forall k :: k in workers ==> k == id
    ensures |workers| == if id in workers then 1 else 0
  {
    if id in workers {
      assert workers.Keys == {id};
    } else {
      assert workers.Keys == {};
    }
    assert |workers| == |workers.Keys|;
  }

  lemma WorkersPreserved<E>(s: State<E>, step: Step<E>)
    requires WorkersInv(s) && Enabled(s, step)
    ensures WorkersInv(Apply(s, step))
  {
    var t := Apply(s, step);
    WorkersSize(s.workers, if s.spawned > 0 then s.spawned - 1 else 0);
    assert forall id :: id in t.workers ==> id == t.spawned - 1;
    WorkersSize(t.workers, if t.spawned > 0 then t.spawned - 1 else 0);
    if step == WaitReturns {
      assert s.workers.Keys == {};
    }
  }

  /** Only taking and completing an event change what is in hand. */
  lemma InHandAfter<E>(s: State<E>, step: Step<E>)
    requires WorkersInv(s) && Enabled(s, step)
    ensures match step
            case Take(_) => InHand(s) == [] && InHand(Apply(s, step)) == [s.queue[0]]
            case HandOver(caller, _) => InHand(s) == [] && InHand(Apply(s, step)) == [s.readers[caller]]
            case Complete(id) => InHand(s) == [s.workers[id].event] && InHand(Apply(s, step)) == []
            case _ => InHand(Apply(s, step)) == InHand(s)
  {
  }

  lemma EventsPreserved<E>(s: State<E>, step: Step<E>)
    requires WorkersInv(s) && EventsInv(s) && Enabled(s, step)
    ensures EventsInv(Apply(s, step))
  {
    InHandAfter(s, step);
    hide InHand, WorkersInv;
    var t := Apply(s, step);
    match step
    case Take(_) =>
      assert s.queue == [s.queue[0]] + s.queue[1..];
      assert s.taken + s.queue == (s.taken + [s.queue[0]]) + s.queue[1..];
      assert t.handled + InHand(t) == (s.handled + InHand(s)) + [s.queue[0]];
    case Complete(id) =>
      assert t.handled + InHand(t) == s.handled + InHand(s);
    case HandOver(caller, _) =>
      assert s.queue == [];
      assert t.handled + InHand(t) == (s.handled + InHand(s)) + [s.readers[caller]];
    case Send(caller) =>
      assert t.taken + t.queue == (s.taken + s.queue) + [s.readers[caller]];
    case _ =>
  }

  lemma LockPreserved<E>(s: State<E>, step: Step<E>)
    requires LockInv(s) && Enabled(s, step)
    ensures LockInv(Apply(s, step))
  {
    var t := Apply(s, step);
    assert !step.SeeCancel? && WriterPresent(t) ==> WriterPresent(s);
    assert !step.Lock? && WriterActive(t) ==> WriterActive(s);
    if step.Close? {
      assert WriterActive(s);
    }
    if step.Lock? {
      assert WriterPresent(s);
    }
  }

  lemma InvPreserved<E>(s: State<E>, step: Step<E>)
    requires Inv(s) && Enabled(s, step)
    ensures Inv(Apply(s, step))
  {
    WorkersPreserved(s, step);
    EventsPreserved(s, step);
    LockPreserved(s, step);
  }

  lemma {:induction false} InvRun<E>(s: State<E>, steps: seq<Step<E>>, t: State<E>)
    requires Inv(s) && Runs(s, steps, t)
    ensures Inv(t)
    decreases |steps|
  {
    if steps != [] {
      InvPreserved(s, steps[0]);
      InvRun(Apply(s, steps[0]), steps[1..], t);
    }
  }

  /** For every interleaving: at most one worker is live whatever MaxWorkers is, and the events
      handled so far are a prefix of the events accepted, in acceptance order, each taken once. */
  lemma QueueDiscipline<E>(capacity: nat, maxWorkers: nat, steps: seq<Step<E>>, t: State<E>)
    requires Runs(Initial(capacity, maxWorkers), steps, t)
    ensures |t.workers| <= 1
    ensures t.handled <= t.taken <= t.accepted
    ensures t.accepted == t.handled + InHand(t) + t.queue
    ensures |t.queue| <= t.capacity
  {
    InvRun(Initial(capacity, maxWorkers), steps, t);
    if t.spawned > 0 {
      WorkersSize(t.workers, t.spawned - 1);
    } else {
      assert t.workers.Keys == {};
    }
  }

  /** Once `Finished` is true no event is accepted any more. */
  lemma {:induction false} NothingAcceptedAfterFinished<E>(s: State<E>, steps: seq<Step<E>>, t: State<E>)
    requires Inv(s) && s.finished && Runs(s, steps, t)
    ensures t.finished && t.accepted == s.accepted
    decreases |steps|
  {
    if steps != [] {
      InvPreserved(s, steps[0]);
      NothingAcceptedAfterFinished(Apply(s, steps[0]), steps[1..], t);
    }
  }

  /** Once a worker has left through the shutdown branch, no event is accepted any more. */
  lemma NothingAcceptedAfterClose<E>(s: State<E>, id: nat, steps: seq<Step<E>>, t: State<E>)
    requires Inv(s) && Enabled(s, Close(id)) && Runs(Apply(s, Close(id)), steps, t)
    ensures t.finished && t.accepted == s.accepted && id !in Apply(s, Close(id)).workers
  {
    InvPreserved(s, Close(id));
    NothingAcceptedAfterFinished(Apply(s, Close(id)), steps, t);
  }

  // ---- Shutdown ----

  /** A worker in the shutdown branch waits for the write lock. */
  ghost predicate Closing<E>(s: State<E>, id: nat) {
    Inv(s) && id in s.workers && s.workers[id].WantsLock?
  }

  /** While the worker waits, nothing is taken and nobody new gets in: queued events plus
      blocked callers stay the same number, until the lock is granted. */
  lemma ClosingStep<E>(s: State<E>, id: nat, step: Step<E>)
    requires Closing(s, id) && Enabled(s, step)
    ensures step != Lock(id) ==> Closing(Apply(s, step), id)
    ensures step != Lock(id) ==> |Apply(s, step).queue| + |Apply(s, step).readers| == |s.queue| + |s.readers|
    ensures Apply(s, step).capacity == s.capacity
  {
    InvPreserved(s, step);
    assert WriterPresent(s);
    assert forall k :: k in s.workers ==> k == id;
    hide Inv, WriterPresent, WriterActive;
    match step
    case Send(caller) => OneLess(s.readers, caller);
    case _ =>
  }

  lemma OneLess<E>(readers: map<nat, E>, caller: nat)
    requires caller in readers
    ensures |readers - {caller}| == |readers| - 1
  {
    assert (readers - {caller}).Keys == readers.Keys - {caller};
    assert |readers - {caller}| == |readers.Keys| - 1;
  }

  /** Queued events and blocked callers do not fit into the queue. */
  predicate Overfull<E>(s: State<E>) {
    |s.queue| + |s.readers| > s.capacity
  }

  ghost predicate GetsLock<E>(s: State<E>, id: nat, steps: seq<Step<E>>, t: State<E>) {
    Runs(s, steps, t) && id in t.workers && t.workers[id].HoldsLock?
  }

  lemma {:induction false} OverfullNeverCloses<E>(s: State<E>, id: nat, steps: seq<Step<E>>, t: State<E>)
    requires Closing(s, id) && Runs(s, steps, t)
    requires Overfull(s)
    ensures Closing(t, id) && !t.finished == !s.finished && Overfull(t)
    decreases |steps|
  {
    if steps != [] {
      assert steps[0] != Lock(id);
      ClosingStep(s, id, steps[0]);
      OverfullNeverCloses(Apply(s, steps[0]), id, steps[1..], t);
    }
  }

  lemma {:induction false} RoomLetsItClose<E>(s: State<E>, id: nat) returns (steps: seq<Step<E>>, t: State<E>)
    requires Closing(s, id)
    requires !Overfull(s)
    ensures GetsLock(s, id, steps, t)
    decreases |s.readers|
  {
    if s.readers == map[] {
      assert !WriterActive(s);
      steps, t := [Lock(id)], Apply(s, Lock(id));
      assert Runs(t, steps[1..], t);
    } else {
      var caller :| caller in s.readers;
      assert |s.readers.Keys| == |s.readers| && s.readers.Keys != {};
      assert |s.readers| > 0;
      ClosingStep(s, id, Send(caller));
      var s' := Apply(s, Send(caller));
      assert s'.readers.Keys == s.readers.Keys - {caller};
      assert |s'.readers.Keys| == |s.readers.Keys| - 1;
      var rest;
      rest, t := RoomLetsItClose(s', id);
      steps := [Send(caller)] + rest;
      assert steps[1..] == rest;
    }
  }

  /** Shutdown completes exactly when the blocked callers all fit into the queue: a caller of Push
      keeps the read lock while it waits for room, and the worker that would make room is the one
      waiting for the write lock. */
  lemma ShutdownExact<E>(s: State<E>, id: nat)
    requires Closing(s, id)
    ensures (exists steps, t :: GetsLock(s, id, steps, t)) <==> !Overfull(s)
  {
    if !Overfull(s) {
      var steps, t := RoomLetsItClose(s, id);
    } else {
      forall steps, t | Runs(s, steps, t) ensures !GetsLock(s, id, steps, t) {
        OverfullNeverCloses(s, id, steps, t);
      }
    }
  }

  lemma RunCons<E>(s: State<E>, step: Step<E>, rest: seq<Step<E>>, t: State<E>)
    requires Enabled(s, step) && Runs(Apply(s, step), rest, t)
    ensures Runs(s, [step] + rest, t)
  {
    assert ([step] + rest)[1..] == rest;
  }

  lemma RunNothing<E>(s: State<E>)
    ensures Runs(s, [], s)
  {
  }

  lemma QueueFits<E>(s: State<E>)
    requires Inv(s)
    ensures |s.queue| <= s.capacity
  {
  }

  /** Worker 0 looks at an idle system; the callers have left. */
  ghost predicate Listening<E>(s: State<E>) {
    Inv(s) && s.workers == map[0 := Selecting] && s.readers == map[] && !s.finished
  }

  /** Callers fill the queue up, one more blocks, and the worker then picks the cancellation
      branch instead of the queue. */
  lemma {:induction false} FillAndCancel<E>(s: State<E>, e: E) returns (steps: seq<Step<E>>, t: State<E>)
    requires Listening(s)
    ensures Runs(s, steps, t) && Closing(t, 0) && Overfull(t)
    decreases s.capacity - |s.queue|
  {
    assert !WriterPresent(s);
    var entered := Apply(s, Enter(0, e));
    InvPreserved(s, Enter(0, e));
    QueueFits(s);
    hide Inv, Runs;
    if |s.queue| < s.capacity {
      var sent := Apply(entered, Send(0));
      InvPreserved(entered, Send(0));
      assert sent.readers == map[];
      var rest;
      rest, t := FillAndCancel(sent, e);
      RunCons(entered, Send(0), rest, t);
      RunCons(s, Enter(0, e), [Send(0)] + rest, t);
      steps := [Enter(0, e)] + ([Send(0)] + rest);
    } else {
      var cancelled := Apply(entered, Cancel);
      InvPreserved(entered, Cancel);
      t := Apply(cancelled, SeeCancel(0));
      InvPreserved(cancelled, SeeCancel(0));
      assert t.readers.Keys == {0} && |t.readers| == |t.readers.Keys|;
      RunNothing(t);
      RunCons(cancelled, SeeCancel(0), [], t);
      RunCons(entered, Cancel, [SeeCancel(0)] + [], t);
      RunCons(s, Enter(0, e), [Cancel] + ([SeeCancel(0)] + []), t);
      steps := [Enter(0, e)] + ([Cancel] + ([SeeCancel(0)] + []));
    }
  }

  /** Whatever the queue size and the number of workers, the stuck shutdown is reachable. */
  lemma ShutdownCanDeadlock<E>(capacity: nat, maxWorkers: nat, e: E)
    requires maxWorkers > 0
    ensures exists steps, t :: Runs(Initial<E>(capacity, maxWorkers), steps, t) && Closing(t, 0) && Overfull(t)
  {
    var s := Initial<E>(capacity, maxWorkers);
    InvPreserved(s, Spawn);
    var rest, t := FillAndCancel(Apply(s, Spawn), e);
    RunCons(s, Spawn, rest, t);
  }
}
