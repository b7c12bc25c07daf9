/** The queue of the combined system is the event queue of `EventQueue`: every run of the one drives a
    run of the other, so what is proved about the queue holds in the combined system. */
module QueueRefinement {
  import opened ControlFiles
  import opened Lifecycle
  import EventQueue

  type Queue = EventQueue.State<Event>
  type QueueStep = EventQueue.Step<Event>

  const MAX_WORKERS := 5

  /** Same queue, same event in hand, nobody blocked, nobody shutting down. */
  ghost predicate Simulates(q: Queue, s: State) {
    && q.capacity == MAX_QUEUE && q.queue == s.queue
    && q.readers == map[] && !q.finished && !q.cancelled && q.spawned == 1
    && q.workers == map[0 := if s.worker.Busy? then EventQueue.Handling(Created(s.worker.file))
      else EventQueue.Selecting]
  }

  lemma Two(q: Queue, a: QueueStep, b: QueueStep) returns (r: Queue)
    requires EventQueue.Enabled(q, a) && EventQueue.Enabled(EventQueue.Apply(q, a), b)
    ensures r == EventQueue.Apply(EventQueue.Apply(q, a), b) && EventQueue.Runs(q, [a, b], r)
  {
    r := EventQueue.Apply(EventQueue.Apply(q, a), b);
    assert EventQueue.Runs(r, [], r);
    EventQueue.RunCons(EventQueue.Apply(q, a), b, [], r);
    EventQueue.RunCons(q, a, [b] + [], r);
    assert [a] + ([b] + []) == [a, b];
  }

  lemma One(q: Queue, a: QueueStep) returns (r: Queue)
    requires EventQueue.Enabled(q, a)
    ensures r == EventQueue.Apply(q, a) && EventQueue.Runs(q, [a], r)
  {
    r := EventQueue.Apply(q, a);
    assert EventQueue.Runs(r, [], r);
    EventQueue.RunCons(q, a, [], r);
    assert [a] + [] == [a];
  }

  /** What the queue is given by a step. */
  function Given(s: State, step: Step): seq<Event> {
    if step.Enqueue? && s.outbox != [] then [s.outbox[0]] else []
  }

  /** Every step of the combined system is a short run of the queue. */
  lemma SimulateStep(spec: PodSpec, s: State, step: Step, q: Queue) returns (steps: seq<QueueStep>, r: Queue)
    requires Enabled(spec, s, step) && Simulates(q, s)
    ensures EventQueue.Runs(q, steps, r) && Simulates(r, Apply(spec, s, step))
    ensures r.accepted == q.accepted + Given(s, step)
  {
    if step.Enqueue? {
      steps, r := SimulateEnqueue(spec, s, q);
    } else if step.LoadFails? || step.Take? {
      steps, r := SimulateTake(spec, s, step, q);
    } else if step.Finish? {
      steps := [EventQueue.Complete(0)];
      r := One(q, steps[0]);
    } else {
      steps, r := [], q;
    }
  }

  lemma SimulateEnqueue(spec: PodSpec, s: State, q: Queue) returns (steps: seq<QueueStep>, r: Queue)
    requires Enabled(spec, s, Enqueue) && Simulates(q, s)
    ensures EventQueue.Runs(q, steps, r) && Simulates(r, Apply(spec, s, Enqueue))
    ensures r.accepted == q.accepted + [s.outbox[0]]
  {
    steps := [EventQueue.Enter(0, s.outbox[0]), EventQueue.Send(0)];
    r := Two(q, steps[0], steps[1]);
    assert r.readers == map[];
  }

  lemma SimulateTake(spec: PodSpec, s: State, step: Step, q: Queue) returns (steps: seq<QueueStep>, r: Queue)
    requires Enabled(spec, s, step) && (step.Take? || step.LoadFails?) && Simulates(q, s)
    ensures EventQueue.Runs(q, steps, r) && Simulates(r, Apply(spec, s, step))
    ensures r.accepted == q.accepted
  {
    if step.Take? && NeedsPod(s.queue[0]) {
      steps := [EventQueue.Take(0)];
      r := One(q, steps[0]);
      assert s.queue[0] == Created(s.queue[0].target.name);
    } else {
      steps := [EventQueue.Take(0), EventQueue.Complete(0)];
      r := Two(q, steps[0], steps[1]);
    }
  }

  /** All that the queue is given in a run. */
  ghost function GivenBy(spec: PodSpec, s: State, steps: seq<Step>): seq<Event>
    decreases |steps|
  {
    if steps == [] || !Enabled(spec, s, steps[0]) then []
    else Given(s, steps[0]) + GivenBy(spec, Apply(spec, s, steps[0]), steps[1..])
  }

  lemma {:induction false} QueueRunAppend(a: Queue, x: seq<QueueStep>, b: Queue, y: seq<QueueStep>, c: Queue)
    requires EventQueue.Runs(a, x, b) && EventQueue.Runs(b, y, c)
    ensures EventQueue.Runs(a, x + y, c)
    decreases |x|
  {
    if x == [] {
      assert x + y == y;
    } else {
      QueueRunAppend(EventQueue.Apply(a, x[0]), x[1..], b, y, c);
      assert (x + y)[1..] == x[1..] + y;
    }
  }

  lemma {:induction false} SimulateRun(spec: PodSpec, s: State, steps: seq<Step>, t: State, q: Queue)
    returns (queueSteps: seq<QueueStep>, r: Queue)
    requires Runs(spec, s, steps, t) && Simulates(q, s)
    ensures EventQueue.Runs(q, queueSteps, r) && Simulates(r, t)
    ensures r.accepted == q.accepted + GivenBy(spec, s, steps)
    decreases |steps|
  {
    if steps == [] {
      queueSteps, r := [], q;
    } else {
      var a, q1 := SimulateStep(spec, s, steps[0], q);
      var b;
      b, r := SimulateRun(spec, Apply(spec, s, steps[0]), steps[1..], t, q1);
      QueueRunAppend(q, a, q1, b, r);
      queueSteps := a + b;
    }
  }

  /** In every run of the combined system the events handled, the one in hand and those waiting are,
      in this order, all the events that the watcher handed over. */
  lemma QueueKeepsOrder(spec: PodSpec, s: State, steps: seq<Step>, t: State) returns (handled: seq<Event>)
    requires Initial(spec, s) && Runs(spec, s, steps, t)
    ensures GivenBy(spec, s, steps) ==
            handled + (if t.worker.Busy? then [Created(t.worker.file)] else []) + t.queue
    ensures |t.queue| <= MAX_QUEUE
  {
    var start: Queue := EventQueue.Initial(MAX_QUEUE, MAX_WORKERS);
    hide *;
    var q := Started(spec, s);
    var more, r := SimulateRun(spec, s, steps, t, q);
    QueueRunAppend(start, [EventQueue.Spawn], q, more, r);
    EventQueue.QueueDiscipline(MAX_QUEUE, MAX_WORKERS, [EventQueue.Spawn] + more, r);
    Waiting(r, t);
    handled := r.handled;
  }

  lemma Waiting(q: Queue, s: State)
    requires Simulates(q, s)
    ensures EventQueue.InHand(q) == (if s.worker.Busy? then [Created(s.worker.file)] else [])
    ensures q.queue == s.queue && q.capacity == MAX_QUEUE
  {
  }

  /** The first worker has been spawned and nothing else has happened. */
  lemma Started(spec: PodSpec, s: State) returns (q: Queue)
    requires Initial(spec, s)
    ensures EventQueue.Runs(EventQueue.Initial(MAX_QUEUE, MAX_WORKERS), [EventQueue.Spawn], q)
    ensures Simulates(q, s) && q.accepted == []
  {
    q := One(EventQueue.Initial(MAX_QUEUE, MAX_WORKERS), EventQueue.Spawn);
  }
}
