/** The pool of src/pool.c over the queue of src/queue.c as it is written: growth loses what is
    pending, and a shrink never gives the mutex back. Each queue call is one step; clients push no
    NULL. */
module WrittenPool {
  import opened RingBuffer
  import opened ThreadPool

  /** `wild`: a worker was handed a cell that was never written. Nothing is promised after that. */
  datatype State = State(pool: Pool, queue: Written<Entry>, wild: bool)

  function Created(n: nat): State { State(Init(n), Written(Create(), false), false) }

  predicate UsesQueue(e: Event) { e.Enqueue? || e.Sentinel? || e.Acquire? }

  ghost predicate Can(s: State, e: Event) {
    !s.wild && s.queue.ring.Valid() && Enabled(s.pool, e) && (UsesQueue(e) ==> !s.queue.held)
  }

  /** Worker i has dequeued x. */
  function Taken(p: Pool, i: nat, x: Entry): Pool
    requires i < |p.workers|
  {
    p.(queue := if p.queue == [] then [] else p.queue[1..],
       dequeued := p.dequeued + [x], takes := p.takes + multiset{(i, x)}, workers := p.workers[i := Holding(x)])
  }

  /** The entry that a step enqueues. */
  function Added(e: Event): Entry { if e.Enqueue? then e.x else Null }

  ghost function After(s: State, e: Event): (s': State)
    requires Can(s, e)
  {
    if e.Enqueue? || e.Sentinel? then
      s.(pool := Apply(s.pool, e), queue := WrittenStep(s.queue, Enq(Added(e))).0)
    else if e.Acquire? then
      var (q, o) := WrittenStep(s.queue, Deq);
      match o
      case Returned(Item(x)) => s.(queue := q, pool := Taken(s.pool, e.i, x))
      case Returned(Uninit) => s.(queue := q, wild := true)
      case Waiting => s.(queue := q, pool := s.pool.(workers := s.pool.workers[e.i := Asleep]))
      case _ => s.(queue := q)  // the caller waits for the mutex it holds
    else s.(pool := Apply(s.pool, e))
  }

  ghost predicate Steps(s: State, es: seq<Event>, end: State)
    decreases |es|
  {
    if es == [] then s == end else Can(s, es[0]) && Steps(After(s, es[0]), es[1..], end)
  }

  // ---------- Runs that stay clear of both resizes ----------

  /** Every worker has taken the sentinel that makes it exit. */
  predicate Served(p: Pool) { forall i :: 0 <= i < |p.workers| ==> Leaving(p.workers[i]) }

  /** A dequeue that leaves 32 entries, or an enqueue that finds 128. */
  predicate Stumbles(p: Pool, e: Event) {
    if e.Acquire? then |p.queue| == INITIAL_CAPACITY / 4 + 1
    else (e.Enqueue? || e.Sentinel?) && |p.queue| == INITIAL_CAPACITY
  }

  /** No step stumbles as long as some worker is still served. */
  ghost predicate Smooth(s: State, es: seq<Event>)
    decreases |es|
  {
    es != [] && Can(s, es[0]) ==>
      (Served(s.pool) || !Stumbles(s.pool, es[0])) && Smooth(After(s, es[0]), es[1..])
  }

  /** The queue is the FIFO that the pool is meant to have. */
  ghost predicate Faithful(s: State) {
    && s.queue.ring.Valid() && |s.queue.ring.data| == INITIAL_CAPACITY
    && s.queue.ring.Contents() == Items(s.pool.queue)
  }

  ghost predicate Sound(s: State) {
    && Inv(s.pool) && Matched(s.pool) && |s.pool.workers| > 0
    && s.queue.ring.Valid() && !s.queue.held && !s.wild
    && (Served(s.pool) || Faithful(s))
  }

  lemma FaithfulEnqueue(s: State, e: Event)
    requires Faithful(s) && Can(s, e) && (e.Enqueue? || e.Sentinel?) && !Stumbles(s.pool, e)
    ensures Faithful(After(s, e)) && !After(s, e).queue.held
  {
    WrittenStepValid(s.queue, Enq(Added(e)));
    assert s.queue.ring.size == |s.pool.queue|;
    assert Items(s.pool.queue + [Added(e)]) == Items(s.pool.queue) + [Item(Added(e))];
  }

  lemma FaithfulDequeue(s: State, i: nat)
    requires Faithful(s) && Can(s, Acquire(i)) && !Stumbles(s.pool, Acquire(i))
    ensures var s' := After(s, Acquire(i));
      Faithful(s') && !s'.queue.held && !s'.wild && s'.pool == Apply(s.pool, Acquire(i))
  {
    var q, r := s.pool.queue, s.queue.ring;
    WrittenStepValid(s.queue, Deq);
    assert r.size == |q|;
    if q != [] {
      assert r.Contents()[0] == Item(q[0]) == r.data[r.front];
      assert Items(q[1..]) == Items(q)[1..];
    } else {
      assert r.Contents() == [];
    }
  }

  /** Once every worker is leaving, nobody dequeues any more. */
  lemma ServedStays(p: Pool, e: Event)
    requires Inv(p) && Matched(p) && Served(p) && |p.workers| > 0 && Enabled(p, e)
    ensures !e.Acquire? && Served(Apply(p, e))
  {
    hide Inv, Matched, Sum;
    if e.Test? && p.running {
      NoEarlySentinel(p, e.i);
    }
    LeavingStays(p, e);
  }

  lemma LeavingStays(p: Pool, e: Event)
    requires Served(p) && Enabled(p, e) && (e.Test? ==> !p.running || p.workers[e.i] != Holding(Null))
    ensures !e.Acquire? && Served(Apply(p, e))
  {
    if e.Acquire? || e.Spurious? || e.Test? || e.Return? {
      assert Leaving(p.workers[e.i]);
    } else if e.Enqueue? || e.Sentinel? {
      assert e.wake.Some? ==> Leaving(p.workers[e.wake.value]);
    }
  }

  lemma EnqueueDone(s: State, e: Event)
    requires Can(s, e) && (e.Enqueue? || e.Sentinel?)
    ensures var s' := After(s, e); s'.queue.ring.Valid() && !s'.queue.held && !s'.wild && s'.pool == Apply(s.pool, e)
  {
    WrittenStepValid(s.queue, Enq(Added(e)));
  }

  lemma SoundStep(s: State, e: Event)
    requires Sound(s) && Can(s, e) && e != Push(Null) && (Served(s.pool) || !Stumbles(s.pool, e))
    ensures Sound(After(s, e)) && After(s, e).pool == Apply(s.pool, e)
  {
    StepInv(s.pool, e);
    MatchedKept(s.pool, e);
    if Served(s.pool) {
      ServedStays(s.pool, e);
    }
    hide Inv, Matched, WrittenStep;
    if e.Enqueue? || e.Sentinel? {
      EnqueueDone(s, e);
      if !Served(s.pool) {
        FaithfulEnqueue(s, e);
      }
    } else if e.Acquire? {
      FaithfulDequeue(s, e.i);
    }
  }

  lemma {:induction false} SoundRun(s: State, es: seq<Event>, end: State)
    requires Sound(s) && Steps(s, es, end) && Clean(es) && Smooth(s, es)
    ensures Sound(end) && Runs(s.pool, es, end.pool)
    decreases |es|
  {
    hide Sound, After, Apply, Enabled;
    if es != [] {
      assert es[0] != Push(Null) && Clean(es[1..]);
      SoundStep(s, es[0]);
      SoundRun(After(s, es[0]), es[1..], end);
    }
  }

  // ---------- Runs that reach a resize ----------

  /** A worker is still to be served, and the queue has lost its mutex or offers an unwritten cell. */
  ghost predicate Doomed(s: State) {
    s.wild ||
    (Inv(s.pool) && !Served(s.pool) && s.queue.ring.Valid()
     && (s.queue.held || (s.queue.ring.size > 0 && s.queue.ring.Contents()[0] == Uninit)))
  }

  /** A stumble while a worker is still to be served: the mutex is lost, or what was pending is. */
  lemma StumbleDooms(s: State, e: Event)
    requires Sound(s) && Can(s, e) && !Served(s.pool) && Stumbles(s.pool, e)
    ensures Doomed(After(s, e))
  {
    hide Inv, Matched, Served, Apply;
    assert s.queue.ring.size == |s.pool.queue|;
    if e.Acquire? {
      WrittenStepValid(s.queue, Deq);
    } else {
      StepInv(s.pool, e);
      StillServing(s.pool, e);
      WrittenStepValid(s.queue, Enq(Added(e)));
    }
  }

  lemma StillThere(p: Pool, e: Event, i: nat)
    requires Enabled(p, e) && !e.Acquire? && i < |p.workers| && !Leaving(p.workers[i])
    ensures i < |Apply(p, e).workers| && !Leaving(Apply(p, e).workers[i])
  {
    if e.Spurious? || e.Test? || e.Return? {
      assert Apply(p, e).workers[e.i] != Holding(Null);
    } else if e.Enqueue? || e.Sentinel? {
      assert Signal(p.workers, e.wake)[i] == p.workers[i] || Signal(p.workers, e.wake)[i] == Signalled;
    }
  }

  /** Only a dequeue can make a worker leave. */
  lemma StillServing(p: Pool, e: Event)
    requires !Served(p) && Enabled(p, e) && !e.Acquire?
    ensures !Served(Apply(p, e))
  {
    var i :| 0 <= i < |p.workers| && !Leaving(p.workers[i]);
    StillThere(p, e, i);
  }

  lemma DoomedDequeue(s: State, i: nat)
    requires Doomed(s) && Can(s, Acquire(i))
    ensures Doomed(After(s, Acquire(i)))
  {
    hide Inv, Served;
    WrittenStepValid(s.queue, Deq);
  }

  lemma DoomedEnqueue(s: State, e: Event)
    requires Doomed(s) && Can(s, e) && (e.Enqueue? || e.Sentinel?)
    ensures Doomed(After(s, e))
  {
    hide Inv, Served, Apply;
    StepInv(s.pool, e);
    StillServing(s.pool, e);
    WrittenStepValid(s.queue, Enq(Added(e)));
  }

  lemma DoomedStep(s: State, e: Event)
    requires Doomed(s) && Can(s, e)
    ensures Doomed(After(s, e))
  {
    hide Inv, Served, Apply;
    if e.Acquire? {
      DoomedDequeue(s, e.i);
    } else if e.Enqueue? || e.Sentinel? {
      DoomedEnqueue(s, e);
    } else {
      StepInv(s.pool, e);
      StillServing(s.pool, e);
    }
  }

  lemma {:induction false} DoomedRun(s: State, es: seq<Event>, end: State)
    requires Doomed(s) && Steps(s, es, end)
    ensures Doomed(end)
    decreases |es|
  {
    hide Doomed, Can, After;
    if es != [] {
      DoomedStep(s, es[0]);
      DoomedRun(After(s, es[0]), es[1..], end);
    }
  }

  lemma {:induction false} RoughRun(s: State, es: seq<Event>, end: State)
    requires Sound(s) && Steps(s, es, end) && Clean(es) && !Smooth(s, es)
    ensures Doomed(end)
    decreases |es|
  {
    hide Sound, After, Doomed, Served, Stumbles;
    assert es[0] != Push(Null) && Clean(es[1..]);
    if !Served(s.pool) && Stumbles(s.pool, es[0]) {
      StumbleDooms(s, es[0]);
      DoomedRun(After(s, es[0]), es[1..], end);
    } else {
      SoundStep(s, es[0]);
      RoughRun(After(s, es[0]), es[1..], end);
    }
  }

  // ---------- Shutdown ----------

  lemma DoomedNeverDone(s: State)
    requires Doomed(s) && Completed(s.pool)
    ensures s.wild
  {
  }

  lemma CreatedSound(n: nat)
    requires n > 0
    ensures Sound(Created(n))
  {
    InitMatched(n);
    CreateReached<Entry>();
    assert Items<Entry>([]) == [];
  }

  /** Shutdown over the queue as written. A run that has cleared `running` and that no worker and not
      the destroyer can continue has joined every worker, with no unwritten cell handed out, if and
      only if, while some worker was still to be served, no dequeue left 32 entries and no enqueue
      found 128. */
  lemma ShutdownIff(n: nat, es: seq<Event>, s: State)
    requires n > 0 && Steps(Created(n), es, s) && Clean(es) && !s.pool.running
    requires forall e :: Own(e) ==> !Can(s, e)
    ensures Completed(s.pool) && !s.wild <==> Smooth(Created(n), es)
  {
    CreatedSound(n);
    hide Steps, Smooth, Created;
    if Smooth(Created(n), es) {
      SoundRun(Created(n), es, s);
      assert Created(n).pool == Init(n) by { CreatedPool(n); }
      StepsAlike(s);
      if !Completed(s.pool) {
        var e := ShutdownNeverStuck(n, es, s.pool);
      }
    } else {
      RoughRun(Created(n), es, s);
      if Completed(s.pool) {
        DoomedNeverDone(s);
      }
    }
  }

  /** With the mutex free, what the pool can do it can do over this queue. */
  lemma StepsAlike(s: State)
    requires Sound(s)
    ensures forall e :: Can(s, e) <==> Enabled(s.pool, e)
  {
    hide Inv, Matched, Enabled;
  }

  lemma CreatedPool(n: nat)
    ensures Created(n).pool == Init(n)
  {
  }
}
