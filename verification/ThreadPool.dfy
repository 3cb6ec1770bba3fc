/** src/pool.c over the wait/signal discipline of src/queue.c, as a step system: any number of
    workers, any number of pushing threads and one destroying thread, interleaved at will.
    The queue is taken to be the FIFO it is meant to be: that is an assumption, and RingBuffer and
    QueueRace say when the code meets it. In particular the destroyer enqueues the sentinels, so
    beside a pushing thread it is a second producer, and by QueueRace.UnlockedTestSafeIff the
    fullness test made outside the mutex then does not guarantee a FIFO.
    A step is one critical section, one unlocked test, or one return of the worker function. */
module ThreadPool {
  import opened Options

  datatype Entry = Task(id: nat) | Null

  datatype Worker =
    | Ready                  // before the lock of safe_queue_dequeue
    | Asleep                 // inside pthread_cond_wait, not signalled
    | Signalled              // woken, has not got the mutex back yet
    | Holding(item: Entry)   // dequeued, the exit test not yet made
    | Busy(item: Entry)      // inside pool->worker(item)
    | Exited

  /** `left` sentinels to enqueue, `joined` threads joined. */
  datatype Destroyer = NotCalled | Stopping(left: nat, joined: nat)

  datatype Pool = Pool(
    running: bool,
    queue: seq<Entry>,
    workers: seq<Worker>,
    inflight: multiset<Entry>,            // pushes past the `running` test, before their enqueue
    destroyer: Destroyer,
    // history
    accepted: multiset<Entry>,            // every push that passed the test
    enqueued: seq<Entry>,
    dequeued: seq<Entry>,
    takes: multiset<(nat, Entry)>,        // which worker dequeued what
    finished: seq<Entry>)                 // completed calls of the worker function

  /** `wake` is the waiter that a signal chooses. */
  datatype Event =
    | Push(x: Entry)                      // `if (pool->running)` seen true
    | Enqueue(x: Entry, wake: Option<nat>)
    | Acquire(i: nat)                     // take the mutex, test `size == 0`, take an item or wait
    | Spurious(i: nat)                    // pthread_cond_wait returns unasked
    | Test(i: nat)                        // `item == NULL && !running`
    | Return(i: nat)                      // the worker function returns
    | Stop                                // `running = false`
    | Sentinel(wake: Option<nat>)
    | Join

  function Init(n: nat): Pool {
    Pool(true, [], seq(n, _ => Ready), multiset{}, NotCalled, multiset{}, [], [], multiset{}, [])
  }

  /** pthread_cond_signal wakes a waiter if there is one. */
  predicate SignalChoice(ws: seq<Worker>, wake: Option<nat>) {
    match wake
    case None => forall i :: 0 <= i < |ws| ==> ws[i] != Asleep
    case Some(i) => i < |ws| && ws[i] == Asleep
  }

  function Signal(ws: seq<Worker>, wake: Option<nat>): seq<Worker>
    requires SignalChoice(ws, wake)
  {
    if wake.None? then ws else ws[wake.value := Signalled]
  }

  predicate Enabled(s: Pool, e: Event) {
    match e
    case Push(_) => s.running
    case Enqueue(x, wake) => x in s.inflight && SignalChoice(s.workers, wake)
    case Acquire(i) => i < |s.workers| && (s.workers[i].Ready? || s.workers[i].Signalled?)
    case Spurious(i) => i < |s.workers| && s.workers[i].Asleep?
    case Test(i) => i < |s.workers| && s.workers[i].Holding?
    case Return(i) => i < |s.workers| && s.workers[i].Busy?
    case Stop => s.destroyer.NotCalled?
    case Sentinel(wake) =>
      s.destroyer.Stopping? && s.destroyer.left > 0 && SignalChoice(s.workers, wake)
    case Join =>
      && s.destroyer.Stopping? && s.destroyer.left == 0
      && s.destroyer.joined < |s.workers| && s.workers[s.destroyer.joined].Exited?
  }

  function Put(s: Pool, x: Entry, wake: Option<nat>): Pool
    requires SignalChoice(s.workers, wake)
  {
    s.(queue := s.queue + [x], enqueued := s.enqueued + [x], workers := Signal(s.workers, wake))
  }

  function Apply(s: Pool, e: Event): Pool
    requires Enabled(s, e)
  {
    match e
    case Push(x) => s.(inflight := s.inflight + multiset{x}, accepted := s.accepted + multiset{x})
    case Enqueue(x, wake) => Put(s, x, wake).(inflight := s.inflight - multiset{x})
    case Acquire(i) =>
      if s.queue == [] then s.(workers := s.workers[i := Asleep]) else
      s.(queue := s.queue[1..],
         dequeued := s.dequeued + [s.queue[0]],
         takes := s.takes + multiset{(i, s.queue[0])},
         workers := s.workers[i := Holding(s.queue[0])])
    case Spurious(i) => s.(workers := s.workers[i := Signalled])
    case Test(i) =>
      var x := s.workers[i].item;
      s.(workers := s.workers[i := if x.Null? && !s.running then Exited else Busy(x)])
    case Return(i) =>
      s.(workers := s.workers[i := Ready], finished := s.finished + [s.workers[i].item])
    case Stop => s.(running := false, destroyer := Stopping(|s.workers|, 0))
    case Sentinel(wake) =>
      Put(s, Null, wake).(destroyer := s.destroyer.(left := s.destroyer.left - 1))
    case Join => s.(destroyer := s.destroyer.(joined := s.destroyer.joined + 1))
  }

  predicate Runs(s: Pool, es: seq<Event>, end: Pool)
    decreases |es|
  {
    if es == [] then s == end else Enabled(s, es[0]) && Runs(Apply(s, es[0]), es[1..], end)
  }

  // ---------- Sums over the workers ----------

  ghost function Sum(ws: seq<Worker>, f: Worker -> nat): nat {
    if ws == [] then 0 else f(ws[0]) + Sum(ws[1..], f)
  }

  lemma {:induction false} SumUpdate(ws: seq<Worker>, i: nat, w: Worker, f: Worker -> nat)
    requires i < |ws|
    ensures Sum(ws[i := w], f) + f(ws[i]) == Sum(ws, f) + f(w)
  {
    if i == 0 {
      assert ws[0 := w][1..] == ws[1..];
    } else {
      assert ws[i := w][1..] == ws[1..][i - 1 := w];
      SumUpdate(ws[1..], i - 1, w, f);
    }
  }

  lemma {:induction false} SumBounds(ws: seq<Worker>, i: nat, f: Worker -> nat)
    requires i < |ws|
    ensures f(ws[i]) <= Sum(ws, f)
  {
    if i > 0 {
      SumBounds(ws[1..], i - 1, f);
    }
  }

  lemma {:induction false} SumOfEqual(ws: seq<Worker>, w: Worker, f: Worker -> nat)
    requires forall i :: 0 <= i < |ws| ==> ws[i] == w
    ensures Sum(ws, f) == |ws| * f(w)
  {
    if ws != [] {
      SumOfEqual(ws[1..], w, f);
    }
  }

  function Woken(w: Worker): nat { if w.Signalled? then 1 else 0 }

  /** Has taken the item that makes it exit. */
  predicate Leaving(w: Worker) { w == Exited || w == Holding(Null) }

  function Live(w: Worker): nat { if Leaving(w) then 0 else 1 }

  /** Steps a worker can still take before it must be given something. */
  function Weight(w: Worker): nat {
    match w
    case Exited => 0
    case Asleep => 0
    case Ready => 1
    case Signalled => 1
    case Busy(_) => 2
    case Holding(_) => 3
  }

  /** The item a worker accounts for; an exited worker accounts for the sentinel it took. */
  function Held(w: Worker): multiset<Entry> {
    match w
    case Holding(x) => multiset{x}
    case Busy(x) => multiset{x}
    case Exited => multiset{Null}
    case _ => multiset{}
  }

  ghost function HeldAll(ws: seq<Worker>): multiset<Entry> {
    if ws == [] then multiset{} else Held(ws[0]) + HeldAll(ws[1..])
  }

  lemma {:induction false} HeldUpdate(ws: seq<Worker>, i: nat, w: Worker)
    requires i < |ws|
    ensures HeldAll(ws[i := w]) + Held(ws[i]) == HeldAll(ws) + Held(w)
  {
    if i == 0 {
      assert ws[0 := w][1..] == ws[1..];
    } else {
      assert ws[i := w][1..] == ws[1..][i - 1 := w];
      HeldUpdate(ws[1..], i - 1, w);
      var now, was := HeldAll(ws[1..][i - 1 := w]), HeldAll(ws[1..]);
      assert Held(ws[0]) + now + Held(ws[i]) == Held(ws[0]) + (now + Held(ws[i]));
      assert Held(ws[0]) + was + Held(w) == Held(ws[0]) + (was + Held(w));
    }
  }

  lemma {:induction false} HeldMember(ws: seq<Worker>, i: nat, x: Entry)
    requires i < |ws| && x in Held(ws[i])
    ensures x in HeldAll(ws)
  {
    if i > 0 {
      HeldMember(ws[1..], i - 1, x);
    }
  }

  lemma {:induction false} HeldByNone(ws: seq<Worker>)
    requires forall i :: 0 <= i < |ws| ==> Held(ws[i]) == multiset{}
    ensures HeldAll(ws) == multiset{}
  {
    if ws != [] {
      HeldByNone(ws[1..]);
    }
  }

  lemma {:induction false} HeldByExited(ws: seq<Worker>)
    requires forall i :: 0 <= i < |ws| ==> ws[i] == Exited
    ensures HeldAll(ws) == multiset{}[Null := |ws|]
  {
    if ws != [] {
      HeldByExited(ws[1..]);
    }
  }

  function Nulls(q: seq<Entry>): nat { multiset(q)[Null] }

  // ---------- Invariants of every run ----------

  /** While anyone sleeps there are at least as many woken workers as queued items. */
  ghost predicate WakeUp(s: Pool) {
    forall i :: 0 <= i < |s.workers| && s.workers[i] == Asleep ==> |s.queue| <= Sum(s.workers, Woken)
  }

  function SentinelsSent(s: Pool): nat {
    if s.destroyer.Stopping? && s.destroyer.left <= |s.workers| then |s.workers| - s.destroyer.left else 0
  }

  ghost predicate Ordered(enqueued: seq<Entry>, dequeued: seq<Entry>, queue: seq<Entry>) {
    enqueued == dequeued + queue
  }

  /** What was dequeued is held by a worker or finished. */
  ghost predicate Accounted(dequeued: seq<Entry>, ws: seq<Worker>, finished: seq<Entry>) {
    multiset(dequeued) == HeldAll(ws) + multiset(finished)
  }

  /** What was enqueued or is about to be is what was accepted, plus the sentinels. */
  ghost predicate Admitted(enqueued: seq<Entry>, inflight: multiset<Entry>, accepted: multiset<Entry>, sent: nat) {
    multiset(enqueued) + inflight == accepted + multiset{}[Null := sent] && inflight <= accepted
  }

  /** Order and number of items are kept everywhere between push and completion. */
  ghost predicate Conserved(s: Pool) {
    && Ordered(s.enqueued, s.dequeued, s.queue)
    && Accounted(s.dequeued, s.workers, s.finished)
    && (s.destroyer.Stopping? ==> s.destroyer.left <= |s.workers|)
    && Admitted(s.enqueued, s.inflight, s.accepted, SentinelsSent(s))
  }

  /** Shutdown is in progress exactly when `running` is false, and the sentinels that are still
      to come or still queued suffice for the workers that have not taken one. */
  ghost predicate Supplied(s: Pool) {
    && (s.running <==> s.destroyer.NotCalled?)
    && (!s.running ==>
          && s.destroyer.joined <= |s.workers|
          && (forall j :: 0 <= j < s.destroyer.joined ==> s.workers[j] == Exited)
          && Sum(s.workers, Live) <= s.destroyer.left + Nulls(s.queue))
    && (forall i :: 0 <= i < |s.workers| && s.workers[i] == Exited ==> !s.running)
  }

  ghost predicate Inv(s: Pool) {
    WakeUp(s) && Conserved(s) && Supplied(s)
  }

  lemma InitInv(n: nat)
    ensures Inv(Init(n))
  {
    HeldByNone(Init(n).workers);
  }

  lemma Updated(ws: seq<Worker>, i: nat, w: Worker)
    requires i < |ws|
    ensures Sum(ws[i := w], Woken) + Woken(ws[i]) == Sum(ws, Woken) + Woken(w)
    ensures Sum(ws[i := w], Live) + Live(ws[i]) == Sum(ws, Live) + Live(w)
    ensures Sum(ws[i := w], Weight) + Weight(ws[i]) == Sum(ws, Weight) + Weight(w)
    ensures HeldAll(ws[i := w]) + Held(ws[i]) == HeldAll(ws) + Held(w)
  {
    SumUpdate(ws, i, w, Woken);
    SumUpdate(ws, i, w, Live);
    SumUpdate(ws, i, w, Weight);
    HeldUpdate(ws, i, w);
  }

  lemma SignalEffect(ws: seq<Worker>, wake: Option<nat>)
    requires SignalChoice(ws, wake)
    ensures |Signal(ws, wake)| == |ws|
    ensures Sum(Signal(ws, wake), Woken) == Sum(ws, Woken) + (if wake.Some? then 1 else 0)
    ensures Sum(Signal(ws, wake), Weight) == Sum(ws, Weight) + (if wake.Some? then 1 else 0)
    ensures Sum(Signal(ws, wake), Live) == Sum(ws, Live)
    ensures HeldAll(Signal(ws, wake)) == HeldAll(ws)
  {
    hide Sum, HeldAll;
    if wake.Some? {
      Updated(ws, wake.value, Signalled);
      assert HeldAll(ws) + multiset{} == HeldAll(ws);
      assert HeldAll(Signal(ws, wake)) + multiset{} == HeldAll(Signal(ws, wake));
    }
  }

  /** A step of one worker: all it does is to replace that worker, and to move one item. */
  lemma WorkerStep(s: Pool, e: Event)
    requires Enabled(s, e) && (e.Acquire? || e.Spurious? || e.Test? || e.Return?)
    ensures var w, w', s' := s.workers[e.i], Apply(s, e).workers[e.i], Apply(s, e);
      && s'.workers == s.workers[e.i := w']
      && Sum(s'.workers, Woken) + Woken(w) == Sum(s.workers, Woken) + Woken(w')
      && Sum(s'.workers, Live) + Live(w) == Sum(s.workers, Live) + Live(w')
      && Sum(s'.workers, Weight) + Weight(w) == Sum(s.workers, Weight) + Weight(w')
      && HeldAll(s'.workers) + Held(w) == HeldAll(s.workers) + Held(w')
      && (s'.queue == s.queue || (s.queue != [] && s'.queue == s.queue[1..]
            && e.Acquire? && w' == Holding(s.queue[0])))
  {
    hide Sum, HeldAll;
    Updated(s.workers, e.i, Apply(s, e).workers[e.i]);
  }

  lemma WakeUpKept(s: Pool, e: Event)
    requires WakeUp(s) && Enabled(s, e)
    ensures WakeUp(Apply(s, e))
  {
    hide Sum, HeldAll;
    if e.Enqueue? || e.Sentinel? {
      SignalEffect(s.workers, e.wake);
    } else if e.Acquire? || e.Spurious? || e.Test? || e.Return? {
      WorkerStep(s, e);
    }
  }

  lemma HeadAndTail(q: seq<Entry>)
    requires q != []
    ensures q == [q[0]] + q[1..]
    ensures multiset(q) == multiset{q[0]} + multiset(q[1..])
    ensures Nulls(q) == Nulls(q[1..]) + if q[0] == Null then 1 else 0
  {
  }

  lemma Cancel(a: multiset<Entry>, b: multiset<Entry>, c: multiset<Entry>)
    requires a + c == b + c
    ensures a == b
  {
    assert forall x :: (a + c)[x] == a[x] + c[x] && (b + c)[x] == b[x] + c[x];
  }

  lemma AdmittedByPush(enq: seq<Entry>, inflight: multiset<Entry>, accepted: multiset<Entry>, sent: nat, x: Entry)
    requires Admitted(enq, inflight, accepted, sent)
    ensures Admitted(enq, inflight + multiset{x}, accepted + multiset{x}, sent)
  {
    assert multiset(enq) + (inflight + multiset{x}) == multiset(enq) + inflight + multiset{x};
  }

  lemma AdmittedByEnqueue(enq: seq<Entry>, inflight: multiset<Entry>, accepted: multiset<Entry>, sent: nat, x: Entry)
    requires Admitted(enq, inflight, accepted, sent) && x in inflight
    ensures Admitted(enq + [x], inflight - multiset{x}, accepted, sent)
  {
  }

  lemma AdmittedBySentinel(enq: seq<Entry>, inflight: multiset<Entry>, accepted: multiset<Entry>, sent: nat)
    requires Admitted(enq, inflight, accepted, sent)
    ensures Admitted(enq + [Null], inflight, accepted, sent + 1)
  {
    assert multiset(enq + [Null]) + inflight == multiset(enq) + inflight + multiset{Null};
    assert multiset{}[Null := sent + 1] == multiset{}[Null := sent] + multiset{Null};
  }

  lemma OrderedByTake(enq: seq<Entry>, deq: seq<Entry>, q: seq<Entry>)
    requires Ordered(enq, deq, q) && q != []
    ensures Ordered(enq, deq + [q[0]], q[1..])
  {
  }

  lemma OrderedByPut(enq: seq<Entry>, deq: seq<Entry>, q: seq<Entry>, x: Entry)
    requires Ordered(enq, deq, q)
    ensures Ordered(enq + [x], deq, q + [x])
  {
  }

  lemma AccountedByTake(deq: seq<Entry>, ws: seq<Worker>, fin: seq<Entry>, i: nat, x: Entry)
    requires Accounted(deq, ws, fin) && i < |ws| && Held(ws[i]) == multiset{}
    ensures Accounted(deq + [x], ws[i := Holding(x)], fin)
  {
    hide HeldAll;
    HeldUpdate(ws, i, Holding(x));
    assert HeldAll(ws[i := Holding(x)]) == HeldAll(ws) + multiset{x};
  }

  lemma AccountedByReturn(deq: seq<Entry>, ws: seq<Worker>, fin: seq<Entry>, i: nat)
    requires Accounted(deq, ws, fin) && i < |ws| && ws[i].Busy?
    ensures Accounted(deq, ws[i := Ready], fin + [ws[i].item])
  {
    hide HeldAll;
    HeldUpdate(ws, i, Ready);
    assert HeldAll(ws) == HeldAll(ws[i := Ready]) + multiset{ws[i].item};
    assert multiset(fin + [ws[i].item]) == multiset{ws[i].item} + multiset(fin);
  }

  lemma AccountedByExchange(deq: seq<Entry>, ws: seq<Worker>, fin: seq<Entry>, i: nat, w: Worker)
    requires Accounted(deq, ws, fin) && i < |ws| && Held(w) == Held(ws[i])
    ensures Accounted(deq, ws[i := w], fin)
  {
    hide HeldAll;
    HeldUpdate(ws, i, w);
    Cancel(HeldAll(ws), HeldAll(ws[i := w]), Held(w));
  }

  lemma AccountedBySignal(deq: seq<Entry>, ws: seq<Worker>, fin: seq<Entry>, wake: Option<nat>)
    requires Accounted(deq, ws, fin) && SignalChoice(ws, wake)
    ensures Accounted(deq, Signal(ws, wake), fin)
  {
    if wake.Some? {
      AccountedByExchange(deq, ws, fin, wake.value, Signalled);
    }
  }

  lemma ConservedByAcquire(s: Pool, i: nat)
    requires Conserved(s) && Enabled(s, Acquire(i))
    ensures Conserved(Apply(s, Acquire(i)))
  {
    hide Ordered, Accounted, Admitted;
    if s.queue == [] {
      ConservedByExchange(s, i, Asleep);
    } else {
      AccountedByTake(s.dequeued, s.workers, s.finished, i, s.queue[0]);
      OrderedByTake(s.enqueued, s.dequeued, s.queue);
    }
  }

  lemma ConservedByTest(s: Pool, i: nat)
    requires Conserved(s) && Enabled(s, Test(i))
    ensures Conserved(Apply(s, Test(i)))
  {
    hide Conserved;
    ConservedByExchange(s, i, Apply(s, Test(i)).workers[i]);
  }

  lemma ConservedByReturn(s: Pool, i: nat)
    requires Conserved(s) && Enabled(s, Return(i))
    ensures Conserved(Apply(s, Return(i)))
  {
    hide Ordered, Accounted, Admitted;
    AccountedByReturn(s.dequeued, s.workers, s.finished, i);
  }

  lemma ConservedByExchange(s: Pool, i: nat, w: Worker)
    requires Conserved(s) && i < |s.workers| && Held(w) == Held(s.workers[i])
    ensures Conserved(s.(workers := s.workers[i := w]))
  {
    hide Ordered, Accounted, Admitted;
    AccountedByExchange(s.dequeued, s.workers, s.finished, i, w);
  }

  lemma ConservedByEnqueue(s: Pool, x: Entry, wake: Option<nat>)
    requires Conserved(s) && Enabled(s, Enqueue(x, wake))
    ensures Conserved(Apply(s, Enqueue(x, wake)))
  {
    hide Ordered, Accounted, Admitted;
    AdmittedByEnqueue(s.enqueued, s.inflight, s.accepted, SentinelsSent(s), x);
    OrderedByPut(s.enqueued, s.dequeued, s.queue, x);
    AccountedBySignal(s.dequeued, s.workers, s.finished, wake);
  }

  lemma ConservedBySentinel(s: Pool, wake: Option<nat>)
    requires Conserved(s) && Enabled(s, Sentinel(wake))
    ensures Conserved(Apply(s, Sentinel(wake)))
  {
    hide Ordered, Accounted, Admitted;
    AdmittedBySentinel(s.enqueued, s.inflight, s.accepted, SentinelsSent(s));
    OrderedByPut(s.enqueued, s.dequeued, s.queue, Null);
    AccountedBySignal(s.dequeued, s.workers, s.finished, wake);
  }

  lemma ConservedByOthers(s: Pool, e: Event)
    requires Conserved(s) && Enabled(s, e) && (e.Push? || e.Stop? || e.Join?)
    ensures Conserved(Apply(s, e))
  {
    hide Ordered, Accounted, Admitted;
    if e.Push? {
      AdmittedByPush(s.enqueued, s.inflight, s.accepted, SentinelsSent(s), e.x);
    }
  }

  lemma ConservedKept(s: Pool, e: Event)
    requires Conserved(s) && Enabled(s, e)
    ensures Conserved(Apply(s, e))
  {
    hide Conserved;
    match e
    case Enqueue(x, wake) => ConservedByEnqueue(s, x, wake);
    case Sentinel(wake) => ConservedBySentinel(s, wake);
    case Acquire(i) => ConservedByAcquire(s, i);
    case Spurious(i) => ConservedByExchange(s, i, Signalled);
    case Test(i) => ConservedByTest(s, i);
    case Return(i) => ConservedByReturn(s, i);
    case _ => ConservedByOthers(s, e);
  }

  lemma SuppliedByPut(s: Pool, e: Event)
    requires Supplied(s) && Enabled(s, e) && (e.Enqueue? || e.Sentinel?)
    ensures Supplied(Apply(s, e))
  {
    hide Sum, HeldAll, Conserved, WakeUp;
    SignalEffect(s.workers, e.wake);
    var x := if e.Enqueue? then e.x else Null;
    assert Nulls(s.queue + [x]) == Nulls(s.queue) + if x == Null then 1 else 0;
  }

  lemma SuppliedByWorker(s: Pool, e: Event)
    requires Supplied(s) && Enabled(s, e) && (e.Acquire? || e.Spurious? || e.Test? || e.Return?)
    ensures Supplied(Apply(s, e))
  {
    hide Sum, HeldAll, Nulls, Held, Woken, Weight;
    WorkerStep(s, e);
    if s.queue != [] {
      HeadAndTail(s.queue);
    }
  }

  lemma SuppliedKept(s: Pool, e: Event)
    requires Supplied(s) && Enabled(s, e)
    ensures Supplied(Apply(s, e))
  {
    hide Sum, HeldAll, Nulls;
    if e.Enqueue? || e.Sentinel? {
      SuppliedByPut(s, e);
    } else if e.Acquire? || e.Spurious? || e.Test? || e.Return? {
      SuppliedByWorker(s, e);
    } else if e.Stop? {
      LiveAtMostAll(s.workers);
    }
  }

  lemma {:induction false} LiveAtMostAll(ws: seq<Worker>)
    ensures Sum(ws, Live) <= |ws|
  {
    if ws != [] {
      LiveAtMostAll(ws[1..]);
    }
  }

  lemma StepInv(s: Pool, e: Event)
    requires Inv(s) && Enabled(s, e)
    ensures Inv(Apply(s, e)) && |Apply(s, e).workers| == |s.workers|
  {
    hide WakeUp, Conserved, Supplied;
    WakeUpKept(s, e);
    ConservedKept(s, e);
    SuppliedKept(s, e);
  }

  lemma {:induction false} RunInv(s: Pool, es: seq<Event>, end: Pool)
    requires Inv(s) && Runs(s, es, end)
    ensures Inv(end) && |end.workers| == |s.workers|
    decreases |es|
  {
    hide Inv, Apply, Enabled;
    if es != [] {
      StepInv(s, es[0]);
      RunInv(Apply(s, es[0]), es[1..], end);
    }
  }

  // ---------- Shutdown terminates ----------

  predicate Completed(s: Pool) {
    s.destroyer.Stopping? && s.destroyer.left == 0 && s.destroyer.joined == |s.workers|
  }

  /** Steps of the workers and of the destroyer, which need no help from outside. */
  predicate Own(e: Event) { e.Acquire? || e.Test? || e.Return? || e.Sentinel? || e.Join? }

  lemma SomeSignal(ws: seq<Worker>) returns (wake: Option<nat>)
    ensures SignalChoice(ws, wake)
  {
    if i: nat :| i < |ws| && ws[i] == Asleep {
      wake := Some(i);
    } else {
      wake := None;
    }
  }

  lemma {:induction false} AllAsleepOrGone(ws: seq<Worker>)
    requires forall i :: 0 <= i < |ws| ==> ws[i] == Asleep || ws[i] == Exited
    ensures Sum(ws, Woken) == 0
  {
    if ws != [] {
      AllAsleepOrGone(ws[1..]);
    }
  }

  /** Until destroy has joined every worker, some worker or the destroyer can step. */
  lemma ShutdownNeverStuck(n: nat, es: seq<Event>, s: Pool) returns (e: Event)
    requires Runs(Init(n), es, s) && !s.running && !Completed(s)
    ensures Own(e) && Enabled(s, e)
  {
    InitInv(n);
    RunInv(Init(n), es, s);
    if s.destroyer.left > 0 {
      var wake := SomeSignal(s.workers);
      return Sentinel(wake);
    }
    var j := s.destroyer.joined;
    if s.workers[j] == Exited {
      return Join;
    }
    if i: nat :| i < |s.workers| && s.workers[i] != Asleep && s.workers[i] != Exited {
      match s.workers[i]
      case Ready => return Acquire(i);
      case Signalled => return Acquire(i);
      case Holding(_) => return Test(i);
      case Busy(_) => return Return(i);
    }
    // Everyone left is asleep, so the queue is empty; but a sentinel must still be in it.
    AllAsleepOrGone(s.workers);
    SumBounds(s.workers, j, Live);
    assert false;
  }

  ghost function Measure(s: Pool): nat {
    Sum(s.workers, Weight) + 3 * |s.queue| + 5 * |s.inflight| +
    (if s.destroyer.Stopping? then 5 * s.destroyer.left else 0) +
    (if s.destroyer.Stopping? && s.destroyer.joined <= |s.workers| then |s.workers| - s.destroyer.joined else 0)
  }

  /** Once `running` is false every step but a spurious wake-up uses up the measure. */
  lemma ShutdownStep(s: Pool, e: Event)
    requires Supplied(s) && Enabled(s, e) && !s.running
    ensures !Apply(s, e).running
    ensures Measure(Apply(s, e)) <= if e.Spurious? then Measure(s) + 1 else Measure(s) - 1
  {
    hide Sum, HeldAll, Nulls, Held, Woken, Live;
    if e.Enqueue? {
      SignalEffect(s.workers, e.wake);
      assert |s.inflight - multiset{e.x}| == |s.inflight| - 1;
    } else if e.Sentinel? {
      SignalEffect(s.workers, e.wake);
    } else if e.Acquire? || e.Spurious? || e.Test? || e.Return? {
      WorkerStep(s, e);
    }
  }

  function SpuriousCount(es: seq<Event>): nat {
    if es == [] then 0 else (if es[0].Spurious? then 1 else 0) + SpuriousCount(es[1..])
  }

  lemma {:induction false} ShutdownBound(s: Pool, es: seq<Event>, end: Pool)
    requires Inv(s) && !s.running && Runs(s, es, end)
    ensures |es| + Measure(end) <= Measure(s) + 2 * SpuriousCount(es)
    decreases |es|
  {
    hide WakeUp, Conserved, Supplied, Apply, Enabled, Measure;
    if es != [] {
      ShutdownStep(s, es[0]);
      StepInv(s, es[0]);
      ShutdownBound(Apply(s, es[0]), es[1..], end);
    }
  }

  /** Shutdown never hangs. From any reachable state after `running` was cleared, every
      continuation is bounded by the work at hand plus two steps per spurious wake-up, and one
      that cannot be continued by a worker or the destroyer has joined every worker. */
  lemma ShutdownCompletes(n: nat, es: seq<Event>, s: Pool, more: seq<Event>, end: Pool)
    requires Runs(Init(n), es, s) && !s.running && Runs(s, more, end)
    ensures |more| <= Measure(s) + 2 * SpuriousCount(more)
    ensures (forall e :: Own(e) ==> !Enabled(end, e)) <==> Completed(end)
    ensures Completed(end) ==> |end.workers| == n && forall i :: 0 <= i < n ==> end.workers[i] == Exited
  {
    hide Apply, Measure, Runs, WakeUp, Conserved, Sum, Nulls;
    InitInv(n);
    RunInv(Init(n), es, s);
    ShutdownBound(s, more, end);
    RunInv(s, more, end);
    RunsAppend(Init(n), es, s, more, end);
    StaysStopped(s, more, end);
    if !Completed(end) {
      var e := ShutdownNeverStuck(n, es + more, end);
    } else {
      AllGoneIsFinal(end);
    }
  }

  lemma AllGoneIsFinal(s: Pool)
    requires Supplied(s) && Completed(s)
    ensures forall e :: Own(e) ==> !Enabled(s, e)
  {
  }

  lemma {:induction false} StaysStopped(s: Pool, es: seq<Event>, end: Pool)
    requires !s.running && s.destroyer.Stopping? && Runs(s, es, end)
    ensures !end.running
    decreases |es|
  {
    if es != [] {
      StaysStopped(Apply(s, es[0]), es[1..], end);
    }
  }

  lemma {:induction false} RunsAppend(s: Pool, es: seq<Event>, mid: Pool, more: seq<Event>, end: Pool)
    requires Runs(s, es, mid) && Runs(mid, more, end)
    ensures Runs(s, es + more, end)
    decreases |es|
  {
    if es == [] {
      assert es + more == more;
    } else {
      assert (es + more)[0] == es[0] && (es + more)[1..] == es[1..] + more;
      RunsAppend(Apply(s, es[0]), es[1..], mid, more, end);
    }
  }

  // ---------- Sentinels and departures ----------

  /** No client pushes NULL. */
  predicate Clean(es: seq<Event>) {
    forall i :: 0 <= i < |es| ==> es[i] != Push(Null)
  }

  /** With no NULL from clients, sentinels and departures match one to one. */
  ghost predicate Matched(s: Pool) {
    && Null !in s.accepted
    && Null !in s.finished
    && (forall i :: 0 <= i < |s.workers| ==> s.workers[i] != Busy(Null))
    && (forall i: nat :: i < |s.workers| ==>
          s.takes[(i, Null)] == if Leaving(s.workers[i]) then 1 else 0)
    && Sum(s.workers, Live) + Nulls(s.dequeued) == |s.workers|
    && (Nulls(s.dequeued) == |s.workers| > 0 ==> s.dequeued[|s.dequeued| - 1] == Null)
  }

  lemma MatchedCounts(s: Pool)
    requires Inv(s) && Matched(s)
    ensures Nulls(s.dequeued) + Nulls(s.queue) == SentinelsSent(s)
    ensures s.running ==> Null !in s.dequeued && Null !in s.queue
  {
    assert multiset(s.enqueued) == multiset(s.dequeued) + multiset(s.queue);
    assert s.inflight[Null] == 0;
    assert (multiset(s.enqueued) + s.inflight)[Null] == SentinelsSent(s);
  }

  lemma MatchedByTake(s: Pool, i: nat)
    requires Matched(s) && Enabled(s, Acquire(i)) && s.queue != []
    ensures Matched(Apply(s, Acquire(i)))
  {
    hide Sum;
    var x := s.queue[0];
    SumUpdate(s.workers, i, Holding(x), Live);
    SumBounds(s.workers, i, Live);
    assert Nulls(s.dequeued + [x]) == Nulls(s.dequeued) + if x == Null then 1 else 0;
    assert forall j: nat :: (s.takes + multiset{(i, x)})[(j, Null)]
             == s.takes[(j, Null)] + if j == i && x == Null then 1 else 0;
  }

  /** While the pool runs nobody holds a NULL. */
  lemma NoEarlySentinel(s: Pool, i: nat)
    requires Inv(s) && Matched(s) && s.running && i < |s.workers|
    ensures s.workers[i] != Holding(Null)
  {
    hide Sum;
    MatchedCounts(s);
    if s.workers[i] == Holding(Null) {
      HeldMember(s.workers, i, Null);
      assert false;
    }
  }

  lemma MatchedByWorker(s: Pool, e: Event)
    requires Inv(s) && Matched(s) && Enabled(s, e) && (e.Acquire? || e.Spurious? || e.Test? || e.Return?)
    ensures Matched(Apply(s, e))
  {
    hide Sum, Inv, Nulls;
    if e.Acquire? && s.queue != [] {
      MatchedByTake(s, e.i);
    } else {
      SumUpdate(s.workers, e.i, Apply(s, e).workers[e.i], Live);
      if s.running {
        NoEarlySentinel(s, e.i);
      }
    }
  }

  lemma MatchedKept(s: Pool, e: Event)
    requires Inv(s) && Matched(s) && Enabled(s, e) && e != Push(Null)
    ensures Matched(Apply(s, e))
  {
    hide Sum, HeldAll, Nulls, Inv;
    if e.Enqueue? || e.Sentinel? {
      SignalEffect(s.workers, e.wake);
    } else if e.Acquire? || e.Spurious? || e.Test? || e.Return? {
      MatchedByWorker(s, e);
    }
  }

  lemma {:induction false} RunMatched(s: Pool, es: seq<Event>, end: Pool)
    requires Inv(s) && Matched(s) && Runs(s, es, end) && Clean(es)
    ensures Inv(end) && Matched(end) && |end.workers| == |s.workers|
    decreases |es|
  {
    hide Inv, Matched, Apply, Enabled;
    if es != [] {
      StepInv(s, es[0]);
      MatchedKept(s, es[0]);
      assert Clean(es[1..]);
      RunMatched(Apply(s, es[0]), es[1..], end);
    }
  }

  /** Exact sentinel accounting in every clean run: sentinels not yet taken, plus workers that
      have taken one, is the number of workers. */
  lemma SentinelsMatchWorkers(n: nat, es: seq<Event>, s: Pool)
    requires Runs(Init(n), es, s) && Clean(es) && s.destroyer.Stopping?
    ensures s.destroyer.left + Nulls(s.queue) == Sum(s.workers, Live)
  {
    InitMatched(n);
    RunMatched(Init(n), es, s);
    MatchedCounts(s);
  }

  lemma InitMatched(n: nat)
    ensures Inv(Init(n)) && Matched(Init(n))
  {
    InitInv(n);
    SumOfEqual(Init(n).workers, Ready, Live);
  }
}
