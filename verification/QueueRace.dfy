/** Interleavings of src/queue.c around the fullness test that `safe_queue_enqueue` makes
    before it takes the mutex. Each unlocked read is a step of its own; each critical section
    is one step. Resizes copy every pending item. */
module QueueRace {
  import opened RingBuffer

  /** Where a producer is inside safe_queue_enqueue. */
  datatype Producer<T> =
    | Idle
    | SizeRead(x: T, seen: nat)            // `size` read, `capacity` not yet
    | MustGrow(x: T)                       // they were equal
    | Growing(x: T, newCapacity: nat)      // argument of the resize computed, mutex not yet taken
    | MayWrite(x: T)                       // about to take the mutex and write

  datatype System<T> = System(
    ring: Ring<T>,
    producers: seq<Producer<T>>,
    enqueued: seq<T>,          // items written, in order
    dequeued: seq<Cell<T>>)    // cells handed to consumers, in order

  datatype Event<T> =
    | ReadSize(p: nat, x: T) | Compare(p: nat) | ReadCapacity(p: nat) | Grow(p: nat) | Put(p: nat)
    | Consume   // any consumer's whole critical section, shrink included

  function Init<T>(k: nat): System<T> {
    System(Create(), seq(k, _ => Idle), [], [])
  }

  predicate Enabled<T>(s: System<T>, e: Event<T>) {
    && s.ring.Valid()
    && match e
       case ReadSize(p, _) => p < |s.producers| && s.producers[p].Idle?
       case Compare(p) => p < |s.producers| && s.producers[p].SizeRead?
       case ReadCapacity(p) => p < |s.producers| && s.producers[p].MustGrow?
       case Grow(p) => p < |s.producers| && s.producers[p].Growing?
       case Put(p) => p < |s.producers| && s.producers[p].MayWrite?
       case Consume => s.ring.size > 0
  }

  /** A resize to no more slots than there are items writes outside the new allocation: the
      ring is no longer one. */
  function Resized<T>(r: Ring<T>, newCapacity: nat): Ring<T>
    requires r.Valid()
  {
    if r.size < newCapacity then r.ResizeIntended(newCapacity) else Ring([], 0, 0, 0)
  }

  function Apply<T>(s: System<T>, e: Event<T>): System<T>
    requires Enabled(s, e)
  {
    match e
    case ReadSize(p, x) => s.(producers := s.producers[p := SizeRead(x, s.ring.size)])
    case Compare(p) =>
      var SizeRead(x, seen) := s.producers[p];
      s.(producers := s.producers[p := if seen == |s.ring.data| then MustGrow(x) else MayWrite(x)])
    case ReadCapacity(p) =>
      s.(producers := s.producers[p := Growing(s.producers[p].x, |s.ring.data| * 2)])
    case Grow(p) =>
      var Growing(x, n) := s.producers[p];
      s.(ring := Resized(s.ring, n), producers := s.producers[p := MayWrite(x)])
    case Put(p) =>
      var x := s.producers[p].x;
      s.(ring := s.ring.Write(x), producers := s.producers[p := Idle], enqueued := s.enqueued + [x])
    case Consume =>
      var (r, o) := Step(s.ring, Deq);
      s.(ring := r, dequeued := s.dequeued + [s.ring.data[s.ring.front]])
  }

  predicate Runs<T(==)>(s: System<T>, es: seq<Event<T>>, end: System<T>)
    decreases |es|
  {
    if es == [] then s == end else Enabled(s, es[0]) && Runs(Apply(s, es[0]), es[1..], end)
  }

  /** Some interleaving of `k` producers and any number of consumers leads to `s`. */
  ghost predicate Reachable<T(!new)>(k: nat, s: System<T>) {
    exists es :: Runs(Init(k), es, s)
  }

  /** Nothing pending was ever overwritten, lost or reordered. */
  ghost predicate Safe<T>(s: System<T>) {
    s.ring.Valid() && Items(s.enqueued) == s.dequeued + s.ring.Contents()
  }

  /** The items written, as the events alone tell: a write is of the item that its producer came with.
      `came` holds what each producer came with last. */
  function Puts<T>(came: map<nat, T>, es: seq<Event<T>>): seq<T>
    decreases |es|
  {
    if es == [] then []
    else match es[0]
      case ReadSize(p, x) => Puts(came[p := x], es[1..])
      case Put(p) => (if p in came then [came[p]] else []) + Puts(came, es[1..])
      case _ => Puts(came, es[1..])
  }

  ghost predicate Carries<T>(s: System<T>, came: map<nat, T>) {
    forall p: nat :: p < |s.producers| && !s.producers[p].Idle? ==> p in came && came[p] == s.producers[p].x
  }

  lemma {:induction false} EventsTell<T>(s: System<T>, came: map<nat, T>, es: seq<Event<T>>, end: System<T>)
    requires Runs(s, es, end) && Carries(s, came)
    ensures end.enqueued == s.enqueued + Puts(came, es)
    decreases |es|
  {
    if es == [] {
      assert s.enqueued + [] == s.enqueued;
    } else {
      var e, s' := es[0], Apply(s, es[0]);
      var came' := if e.ReadSize? then came[e.p := e.x] else came;
      assert Carries(s', came');
      EventsTell(s', came', es[1..], end);
    }
  }

  // ---------- One producer ----------

  /** What a lone producer knows at each point, whatever the consumers did meanwhile. */
  ghost predicate Knows<T>(r: Ring<T>, p: Producer<T>) {
    match p
    case Idle => true
    case SizeRead(_, seen) => r.size <= seen && (r.size < |r.data| || seen == |r.data|)
    case MustGrow(_) => true
    case Growing(_, n) => r.size < n
    case MayWrite(_) => r.size < |r.data|
  }

  ghost predicate Inv<T>(s: System<T>) {
    Safe(s) && forall i :: 0 <= i < |s.producers| ==> Knows(s.ring, s.producers[i])
  }

  /** A dequeue, with or without a shrink, takes the oldest item and leaves room. */
  lemma ConsumeStep<T>(s: System<T>)
    requires Safe(s) && Enabled(s, Consume)
    ensures Safe(Apply(s, Consume))
    ensures var r, r' := s.ring, Apply(s, Consume).ring;
      r'.size == r.size - 1 && r'.size < |r'.data| <= |r.data|
  {
    hide Items;
    var r := s.ring;
    TakeRemovesOldest(r);
    DequeueContents(r);
    assert r.Contents() == [r.Contents()[0]] + r.Contents()[1..];
    assert s.dequeued + r.Contents() == (s.dequeued + [r.Contents()[0]]) + r.Contents()[1..];
  }

  lemma LoneProducerStep<T>(s: System<T>, e: Event<T>)
    requires Inv(s) && |s.producers| <= 1 && Enabled(s, e)
    ensures Inv(Apply(s, e)) && |Apply(s, e).producers| <= 1
  {
    var r := s.ring;
    match e
    case ReadSize(p, x) =>
    case Compare(p) =>
    case ReadCapacity(p) =>
    case Grow(p) =>
      RelocateContents(r, r.size, s.producers[p].newCapacity);
    case Put(p) =>
      WriteAppends(r, s.producers[p].x);
      assert Items(s.enqueued + [s.producers[p].x]) == Items(s.enqueued) + [Item(s.producers[p].x)];
    case Consume =>
      ConsumeStep(s);
  }

  lemma {:induction false} LoneProducerSafe<T>(s: System<T>, es: seq<Event<T>>, end: System<T>)
    requires Inv(s) && |s.producers| <= 1 && Runs(s, es, end)
    ensures Safe(end)
    decreases |es|
  {
    if es != [] {
      LoneProducerStep(s, es[0]);
      LoneProducerSafe(Apply(s, es[0]), es[1..], end);
    }
  }

  /** From creation: what the lone producer wrote is what was taken and what is pending, in order. */
  lemma LoneProducerFifo<T>(es: seq<Event<T>>, end: System<T>)
    requires Runs(Init(1), es, end)
    ensures end.ring.Valid() && Items(Puts(map[], es)) == end.dequeued + end.ring.Contents()
  {
    CreateReached<T>();
    assert Items<T>([]) == [] + Create<T>().Contents();
    LoneProducerSafe(Init(1), es, end);
    EventsTell(Init(1), map[], es, end);
    assert [] + Puts(map[], es) == Puts(map[], es);
  }

  // ---------- Two producers ----------

  lemma {:induction false} RunsExtend<T>(s: System<T>, es: seq<Event<T>>, end: System<T>, e: Event<T>)
    requires Runs(s, es, end) && Enabled(end, e)
    ensures Runs(s, es + [e], Apply(end, e))
    decreases |es|
  {
    if es != [] {
      assert (es + [e])[0] == es[0] && (es + [e])[1..] == es[1..] + [e];
      RunsExtend(Apply(s, es[0]), es[1..], end, e);
    } else {
      assert [] + [e] == [e] && [e][1..] == [];
      assert Runs(Apply(s, e), [], Apply(s, e));
    }
  }

  /** Any producer's enqueue without interference is the whole call of RingBuffer. */
  lemma EnqueueAlone<T>(s: System<T>, p: nat, x: T, came: map<nat, T>) returns (es: seq<Event<T>>, end: System<T>)
    requires s.ring.Valid() && p < |s.producers| && s.producers[p].Idle? && Carries(s, came)
    ensures Runs(s, es, end) && end.ring == Step(s.ring, Enq(x)).0 && end.producers == s.producers
    ensures Puts(came, es) == [x] && end.enqueued == s.enqueued + [x]
  {
    hide Runs, Puts;
    es, end := Tested(s, p, x);
    if s.ring.Full() {
      RelocateContents(s.ring, s.ring.size, |s.ring.data| * 2);
      es, end := OneMore(s, es, end, ReadCapacity(p));
      es, end := OneMore(s, es, end, Grow(p));
    }
    es, end := OneMore(s, es, end, Put(p));
    EventsTell(s, came, es, end);
    hide Carries;
    assert (s.enqueued + Puts(came, es))[|s.enqueued|..] == Puts(came, es);
  }

  /** The fullness test alone. */
  lemma Tested<T>(s: System<T>, p: nat, x: T) returns (es: seq<Event<T>>, end: System<T>)
    requires s.ring.Valid() && p < |s.producers| && s.producers[p].Idle?
    ensures Runs(s, es, end)
    ensures end == s.(producers := s.producers[p := if s.ring.Full() then MustGrow(x) else MayWrite(x)])
  {
    assert Runs(s, [], s);
    hide Runs;
    es, end := OneMore(s, [], s, ReadSize(p, x));
    es, end := OneMore(s, es, end, Compare(p));
  }

  /** While anything is pending, a consumer can take it, whatever the producers are doing. */
  lemma ConsumeAlways<T>(s: System<T>) returns (end: System<T>)
    requires s.ring.Valid() && s.ring.size > 0
    ensures Runs(s, [Consume], end) && end.ring == Step(s.ring, Deq).0 && end.producers == s.producers
    ensures end.dequeued == s.dequeued + [s.ring.Contents()[0]]
  {
    end := Apply(s, Consume);
    var es: seq<Event<T>> := [Consume];
    assert es[1..] == [] && Runs(end, es[1..], end);
  }

  lemma OneMore<T>(s: System<T>, es: seq<Event<T>>, mid: System<T>, e: Event<T>)
    returns (es': seq<Event<T>>, end: System<T>)
    requires Runs(s, es, mid) && Enabled(mid, e)
    ensures Runs(s, es', end) && end == Apply(mid, e) && es' == es + [e]
  {
    RunsExtend(s, es, mid, e);
    es', end := es + [e], Apply(mid, e);
  }

  /** One more step of a run. */
  lemma Then(k: nat, es: seq<Event<int>>, s: System<int>, e: Event<int>)
    returns (es': seq<Event<int>>, s': System<int>)
    requires Runs(Init(k), es, s) && Enabled(s, e)
    ensures Runs(Init(k), es', s') && s' == Apply(s, e)
  {
    RunsExtend(Init(k), es, s, e);
    es', s' := es + [e], Apply(s, e);
  }

  /** `n` items pending at the start of the initial allocation and every producer idle. */
  ghost predicate Filled(s: System<int>, k: nat, n: nat) {
    && s.ring.Valid() && |s.ring.data| == INITIAL_CAPACITY && s.ring.front == 0 && s.ring.size == n
    && s.producers == seq(k, _ => Idle)
    && s.dequeued == []
    && |s.enqueued| == n && (n > 0 ==> s.enqueued[0] == 0)
  }

  lemma PutNext(k: nat, n: nat, es: seq<Event<int>>, s: System<int>)
    returns (es': seq<Event<int>>, s': System<int>)
    requires k >= 2 && n + 1 < INITIAL_CAPACITY && Runs(Init(k), es, s) && Filled(s, k, n)
    ensures Runs(Init(k), es', s') && Filled(s', k, n + 1)
  {
    hide Runs;
    WriteAppends(s.ring, n);
    es', s' := Then(k, es, s, ReadSize(0, n));
    es', s' := Then(k, es', s', Compare(0));
    es', s' := Then(k, es', s', Put(0));
    assert s'.producers == s.producers;
  }

  /** Producer 0 alone puts 0, 1, ..., n - 1. */
  lemma {:induction false} Fill(k: nat, n: nat) returns (es: seq<Event<int>>, s: System<int>)
    requires k >= 2 && n < INITIAL_CAPACITY
    ensures Runs(Init(k), es, s) && Filled(s, k, n)
  {
    if n == 0 {
      es, s := [], Init(k);
    } else {
      es, s := Fill(k, n - 1);
      es, s := PutNext(k, n - 1, es, s);
    }
  }

  /** Two producers that both read a size of 127 both write: the second write lands on the
      oldest pending item. */
  lemma TwoProducersOverwrite(k: nat) returns (es: seq<Event<int>>, s: System<int>)
    requires k >= 2
    ensures Runs(Init(k), es, s) && !Safe(s)
    ensures s.dequeued == [] && |s.enqueued| > 0 && s.enqueued[0] == 0
    ensures s.ring.front < |s.ring.data| && s.ring.data[s.ring.front] == Item(1000)
  {
    hide Runs;
    es, s := Fill(k, INITIAL_CAPACITY - 1);
    WriteAppends(s.ring, 999);
    es, s := Then(k, es, s, ReadSize(0, 999));
    es, s := Then(k, es, s, ReadSize(1, 1000));
    es, s := Then(k, es, s, Compare(0));
    es, s := Then(k, es, s, Compare(1));
    es, s := Then(k, es, s, Put(0));
    es, s := Then(k, es, s, Put(1));
  }

  /** The unlocked test is sound for every interleaving exactly when there is one producer. */
  lemma UnlockedTestSafeIff(k: nat)
    ensures (forall s: System<int> :: Reachable(k, s) ==> Safe(s)) <==> k <= 1
  {
    if k <= 1 {
      CreateReached<int>();
      assert Items<int>([]) == [] + Create<int>().Contents();
      forall s: System<int> | Reachable(k, s)
        ensures Safe(s)
      {
        var es :| Runs(Init<int>(k), es, s);
        LoneProducerSafe(Init<int>(k), es, s);
      }
    } else {
      var es, s := TwoProducersOverwrite(k);
      assert Reachable(k, s) && !Safe(s);
    }
  }
}
