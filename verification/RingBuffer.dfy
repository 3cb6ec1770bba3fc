/** The circular buffer of src/queue.c as a value: what one critical section does to it,
    what a resize copies, and what whole runs of operations do, both with the resize the
    code intends and with the resize the code contains. */
module RingBuffer {

  /** One slot of malloc'ed storage: never written since allocation, or holding an item. */
  datatype Cell<+T> = Uninit | Item(value: T)

  const INITIAL_CAPACITY: nat := 128

  /** The slot `k` places after `front` in a ring of `capacity` slots. */
  function Slot(front: nat, k: nat, capacity: nat): (i: nat)
    requires front < capacity && k <= capacity
    ensures i < capacity
  {
    if front + k < capacity then front + k else front + k - capacity
  }

  lemma MultipleBounds(q: int, c: nat)
    ensures q >= 2 ==> q * c >= 2 * c
    ensures q < 0 ==> q * c <= -1 * c
  {
  }

  lemma SlotIsModulo(front: nat, k: nat, capacity: nat)
    requires front < capacity && k <= capacity
    ensures (front + k) % capacity == Slot(front, k, capacity)
  {
    var x := front + k;
    var q := x / capacity;
    assert x == q * capacity + x % capacity;
    MultipleBounds(q, capacity);
    assert q == 0 || q == 1;
  }

  datatype Ring<T> = Ring(data: seq<Cell<T>>, front: nat, rear: nat, size: nat) {

    predicate Valid() {
      && front < |data|
      && size <= |data|
      && rear == Slot(front, size, |data|)
    }

    /** The pending cells, oldest first. */
    function Contents(): (s: seq<Cell<T>>)
      requires Valid()
      ensures |s| == size
    {
      seq(size, k requires 0 <= k < size => data[Slot(front, k, |data|)])
    }

    /** The body of the enqueue critical section. It does not test for room. */
    function Write(x: T): Ring<T>
      requires rear < |data|
    {
      Ring(data[rear := Item(x)], front, (rear + 1) % |data|, size + 1)
    }

    /** The body of the dequeue critical section before the shrink test. */
    function Take(): Ring<T>
      requires front < |data| && size > 0
    {
      Ring(data, (front + 1) % |data|, rear, size - 1)
    }

    /** Moves the `n` oldest cells to the start of a fresh allocation; the rest of it is unwritten. */
    function Relocate(n: nat, newCapacity: nat): Ring<T>
      requires Valid() && n <= |data|
    {
      Ring(seq(newCapacity, k requires 0 <= k < newCapacity =>
                 if k < n then data[Slot(front, k, |data|)] else Uninit),
           0, size, size)
    }

    /** How often the copy loop `for (i = front; i != rear; i = (i + 1) % capacity)` runs. */
    function CopySteps(): nat
      requires Valid()
    {
      (rear + |data| - front) % |data|
    }

    /** The resize the code contains. */
    function ResizeWritten(newCapacity: nat): Ring<T>
      requires Valid()
    {
      Relocate(CopySteps(), newCapacity)
    }

    /** The resize the code means: every pending item is copied. */
    function ResizeIntended(newCapacity: nat): Ring<T>
      requires Valid()
    {
      Relocate(size, newCapacity)
    }

    predicate Full() { size == |data| }

    /** The test at the end of dequeue. */
    predicate ShrinkDue() { size > 0 && size == |data| / 4 }
  }

  function Create<T>(): Ring<T> {
    Ring(seq(INITIAL_CAPACITY, _ => Uninit), 0, 0, 0)
  }

  function Items<T>(s: seq<T>): (r: seq<Cell<T>>)
    ensures |r| == |s|
  {
    seq(|s|, k requires 0 <= k < |s| => Item(s[k]))
  }

  // ---------- One critical section ----------

  lemma WriteAppends<T>(r: Ring<T>, x: T)
    requires r.Valid() && !r.Full()
    ensures r.Write(x).Valid()
    ensures r.Write(x).Contents() == r.Contents() + [Item(x)]
  {
    var cap := |r.data|;
    SlotIsModulo(r.rear, 1, cap);
    var w := r.Write(x);
    assert w.rear == Slot(r.front, r.size + 1, cap);
    forall k | 0 <= k < r.size
      ensures w.Contents()[k] == r.Contents()[k]
    {
      assert Slot(r.front, k, cap) != r.rear;
    }
    assert w.Contents()[r.size] == Item(x);
  }

  lemma TakeRemovesOldest<T>(r: Ring<T>)
    requires r.Valid() && r.size > 0
    ensures r.data[r.front] == r.Contents()[0]
    ensures r.Take().Valid()
    ensures r.Take().Contents() == r.Contents()[1..]
  {
    var cap := |r.data|;
    SlotIsModulo(r.front, 1, cap);
    var t := r.Take();
    forall k | 0 <= k < t.size
      ensures t.Contents()[k] == r.Contents()[k + 1]
    {
      assert Slot(t.front, k, cap) == Slot(r.front, k + 1, cap);
    }
  }

  /** A relocation keeps exactly the items it copies. */
  lemma RelocateContents<T>(r: Ring<T>, n: nat, newCapacity: nat)
    requires r.Valid() && n <= r.size < newCapacity
    ensures r.Relocate(n, newCapacity).Valid()
    ensures r.Relocate(n, newCapacity).Contents() == r.Contents()[..n] + seq(r.size - n, _ => Uninit)
  {
  }

  /** The copy loop runs (rear - front) mod capacity times: once per item, but never when full. */
  lemma CopyStepsCount<T>(r: Ring<T>)
    requires r.Valid()
    ensures r.CopySteps() == if r.Full() then 0 else r.size
  {
    var cap := |r.data|;
    if r.Full() {
      assert cap % cap == 0;
    } else if r.front + r.size < cap {
      SlotIsModulo(r.size, cap, cap);
    } else {
      SlotIsModulo(r.size, 0, cap);
    }
  }

  /** The written resize loses the pending items exactly when it is called on a full, non-empty
      ring, that is on every growth; on every shrink it is right. */
  lemma WrittenResizeExact<T>(r: Ring<T>, newCapacity: nat)
    requires r.Valid() && r.size < newCapacity
    requires Uninit !in r.Contents()
    ensures r.ResizeWritten(newCapacity).Valid()
    ensures r.ResizeWritten(newCapacity).Contents() == r.Contents() <==> !r.Full() || r.size == 0
    ensures r.Full() ==> r.ResizeWritten(newCapacity).Contents() == seq(r.size, _ => Uninit)
  {
    CopyStepsCount(r);
    RelocateContents(r, r.CopySteps(), newCapacity);
    if r.Full() && r.size > 0 {
      assert r.ResizeWritten(newCapacity).Contents()[0] == Uninit;
      assert r.Contents()[0] in r.Contents();
    }
  }

  // ---------- Operations and runs ----------

  datatype Op<T> = Enq(x: T) | Deq

  /** What a caller sees: Waiting is a dequeue parked on the condition variable, Blocked is a
      thread that can never obtain the mutex. A run here is the calls of one thread, so what follows a
      Waiting call is what would happen had it not been made; waiters that are woken and take the
      next item are the subject of ThreadPool. */
  datatype Outcome<T> = Done | Returned(cell: Cell<T>) | Waiting | Blocked

  /** The specification: a plain sequence. */
  function FifoStep<T>(q: seq<T>, op: Op<T>): (seq<T>, Outcome<T>) {
    match op
    case Enq(x) => (q + [x], Done)
    case Deq => if q == [] then (q, Waiting) else (q[1..], Returned(Item(q[0])))
  }

  function FifoRun<T>(q: seq<T>, ops: seq<Op<T>>): (res: (seq<T>, seq<Outcome<T>>))
    ensures |res.1| == |ops|
    decreases |ops|
  {
    if ops == [] then (q, []) else
    var (q1, o) := FifoStep(q, ops[0]);
    var (q2, os) := FifoRun(q1, ops[1..]);
    (q2, [o] + os)
  }

  /** The queue with the intended resize, done inside the lock already held. */
  function Step<T>(r: Ring<T>, op: Op<T>): (Ring<T>, Outcome<T>)
    requires r.Valid()
  {
    match op
    case Enq(x) =>
      ((if r.Full() then r.ResizeIntended(|r.data| * 2) else r).Write(x), Done)
    case Deq =>
      if r.size == 0 then (r, Waiting) else
      var t := r.Take();
      TakeRemovesOldest(r);
      (if t.ShrinkDue() then t.ResizeIntended(|t.data| / 2) else t, Returned(r.data[r.front]))
  }

  ghost predicate PowerOfTwo(n: nat) {
    n == 1 || (n > 1 && n % 2 == 0 && PowerOfTwo(n / 2))
  }

  /** Every ring the queue can reach: the space bound holds in all of them. */
  ghost predicate Reached<T>(r: Ring<T>) {
    && r.Valid()
    && |r.data| >= 2
    && PowerOfTwo(|r.data|)
    && (|r.data| == INITIAL_CAPACITY || |r.data| == 2 || |r.data| < 4 * r.size)
  }

  lemma {:induction false} QuarterOfPowerOfTwo(n: nat)
    requires PowerOfTwo(n) && n >= 4
    ensures n == 4 * (n / 4) && PowerOfTwo(n / 2)
  {
  }

  lemma CreateReached<T>()
    ensures Reached(Create<T>()) && Create<T>().Contents() == []
  {
  }

  lemma EnqueueContents<T>(r: Ring<T>, x: T)
    requires r.Valid()
    ensures Step(r, Enq(x)).0.Valid()
    ensures Step(r, Enq(x)).0.Contents() == r.Contents() + [Item(x)]
  {
    if r.Full() {
      RelocateContents(r, r.size, |r.data| * 2);
      WriteAppends(r.ResizeIntended(|r.data| * 2), x);
    } else {
      WriteAppends(r, x);
    }
  }

  lemma DequeueContents<T>(r: Ring<T>)
    requires r.Valid() && r.size > 0
    ensures Step(r, Deq).0.Valid()
    ensures Step(r, Deq).1 == Returned(r.Contents()[0])
    ensures Step(r, Deq).0.Contents() == r.Contents()[1..]
  {
    TakeRemovesOldest(r);
    var t := r.Take();
    if t.ShrinkDue() {
      RelocateContents(t, t.size, |t.data| / 2);
    }
  }

  lemma StepReached<T>(r: Ring<T>, op: Op<T>)
    requires Reached(r)
    ensures Reached(Step(r, op).0)
  {
    if op.Enq? {
      EnqueueContents(r, op.x);
      assert (|r.data| * 2) / 2 == |r.data| && PowerOfTwo(|r.data| * 2);
    } else if r.size > 0 {
      DequeueContents(r);
      if |r.data| >= 4 {
        QuarterOfPowerOfTwo(|r.data|);
      }
    }
  }

  /** The intended capacity: doubled by an enqueue that finds the ring full, halved by a dequeue that
      leaves a positive quarter, and otherwise kept. */
  lemma StepCapacity<T>(r: Ring<T>, op: Op<T>)
    requires r.Valid()
    ensures |Step(r, op).0.data| ==
      if op.Enq? then if r.size == |r.data| then 2 * |r.data| else |r.data|
      else if r.size > 1 && r.size - 1 == |r.data| / 4 then |r.data| / 2 else |r.data|
  {
    if op.Deq? && r.size > 0 {
      TakeRemovesOldest(r);
    }
  }

  lemma StepRefines<T>(r: Ring<T>, q: seq<T>, op: Op<T>)
    requires Reached(r) && r.Contents() == Items(q)
    ensures Reached(Step(r, op).0)
    ensures Step(r, op).1 == FifoStep(q, op).1
    ensures Step(r, op).0.Contents() == Items(FifoStep(q, op).0)
  {
    StepReached(r, op);
    if op.Enq? {
      EnqueueContents(r, op.x);
    } else if r.size > 0 {
      DequeueContents(r);
    }
  }

  ghost function Run<T>(r: Ring<T>, ops: seq<Op<T>>): (Ring<T>, seq<Outcome<T>>)
    requires Reached(r)
    decreases |ops|
  {
    if ops == [] then (r, []) else
    var (r1, o) := Step(r, ops[0]);
    StepReached(r, ops[0]);
    var (r2, os) := Run(r1, ops[1..]);
    (r2, [o] + os)
  }

  lemma {:induction false} RunRefines<T>(r: Ring<T>, q: seq<T>, ops: seq<Op<T>>)
    requires Reached(r) && r.Contents() == Items(q)
    ensures Run(r, ops).1 == FifoRun(q, ops).1
    ensures Reached(Run(r, ops).0)
    ensures Run(r, ops).0.Contents() == Items(FifoRun(q, ops).0)
    decreases |ops|
  {
    if ops != [] {
      StepRefines(r, q, ops[0]);
      RunRefines(Step(r, ops[0]).0, FifoStep(q, ops[0]).0, ops[1..]);
    }
  }

  /** FIFO refinement: through any wrap-around, growth and shrinkage the ring answers every
      operation as a plain sequence does and holds the same items, in a power-of-two capacity
      that is the initial one, the smallest one, or less than four times the pending count. */
  lemma FifoRefinement<T>(ops: seq<Op<T>>)
    ensures Reached(Create<T>())
    ensures var (r, outs) := Run(Create(), ops);
            var (q, expected) := FifoRun([], ops);
            outs == expected && Reached(r) && r.Contents() == Items(q)
  {
    CreateReached<T>();
    RunRefines(Create(), [], ops);
  }

  // ---------- Amortised cost ----------

  /** Items copied by one operation with the intended resize. */
  function Copies<T>(r: Ring<T>, op: Op<T>): nat
    requires r.Valid()
  {
    match op
    case Enq(_) => if r.Full() then r.size else 0
    case Deq => if r.size > 0 && r.Take().ShrinkDue() then r.size - 1 else 0
  }

  /** A call copies all that is pending at the time exactly if it changes the capacity. */
  lemma CopiesExact<T>(r: Ring<T>, op: Op<T>)
    requires r.Valid() && |r.data| > 1
    ensures Copies(r, op) ==
      if |Step(r, op).0.data| == |r.data| then 0 else if op.Enq? then r.size else r.size - 1
  {
    StepCapacity(r, op);
  }

  ghost function TotalCopies<T>(r: Ring<T>, ops: seq<Op<T>>): nat
    requires Reached(r)
    decreases |ops|
  {
    if ops == [] then 0 else
    StepReached(r, ops[0]);
    Copies(r, ops[0]) + TotalCopies(Step(r, ops[0]).0, ops[1..])
  }

  ghost function Potential<T>(r: Ring<T>): int {
    if 2 * r.size >= |r.data| then 2 * r.size - |r.data| else |r.data| / 2 - r.size
  }

  lemma StepPaysForCopies<T>(r: Ring<T>, op: Op<T>)
    requires Reached(r)
    ensures Copies(r, op) + Potential(Step(r, op).0) <= Potential(r) + 2
  {
    assert |r.data| % 2 == 0;
    if op.Deq? && r.size > 0 && r.Take().ShrinkDue() {
      QuarterOfPowerOfTwo(|r.data|);
    }
  }

  lemma {:induction false} RunPaysForCopies<T>(r: Ring<T>, ops: seq<Op<T>>)
    requires Reached(r)
    ensures TotalCopies(r, ops) <= 2 * |ops| + Potential(r)
    decreases |ops|
  {
    if ops != [] {
      StepReached(r, ops[0]);
      StepPaysForCopies(r, ops[0]);
      RunPaysForCopies(Step(r, ops[0]).0, ops[1..]);
    }
  }

  /** Any n operations on a new queue copy at most 2n + 64 items in total. */
  lemma AmortisedCost<T>(ops: seq<Op<T>>)
    ensures Reached(Create<T>())
    ensures TotalCopies(Create(), ops) <= 2 * |ops| + 64
  {
    CreateReached<T>();
    RunPaysForCopies(Create(), ops);
  }

  // ---------- The queue as written ----------

  /** `held`: some thread owns the mutex and will never give it back. */
  datatype Written<T> = Written(ring: Ring<T>, held: bool)

  /** One whole call. Growth uses the written copy loop. A shrink asks for the mutex its own
      caller holds, so the caller stays blocked with the mutex taken. */
  function WrittenStep<T>(w: Written<T>, op: Op<T>): (Written<T>, Outcome<T>)
    requires w.ring.Valid()
  {
    var r := w.ring;
    if w.held then (w, Blocked) else
    match op
    case Enq(x) =>
      (Written((if r.Full() then r.ResizeWritten(|r.data| * 2) else r).Write(x), false), Done)
    case Deq =>
      if r.size == 0 then (w, Waiting) else
      var t := r.Take();
      if t.ShrinkDue() then (Written(t, true), Blocked) else (Written(t, false), Returned(r.data[r.front]))
  }

  /** One call exactly, in terms of the pending cells and the capacity: growth doubles and loses what is
      pending, a dequeue that leaves a positive quarter keeps the mutex, and a lost mutex stops all. */
  lemma WrittenStepValid<T>(w: Written<T>, op: Op<T>)
    requires w.ring.Valid()
    ensures WrittenStep(w, op).0.ring.Valid()
    ensures w.held ==> WrittenStep(w, op) == (w, Blocked)
    ensures op.Enq? && !w.held ==>
      var (w', o) := WrittenStep(w, op);
      && o == Done && !w'.held
      && |w'.ring.data| == (if w.ring.size == |w.ring.data| then 2 * |w.ring.data| else |w.ring.data|)
      && w'.ring.Contents()
         == (if w.ring.size == |w.ring.data| then seq(w.ring.size, _ => Uninit) else w.ring.Contents()) + [Item(op.x)]
    ensures op.Deq? && !w.held && w.ring.size == 0 ==> WrittenStep(w, op) == (w, Waiting)
    ensures op.Deq? && !w.held && w.ring.size > 0 ==>
      var (w', o) := WrittenStep(w, op);
      var stuck := 0 < w.ring.size - 1 == |w.ring.data| / 4;
      && w'.ring.Contents() == w.ring.Contents()[1..] && |w'.ring.data| == |w.ring.data|
      && w'.held == stuck && o == if stuck then Blocked else Returned(w.ring.Contents()[0])
  {
    var r := w.ring;
    if op.Enq? && !w.held {
      if r.Full() {
        CopyStepsCount(r);
        RelocateContents(r, 0, |r.data| * 2);
        WriteAppends(r.ResizeWritten(|r.data| * 2), op.x);
      } else {
        WriteAppends(r, op.x);
      }
    } else if r.size > 0 {
      TakeRemovesOldest(r);
    }
  }

  ghost function WrittenRun<T>(w: Written<T>, ops: seq<Op<T>>): (res: (Written<T>, seq<Outcome<T>>))
    requires w.ring.Valid()
    ensures res.0.ring.Valid() && |res.1| == |ops|
    decreases |ops|
  {
    if ops == [] then (w, []) else
    var (w1, o) := WrittenStep(w, ops[0]);
    WrittenStepValid(w, ops[0]);
    var (w2, os) := WrittenRun(w1, ops[1..]);
    (w2, [o] + os)
  }

  /** The written queue behaves as the FIFO from here on. */
  ghost predicate Agrees<T>(w: Written<T>, q: seq<T>, ops: seq<Op<T>>)
    requires w.ring.Valid()
  {
    var (w', outs) := WrittenRun(w, ops);
    var (q', expected) := FifoRun(q, ops);
    outs == expected && !w'.held && w'.ring.Contents() == Items(q')
  }

  /** With `n` items pending, no dequeue ever leaves exactly a quarter of the initial capacity and
      no enqueue ever finds the initial capacity used up. A caller can check this by counting. */
  predicate NeverResizes<T>(n: nat, ops: seq<Op<T>>)
    decreases |ops|
  {
    ops == [] ||
    match ops[0]
    case Enq(_) => n < INITIAL_CAPACITY && NeverResizes(n + 1, ops[1..])
    case Deq => n != INITIAL_CAPACITY / 4 + 1 && NeverResizes(if n == 0 then 0 else n - 1, ops[1..])
  }

  predicate AtMost<T>(n: nat, limit: nat, ops: seq<Op<T>>)
    decreases |ops|
  {
    n <= limit &&
    (ops == [] ||
     match ops[0]
     case Enq(_) => AtMost(n + 1, limit, ops[1..])
     case Deq => AtMost(if n == 0 then 0 else n - 1, limit, ops[1..]))
  }

  lemma {:induction false} FewPendingNeverResizes<T>(n: nat, ops: seq<Op<T>>)
    requires AtMost(n, INITIAL_CAPACITY / 4, ops)
    ensures NeverResizes(n, ops)
    decreases |ops|
  {
    if ops != [] {
      FewPendingNeverResizes(if ops[0].Enq? then n + 1 else if n == 0 then 0 else n - 1, ops[1..]);
    }
  }

  /** Once the mutex is lost no operation steps again: every call blocks and nothing changes. */
  lemma {:induction false} LostMutexStopsQueue<T>(w: Written<T>, ops: seq<Op<T>>)
    requires w.ring.Valid() && w.held
    ensures WrittenRun(w, ops).0 == w
    ensures forall o <- WrittenRun(w, ops).1 :: o == Blocked
    decreases |ops|
  {
    if ops != [] {
      LostMutexStopsQueue(w, ops[1..]);
    }
  }

  /** Once an unwritten cell is pending, the run shows it, loses the mutex, or keeps it pending. */
  lemma {:induction false} UninitIsNeverForgotten<T>(w: Written<T>, ops: seq<Op<T>>)
    requires w.ring.Valid() && Uninit in w.ring.Contents()
    ensures var (w', outs) := WrittenRun(w, ops);
            w'.held || Uninit in w'.ring.Contents() || Returned(Uninit) in outs
    decreases |ops|
  {
    if ops != [] {
      var (w1, o) := WrittenStep(w, ops[0]);
      WrittenStepValid(w, ops[0]);
      if w1.held {
        LostMutexStopsQueue(w1, ops[1..]);
      } else if o == Returned(Uninit) {
        assert WrittenRun(w, ops).1[0] == o;
      } else {
        assert Uninit in w1.ring.Contents() by {
          if ops[0].Enq? && w.ring.Full() {
            assert w1.ring.Contents()[0] == Uninit;
          }
        }
        UninitIsNeverForgotten(w1, ops[1..]);
        var (w', os) := WrittenRun(w1, ops[1..]);
        if Returned(Uninit) in os {
          assert Returned(Uninit) in [o] + os;
        }
      }
    }
  }

  lemma {:induction false} FifoNeverReturnsUninit<T>(q: seq<T>, ops: seq<Op<T>>)
    ensures Returned(Uninit) !in FifoRun(q, ops).1
    decreases |ops|
  {
    if ops != [] {
      FifoNeverReturnsUninit(FifoStep(q, ops[0]).0, ops[1..]);
    }
  }

  lemma AgreesUnfold<T>(w: Written<T>, q: seq<T>, ops: seq<Op<T>>)
    requires w.ring.Valid() && ops != []
    ensures WrittenStep(w, ops[0]).0.ring.Valid()
    ensures Agrees(w, q, ops) <==>
      && WrittenStep(w, ops[0]).1 == FifoStep(q, ops[0]).1
      && Agrees(WrittenStep(w, ops[0]).0, FifoStep(q, ops[0]).0, ops[1..])
  {
    WrittenStepValid(w, ops[0]);
    var (w1, o) := WrittenStep(w, ops[0]);
    var (q1, e) := FifoStep(q, ops[0]);
    var os := WrittenRun(w1, ops[1..]).1;
    var es := FifoRun(q1, ops[1..]).1;
    assert ([o] + os)[0] == o && ([e] + es)[0] == e;
    assert ([o] + os)[1..] == os && ([e] + es)[1..] == es;
  }

  lemma {:induction false} AgreementFrom<T>(w: Written<T>, q: seq<T>, ops: seq<Op<T>>)
    requires w.ring.Valid() && !w.held && |w.ring.data| == INITIAL_CAPACITY
    requires w.ring.Contents() == Items(q)
    ensures Agrees(w, q, ops) <==> NeverResizes(|q|, ops)
    decreases |ops|
  {
    if ops != [] {
      AgreesUnfold(w, q, ops);
      WrittenStepValid(w, ops[0]);
      var (w1, o) := WrittenStep(w, ops[0]);
      var (q1, e) := FifoStep(q, ops[0]);
      if ops[0].Enq? && w.ring.Full() {
        assert w1.ring.Contents()[0] == Uninit;
        UninitIsNeverForgotten(w1, ops[1..]);
        FifoNeverReturnsUninit(q1, ops[1..]);
      } else if o == e {
        AgreementFrom(w1, q1, ops[1..]);
      }
    }
  }

  /** Exactly when the code as written is the FIFO it is meant to be: a sequential run from
      creation agrees with the FIFO if and only if it never reaches either resize. */
  lemma WrittenAgreesIff<T>(ops: seq<Op<T>>)
    ensures Create<T>().Valid()
    ensures Agrees(Written(Create(), false), [], ops) <==> NeverResizes(0, ops)
    ensures AtMost(0, 32, ops) ==> Agrees(Written(Create(), false), [], ops)
  {
    CreateReached<T>();
    AgreementFrom(Written(Create(), false), [], ops);
    if AtMost(0, 32, ops) {
      FewPendingNeverResizes(0, ops);
    }
  }

  /** The first dequeue that leaves a quarter of the capacity pending takes the mutex for good. */
  lemma ShrinkDeadlocks<T>(w: Written<T>, rest: seq<Op<T>>)
    requires w.ring.Valid() && !w.held
    requires w.ring.size == |w.ring.data| / 4 + 1 && w.ring.size > 1
    ensures var (w', outs) := WrittenRun(w, [Deq] + rest);
            w' == Written(w.ring.Take(), true) && forall o <- outs :: o == Blocked
  {
    WrittenStepValid(w, Deq);
    LostMutexStopsQueue(WrittenStep(w, Deq).0, rest);
    assert ([Deq] + rest)[1..] == rest;
  }
}
