/** The heap object of src/queue.c: `data`, `size`, `capacity`, `front` and `rear` updated in place. */
module SafeQueue {
  import opened RingBuffer

  class SafeQueue<T> {
    var data: array<Cell<T>>
    var size: nat
    var capacity: nat
    var front: nat
    var rear: nat
    /** The mutex is taken; between calls that means by a thread that never releases it. */
    var held: bool

    function State(): Ring<T>
      reads this, data
    {
      Ring(data[..], front, rear, size)
    }

    ghost predicate Valid()
      reads this, data
    {
      data.Length == capacity && State().Valid()
    }

    constructor ()
      ensures Valid() && fresh(data) && !held
      ensures State() == Create()
    {
      data := new Cell<T>[INITIAL_CAPACITY](_ => Uninit);
      size, capacity, front, rear, held := 0, INITIAL_CAPACITY, 0, 0, false;
    }

    /** The copy loop as written: it stops as soon as `i` meets `rear`, also before the first item
        of a full ring. `copied` counts its iterations. */
    method CopyUntilRear(newData: array<Cell<T>>) returns (copied: nat)
      requires Valid() && newData != data
      requires newData.Length >= State().CopySteps()
      modifies newData
      ensures copied == State().CopySteps()
      ensures forall k :: 0 <= k < copied ==> newData[k] == data[Slot(front, k, capacity)]
      ensures forall k :: copied <= k < newData.Length ==> newData[k] == old(newData[k])
    {
      copied := 0;
      var i := front;
      CopyStepsCount(State());
      ghost var n := State().CopySteps();
      while i != rear
        invariant copied <= n
        invariant i == Slot(front, copied, capacity)
        invariant forall k :: 0 <= k < copied ==> newData[k] == data[Slot(front, k, capacity)]
        invariant forall k :: copied <= k < newData.Length ==> newData[k] == old(newData[k])
        decreases n - copied
      {
        newData[copied] := data[i];
        copied := copied + 1;
        SlotIsModulo(i, 1, capacity);
        i := (i + 1) % capacity;
      }
    }

    /** The copy loop as meant: one step per pending item. */
    method CopyPending(newData: array<Cell<T>>)
      requires Valid() && newData != data && newData.Length >= size
      modifies newData
      ensures forall k :: 0 <= k < size ==> newData[k] == data[Slot(front, k, capacity)]
      ensures forall k :: size <= k < newData.Length ==> newData[k] == old(newData[k])
    {
      for k := 0 to size
        invariant forall j :: 0 <= j < k ==> newData[j] == data[Slot(front, j, capacity)]
        invariant forall j :: k <= j < newData.Length ==> newData[j] == old(newData[j])
      {
        SlotIsModulo(front, k, capacity);
        newData[k] := data[(front + k) % capacity];
      }
    }

    /** safe_queue_resize as written; `done` is false when the mutex can never be obtained. */
    method Resize(newCapacity: nat) returns (done: bool)
      requires Valid() && size < newCapacity
      modifies this
      ensures done == !old(held) && held == old(held)
      ensures done ==> Valid() && fresh(data) && State() == old(State()).ResizeWritten(newCapacity)
      ensures !done ==> State() == old(State()) && data == old(data) && capacity == old(capacity)
    {
      if held { return false; }
      held := true;
      var newData := new Cell<T>[newCapacity](_ => Uninit);
      CopyStepsCount(State());
      var copied := CopyUntilRear(newData);
      RelocateContents(State(), copied, newCapacity);
      assert newData[..] == State().ResizeWritten(newCapacity).data;
      data, front, rear, capacity := newData, 0, size, newCapacity;
      held := false;
      done := true;
    }

    /** safe_queue_enqueue as written. */
    method Enqueue(item: T) returns (outcome: Outcome<T>)
      requires Valid()
      modifies this, data
      ensures Valid() && (data == old(data) || fresh(data))
      ensures (Written(State(), held), outcome) == WrittenStep(Written(old(State()), old(held)), Enq(item))
    {
      WrittenStepValid(Written(State(), held), Enq(item));
      if size == capacity {
        var done := Resize(capacity * 2);
        if !done { return Blocked; }
      }
      if held { return Blocked; }
      held := true;
      Put(item);
      held := false;
      outcome := Done;
    }

    /** The enqueue critical section. */
    method Put(item: T)
      requires Valid() && size < capacity
      modifies this, data
      ensures Valid() && data == old(data) && held == old(held)
      ensures State() == old(State()).Write(item)
      ensures State().Contents() == old(State().Contents()) + [Item(item)]
    {
      WriteAppends(State(), item);
      data[rear] := Item(item);
      rear := (rear + 1) % capacity;
      size := size + 1;
    }

    /** The dequeue critical section before the shrink test. */
    method Get() returns (cell: Cell<T>)
      requires Valid() && size > 0
      modifies this
      ensures Valid() && data == old(data) && held == old(held) && capacity == old(capacity)
      ensures State() == old(State()).Take() && cell == old(data[front])
      ensures [cell] + State().Contents() == old(State().Contents())
    {
      TakeRemovesOldest(State());
      cell := data[front];
      front := (front + 1) % capacity;
      size := size - 1;
    }

    /** safe_queue_dequeue as written: the shrink asks for the mutex this call holds. */
    method Dequeue() returns (outcome: Outcome<T>)
      requires Valid()
      modifies this
      ensures Valid() && data == old(data)
      ensures (Written(State(), held), outcome) == WrittenStep(Written(old(State()), old(held)), Deq)
    {
      if held { return Blocked; }
      held := true;
      if size == 0 {
        held := false;  // pthread_cond_wait gives the mutex back
        return Waiting;
      }
      var cell := Get();
      if size > 0 && size == capacity / 4 {
        var done := Resize(capacity / 2);
        if !done { return Blocked; }
      }
      held := false;
      outcome := Returned(cell);
    }

    /** The resize the callers need, run by a thread that already holds the mutex. */
    method ResizeLocked(newCapacity: nat) returns (copied: nat)
      requires Valid() && size < newCapacity
      modifies this
      ensures Valid() && fresh(data) && held == old(held)
      ensures State() == old(State()).ResizeIntended(newCapacity)
      ensures State().Contents() == old(State().Contents())
      ensures copied == size
    {
      var newData := new Cell<T>[newCapacity](_ => Uninit);
      CopyPending(newData);
      RelocateContents(State(), size, newCapacity);
      assert newData[..] == State().ResizeIntended(newCapacity).data;
      data, front, rear, capacity := newData, 0, size, newCapacity;
      copied := size;
    }

    /** Enqueue with the intended resize; `copied` is what the operation cost. */
    method EnqueueIntended(item: T) returns (copied: nat)
      requires Valid()
      modifies this, data
      ensures Valid() && (data == old(data) || fresh(data)) && held == old(held)
      ensures State() == Step(old(State()), Enq(item)).0
      ensures State().Contents() == old(State().Contents()) + [Item(item)]
      ensures copied == Copies(old(State()), Enq(item))
    {
      copied := 0;
      if size == capacity {
        copied := ResizeLocked(capacity * 2);
      }
      Put(item);
    }

    /** Dequeue with the intended resize; on an empty queue the caller waits and nothing changes. */
    method DequeueIntended() returns (outcome: Outcome<T>, copied: nat)
      requires Valid()
      modifies this
      ensures Valid() && (data == old(data) || fresh(data)) && held == old(held)
      ensures (State(), outcome) == Step(old(State()), Deq)
      ensures if old(size) == 0 then outcome == Waiting
        else outcome.Returned? && [outcome.cell] + State().Contents() == old(State().Contents())
      ensures copied == Copies(old(State()), Deq)
    {
      copied := 0;
      if size == 0 { return Waiting, 0; }
      var cell := Get();
      if size > 0 && size == capacity / 4 {
        copied := ResizeLocked(capacity / 2);
      }
      outcome := Returned(cell);
    }
  }
}
