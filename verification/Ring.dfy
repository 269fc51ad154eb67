/**
  The 1024-slot ring of `StartZMQReceiver`: two critical sections over a slot
  array and two cursors, and the bounded FIFO queue they implement.
 */
module Ring {

  const RING_SIZE: nat := 1024

  function Next(i: nat): nat {
    (i + 1) % RING_SIZE
  }

  /** The variables shared by the receiver and the workers. */
  datatype RingState<T> = RingState(slots: seq<T>, head: nat, tail: nat) {

    ghost predicate Valid() {
      && |slots| == RING_SIZE
      && head < RING_SIZE
      && tail < RING_SIZE
    }

    ghost function Len(): nat
      requires Valid()
    {
      if head >= tail then head - tail else head + RING_SIZE - tail
    }

    /** The queue the ring stands for: the live window, oldest message first. */
    ghost function Queue(): seq<T>
      requires Valid()
    {
      seq(Len(), k requires 0 <= k < Len() => slots[(tail + k) % RING_SIZE])
    }
  }

  /** The receiver's critical section: store and advance, unless the ring is full. */
  function Enqueue<T>(r: RingState<T>, x: T): (RingState<T>, bool)
    requires r.Valid()
  {
    var next := Next(r.head);
    if next == r.tail then (r, false)
    else (r.(slots := r.slots[r.head := x], head := next), true)
  }

  /** A worker's critical section, entered when the ring is not empty. */
  function Dequeue<T>(r: RingState<T>): (RingState<T>, T)
    requires r.Valid()
    requires r.head != r.tail
  {
    (r.(tail := Next(r.tail)), r.slots[r.tail])
  }

  lemma EmptyIffCursorsMeet<T>(r: RingState<T>)
    requires r.Valid()
    ensures r.head == r.tail <==> r.Queue() == []
  {
    assert |r.Queue()| == r.Len();
  }

  /** Enqueue refines a bounded queue of capacity 1023 and overwrites nothing undelivered. */
  lemma EnqueueRefinesQueue<T>(r: RingState<T>, x: T)
    requires r.Valid()
    ensures var (r', ok) := Enqueue(r, x);
            && r'.Valid()
            && (ok <==> |r.Queue()| < 1023)
            && r'.Queue() == (if ok then r.Queue() + [x] else r.Queue())
            && |r'.Queue()| <= 1023
            && (!ok ==> r' == r)
  {
    var (r', ok) := Enqueue(r, x);
    assert |r.Queue()| == r.Len();
    if ok {
      assert r'.Len() == r.Len() + 1;
      forall k | 0 <= k < r'.Len()
        ensures r'.Queue()[k] == (r.Queue() + [x])[k]
      {
        if k < r.Len() {
          assert (r.tail + k) % RING_SIZE != r.head;
        } else {
          assert (r.tail + k) % RING_SIZE == r.head;
        }
      }
      assert r'.Queue() == r.Queue() + [x];
    }
  }

  /** Dequeue hands out the oldest message and keeps the rest in order. */
  lemma DequeueRefinesQueue<T>(r: RingState<T>)
    requires r.Valid()
    requires r.head != r.tail
    ensures var (r', x) := Dequeue(r);
            && r'.Valid()
            && r.Queue() == [x] + r'.Queue()
  {
    var (r', x) := Dequeue(r);
    assert r'.Len() == r.Len() - 1;
    forall k | 0 <= k < r.Len()
      ensures r.Queue()[k] == ([x] + r'.Queue())[k]
    {
      if k > 0 {
        assert (r'.tail + (k - 1)) % RING_SIZE == (r.tail + k) % RING_SIZE;
      }
    }
  }

  /** The shared variables as the program holds them: an array and two cursors. */
  class RingBuffer<T(0)> {
    const slots: array<T>
    var head: nat
    var tail: nat

    ghost function View(): RingState<T>
      reads this, slots
    {
      RingState(slots[..], head, tail)
    }

    ghost predicate Valid()
      reads this, slots
    {
      View().Valid()
    }

    ghost function Contents(): seq<T>
      reads this, slots
      requires Valid()
    {
      View().Queue()
    }

    constructor ()
      ensures Valid() && Contents() == [] && fresh(slots)
    {
      slots := new T[RING_SIZE];
      head := 0;
      tail := 0;
    }

    /** The receiver's section under `ringMutex`. */
    method TryEnqueue(x: T) returns (ok: bool)
      requires Valid()
      modifies this, slots
      ensures Valid()
      ensures (View(), ok) == Enqueue(old(View()), x)
      ensures ok <==> |old(Contents())| < RING_SIZE - 1
      ensures Contents() == if ok then old(Contents()) + [x] else old(Contents())
    {
      EnqueueRefinesQueue(View(), x);
      var next := (head + 1) % RING_SIZE;
      if next == tail {
        return false;
      }
      slots[head] := x;
      head := next;
      return true;
    }

    /** A worker's section under `ringMutex`, once its wait loop has ended. */
    method Take() returns (msg: T)
      requires Valid()
      requires head != tail
      modifies this
      ensures Valid()
      ensures (View(), msg) == Dequeue(old(View()))
      ensures old(Contents()) == [msg] + Contents()
    {
      DequeueRefinesQueue(View());
      msg := slots[tail];
      tail := (tail + 1) % RING_SIZE;
    }
  }
}
