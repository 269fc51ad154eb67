/**
  The data plane of `StartZMQReceiver` as a transition system: one receiver and
  four workers that share the ring, its mutex and condition variable, and a
  recycled pool of 4096-byte buffers. Each step is one lock boundary or one pool,
  socket or processing operation; any interleaving of enabled steps is a run.
  A panic while a message is processed ends the server: nothing recovers it.
 */
module DataPlane {
  import opened Wrappers
  import opened Ring

  const WORKERS: nat := 4
  const BUFFER_CAP: nat := 4096

  type BufId = nat

  /** A Go slice: a backing array and a length. Several slices may share one array. */
  datatype Slice = Slice(buf: BufId, len: nat)

  datatype Worker =
    | Acquiring                          // before Lock, or before the re-lock inside Wait
    | Checking                           // holds the mutex, at the loop test
    | Parked                             // inside Wait, mutex released
    | Unlocking(msg: Slice, ticket: nat) // has dequeued, still holds the mutex
    | Processing(msg: Slice, ticket: nat)
    | Returning(msg: Slice)              // before Put

  datatype Receiver =
    | Getting
    | Receiving(buf: BufId)
    | Copying(buf: BufId, data: Bytes)
    | Locking(msg: Slice)
    | Enqueuing(msg: Slice)              // holds the mutex
    | Enqueued                           // holds the mutex, head already advanced
    | Rejecting(msg: Slice)              // holds the mutex, ring was full
    | PuttingBack(buf: BufId)
    | Signalling                         // mutex released, Signal still owed

  datatype Owner = Free | Held | HeldBy(w: nat)

  /** One call of processMessage: which dequeued message it was and the bytes it was given. */
  datatype Delivery = Delivery(ticket: nat, data: Bytes)

  datatype State = State(
    ring: RingState<Slice>,
    arrays: map<BufId, Bytes>,     // backing arrays, each as long as its capacity
    pool: multiset<BufId>,
    lock: Owner,
    receiver: Receiver,
    workers: seq<Worker>,
    panics: Bytes -> bool,         // the messages whose processing panics on this node
    crashed: bool,
    // the history of the run
    received: nat,
    droppedLarge: nat,
    droppedFull: nat,
    accepted: seq<Bytes>,
    taken: nat,
    delivered: seq<Delivery>
  )

  datatype Action =
    | GetPooled(b: BufId, made: BufId) // `made` is used only when the pooled buffer is too small
    | GetNew(made: BufId)
    | Evict(b: BufId)                   // the pool may forget a buffer at any time
    | ReceiveFailed
    | Receive(data: Bytes)
    | CheckSize
    | ReceiverLock
    | TryEnqueue
    | ReceiverUnlock
    | PutBack
    | Signal(w: nat)
    | SignalNobody
    | WorkerLock(w: nat)
    | Wait(w: nat)
    | Take(w: nat)
    | WorkerUnlock(w: nat)
    | Process(w: nat)
    | Put(w: nat)

  function Zeros(n: nat): Bytes {
    seq(n, _ => 0)
  }

  /** What a slice shows. */
  function Read(arrays: map<BufId, Bytes>, s: Slice): Bytes {
    if s.buf in arrays && s.len <= |arrays[s.buf]| then arrays[s.buf][..s.len] else []
  }

  ghost predicate IsInit(s: State) {
    && s.ring.Valid() && s.ring.head == 0 && s.ring.tail == 0
    && s.arrays == map[] && s.pool == multiset{}
    && s.lock == Free && s.receiver == Getting && !s.crashed
    && |s.workers| == WORKERS && (forall w :: 0 <= w < WORKERS ==> s.workers[w] == Acquiring)
    && s.received == 0 && s.droppedLarge == 0 && s.droppedFull == 0
    && s.accepted == [] && s.taken == 0 && s.delivered == []
  }

  ghost predicate IsWorker(s: State, w: nat) {
    w < |s.workers|
  }

  ghost predicate Enabled(s: State, a: Action) {
    !s.crashed &&
    match a
    case GetPooled(b, made) => s.receiver == Getting && b in s.pool && b in s.arrays && made !in s.arrays
    case GetNew(made) => s.receiver == Getting && made !in s.arrays
    case Evict(b) => b in s.pool
    case ReceiveFailed => s.receiver.Receiving?
    case Receive(_) => s.receiver.Receiving?
    case CheckSize => s.receiver.Copying? && s.receiver.buf in s.arrays
    case ReceiverLock => s.receiver.Locking? && s.lock == Free
    case TryEnqueue => s.receiver.Enqueuing? && s.ring.Valid()
    case ReceiverUnlock => s.receiver.Enqueued? || s.receiver.Rejecting?
    case PutBack => s.receiver.PuttingBack?
    case Signal(w) => s.receiver.Signalling? && IsWorker(s, w) && s.workers[w].Parked?
    case SignalNobody => s.receiver.Signalling? && forall w :: 0 <= w < |s.workers| ==> !s.workers[w].Parked?
    case WorkerLock(w) => IsWorker(s, w) && s.workers[w].Acquiring? && s.lock == Free
    case Wait(w) => IsWorker(s, w) && s.workers[w].Checking? && s.ring.head == s.ring.tail
    case Take(w) => IsWorker(s, w) && s.workers[w].Checking? && s.ring.head != s.ring.tail && s.ring.Valid()
    case WorkerUnlock(w) => IsWorker(s, w) && s.workers[w].Unlocking?
    case Process(w) => IsWorker(s, w) && s.workers[w].Processing?
    case Put(w) => IsWorker(s, w) && s.workers[w].Returning?
  }

  /** `append(buf[:0], data...)` when it fits: the prefix of the backing array is overwritten. */
  function Overwrite(backing: Bytes, data: Bytes): Bytes
    requires |data| <= |backing|
  {
    data + backing[|data|..]
  }

  ghost function Apply(s: State, a: Action): State
    requires Enabled(s, a)
  {
    match a
    case GetPooled(b, made) =>
      if |s.arrays[b]| < BUFFER_CAP then
        s.(pool := s.pool - multiset{b}, arrays := (s.arrays - {b})[made := Zeros(BUFFER_CAP)], receiver := Receiving(made))
      else
        s.(pool := s.pool - multiset{b}, receiver := Receiving(b))
    case GetNew(made) => s.(arrays := s.arrays[made := Zeros(BUFFER_CAP)], receiver := Receiving(made))
    case Evict(b) => s.(pool := s.pool - multiset{b}, arrays := s.arrays - {b})
    case ReceiveFailed => s.(receiver := Getting, pool := s.pool + multiset{s.receiver.buf})
    case Receive(data) => s.(receiver := Copying(s.receiver.buf, data), received := s.received + 1)
    case CheckSize =>
      var buf, data := s.receiver.buf, s.receiver.data;
      if |data| > |s.arrays[buf]| then
        s.(receiver := PuttingBack(buf), droppedLarge := s.droppedLarge + 1)
      else
        s.(arrays := s.arrays[buf := Overwrite(s.arrays[buf], data)], receiver := Locking(Slice(buf, |data|)))
    case ReceiverLock => s.(lock := Held, receiver := Enqueuing(s.receiver.msg))
    case TryEnqueue =>
      var msg := s.receiver.msg;
      var (ring, ok) := Enqueue(s.ring, msg);
      if ok then s.(ring := ring, receiver := Enqueued, accepted := s.accepted + [Read(s.arrays, msg)])
      else s.(receiver := Rejecting(msg), droppedFull := s.droppedFull + 1)
    case ReceiverUnlock =>
      s.(lock := Free, receiver := if s.receiver.Enqueued? then Signalling else PuttingBack(s.receiver.msg.buf))
    case PutBack => s.(receiver := Getting, pool := s.pool + multiset{s.receiver.buf})
    case Signal(w) => s.(receiver := Getting, workers := s.workers[w := Acquiring])
    case SignalNobody => s.(receiver := Getting)
    case WorkerLock(w) => s.(lock := HeldBy(w), workers := s.workers[w := Checking])
    case Wait(w) => s.(lock := Free, workers := s.workers[w := Parked])
    case Take(w) =>
      var (ring, msg) := Dequeue(s.ring);
      s.(ring := ring, workers := s.workers[w := Unlocking(msg, s.taken)], taken := s.taken + 1)
    case WorkerUnlock(w) =>
      s.(lock := Free, workers := s.workers[w := Processing(s.workers[w].msg, s.workers[w].ticket)])
    case Process(w) =>
      var data := Read(s.arrays, s.workers[w].msg);
      if s.panics(data) then s.(crashed := true)
      else s.(workers := s.workers[w := Returning(s.workers[w].msg)],
           delivered := s.delivered + [Delivery(s.workers[w].ticket, data)])
    case Put(w) =>
      s.(workers := s.workers[w := Acquiring], pool := s.pool + multiset{s.workers[w].msg.buf})
  }

  /** `trace` leads from `s` to `t`, every step enabled where it is taken. */
  ghost predicate Leads(s: State, trace: seq<Action>, t: State)
    decreases trace
  {
    if trace == [] then s == t
    else Enabled(s, trace[0]) && Leads(Apply(s, trace[0]), trace[1..], t)
  }

  ghost predicate Reachable(s: State) {
    exists init: State, trace: seq<Action> :: IsInit(init) && Leads(init, trace, s)
  }

  // ---------------------------------------------------------------- ownership

  ghost predicate ReceiverHolds(r: Receiver, b: BufId) {
    match r
    case Receiving(own) => own == b
    case Copying(own, _) => own == b
    case PuttingBack(own) => own == b
    case Locking(m) => m.buf == b
    case Enqueuing(m) => m.buf == b
    case Rejecting(m) => m.buf == b
    case _ => false
  }

  ghost function ReceiverCount(r: Receiver, b: BufId): nat {
    if ReceiverHolds(r, b) then 1 else 0
  }

  ghost predicate WorkerHolds(w: Worker, b: BufId) {
    (w.Unlocking? || w.Processing? || w.Returning?) && w.msg.buf == b
  }

  /** The number of workers that hold `b`. */
  ghost function WorkerCount(ws: seq<Worker>, b: BufId): nat {
    if ws == [] then 0 else (if WorkerHolds(ws[0], b) then 1 else 0) + WorkerCount(ws[1..], b)
  }

  /** The number of places in the live window that refer to `b`. */
  ghost function QueueCount(q: seq<Slice>, b: BufId): nat {
    if q == [] then 0 else (if q[0].buf == b then 1 else 0) + QueueCount(q[1..], b)
  }

  /** Every place that holds `b`, counted with multiplicity. */
  ghost function Holders(s: State, b: BufId): nat
    requires s.ring.Valid()
  {
    s.pool[b] + ReceiverCount(s.receiver, b) + QueueCount(s.ring.Queue(), b) + WorkerCount(s.workers, b)
  }

  /** Each buffer has exactly one holder, and nothing else is held. */
  ghost predicate Owned(s: State)
    requires s.ring.Valid()
  {
    forall b: BufId :: Holders(s, b) == if b in s.arrays then 1 else 0
  }

  // ------------------------------------------------------------ the invariant

  ghost predicate FullSize(arrays: map<BufId, Bytes>) {
    forall b :: b in arrays ==> |arrays[b]| == BUFFER_CAP
  }

  ghost predicate Shape(s: State) {
    && s.ring.Valid()
    && |s.workers| == WORKERS
    && FullSize(s.arrays)
    && (s.receiver.Locking? ==> s.receiver.msg.len <= BUFFER_CAP)
    && (s.receiver.Enqueuing? ==> s.receiver.msg.len <= BUFFER_CAP)
  }

  /** The mutex has at most one holder, and it is the thread inside a critical section. */
  ghost predicate MutualExclusion(s: State) {
    && (s.lock == Held <==> s.receiver.Enqueuing? || s.receiver.Enqueued? || s.receiver.Rejecting?)
    && (forall w :: 0 <= w < |s.workers| ==>
                      (s.lock == HeldBy(w) <==> s.workers[w].Checking? || s.workers[w].Unlocking?))
    && (s.lock.HeldBy? ==> s.lock.w < |s.workers|)
  }

  /** About to come to the loop test, or there. */
  predicate Ready(w: Worker) {
    w.Acquiring? || w.Checking?
  }

  function ReadyCount(ws: seq<Worker>): nat {
    if ws == [] then 0 else (if Ready(ws[0]) then 1 else 0) + ReadyCount(ws[1..])
  }

  /** The Signal that the receiver will make for the message it has just put in the ring. */
  function Owed(r: Receiver): nat {
    if r.Enqueued? || r.Signalling? then 1 else 0
  }

  ghost predicate SomeoneParked(s: State) {
    exists w :: 0 <= w < |s.workers| && s.workers[w].Parked?
  }

  /** While a worker is parked, each waiting message has its own worker on the way to the loop test, or a Signal still owed. */
  ghost predicate NoLostWakeup(s: State)
    requires s.ring.Valid()
  {
    SomeoneParked(s) ==> |s.ring.Queue()| <= ReadyCount(s.workers) + Owed(s.receiver)
  }

  ghost predicate HasTicket(w: Worker, t: nat) {
    (w.Unlocking? || w.Processing?) && w.ticket == t
  }

  ghost function TicketsOut(ws: seq<Worker>, t: nat): nat {
    if ws == [] then 0 else (if HasTicket(ws[0], t) then 1 else 0) + TicketsOut(ws[1..], t)
  }

  ghost function TimesDelivered(ds: seq<Delivery>, t: nat): nat {
    if ds == [] then 0
    else TimesDelivered(ds[..|ds| - 1], t) + if ds[|ds| - 1].ticket == t then 1 else 0
  }

  /** What a slice shows is accepted message number `i`. */
  ghost predicate Carries(arrays: map<BufId, Bytes>, accepted: seq<Bytes>, m: Slice, i: nat) {
    && m.buf in arrays && m.len <= |arrays[m.buf]|
    && i < |accepted| && Read(arrays, m) == accepted[i]
  }

  ghost predicate CarriesFrom(arrays: map<BufId, Bytes>, accepted: seq<Bytes>, q: seq<Slice>, first: nat) {
    forall k :: 0 <= k < |q| ==> Carries(arrays, accepted, q[k], first + k)
  }

  ghost predicate WorkerCarries(arrays: map<BufId, Bytes>, accepted: seq<Bytes>, w: Worker) {
    w.Unlocking? || w.Processing? ==> Carries(arrays, accepted, w.msg, w.ticket)
  }

  /** The queue holds, unaltered and in order, the accepted messages not yet taken. */
  ghost predicate Fifo(s: State)
    requires s.ring.Valid()
  {
    && |s.accepted| == s.taken + |s.ring.Queue()|
    && CarriesFrom(s.arrays, s.accepted, s.ring.Queue(), s.taken)
  }

  /** Workers hold, unaltered, the messages they took; each ticket is out once. */
  ghost predicate Intact(s: State) {
    && (forall w :: 0 <= w < |s.workers| ==> WorkerCarries(s.arrays, s.accepted, s.workers[w]))
    && (forall k :: 0 <= k < |s.delivered| ==>
                      s.delivered[k].ticket < |s.accepted| && s.delivered[k].data == s.accepted[s.delivered[k].ticket])
  }

  ghost predicate TicketsOnce(s: State) {
    forall t: nat :: TicketsOut(s.workers, t) + TimesDelivered(s.delivered, t) == if t < s.taken then 1 else 0
  }

  /** The message the receiver holds and has neither accepted nor counted as dropped. */
  function InHand(r: Receiver): nat {
    if r.Copying? || r.Locking? || r.Enqueuing? then 1 else 0
  }

  ghost predicate Conserved(s: State)
    requires s.ring.Valid()
  {
    s.received == s.taken + |s.ring.Queue()| + s.droppedLarge + s.droppedFull + InHand(s.receiver)
  }

  /** The worker has taken a message whose processing will panic. */
  ghost predicate Doomed(s: State, w: Worker) {
    (w.Unlocking? || w.Processing?) && w.ticket < |s.accepted| && s.panics(s.accepted[w.ticket])
  }

  /** Nothing that panics was ever finished, and a crash has its message still in a worker's hands. */
  ghost predicate CrashExplained(s: State) {
    && (forall k :: 0 <= k < |s.delivered| ==> !s.panics(s.delivered[k].data))
    && (s.crashed ==> exists w :: 0 <= w < |s.workers| && s.workers[w].Processing? && Doomed(s, s.workers[w]))
  }

  ghost predicate Inv(s: State) {
    && Shape(s) && MutualExclusion(s) && NoLostWakeup(s) && Owned(s)
    && Fifo(s) && Intact(s) && TicketsOnce(s) && Conserved(s) && CrashExplained(s)
  }

  // ------------------------------------------------- lemmas about the counting

  lemma {:induction false} WorkerUpdate(ws: seq<Worker>, i: nat, w: Worker, b: BufId, t: nat)
    requires i < |ws|
    ensures WorkerCount(ws[i := w], b) - (if WorkerHolds(w, b) then 1 else 0)
         == WorkerCount(ws, b) - (if WorkerHolds(ws[i], b) then 1 else 0)
    ensures TicketsOut(ws[i := w], t) - (if HasTicket(w, t) then 1 else 0)
         == TicketsOut(ws, t) - (if HasTicket(ws[i], t) then 1 else 0)
  {
    if i == 0 {
      assert ws[i := w][1..] == ws[1..];
    } else {
      WorkerUpdate(ws[1..], i - 1, w, b, t);
      assert ws[i := w][1..] == ws[1..][i - 1 := w];
    }
  }

  lemma {:induction false} WorkerCounted(ws: seq<Worker>, i: nat, b: BufId)
    requires i < |ws| && WorkerHolds(ws[i], b)
    ensures WorkerCount(ws, b) > 0
  {
    if i == 0 {
    } else {
      WorkerCounted(ws[1..], i - 1, b);
    }
  }

  lemma {:induction false} ReadyUpdate(ws: seq<Worker>, i: nat, w: Worker)
    requires i < |ws|
    ensures ReadyCount(ws[i := w]) - (if Ready(w) then 1 else 0) == ReadyCount(ws) - (if Ready(ws[i]) then 1 else 0)
  {
    if i == 0 {
      assert ws[i := w][1..] == ws[1..];
    } else {
      ReadyUpdate(ws[1..], i - 1, w);
      assert ws[i := w][1..] == ws[1..][i - 1 := w];
    }
  }

  lemma {:induction false} ReadySomewhere(ws: seq<Worker>) returns (w: nat)
    requires ReadyCount(ws) > 0
    ensures w < |ws| && Ready(ws[w])
  {
    if Ready(ws[0]) {
      w := 0;
    } else {
      w := ReadySomewhere(ws[1..]);
      w := w + 1;
    }
  }

  lemma {:induction false} QueueCountAppend(q: seq<Slice>, x: Slice, b: BufId)
    ensures QueueCount(q + [x], b) == QueueCount(q, b) + if x.buf == b then 1 else 0
  {
    if q == [] {
      assert q + [x] == [x];
    } else {
      QueueCountAppend(q[1..], x, b);
      assert (q + [x])[1..] == q[1..] + [x];
    }
  }

  lemma {:induction false} QueueCounted(q: seq<Slice>, k: nat)
    requires k < |q|
    ensures QueueCount(q, q[k].buf) > 0
  {
    if k == 0 {
    } else {
      QueueCounted(q[1..], k - 1);
    }
  }

  // ---------------------------------------------- each step keeps the invariant

  /** The queue before and after a step that touches the ring. */
  lemma RingStep(s: State, a: Action)
    requires Shape(s) && Enabled(s, a)
    ensures Apply(s, a).ring.Valid()
    ensures a.TryEnqueue? && Apply(s, a).receiver.Enqueued? ==> Apply(s, a).ring.Queue() == s.ring.Queue() + [s.receiver.msg]
    ensures a.TryEnqueue? && !Apply(s, a).receiver.Enqueued? ==> Apply(s, a).ring == s.ring
    ensures a.Take? ==> s.ring.Queue() == [Apply(s, a).workers[a.w].msg] + Apply(s, a).ring.Queue()
    ensures !a.TryEnqueue? && !a.Take? ==> Apply(s, a).ring == s.ring
  {
    if a.TryEnqueue? {
      EnqueueRefinesQueue(s.ring, s.receiver.msg);
    } else if a.Take? {
      DequeueRefinesQueue(s.ring);
    }
  }

  lemma ShapeKept(s: State, a: Action)
    requires Shape(s) && Enabled(s, a)
    ensures Shape(Apply(s, a))
  {
    RingStep(s, a);
    FullSizeKept(s, a);
  }

  lemma FullSizeKept(s: State, a: Action)
    requires FullSize(s.arrays) && Enabled(s, a)
    ensures FullSize(Apply(s, a).arrays)
  {
  }

  lemma MutualExclusionKept(s: State, a: Action)
    requires MutualExclusion(s) && Enabled(s, a)
    ensures MutualExclusion(Apply(s, a))
  {
    var t := Apply(s, a);
    forall w | 0 <= w < |t.workers|
      ensures t.lock == HeldBy(w) <==> t.workers[w].Checking? || t.workers[w].Unlocking?
    {
      assert s.lock == HeldBy(w) <==> s.workers[w].Checking? || s.workers[w].Unlocking?;
    }
  }

  /** The worker a step belongs to, or the one it wakes. */
  ghost predicate Moves(a: Action, w: nat) {
    match a
    case Signal(v) => v == w
    case WorkerLock(v) => v == w
    case Wait(v) => v == w
    case Take(v) => v == w
    case WorkerUnlock(v) => v == w
    case Process(v) => v == w
    case Put(v) => v == w
    case _ => false
  }

  /** The steps a worker makes itself. */
  predicate IsWork(a: Action) {
    a.WorkerLock? || a.Wait? || a.Take? || a.WorkerUnlock? || a.Process? || a.Put?
  }

  /** A step changes at most the worker it moves. */
  lemma OnlyTheMoverChanges(s: State, a: Action, w: nat)
    requires Enabled(s, a) && Moves(a, w)
    ensures w < |s.workers| == |Apply(s, a).workers|
    ensures Apply(s, a).workers == s.workers[w := Apply(s, a).workers[w]]
  {
  }

  lemma NobodyMoves(s: State, a: Action)
    requires Enabled(s, a) && forall w: nat :: !Moves(a, w)
    ensures !IsWork(a) && Apply(s, a).workers == s.workers && !Apply(s, a).crashed
  {
    assert IsWork(a) ==> Moves(a, a.w);
    assert a.Signal? ==> Moves(a, a.w);
  }

  lemma OthersStandStill(s: State, a: Action)
    requires Enabled(s, a)
    ensures |Apply(s, a).workers| == |s.workers|
    ensures forall w :: 0 <= w < |s.workers| && !Moves(a, w) ==> Apply(s, a).workers[w] == s.workers[w]
  {
    if v: nat :| Moves(a, v) {
      OnlyTheMoverChanges(s, a, v);
    } else {
      NobodyMoves(s, a);
    }
  }

  lemma ReadyStep(s: State, a: Action)
    requires Enabled(s, a)
    ensures ReadyCount(Apply(s, a).workers) == ReadyCount(s.workers)
                                               + (if a.Signal? || a.Put? then 1 else 0) - (if a.Wait? || a.Take? then 1 else 0)
  {
    if w: nat :| Moves(a, w) {
      OnlyTheMoverChanges(s, a, w);
      ReadyUpdate(s.workers, w, Apply(s, a).workers[w]);
    } else {
      NobodyMoves(s, a);
    }
  }

  lemma OnlyWaitParks(s: State, a: Action)
    requires Enabled(s, a) && !a.Wait? && SomeoneParked(Apply(s, a))
    ensures SomeoneParked(s) && !a.SignalNobody?
  {
    var w :| 0 <= w < |Apply(s, a).workers| && Apply(s, a).workers[w].Parked?;
    OthersStandStill(s, a);
    assert !Moves(a, w);
  }

  /** The condition variable loses no wake-up, although Signal comes after Unlock. */
  lemma NoLostWakeupKept(s: State, a: Action)
    requires Shape(s) && NoLostWakeup(s) && Enabled(s, a)
    ensures Apply(s, a).ring.Valid() && NoLostWakeup(Apply(s, a))
  {
    RingStep(s, a);
    ReadyStep(s, a);
    if a.Wait? {
      EmptyIffCursorsMeet(s.ring);
    } else if SomeoneParked(Apply(s, a)) {
      OnlyWaitParks(s, a);
    }
  }

  /** How one step moves the workers' claims on one buffer and one ticket. */
  lemma WorkersStep(s: State, a: Action, b: BufId, t: nat)
    requires Enabled(s, a)
    ensures WorkerCount(Apply(s, a).workers, b) == WorkerCount(s.workers, b)
                                                   + (if a.Take? && WorkerHolds(Apply(s, a).workers[a.w], b) then 1 else 0)
                                                   - (if a.Put? && WorkerHolds(s.workers[a.w], b) then 1 else 0)
    ensures TicketsOut(Apply(s, a).workers, t) == TicketsOut(s.workers, t)
                                                  + (if a.Take? && t == s.taken then 1 else 0)
                                                  - (if a.Process? && !Apply(s, a).crashed && HasTicket(s.workers[a.w], t) then 1 else 0)
  {
    if w: nat :| Moves(a, w) {
      OnlyTheMoverChanges(s, a, w);
      WorkerUpdate(s.workers, w, Apply(s, a).workers[w], b, t);
    } else {
      NobodyMoves(s, a);
    }
  }

  lemma QueueStep(s: State, a: Action, b: BufId)
    requires Shape(s) && Enabled(s, a)
    ensures Apply(s, a).ring.Valid()
    ensures QueueCount(Apply(s, a).ring.Queue(), b) == QueueCount(s.ring.Queue(), b)
                                                       + (if a.TryEnqueue? && Apply(s, a).receiver.Enqueued? && s.receiver.msg.buf == b then 1 else 0)
                                                       - (if a.Take? && WorkerHolds(Apply(s, a).workers[a.w], b) then 1 else 0)
  {
    RingStep(s, a);
    if a.TryEnqueue? {
      QueueCountAppend(s.ring.Queue(), s.receiver.msg, b);
    } else if a.Take? {
      assert s.ring.Queue()[1..] == Apply(s, a).ring.Queue();
    }
  }

  lemma PoolStep(s: State, a: Action, b: BufId)
    requires Enabled(s, a)
    ensures Apply(s, a).pool[b] == s.pool[b]
                                   + (if (a.ReceiveFailed? || a.PutBack?) && s.receiver.buf == b then 1 else 0)
                                   + (if a.Put? && WorkerHolds(s.workers[a.w], b) then 1 else 0)
                                   - (if (a.GetPooled? || a.Evict?) && a.b == b then 1 else 0)
  {
  }

  /** What the receiver gains when it gets a buffer. */
  lemma ReceiverGets(s: State, a: Action, b: BufId)
    requires Shape(s) && Enabled(s, a) && (a.GetPooled? || a.GetNew?)
    ensures ReceiverCount(Apply(s, a).receiver, b) == ReceiverCount(s.receiver, b)
                                                      + (if a.GetPooled? && a.b == b then 1 else 0)
                                                      + (if a.GetNew? && a.made == b then 1 else 0)
  {
  }

  /** What the receiver gives away: to the pool, or to the ring when it is not full. */
  lemma ReceiverGives(s: State, a: Action, b: BufId)
    requires Enabled(s, a) && !a.GetPooled? && !a.GetNew?
    ensures ReceiverCount(Apply(s, a).receiver, b) == ReceiverCount(s.receiver, b)
                                                      - (if (a.ReceiveFailed? || a.PutBack?) && s.receiver.buf == b then 1 else 0)
                                                      - (if a.TryEnqueue? && Apply(s, a).receiver.Enqueued? && s.receiver.msg.buf == b then 1 else 0)
  {
  }

  /** A buffer leaves one holder for another, is made with one, or is forgotten by the pool. */
  lemma HoldersStep(s: State, a: Action, b: BufId)
    requires Shape(s) && Enabled(s, a)
    ensures Apply(s, a).ring.Valid()
    ensures Holders(Apply(s, a), b) == Holders(s, b)
                                       + (if a.GetNew? && a.made == b then 1 else 0)
                                       - (if a.Evict? && a.b == b then 1 else 0)
  {
    PoolStep(s, a, b);
    if a.GetPooled? || a.GetNew? {
      ReceiverGets(s, a, b);
    } else {
      ReceiverGives(s, a, b);
    }
    WorkersStep(s, a, b, 0);
    QueueStep(s, a, b);
  }

  lemma OwnedKept(s: State, a: Action)
    requires Shape(s) && Owned(s) && Enabled(s, a)
    ensures Apply(s, a).ring.Valid() && Owned(Apply(s, a))
  {
    RingStep(s, a);
    forall b: BufId
      ensures Holders(Apply(s, a), b) == if b in Apply(s, a).arrays then 1 else 0
    {
      HoldersStep(s, a, b);
      assert Holders(s, b) == if b in s.arrays then 1 else 0;
    }
  }

  /** A step never changes a backing array that the queue or a worker refers to. */
  lemma HeldArrayUntouched(s: State, a: Action, b: BufId)
    requires Shape(s) && Owned(s) && Enabled(s, a)
    requires QueueCount(s.ring.Queue(), b) + WorkerCount(s.workers, b) > 0
    ensures b in s.arrays && b in Apply(s, a).arrays && Apply(s, a).arrays[b] == s.arrays[b]
  {
    assert Holders(s, b) == if b in s.arrays then 1 else 0;
    assert s.pool[b] == 0 && !ReceiverHolds(s.receiver, b);
  }

  lemma QueueStillCarried(s: State, a: Action)
    requires Shape(s) && Owned(s) && Fifo(s) && Enabled(s, a)
    ensures CarriesFrom(Apply(s, a).arrays, Apply(s, a).accepted, s.ring.Queue(), s.taken)
  {
    var q := s.ring.Queue();
    forall k | 0 <= k < |q|
      ensures Carries(Apply(s, a).arrays, Apply(s, a).accepted, q[k], s.taken + k)
    {
      assert Carries(s.arrays, s.accepted, q[k], s.taken + k);
      QueueCounted(q, k);
      HeldArrayUntouched(s, a, q[k].buf);
    }
  }

  lemma WorkerStillCarries(s: State, a: Action, w: nat)
    requires Shape(s) && Owned(s) && Intact(s) && Enabled(s, a) && w < |s.workers|
    ensures WorkerCarries(Apply(s, a).arrays, Apply(s, a).accepted, s.workers[w])
  {
    assert WorkerCarries(s.arrays, s.accepted, s.workers[w]);
    if s.workers[w].Unlocking? || s.workers[w].Processing? {
      WorkerCounted(s.workers, w, s.workers[w].msg.buf);
      HeldArrayUntouched(s, a, s.workers[w].msg.buf);
    }
  }

  lemma CarriesPop(arrays: map<BufId, Bytes>, accepted: seq<Bytes>, x: Slice, q: seq<Slice>, first: nat)
    requires CarriesFrom(arrays, accepted, [x] + q, first)
    ensures Carries(arrays, accepted, x, first) && CarriesFrom(arrays, accepted, q, first + 1)
  {
    assert ([x] + q)[0] == x;
    forall k | 0 <= k < |q|
      ensures Carries(arrays, accepted, q[k], first + 1 + k)
    {
      assert ([x] + q)[k + 1] == q[k];
    }
  }

  lemma CarriesPush(arrays: map<BufId, Bytes>, accepted: seq<Bytes>, q: seq<Slice>, x: Slice, first: nat)
    requires CarriesFrom(arrays, accepted, q, first) && Carries(arrays, accepted, x, first + |q|)
    ensures CarriesFrom(arrays, accepted, q + [x], first)
  {
  }

  lemma FifoKept(s: State, a: Action)
    requires Shape(s) && Owned(s) && Fifo(s) && Enabled(s, a)
    ensures Apply(s, a).ring.Valid() && Fifo(Apply(s, a))
  {
    if a.TryEnqueue? {
      AcceptKeepsFifo(s);
    } else if a.Take? {
      TakeKeepsFifo(s, a.w);
    } else {
      QueueStillCarried(s, a);
      RingStep(s, a);
    }
  }

  lemma TakeKeepsFifo(s: State, w: nat)
    requires Shape(s) && Owned(s) && Fifo(s) && Enabled(s, Take(w))
    ensures Apply(s, Take(w)).ring.Valid() && Fifo(Apply(s, Take(w)))
  {
    var t := Apply(s, Take(w));
    RingStep(s, Take(w));
    CarriesPop(t.arrays, t.accepted, t.workers[w].msg, t.ring.Queue(), s.taken);
  }

  lemma AcceptKeepsFifo(s: State)
    requires Shape(s) && Owned(s) && Fifo(s) && Enabled(s, TryEnqueue)
    ensures Apply(s, TryEnqueue).ring.Valid() && Fifo(Apply(s, TryEnqueue))
  {
    var t := Apply(s, TryEnqueue);
    var m := s.receiver.msg;
    RingStep(s, TryEnqueue);
    QueueStillCarried(s, TryEnqueue);
    if t.receiver.Enqueued? {
      assert Holders(s, m.buf) >= 1;
      assert Carries(t.arrays, t.accepted, m, |s.accepted|);
      CarriesPush(t.arrays, t.accepted, s.ring.Queue(), m, s.taken);
    }
  }

  lemma TakenIsIntact(s: State, w: nat)
    requires Shape(s) && Owned(s) && Fifo(s) && Enabled(s, Take(w))
    ensures WorkerCarries(s.arrays, s.accepted, Apply(s, Take(w)).workers[w])
  {
    RingStep(s, Take(w));
    CarriesPop(s.arrays, s.accepted, Apply(s, Take(w)).workers[w].msg, Apply(s, Take(w)).ring.Queue(), s.taken);
  }

  lemma IntactKept(s: State, a: Action)
    requires Shape(s) && Owned(s) && Fifo(s) && Intact(s) && Enabled(s, a)
    ensures Intact(Apply(s, a))
  {
    var t := Apply(s, a);
    OthersStandStill(s, a);
    forall w | 0 <= w < |t.workers|
      ensures WorkerCarries(t.arrays, t.accepted, t.workers[w])
    {
      if a == Take(w) {
        TakenIsIntact(s, w);
      } else {
        WorkerStillCarries(s, a, w);
      }
    }
    DeliveriesIntact(s, a);
  }

  lemma DeliveriesIntact(s: State, a: Action)
    requires Intact(s) && Enabled(s, a)
    ensures var t := Apply(s, a);
            forall k :: 0 <= k < |t.delivered| ==>
                          t.delivered[k].ticket < |t.accepted| && t.delivered[k].data == t.accepted[t.delivered[k].ticket]
  {
    if a.Process? {
      assert WorkerCarries(s.arrays, s.accepted, s.workers[a.w]);
    }
  }

  /** A ticket is issued by Take and then moves from its worker to the record of deliveries. */
  lemma TicketStep(s: State, a: Action, n: nat)
    requires Enabled(s, a)
    ensures TicketsOut(Apply(s, a).workers, n) + TimesDelivered(Apply(s, a).delivered, n)
         == TicketsOut(s.workers, n) + TimesDelivered(s.delivered, n) + if a.Take? && n == s.taken then 1 else 0
  {
    WorkersStep(s, a, 0, n);
    if a.Process? && !Apply(s, a).crashed {
      assert Apply(s, a).delivered[..|Apply(s, a).delivered| - 1] == s.delivered;
    }
  }

  lemma TicketsOnceKept(s: State, a: Action)
    requires TicketsOnce(s) && Enabled(s, a)
    ensures TicketsOnce(Apply(s, a))
  {
    forall n: nat
      ensures TicketsOut(Apply(s, a).workers, n) + TimesDelivered(Apply(s, a).delivered, n) == if n < Apply(s, a).taken then 1 else 0
    {
      TicketStep(s, a, n);
      assert TicketsOut(s.workers, n) + TimesDelivered(s.delivered, n) == if n < s.taken then 1 else 0;
    }
  }

  lemma ConservedKept(s: State, a: Action)
    requires Shape(s) && Conserved(s) && Enabled(s, a)
    ensures Apply(s, a).ring.Valid() && Conserved(Apply(s, a))
  {
    RingStep(s, a);
  }

  lemma CrashExplainedKept(s: State, a: Action)
    requires Shape(s) && Intact(s) && CrashExplained(s) && Enabled(s, a)
    ensures CrashExplained(Apply(s, a))
  {
    if a.Process? {
      assert WorkerCarries(s.arrays, s.accepted, s.workers[a.w]);
      if Apply(s, a).crashed {
        assert Doomed(Apply(s, a), Apply(s, a).workers[a.w]);
      }
    }
  }

  lemma StepKeepsInv(s: State, a: Action)
    requires Inv(s) && Enabled(s, a)
    ensures Inv(Apply(s, a))
  {
    ShapeKept(s, a);
    MutualExclusionKept(s, a);
    NoLostWakeupKept(s, a);
    OwnedKept(s, a);
    FifoKept(s, a);
    IntactKept(s, a);
    TicketsOnceKept(s, a);
    ConservedKept(s, a);
    CrashExplainedKept(s, a);
  }

  lemma {:induction false} IdleWorkersHoldNothing(ws: seq<Worker>)
    requires forall w :: 0 <= w < |ws| ==> ws[w] == Acquiring
    ensures forall b :: WorkerCount(ws, b) == 0
    ensures forall t :: TicketsOut(ws, t) == 0
  {
    if ws == [] {
    } else {
      IdleWorkersHoldNothing(ws[1..]);
    }
  }

  lemma InitInv(s: State)
    requires IsInit(s)
    ensures Inv(s)
  {
    assert s.ring.Queue() == [];
    IdleWorkersHoldNothing(s.workers);
  }

  lemma {:induction false} RunKeepsInv(s: State, trace: seq<Action>, t: State)
    requires Inv(s) && Leads(s, trace, t)
    ensures Inv(t)
    decreases trace
  {
    if trace == [] {
    } else {
      StepKeepsInv(s, trace[0]);
      RunKeepsInv(Apply(s, trace[0]), trace[1..], t);
    }
  }

  // ------------------------------------------------------------ the theorems

  lemma ReachableInv(s: State)
    requires Reachable(s)
    ensures Inv(s)
  {
    var init, trace :| IsInit(init) && Leads(init, trace, s);
    InitInv(init);
    RunKeepsInv(init, trace, s);
  }

  /** In every reachable state a queued message has a worker that will look, or a Signal on its way. */
  lemma WakeupNeverLost(s: State)
    requires Reachable(s)
    ensures s.ring.Valid()
    ensures s.ring.head != s.ring.tail ==>
              s.receiver.Enqueued? || s.receiver.Signalling? || exists w :: 0 <= w < |s.workers| && !s.workers[w].Parked?
    ensures (exists w :: 0 <= w < |s.workers| && s.workers[w].Parked?) ==>
              |s.ring.Queue()| <= ReadyCount(s.workers) + Owed(s.receiver)
  {
    ReachableInv(s);
    EmptyIffCursorsMeet(s.ring);
    if ReadyCount(s.workers) > 0 {
      var w := ReadySomewhere(s.workers);
    }
    assert !s.workers[0].Parked? || SomeoneParked(s);
  }

  /** A slot the window has left may still name a buffer, but no two holders ever share one. */
  lemma BufferHasOneHolder(s: State, b: BufId)
    requires Reachable(s)
    ensures s.ring.Valid()
    ensures s.pool[b] + (if ReceiverHolds(s.receiver, b) then 1 else 0)
            + QueueCount(s.ring.Queue(), b) + WorkerCount(s.workers, b)
         == if b in s.arrays then 1 else 0
    ensures forall v, w :: 0 <= v < w < |s.workers| && WorkerHolds(s.workers[v], b) ==> !WorkerHolds(s.workers[w], b)
    ensures b in s.pool && b in s.arrays ==> |s.arrays[b]| == BUFFER_CAP
  {
    ReachableInv(s);
    assert Holders(s, b) == if b in s.arrays then 1 else 0;
    forall v, w | 0 <= v < w < |s.workers| && WorkerHolds(s.workers[v], b)
      ensures !WorkerHolds(s.workers[w], b)
    {
      if WorkerHolds(s.workers[w], b) {
        TwoCounted(s.workers, v, w, b);
      }
    }
  }

  lemma {:induction false} TwoCounted(ws: seq<Worker>, v: nat, w: nat, b: BufId)
    requires v < w < |ws| && WorkerHolds(ws[v], b) && WorkerHolds(ws[w], b)
    ensures WorkerCount(ws, b) >= 2
  {
    if v == 0 {
      WorkerCounted(ws[1..], w - 1, b);
    } else {
      TwoCounted(ws[1..], v - 1, w - 1, b);
    }
  }

  /** Nothing received disappears: it was taken, is queued, was dropped for a reason, or is in hand. */
  lemma NothingUnaccounted(s: State)
    requires Reachable(s)
    ensures s.ring.Valid()
    ensures s.received == s.taken + |s.ring.Queue()| + s.droppedLarge + s.droppedFull + InHand(s.receiver)
    ensures |s.accepted| == s.taken + |s.ring.Queue()|
    ensures |s.ring.Queue()| <= RING_SIZE - 1
  {
    ReachableInv(s);
    assert s.ring.Len() <= RING_SIZE - 1;
  }

  /** Every taken message is with one worker or was processed once, with the bytes that were accepted. */
  lemma TakenExactlyOnceIntact(s: State, i: nat)
    requires Reachable(s) && i < s.taken
    ensures i < |s.accepted|
    ensures TicketsOut(s.workers, i) + TimesDelivered(s.delivered, i) == 1
    ensures forall k :: 0 <= k < |s.delivered| && s.delivered[k].ticket == i ==> s.delivered[k].data == s.accepted[i]
  {
    ReachableInv(s);
  }

  lemma {:induction false} DeliveredSomewhere(ds: seq<Delivery>, t: nat) returns (k: nat)
    requires TimesDelivered(ds, t) > 0
    ensures k < |ds| && ds[k].ticket == t
  {
    if ds[|ds| - 1].ticket == t {
      k := |ds| - 1;
    } else {
      k := DeliveredSomewhere(ds[..|ds| - 1], t);
    }
  }

  /** Nothing is queued and no worker still has a message to process. */
  ghost predicate Quiescent(s: State) {
    s.ring.head == s.ring.tail && forall w :: 0 <= w < |s.workers| ==> !s.workers[w].Unlocking? && !s.workers[w].Processing?
  }

  lemma {:induction false} NoTicketsOut(ws: seq<Worker>, t: nat)
    requires forall w :: 0 <= w < |ws| ==> !ws[w].Unlocking? && !ws[w].Processing?
    ensures TicketsOut(ws, t) == 0
  {
    if ws == [] {
    } else {
      NoTicketsOut(ws[1..], t);
    }
  }

  /** When the data plane is quiescent, every accepted message has been processed exactly once, and nothing else has. */
  lemma QuiescentMeansAllProcessed(s: State, i: nat)
    requires Reachable(s) && Quiescent(s)
    ensures !s.crashed && forall m :: m in s.accepted ==> !s.panics(m)
    ensures TimesDelivered(s.delivered, i) == if i < |s.accepted| then 1 else 0
    ensures forall m: Bytes :: m in s.accepted <==> exists k :: 0 <= k < |s.delivered| && s.delivered[k].data == m
  {
    ReachableInv(s);
    assert s.ring.Queue() == [] by { EmptyIffCursorsMeet(s.ring); }
    NoTicketsOut(s.workers, i);
    assert TicketsOut(s.workers, i) + TimesDelivered(s.delivered, i) == if i < s.taken then 1 else 0;
    forall m: Bytes | m in s.accepted
      ensures exists k :: 0 <= k < |s.delivered| && s.delivered[k].data == m
    {
      var t :| 0 <= t < |s.accepted| && s.accepted[t] == m;
      NoTicketsOut(s.workers, t);
      assert TicketsOut(s.workers, t) + TimesDelivered(s.delivered, t) == if t < s.taken then 1 else 0;
      var k := DeliveredSomewhere(s.delivered, t);
      assert s.delivered[k].data == m;
    }
  }

  /** The queue is the accepted history without its taken prefix, byte for byte. */
  lemma QueueIsUntakenHistory(s: State, k: nat)
    requires Reachable(s)
    ensures s.ring.Valid()
    ensures k < |s.ring.Queue()| ==> s.taken + k < |s.accepted| && Read(s.arrays, s.ring.Queue()[k]) == s.accepted[s.taken + k]
  {
    ReachableInv(s);
    if k < |s.ring.Queue()| {
      assert Carries(s.arrays, s.accepted, s.ring.Queue()[k], s.taken + k);
    }
  }

  /** A message is dropped as too large exactly when it is longer than a pool buffer. */
  lemma TooLargeIffOverCapacity(s: State)
    requires Reachable(s) && s.receiver.Copying?
    ensures Enabled(s, CheckSize) <==> !s.crashed
    ensures !s.crashed ==>
              Apply(s, CheckSize).droppedLarge == s.droppedLarge + (if |s.receiver.data| > 4096 then 1 else 0)
    ensures !s.crashed && |s.receiver.data| <= 4096 ==>
              var t := Apply(s, CheckSize);
              t.receiver.Locking? && Read(t.arrays, t.receiver.msg) == s.receiver.data
  {
    ReachableInv(s);
    assert Holders(s, s.receiver.buf) == if s.receiver.buf in s.arrays then 1 else 0;
  }

  // ---------------------------------------------------------------- progress

  /** The server is down exactly in states that a message which panics has led to. */
  lemma OnlyAPanicCrashes(s: State)
    requires Reachable(s)
    ensures forall k :: 0 <= k < |s.delivered| ==> !s.panics(s.delivered[k].data)
    ensures s.crashed ==> exists i :: 0 <= i < s.taken && i < |s.accepted| && s.panics(s.accepted[i])
                                      && |s.accepted[i]| <= BUFFER_CAP && TimesDelivered(s.delivered, i) == 0
  {
    ReachableInv(s);
    if s.crashed {
      var w :| 0 <= w < |s.workers| && s.workers[w].Processing? && Doomed(s, s.workers[w]);
      assert WorkerCarries(s.arrays, s.accepted, s.workers[w]);
      HeldTicketWasTaken(s, w);
    }
  }

  lemma HeldTicketWasTaken(s: State, w: nat)
    requires TicketsOnce(s) && w < |s.workers| && (s.workers[w].Unlocking? || s.workers[w].Processing?)
    ensures s.workers[w].ticket < s.taken && TimesDelivered(s.delivered, s.workers[w].ticket) == 0
  {
    var i := s.workers[w].ticket;
    TicketCounted(s.workers, w, i);
    assert TicketsOut(s.workers, i) + TimesDelivered(s.delivered, i) == if i < s.taken then 1 else 0;
  }

  lemma {:induction false} TicketCounted(ws: seq<Worker>, i: nat, t: nat)
    requires i < |ws| && HasTicket(ws[i], t)
    ensures TicketsOut(ws, t) > 0
  {
    if i == 0 {
    } else {
      TicketCounted(ws[1..], i - 1, t);
    }
  }

  lemma {:induction false} SameServer(s: State, trace: seq<Action>, t: State)
    requires Leads(s, trace, t)
    ensures t.panics == s.panics
    decreases trace
  {
    if trace == [] {
    } else {
      SameServer(Apply(s, trace[0]), trace[1..], t);
    }
  }

  lemma FirstStep(s: State, a: Action, trace: seq<Action>, t: State)
    requires Enabled(s, a) && Leads(Apply(s, a), trace, t)
    ensures Leads(s, [a] + trace, t)
  {
    assert ([a] + trace)[1..] == trace;
  }

  /** Worker `w` can come to the loop test: nothing it holds panics, and it is awake or will be woken. */
  ghost predicate CanCome(s: State, w: nat) {
    w < |s.workers| && !Doomed(s, s.workers[w]) && (s.workers[w].Parked? ==> Owed(s.receiver) > 0)
  }

  ghost predicate Live(s: State) {
    Inv(s) && !s.crashed && s.ring.head != s.ring.tail
  }

  lemma RingStaysNonempty(s: State, a: Action)
    requires Shape(s) && Enabled(s, a) && s.ring.head != s.ring.tail && !a.Take?
    ensures Apply(s, a).ring.head != Apply(s, a).ring.tail && Apply(s, a).taken == s.taken
  {
    RingStep(s, a);
    EmptyIffCursorsMeet(s.ring);
    EmptyIffCursorsMeet(Apply(s, a).ring);
  }

  /** Some worker is at the loop test, and will take the message. */
  ghost predicate AtTest(s: State, v: nat) {
    v < |s.workers| && s.workers[v].Checking?
  }

  /** How many steps the mutex is from being free, when nobody is at the loop test. */
  ghost function Unlocks(s: State): nat {
    match s.lock
    case Free => 0
    case Held => if s.receiver.Enqueuing? then 2 else 1
    case HeldBy(_) => 1
  }

  /** An upper bound on the steps before the oldest queued message can be taken, if `w` is the one to come. */
  ghost function Distance(s: State, w: nat): nat
    requires w < |s.workers|
  {
    if s.lock.HeldBy? && AtTest(s, s.lock.w) then 0
    else
      match s.workers[w]
      case Checking => 0
      case Acquiring => 1 + Unlocks(s)
      case Returning(_) => 2 + Unlocks(s)
      case Processing(_, _) => 3 + Unlocks(s)
      case Unlocking(_, _) => 4
      case Parked => 2 + Unlocks(s)
  }

  /** A step that brings the message closer to `w`, when the mutex is held. */
  lemma FreeTheMutex(s: State, w: nat) returns (a: Action)
    requires Live(s) && CanCome(s, w) && s.lock != Free && Distance(s, w) > 0
    ensures Enabled(s, a) && !a.Receive? && !a.Take?
    ensures !Apply(s, a).crashed && CanCome(Apply(s, a), w) && Distance(Apply(s, a), w) < Distance(s, w)
  {
    if s.lock == Held {
      a := if s.receiver.Enqueuing? then TryEnqueue else ReceiverUnlock;
    } else {
      a := WorkerUnlock(s.lock.w);
    }
  }

  /** The same when the mutex is free and `w` is awake. */
  lemma WorkerComes(s: State, w: nat) returns (a: Action)
    requires Live(s) && CanCome(s, w) && s.lock == Free && !s.workers[w].Parked?
    ensures Enabled(s, a) && !a.Receive? && !a.Take?
    ensures !Apply(s, a).crashed && CanCome(Apply(s, a), w) && Distance(Apply(s, a), w) < Distance(s, w)
  {
    match s.workers[w]
    case Acquiring => a := WorkerLock(w);
    case Returning(_) => a := Put(w);
    case Processing(_, _) =>
      a := Process(w);
      assert WorkerCarries(s.arrays, s.accepted, s.workers[w]);
  }

  /** The same when `w` is parked and a Signal is on its way. */
  lemma ReceiverWakes(s: State, w: nat) returns (a: Action)
    requires Live(s) && CanCome(s, w) && s.lock == Free && s.workers[w].Parked?
    ensures Enabled(s, a) && !a.Receive? && !a.Take?
    ensures !Apply(s, a).crashed && CanCome(Apply(s, a), w) && Distance(Apply(s, a), w) < Distance(s, w)
  {
    a := Signal(w);
  }

  /** A step that brings the message closer to `w`. */
  lemma OneStepCloser(s: State, w: nat) returns (a: Action)
    requires Live(s) && CanCome(s, w) && Distance(s, w) > 0
    ensures Enabled(s, a) && !a.Receive?
    ensures Live(Apply(s, a)) && CanCome(Apply(s, a), w) && Distance(Apply(s, a), w) < Distance(s, w)
    ensures Apply(s, a).taken == s.taken
  {
    if s.lock != Free {
      a := FreeTheMutex(s, w);
    } else if s.workers[w].Parked? {
      a := ReceiverWakes(s, w);
    } else {
      a := WorkerComes(s, w);
    }
    StepKeepsInv(s, a);
    RingStaysNonempty(s, a);
  }

  lemma AtTestTakes(s: State, w: nat) returns (a: Action)
    requires Shape(s) && MutualExclusion(s) && !s.crashed && s.ring.head != s.ring.tail
    requires w < |s.workers| && Distance(s, w) == 0
    ensures Enabled(s, a) && !a.Receive? && Apply(s, a).taken == s.taken + 1
  {
    a := Take(if s.lock.HeldBy? && AtTest(s, s.lock.w) then s.lock.w else w);
  }

  lemma {:induction false} ComesAndTakes(s: State, w: nat) returns (trace: seq<Action>, t: State)
    requires Live(s) && CanCome(s, w)
    ensures Leads(s, trace, t) && t.taken == s.taken + 1
    ensures |trace| <= Distance(s, w) + 1 && NoReceive(trace)
    decreases Distance(s, w)
  {
    var a;
    trace := [];
    if Distance(s, w) == 0 {
      a := AtTestTakes(s, w);
      t := Apply(s, a);
    } else {
      a := OneStepCloser(s, w);
      trace, t := ComesAndTakes(Apply(s, a), w);
    }
    FirstStep(s, a, trace, t);
    trace := [a] + trace;
  }

  ghost predicate NoReceive(trace: seq<Action>) {
    forall k :: 0 <= k < |trace| ==> !trace[k].Receive?
  }

  /** Some worker is not stuck with a message that panics. */
  ghost predicate SomeoneSafe(s: State) {
    !s.crashed && exists w :: 0 <= w < |s.workers| && !Doomed(s, s.workers[w])
  }

  /** If that worker sleeps, then the message has another one on the way, or a Signal. */
  lemma SomeoneCanCome(s: State) returns (w: nat)
    requires Live(s) && SomeoneSafe(s)
    ensures CanCome(s, w)
  {
    w :| w < |s.workers| && !Doomed(s, s.workers[w]);
    if s.workers[w].Parked? && Owed(s.receiver) == 0 {
      EmptyIffCursorsMeet(s.ring);
      assert SomeoneParked(s);
      w := ReadySomewhere(s.workers);
    }
  }

  /** When every worker is stuck with a message that panics, a step takes nothing and frees nobody. */
  lemma StuckStaysStuck(s: State, a: Action)
    requires Shape(s) && Intact(s) && !SomeoneSafe(s) && Enabled(s, a)
    ensures !a.Take? && Apply(s, a).taken == s.taken && !SomeoneSafe(Apply(s, a))
  {
    var t := Apply(s, a);
    OthersStandStill(s, a);
    if w: nat :| Moves(a, w) {
      assert Doomed(s, s.workers[w]);
      assert WorkerCarries(s.arrays, s.accepted, s.workers[w]);
    }
    forall w | 0 <= w < |t.workers|
      ensures t.crashed || Doomed(t, t.workers[w])
    {
      assert Doomed(s, s.workers[w]);
    }
  }

  lemma {:induction false} StuckTakesNothing(s: State, trace: seq<Action>, t: State)
    requires Inv(s) && !SomeoneSafe(s) && Leads(s, trace, t)
    ensures t.taken == s.taken
    decreases trace
  {
    if trace == [] {
    } else {
      StuckStaysStuck(s, trace[0]);
      StepKeepsInv(s, trace[0]);
      StuckTakesNothing(Apply(s, trace[0]), trace[1..], t);
    }
  }

  /** Some run from here takes a message. */
  ghost predicate CanBeTaken(s: State) {
    exists trace: seq<Action>, t: State :: Leads(s, trace, t) && t.taken > s.taken
  }

  /** Within six steps, none of them a receive, the oldest queued message can be taken. */
  ghost predicate CanBeTakenSoon(s: State) {
    exists trace: seq<Action>, t: State :: Leads(s, trace, t) && NoReceive(trace) && |trace| <= 6 && t.taken == s.taken + 1
  }

  /**
    A queued message is lost exactly once the server has crashed, or when all four workers hold messages that panic;
    until then six steps are enough to take the oldest one.
   */
  lemma CanBeTakenIff(s: State)
    requires Reachable(s) && s.ring.head != s.ring.tail
    ensures CanBeTaken(s) <==> !s.crashed && exists w :: 0 <= w < |s.workers| && !Doomed(s, s.workers[w])
    ensures CanBeTaken(s) ==> CanBeTakenSoon(s)
  {
    ReachableInv(s);
    if SomeoneSafe(s) {
      var w := SomeoneCanCome(s);
      var trace, t := ComesAndTakes(s, w);
    } else if CanBeTaken(s) {
      var trace: seq<Action>, t: State :| Leads(s, trace, t) && t.taken > s.taken;
      StuckTakesNothing(s, trace, t);
    }
  }

  /** As long as no message taken so far panics, no reachable state is stuck with a message. */
  lemma NeverStuckWithoutPanic(s: State)
    requires Reachable(s) && s.ring.head != s.ring.tail
    requires forall i :: 0 <= i < s.taken && i < |s.accepted| ==> !s.panics(s.accepted[i])
    ensures !s.crashed && CanBeTakenSoon(s)
  {
    ReachableInv(s);
    OnlyAPanicCrashes(s);
    if s.workers[0].Unlocking? || s.workers[0].Processing? {
      HeldTicketWasTaken(s, 0);
    }
    assert !Doomed(s, s.workers[0]);
    CanBeTakenIff(s);
  }

  // ------------------------------------------------------- runs built step by step

  ghost predicate CanReach(s: State, t: State) {
    exists trace: seq<Action> :: Leads(s, trace, t)
  }

  lemma {:induction false} LeadsOn(s: State, trace: seq<Action>, t: State, a: Action)
    requires Leads(s, trace, t) && Enabled(t, a)
    ensures Leads(s, trace + [a], Apply(t, a))
    decreases trace
  {
    if trace == [] {
      FirstStep(s, a, [], Apply(s, a));
    } else {
      LeadsOn(Apply(s, trace[0]), trace[1..], t, a);
      assert (trace + [a])[1..] == trace[1..] + [a];
    }
  }

  lemma StepOn(init: State, s: State, a: Action)
    requires CanReach(init, s) && Inv(s) && Enabled(s, a)
    ensures CanReach(init, Apply(s, a)) && Inv(Apply(s, a))
  {
    var trace: seq<Action> :| Leads(init, trace, s);
    LeadsOn(init, trace, s, a);
    StepKeepsInv(s, a);
  }

  /** The bytes of the deliveries, in the order in which they were made. */
  function Data(ds: seq<Delivery>): seq<Bytes> {
    seq(|ds|, k requires 0 <= k < |ds| => ds[k].data)
  }

  lemma DataPush(ds: seq<Delivery>, d: Delivery)
    ensures Data(ds + [d]) == Data(ds) + [d.data]
  {
  }

  lemma SameServerReached(init: State, s: State)
    requires CanReach(init, s)
    ensures s.panics == init.panics && (IsInit(init) ==> Reachable(s))
  {
    var trace: seq<Action> :| Leads(init, trace, s);
    SameServer(init, trace, s);
  }

  lemma TwoStepsOn(init: State, s: State, a: Action, b: Action)
    requires CanReach(init, s) && Inv(s) && Enabled(s, a) && Enabled(Apply(s, a), b)
    ensures CanReach(init, Apply(Apply(s, a), b)) && Inv(Apply(Apply(s, a), b))
  {
    StepOn(init, s, a);
    StepOn(init, Apply(s, a), b);
  }

  lemma ThreeStepsOn(init: State, s: State, a: Action, b: Action, c: Action)
    requires CanReach(init, s) && Inv(s)
    requires Enabled(s, a) && Enabled(Apply(s, a), b) && Enabled(Apply(Apply(s, a), b), c)
    ensures var t := Apply(Apply(Apply(s, a), b), c);
            CanReach(init, t) && Inv(t)
  {
    TwoStepsOn(init, s, a, b);
    StepOn(init, Apply(Apply(s, a), b), c);
  }

  lemma QueuedIff(s: State)
    requires Inv(s)
    ensures s.ring.head != s.ring.tail <==> s.taken < |s.accepted|
    ensures |s.ring.Queue()| == |s.accepted| - s.taken
  {
    EmptyIffCursorsMeet(s.ring);
  }

  /** Reached from `init`, with the receiver about to get a buffer, the mutex free and nobody asleep. */
  ghost predicate Between(init: State, s: State) {
    && CanReach(init, s) && Inv(s) && !s.crashed && s.panics == init.panics
    && s.receiver == Getting && s.lock == Free && !SomeoneParked(s)
    && (forall b :: b in s.arrays ==> b < |s.accepted|)
  }

  lemma InitIsBetween(init: State)
    requires IsInit(init)
    ensures Between(init, init)
  {
    InitInv(init);
    assert Leads(init, [], init);
  }

  /** The receiver gets a new buffer and a message that fits it. */
  lemma ReceivesOne(init: State, s: State, data: Bytes) returns (t: State)
    requires Between(init, s) && |data| <= BUFFER_CAP
    ensures CanReach(init, t) && Inv(t) && t.receiver.Locking? && Read(t.arrays, t.receiver.msg) == data
    ensures t == s.(arrays := t.arrays, receiver := t.receiver, received := t.received)
    ensures forall b :: b in t.arrays ==> b <= |s.accepted|
  {
    ThreeStepsOn(init, s, GetNew(|s.accepted|), Receive(data), CheckSize);
    t := Apply(Apply(Apply(s, GetNew(|s.accepted|)), Receive(data)), CheckSize);
  }

  /** From there the message is accepted, if the ring has room. */
  lemma AcceptsOne(init: State, s: State, data: Bytes) returns (t: State)
    requires Between(init, s) && |data| <= BUFFER_CAP && |s.ring.Queue()| < RING_SIZE - 1
    ensures Between(init, t) && t.accepted == s.accepted + [data]
    ensures t.workers == s.workers && t.taken == s.taken && t.delivered == s.delivered
  {
    var s1 := ReceivesOne(init, s, data);
    var s2 := Apply(s1, ReceiverLock);
    StepOn(init, s1, ReceiverLock);
    var s3 := Apply(s2, TryEnqueue);
    StepOn(init, s2, TryEnqueue);
    EnqueueRefinesQueue(s2.ring, s2.receiver.msg);
    var s4 := Apply(s3, ReceiverUnlock);
    StepOn(init, s3, ReceiverUnlock);
    assert SomeoneParked(s4) <==> SomeoneParked(s);
    t := Apply(s4, SignalNobody);
    StepOn(init, s4, SignalNobody);
  }

  lemma TakePath(s: State, w: nat)
    requires s.ring.Valid() && !s.crashed && s.lock == Free && w < |s.workers| && s.workers[w].Acquiring? && s.ring.head != s.ring.tail
    ensures Enabled(s, WorkerLock(w)) && Enabled(Apply(s, WorkerLock(w)), Take(w))
    ensures Enabled(Apply(Apply(s, WorkerLock(w)), Take(w)), WorkerUnlock(w))
    ensures var t := Apply(Apply(Apply(s, WorkerLock(w)), Take(w)), WorkerUnlock(w));
            && |t.workers| == |s.workers| && t.workers[w].Processing? && t.workers[w].ticket == s.taken
            && t == s.(ring := t.ring, workers := s.workers[w := t.workers[w]], taken := s.taken + 1)
  {
  }

  /** A worker that is ready takes the oldest message. */
  lemma TakesOne(init: State, s: State, w: nat) returns (t: State)
    requires Between(init, s) && w < |s.workers| && s.workers[w].Acquiring? && s.taken < |s.accepted|
    ensures Between(init, t) && t.accepted == s.accepted && t.taken == s.taken + 1 && t.delivered == s.delivered
    ensures |t.workers| == |s.workers| && t.workers[w].Processing? && t.workers[w].ticket == s.taken
    ensures t.workers == s.workers[w := t.workers[w]]
  {
    QueuedIff(s);
    TakePath(s, w);
    ThreeStepsOn(init, s, WorkerLock(w), Take(w), WorkerUnlock(w));
    t := Apply(Apply(Apply(s, WorkerLock(w)), Take(w)), WorkerUnlock(w));
    NobodySleeps(s, t, w);
  }

  /** With nothing queued, one message is accepted and taken by worker `w`. */
  lemma HandsOver(init: State, s: State, data: Bytes, w: nat) returns (t: State)
    requires Between(init, s) && s.taken == |s.accepted| && |data| <= BUFFER_CAP
    requires w < |s.workers| && s.workers[w].Acquiring?
    ensures Between(init, t) && t.accepted == s.accepted + [data] && t.taken == |t.accepted| && t.delivered == s.delivered
    ensures |t.workers| == |s.workers| && t.workers[w].Processing? && t.workers[w].ticket == |s.accepted|
    ensures t.workers == s.workers[w := t.workers[w]]
  {
    QueuedIff(s);
    var s1 := AcceptsOne(init, s, data);
    t := TakesOne(init, s1, w);
  }

  /** A worker finishes a message that does not panic. */
  lemma FinishesOne(init: State, s: State, w: nat) returns (t: State)
    requires Between(init, s) && w < |s.workers| && s.workers[w].Processing? && !Doomed(s, s.workers[w])
    ensures s.workers[w].ticket < |s.accepted|
    ensures Between(init, t) && t.accepted == s.accepted && t.taken == s.taken
    ensures Data(t.delivered) == Data(s.delivered) + [s.accepted[s.workers[w].ticket]]
    ensures t.workers == s.workers[w := Acquiring]
  {
    HeldIsAccepted(s, w);
    TwoStepsOn(init, s, Process(w), Put(w));
    t := Apply(Apply(s, Process(w)), Put(w));
    DataPush(s.delivered, Delivery(s.workers[w].ticket, s.accepted[s.workers[w].ticket]));
    NobodySleeps(s, t, w);
  }

  /** With nothing queued, worker `w` handles one message from acceptance to the return of its buffer. */
  lemma HandlesOne(init: State, s: State, data: Bytes, w: nat) returns (t: State)
    requires Between(init, s) && s.taken == |s.accepted| && |data| <= BUFFER_CAP && !init.panics(data)
    requires w < |s.workers| && s.workers[w].Acquiring?
    ensures Between(init, t) && t.accepted == s.accepted + [data] && t.taken == |t.accepted| && t.workers == s.workers
    ensures Data(t.delivered) == Data(s.delivered) + [data]
  {
    var s1 := HandsOver(init, s, data, w);
    t := FinishesOne(init, s1, w);
    assert t.workers == s.workers;
  }

  lemma HeldIsAccepted(s: State, w: nat)
    requires Intact(s) && w < |s.workers| && s.workers[w].Processing?
    ensures s.workers[w].ticket < |s.accepted| && Read(s.arrays, s.workers[w].msg) == s.accepted[s.workers[w].ticket]
  {
    assert WorkerCarries(s.arrays, s.accepted, s.workers[w]);
  }

  lemma NobodySleeps(s: State, t: State, w: nat)
    requires !SomeoneParked(s) && w < |s.workers| == |t.workers|
    requires t.workers == s.workers[w := t.workers[w]] && !t.workers[w].Parked?
    ensures !SomeoneParked(t)
  {
  }

  /** The first `k` workers each hold a copy of a message, and nothing is queued. */
  lemma {:induction false} FirstWorkersHold(init: State, data: Bytes, k: nat) returns (s: State)
    requires IsInit(init) && |data| <= BUFFER_CAP && k <= WORKERS
    ensures Between(init, s) && |s.accepted| == s.taken == k && (forall m :: m in s.accepted ==> m == data)
    ensures forall w :: 0 <= w < k ==> s.workers[w].Processing? && s.workers[w].ticket == w
    ensures forall w :: k <= w < WORKERS ==> s.workers[w] == Acquiring
  {
    if k == 0 {
      s := init;
      InitIsBetween(init);
    } else {
      var s1 := FirstWorkersHold(init, data, k - 1);
      s := HandsOver(init, s1, data, k - 1);
    }
  }

  /** The same with one more message, whatever it is, waiting in the ring. */
  lemma AnotherWaits(init: State, data: Bytes, k: nat, other: Bytes) returns (s: State)
    requires IsInit(init) && |data| <= BUFFER_CAP && |other| <= BUFFER_CAP && init.panics(data) && 1 <= k <= WORKERS
    ensures Between(init, s) && |s.accepted| == k + 1 && s.taken == k && s.accepted[0] == data && s.accepted[k] == other
    ensures s.ring.head != s.ring.tail
    ensures forall w :: 0 <= w < k ==> s.workers[w].Processing? && Doomed(s, s.workers[w])
  {
    var s1 := FirstWorkersHold(init, data, k);
    QueuedIff(s1);
    assert s1.accepted[0] in s1.accepted;
    s := AcceptsOne(init, s1, other);
    QueuedIff(s);
    forall w | 0 <= w < k
      ensures Doomed(s, s.workers[w])
    {
      assert s1.accepted[w] in s1.accepted && s.accepted[w] == s1.accepted[w];
    }
  }

  function Without(msgs: seq<Bytes>, x: nat): seq<Bytes> {
    if x < |msgs| then msgs[..x] + msgs[x + 1..] else msgs
  }

  lemma WithoutLast(msgs: seq<Bytes>, x: nat)
    requires msgs != []
    ensures var n := |msgs| - 1;
            Without(msgs, x) == if x == n then msgs[..n] else Without(msgs[..n], x) + [msgs[n]]
  {
  }

  /** Worker 0 holds message `x`, once it has come, and all the others are processed in order. */
  ghost predicate HeldBack(init: State, s: State, msgs: seq<Bytes>, x: nat) {
    && Between(init, s) && s.accepted == msgs && s.taken == |msgs|
    && Data(s.delivered) == Without(msgs, x)
    && |s.workers| == WORKERS && s.workers[1] == Acquiring
    && (if x < |msgs| then s.workers[0].Processing? && s.workers[0].ticket == x else s.workers[0] == Acquiring)
    && (forall w :: 2 <= w < WORKERS ==> s.workers[w] == Acquiring)
  }

  lemma TheOneComes(init: State, s: State, msgs: seq<Bytes>, m: Bytes) returns (t: State)
    requires HeldBack(init, s, msgs, |msgs|) && |m| <= BUFFER_CAP
    ensures HeldBack(init, t, msgs + [m], |msgs|)
  {
    t := HandsOver(init, s, m, 0);
    WithoutLast(msgs + [m], |msgs|);
    assert (msgs + [m])[..|msgs|] == msgs;
  }

  lemma AnotherComes(init: State, s: State, msgs: seq<Bytes>, x: nat, m: Bytes) returns (t: State)
    requires HeldBack(init, s, msgs, x) && x != |msgs| && |m| <= BUFFER_CAP && !init.panics(m)
    ensures HeldBack(init, t, msgs + [m], x)
  {
    t := HandlesOne(init, s, m, 1);
    WithoutLast(msgs + [m], x);
    assert (msgs + [m])[..|msgs|] == msgs;
  }

  lemma OneMoreComes(init: State, s: State, msgs: seq<Bytes>, x: nat, m: Bytes) returns (t: State)
    requires HeldBack(init, s, msgs, x) && |m| <= BUFFER_CAP && !init.panics(m)
    ensures HeldBack(init, t, msgs + [m], x)
  {
    if x == |msgs| {
      t := TheOneComes(init, s, msgs, m);
    } else {
      t := AnotherComes(init, s, msgs, x, m);
    }
  }

  lemma NoneYetHeldBack(init: State, x: nat)
    requires IsInit(init)
    ensures HeldBack(init, init, [], x)
  {
    InitIsBetween(init);
  }

  lemma {:induction false} OneHeldBack(init: State, msgs: seq<Bytes>, x: nat) returns (s: State)
    requires IsInit(init) && forall m :: m in msgs ==> |m| <= BUFFER_CAP && !init.panics(m)
    ensures HeldBack(init, s, msgs, x)
    decreases |msgs|
  {
    if msgs == [] {
      s := init;
      NoneYetHeldBack(init, x);
    } else {
      var before, last := msgs[..|msgs| - 1], msgs[|msgs| - 1];
      s := OneHeldBack(init, before, x);
      assert last in msgs && before + [last] == msgs;
      s := OneMoreComes(init, s, before, x, last);
    }
  }

  /** Whichever message it is, some run finishes it last, and the others in order of arrival before it. */
  lemma AnyoneCanBeLast(init: State, msgs: seq<Bytes>, x: nat) returns (s: State)
    requires IsInit(init) && x < |msgs| && forall m :: m in msgs ==> |m| <= BUFFER_CAP && !init.panics(m)
    ensures CanReach(init, s) && Quiescent(s) && s.accepted == msgs
    ensures Data(s.delivered) == Without(msgs, x) + [msgs[x]]
  {
    var s1 := OneHeldBack(init, msgs, x);
    assert msgs[x] in msgs;
    s := TheOneFinishes(init, s1, msgs, x);
  }

  lemma TheOneFinishes(init: State, s: State, msgs: seq<Bytes>, x: nat) returns (t: State)
    requires HeldBack(init, s, msgs, x) && x < |msgs| && !init.panics(msgs[x])
    ensures CanReach(init, t) && Quiescent(t) && t.accepted == msgs
    ensures Data(t.delivered) == Without(msgs, x) + [msgs[x]]
  {
    t := FinishesOne(init, s, 0);
    QueuedIff(t);
    assert forall w :: 0 <= w < |t.workers| ==> t.workers[w] == Acquiring;
  }

  ghost predicate CanCrash(s: State) {
    exists t: State :: CanReach(s, t) && t.crashed
  }

  lemma CrashWithMessageQueued(init: State, data: Bytes, other: Bytes) returns (t: State)
    requires IsInit(init) && |data| <= BUFFER_CAP && |other| <= BUFFER_CAP && init.panics(data)
    ensures CanReach(init, t) && t.crashed && t.accepted == [data, other] && t.taken == 1 && t.ring.head != t.ring.tail
  {
    var s := AnotherWaits(init, data, 1, other);
    assert WorkerCarries(s.arrays, s.accepted, s.workers[0]);
    StepOn(init, s, Process(0));
    t := Apply(s, Process(0));
  }

  /** A message behind one that panics can be lost: to the crash, or behind four workers that are stuck. */
  lemma MessageBehindPanicsLost(init: State, data: Bytes, other: Bytes) returns (crashed: State, stuck: State)
    requires IsInit(init) && |data| <= BUFFER_CAP && |other| <= BUFFER_CAP && init.panics(data)
    ensures Reachable(crashed) && CanReach(init, crashed) && crashed.crashed && crashed.accepted == [data, other] && crashed.taken == 1
    ensures Reachable(stuck) && !stuck.crashed && |stuck.accepted| == 5 && stuck.accepted[4] == other && stuck.taken == 4
    ensures crashed.ring.head != crashed.ring.tail && !CanBeTaken(crashed)
    ensures stuck.ring.head != stuck.ring.tail && !CanBeTaken(stuck)
  {
    crashed := CrashWithMessageQueued(init, data, other);
    CanBeTakenIff(crashed);
    stuck := AnotherWaits(init, data, 4, other);
    CanBeTakenIff(stuck);
  }

  /** A run can end in a crash exactly if some message that fits a buffer panics. */
  lemma CrashPossibleIff(init: State)
    requires IsInit(init)
    ensures CanCrash(init) <==> exists data: Bytes :: |data| <= BUFFER_CAP && init.panics(data)
  {
    if data: Bytes :| |data| <= BUFFER_CAP && init.panics(data) {
      var crashed, stuck := MessageBehindPanicsLost(init, data, data);
    }
    if CanCrash(init) {
      var t: State :| CanReach(init, t) && t.crashed;
      SameServerReached(init, t);
      OnlyAPanicCrashes(t);
    }
  }

  // ------------------------------------------------------- every schedule

  /** How many of its own steps a worker is from the end of its turn. */
  function Rank(w: Worker): nat {
    match w
    case Checking => 0
    case Acquiring => 1
    case Returning(_) => 2
    case Parked => 2
    case Processing(_, _) => 3
    case Unlocking(_, _) => 4
  }

  function Ranks(ws: seq<Worker>): nat {
    if ws == [] then 0 else Rank(ws[0]) + Ranks(ws[1..])
  }

  lemma {:induction false} RanksUpdate(ws: seq<Worker>, i: nat, w: Worker)
    requires i < |ws|
    ensures Ranks(ws[i := w]) - Rank(w) == Ranks(ws) - Rank(ws[i])
  {
    if i == 0 {
      assert ws[i := w][1..] == ws[1..];
    } else {
      RanksUpdate(ws[1..], i - 1, w);
      assert ws[i := w][1..] == ws[1..][i - 1 := w];
    }
  }

  lemma {:induction false} RanksBound(ws: seq<Worker>)
    ensures Ranks(ws) <= 4 * |ws|
  {
    if ws == [] {
    } else {
      RanksBound(ws[1..]);
    }
  }

  function Work(trace: seq<Action>): nat {
    if trace == [] then 0 else (if IsWork(trace[0]) then 1 else 0) + Work(trace[1..])
  }

  /** What the workers can still do, if nothing more is taken. */
  ghost function WorkLeft(s: State): nat {
    if s.crashed then 0 else Ranks(s.workers)
  }

  lemma RankStep(s: State, a: Action, w: nat)
    requires Enabled(s, a) && s.ring.head != s.ring.tail && !a.Take? && Moves(a, w)
    ensures w < |s.workers| == |Apply(s, a).workers|
    ensures Apply(s, a).crashed ==> Rank(s.workers[w]) > 0
    ensures !Apply(s, a).crashed ==> Rank(Apply(s, a).workers[w]) + (if IsWork(a) then 1 else 0) <= Rank(s.workers[w])
  {
  }

  lemma WorkLowersRanks(s: State, a: Action)
    requires Enabled(s, a) && s.ring.head != s.ring.tail && !a.Take?
    ensures WorkLeft(Apply(s, a)) + (if IsWork(a) then 1 else 0) <= WorkLeft(s)
  {
    if w: nat :| Moves(a, w) {
      RankStep(s, a, w);
      OnlyTheMoverChanges(s, a, w);
      RanksUpdate(s.workers, w, Apply(s, a).workers[w]);
      RankCounted(s.workers, w);
    } else {
      NobodyMoves(s, a);
    }
  }

  lemma {:induction false} RankCounted(ws: seq<Worker>, w: nat)
    requires w < |ws|
    ensures Rank(ws[w]) <= Ranks(ws)
  {
    if w == 0 {
    } else {
      RankCounted(ws[1..], w - 1);
    }
  }

  ghost predicate NoTake(trace: seq<Action>) {
    forall k :: 0 <= k < |trace| ==> !trace[k].Take?
  }

  lemma {:induction false} WorkBounded(s: State, trace: seq<Action>, t: State)
    requires Inv(s) && s.ring.head != s.ring.tail && Leads(s, trace, t) && NoTake(trace)
    ensures Work(trace) + WorkLeft(t) <= WorkLeft(s)
    decreases trace
  {
    if trace == [] {
    } else {
      WorkLowersRanks(s, trace[0]);
      StepKeepsInv(s, trace[0]);
      RingStaysNonempty(s, trace[0]);
      WorkBounded(Apply(s, trace[0]), trace[1..], t);
    }
  }

  /** Under every schedule, the workers together make at most sixteen steps before one of them takes a queued message. */
  lemma WorkersMustTake(s: State, trace: seq<Action>, t: State)
    requires Reachable(s) && s.ring.head != s.ring.tail && Leads(s, trace, t) && NoTake(trace)
    ensures Work(trace) <= 16
  {
    ReachableInv(s);
    WorkBounded(s, trace, t);
    RanksBound(s.workers);
  }
}
