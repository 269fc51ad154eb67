/**
  The data plane and the message processing together: what four workers that finish
  in any order do to the node's memory.
 */
module Server {
  import opened Wrappers
  import DataPlane
  import opened Routing

  /** The local writes a series of messages amounts to; `world` says how each message is routed and granted. */
  function Writes(msgs: seq<Bytes>, memSize: nat, world: Bytes -> World): (ws: seq<Write>)
    ensures forall w :: w in ws ==> w.addr + |w.data| <= memSize
  {
    if msgs == [] then []
    else
      var before := Writes(msgs[..|msgs| - 1], memSize, world);
      match WriteOf(msgs[|msgs| - 1], memSize, world(msgs[|msgs| - 1]))
      case None => before
      case Some(w) => before + [w]
  }

  lemma {:induction false} WritesAreOfMessages(msgs: seq<Bytes>, memSize: nat, world: Bytes -> World)
    ensures forall w :: w in Writes(msgs, memSize, world) <==>
                        exists k :: 0 <= k < |msgs| && WriteOf(msgs[k], memSize, world(msgs[k])) == Some(w)
  {
    if msgs == [] {
    } else {
      var init, last := msgs[..|msgs| - 1], msgs[|msgs| - 1];
      WritesAreOfMessages(init, memSize, world);
      forall w
        ensures w in Writes(msgs, memSize, world) <==>
                exists k :: 0 <= k < |msgs| && WriteOf(msgs[k], memSize, world(msgs[k])) == Some(w)
      {
        if w in Writes(init, memSize, world) {
          var k :| 0 <= k < |init| && WriteOf(init[k], memSize, world(init[k])) == Some(w);
          assert msgs[k] == init[k];
        }
        if k :| 0 <= k < |msgs| && WriteOf(msgs[k], memSize, world(msgs[k])) == Some(w) {
          if k < |init| {
            assert init[k] == msgs[k];
          }
        }
      }
    }
  }

  /** The messages in the order in which they were processed. */
  function Processed(s: DataPlane.State): seq<Bytes> {
    DataPlane.Data(s.delivered)
  }

  /** The data plane runs on the node that `world` describes: the same messages panic. */
  ghost predicate RunsOn(s: DataPlane.State, world: Bytes -> World) {
    forall m: Bytes :: s.panics(m) <==> Panics(m, world(m))
  }

  /** A run can end in a crash exactly if a message that fits a buffer is a local copy of no bytes. */
  lemma CrashPossibleIff(init: DataPlane.State, world: Bytes -> World)
    requires DataPlane.IsInit(init) && RunsOn(init, world)
    ensures DataPlane.CanCrash(init) <==> exists data: Bytes :: |data| <= DataPlane.BUFFER_CAP && Panics(data, world(data))
  {
    DataPlane.CrashPossibleIff(init);
    if data: Bytes :| |data| <= DataPlane.BUFFER_CAP && init.panics(data) {
      assert Panics(data, world(data));
    }
    if data: Bytes :| |data| <= DataPlane.BUFFER_CAP && Panics(data, world(data)) {
      assert init.panics(data);
    }
  }

  /** One such message is enough, whichever local address it names. */
  lemma ZeroCopyEndsTheServer(init: DataPlane.State, world: Bytes -> World, addr: u64)
    requires DataPlane.IsInit(init) && RunsOn(init, world)
    requires world(ZeroCopy(addr)).targetNode == world(ZeroCopy(addr)).localNode
    ensures DataPlane.CanCrash(init)
  {
    ZeroCopyPanics(addr, world(ZeroCopy(addr)));
    CrashPossibleIff(init, world);
  }

  /** A message accepted behind it can be lost. */
  lemma MessageBehindZeroCopyLost(init: DataPlane.State, world: Bytes -> World, addr: u64, other: Bytes) returns (s: DataPlane.State)
    requires DataPlane.IsInit(init) && RunsOn(init, world) && |other| <= DataPlane.BUFFER_CAP
    requires world(ZeroCopy(addr)).targetNode == world(ZeroCopy(addr)).localNode
    ensures DataPlane.CanReach(init, s) && s.accepted == [ZeroCopy(addr), other] && s.taken == 1
    ensures s.ring.head != s.ring.tail && !DataPlane.CanBeTaken(s)
  {
    ZeroCopyPanics(addr, world(ZeroCopy(addr)));
    var stuck;
    s, stuck := DataPlane.MessageBehindPanicsLost(init, ZeroCopy(addr), other);
  }

  /** Series of the same messages amount to the same writes. */
  lemma SameMessagesSameWrites(msgs: seq<Bytes>, more: seq<Bytes>, memSize: nat, world: Bytes -> World, w: Write)
    requires forall m :: m in msgs ==> m in more
    requires w in Writes(msgs, memSize, world)
    ensures w in Writes(more, memSize, world)
  {
    WritesAreOfMessages(msgs, memSize, world);
    WritesAreOfMessages(more, memSize, world);
    var k :| 0 <= k < |msgs| && WriteOf(msgs[k], memSize, world(msgs[k])) == Some(w);
    assert msgs[k] in more;
    var j :| 0 <= j < |more| && more[j] == msgs[k];
  }

  lemma ProcessedAreAccepted(s: DataPlane.State)
    requires DataPlane.Reachable(s) && DataPlane.Quiescent(s)
    ensures forall m: Bytes :: m in Processed(s) <==> m in s.accepted
  {
    DataPlane.QuiescentMeansAllProcessed(s, 0);
    forall m: Bytes | m in s.accepted
      ensures m in Processed(s)
    {
      var j :| 0 <= j < |s.delivered| && s.delivered[j].data == m;
      assert Processed(s)[j] == m;
    }
  }

  /**
    A quiescent state has seen no panic, and in every such state of every run, if the accepted messages ask for
    writes that agree wherever they meet, memory is what handling them one after the other in order of arrival would have left.
   */
  lemma MemoryAsInArrivalOrder(s: DataPlane.State, mem: Bytes, world: Bytes -> World)
    requires DataPlane.Reachable(s) && DataPlane.Quiescent(s) && RunsOn(s, world)
    requires Agree(Writes(s.accepted, |mem|, world))
    ensures !s.crashed && forall m :: m in s.accepted ==> !Panics(m, world(m))
    ensures PerformAll(mem, Writes(Processed(s), |mem|, world)) == PerformAll(mem, Writes(s.accepted, |mem|, world))
  {
    DataPlane.QuiescentMeansAllProcessed(s, 0);
    ProcessedAreAccepted(s);
    forall w
      ensures w in Writes(s.accepted, |mem|, world) <==> w in Writes(Processed(s), |mem|, world)
    {
      if w in Writes(s.accepted, |mem|, world) {
        SameMessagesSameWrites(s.accepted, Processed(s), |mem|, world, w);
      }
      if w in Writes(Processed(s), |mem|, world) {
        SameMessagesSameWrites(Processed(s), s.accepted, |mem|, world, w);
      }
    }
    AnyOrderSameMemory(mem, Writes(s.accepted, |mem|, world), Writes(Processed(s), |mem|, world));
  }

  /** However the workers are scheduled, handling exactly these messages leaves the memory that arrival order would. */
  ghost predicate ScheduleFree(init: DataPlane.State, msgs: seq<Bytes>, mem: Bytes, world: Bytes -> World) {
    forall s: DataPlane.State :: DataPlane.CanReach(init, s) && DataPlane.Quiescent(s) && s.accepted == msgs ==>
                                   PerformAll(mem, Writes(Processed(s), |mem|, world)) == PerformAll(mem, Writes(msgs, |mem|, world))
  }

  /** The run that finishes message `x` last leaves at each byte it writes what it says. */
  lemma LastMessageWins(init: DataPlane.State, msgs: seq<Bytes>, x: nat, mem: Bytes, world: Bytes -> World, w: Write, a: nat)
    returns (s: DataPlane.State)
    requires DataPlane.IsInit(init) && x < |msgs|
    requires forall m :: m in msgs ==> |m| <= DataPlane.BUFFER_CAP && !init.panics(m)
    requires WriteOf(msgs[x], |mem|, world(msgs[x])) == Some(w) && Covers(w, a)
    ensures DataPlane.CanReach(init, s) && DataPlane.Quiescent(s) && s.accepted == msgs
    ensures PerformAll(mem, Writes(Processed(s), |mem|, world))[a] == ByteOf(w, a)
  {
    s := DataPlane.AnyoneCanBeLast(init, msgs, x);
    var before := DataPlane.Without(msgs, x);
    assert Processed(s)[..|Processed(s)| - 1] == before;
    LastWriteWins(mem, Writes(before, |mem|, world), w, a);
  }

  /** The schedule cannot be seen in memory exactly if the messages' writes agree wherever they meet. */
  lemma ScheduleFreeIff(init: DataPlane.State, msgs: seq<Bytes>, mem: Bytes, world: Bytes -> World)
    requires DataPlane.IsInit(init) && RunsOn(init, world)
    requires forall m :: m in msgs ==> |m| <= DataPlane.BUFFER_CAP && !Panics(m, world(m))
    ensures ScheduleFree(init, msgs, mem, world) <==> Agree(Writes(msgs, |mem|, world))
  {
    var ws := Writes(msgs, |mem|, world);
    if Agree(ws) {
      forall s: DataPlane.State | DataPlane.CanReach(init, s) && DataPlane.Quiescent(s) && s.accepted == msgs
        ensures PerformAll(mem, Writes(Processed(s), |mem|, world)) == PerformAll(mem, ws)
      {
        DataPlane.SameServerReached(init, s);
        MemoryAsInArrivalOrder(s, mem, world);
      }
    } else {
      var v, w, a: nat :| v in ws && w in ws && Covers(v, a) && Covers(w, a) && ByteOf(v, a) != ByteOf(w, a);
      var u := if ByteOf(v, a) != PerformAll(mem, ws)[a] then v else w;
      WritesAreOfMessages(msgs, |mem|, world);
      var x :| 0 <= x < |msgs| && WriteOf(msgs[x], |mem|, world(msgs[x])) == Some(u);
      assert forall m :: m in msgs ==> !init.panics(m);
      var s := LastMessageWins(init, msgs, x, mem, world, u, a);
    }
  }

  /** The message that copies one byte to `addr`. */
  function CopyOf(x: byte, addr: u64): Bytes {
    Layout(Header(MEMCPY_OPERATION, addr, 1, Fill(0, 19))) + [x]
  }

  lemma CopyOfWrites(x: byte, addr: u64, mem: Bytes, world: World)
    requires addr < |mem| && world.targetNode == world.localNode && world.mapping == AtDestination
    ensures |CopyOf(x, addr)| <= DataPlane.BUFFER_CAP && !Panics(CopyOf(x, addr), world)
    ensures WriteOf(CopyOf(x, addr), |mem|, world) == Some(Write(addr, [x]))
  {
    CopyMessageArrives(Header(MEMCPY_OPERATION, addr, 1, Fill(0, 19)), [x], mem, world);
  }

  /** Two copies of different bytes to one local address: with a mapping of the destination the schedule decides. */
  lemma TwoCopiesRace(init: DataPlane.State, x: byte, y: byte, addr: u64, mem: Bytes, world: Bytes -> World)
    requires DataPlane.IsInit(init) && RunsOn(init, world) && x != y && addr < |mem|
    requires forall m: Bytes :: world(m).targetNode == world(m).localNode && world(m).mapping == AtDestination
    ensures !ScheduleFree(init, [CopyOf(x, addr), CopyOf(y, addr)], mem, world)
  {
    var msgs := [CopyOf(x, addr), CopyOf(y, addr)];
    CopyOfWrites(x, addr, mem, world(msgs[0]));
    CopyOfWrites(y, addr, mem, world(msgs[1]));
    WritesAreOfMessages(msgs, |mem|, world);
    var v, w := Write(addr, [x]), Write(addr, [y]);
    assert v in Writes(msgs, |mem|, world) && w in Writes(msgs, |mem|, world);
    assert Covers(v, addr) && Covers(w, addr) && ByteOf(v, addr) != ByteOf(w, addr);
    ScheduleFreeIff(init, msgs, mem, world);
  }
}
