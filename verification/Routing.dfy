/**
  From a datagram to memory: `processMessage` decodes the 32-byte header, and
  `RouteMemoryAccess` writes local memory or sends a command to another node.
 */
module Routing {
  import opened Wrappers
  import opened LittleEndian

  const HEADER_SIZE: nat := 32
  const MEMCPY_OPERATION := 1
  const MEMSET_OPERATION := 2

  // ------------------------------------------------------------------ header

  datatype Header = Header(operation: byte, dstDevice: u64, dataSize: nat, reserved: Bytes)

  ghost predicate IsHeader(h: Header) {
    h.dataSize < 0x1_0000_0000 && |h.reserved| == 19
  }

  function Layout(h: Header): (bs: Bytes)
    requires |h.reserved| == 19
    ensures |bs| == HEADER_SIZE
  {
    ToLE(h.operation, 1) + ToLE(h.dstDevice, 8) + ToLE(h.dataSize, 4) + h.reserved
  }

  /** `binary.Read` of the packed little-endian struct. */
  function Parse(bs: Bytes): (h: Header)
    requires |bs| == HEADER_SIZE
    ensures IsHeader(h)
  {
    FromLEBounded(bs[0..1], 1);
    FromLEBounded(bs[1..9], 8);
    FromLEBounded(bs[9..13], 4);
    Header(FromLE(bs[0..1]), FromLE(bs[1..9]), FromLE(bs[9..13]), bs[13..32])
  }

  lemma FromLEBounded(bs: Bytes, n: nat)
    requires |bs| == n && (n == 1 || n == 4 || n == 8)
    ensures n == 1 ==> FromLE(bs) < 256
    ensures n == 4 ==> FromLE(bs) < 0x1_0000_0000
    ensures n == 8 ==> FromLE(bs) < 0x1_0000_0000_0000_0000
  {
    ToFromLE(bs);
    assert Pow256(1) == 256;
    assert Pow256(4) == 0x1_0000_0000;
    assert Pow256(8) == 0x1_0000_0000_0000_0000;
  }

  /** Parsing inverts the layout for all field values. */
  lemma ParseInvertsLayout(h: Header)
    requires IsHeader(h)
    ensures Parse(Layout(h)) == h
  {
    assert Pow256(1) == 256;
    assert Pow256(4) == 0x1_0000_0000;
    assert Pow256(8) == 0x1_0000_0000_0000_0000;
    FromToLE(h.operation, 1);
    FromToLE(h.dstDevice, 8);
    FromToLE(h.dataSize, 4);
    var bs := Layout(h);
    assert bs[0..1] == ToLE(h.operation, 1);
    assert bs[1..9] == ToLE(h.dstDevice, 8);
    assert bs[9..13] == ToLE(h.dataSize, 4);
    assert bs[13..32] == h.reserved;
  }

  /** Every 32-byte string is the layout of the header it parses to. */
  lemma LayoutInvertsParse(bs: Bytes)
    requires |bs| == HEADER_SIZE
    ensures Layout(Parse(bs)) == bs
  {
    ToFromLE(bs[0..1]);
    ToFromLE(bs[1..9]);
    ToFromLE(bs[9..13]);
    assert bs == bs[0..1] + bs[1..9] + bs[9..13] + bs[13..32];
  }

  // ------------------------------------------------------------ memory effects

  datatype AccessError = PayloadTooSmall | NoValue | MmapFailed | Unsupported | SendFailed

  datatype Access = Done | Failed(error: AccessError) | Panicked

  datatype Command = Command(dstAddress: u64, dataSize: u64, opType: int, data: Bytes)

  function WriteAt(mem: Bytes, addr: nat, data: Bytes): Bytes
    requires addr + |data| <= |mem|
  {
    mem[..addr] + data + mem[addr + |data|..]
  }

  function Fill(value: byte, n: nat): Bytes {
    seq(n, _ => value)
  }

  /** What a copy or a set puts at the destination. */
  function Written(size: nat, operation: int, payload: Bytes): (data: Bytes)
    requires 0 < size && 0 < |payload| && (operation == MEMCPY_OPERATION ==> size <= |payload|)
    ensures |data| == size
  {
    if operation == MEMCPY_OPERATION then payload[..size] else Fill(payload[0], size)
  }

  /**
    What `mmap` answers. The source asks for an anonymous mapping and passes the address as
    its file offset, which gives a private region that is unmapped again; its comments
    describe a mapping of the destination.
   */
  datatype Mapping = Refused | Anonymous | AtDestination

  const SOURCE_MAPPING := Anonymous

  /** An empty mapping is never made, and one of the destination only where there is memory. */
  predicate Mapped(memSize: nat, addr: u64, size: nat, mapping: Mapping) {
    mapping != Refused && size > 0 && (mapping == AtDestination ==> addr + size <= memSize)
  }

  function LocalOutcome(memSize: nat, addr: u64, size: nat, operation: int, payload: Bytes, mapping: Mapping): Access {
    if operation == MEMCPY_OPERATION then
      if |payload| < size then Failed(PayloadTooSmall)
      else if |payload| == 0 then Panicked
      else if Mapped(memSize, addr, size, mapping) then Done else Failed(MmapFailed)
    else if operation == MEMSET_OPERATION then
      if |payload| == 0 then Failed(NoValue)
      else if Mapped(memSize, addr, size, mapping) then Done else Failed(MmapFailed)
    else Failed(Unsupported)
  }

  /** Which node serves an address, and what the kernel and the network answer. */
  datatype World = World(localNode: int, targetNode: int, mapping: Mapping, sendOk: bool)

  datatype Outcome = TooShort | SizeMismatch | Routed(access: Access)

  datatype Write = Write(addr: nat, data: Bytes)

  predicate Accepted(msg: Bytes) {
    |msg| >= HEADER_SIZE && |msg| >= HEADER_SIZE + Parse(msg[..HEADER_SIZE]).dataSize
  }

  function Payload(msg: Bytes): (p: Bytes)
    requires Accepted(msg)
    ensures |p| == Parse(msg[..HEADER_SIZE]).dataSize
  {
    msg[HEADER_SIZE..HEADER_SIZE + Parse(msg[..HEADER_SIZE]).dataSize]
  }

  /** Processing the message here panics: a local copy of no bytes takes the address of the first one. */
  predicate Panics(msg: Bytes, world: World) {
    && Accepted(msg) && world.targetNode == world.localNode
    && Parse(msg[..HEADER_SIZE]).operation == MEMCPY_OPERATION && Parse(msg[..HEADER_SIZE]).dataSize == 0
  }

  /** The write to this node's memory that a message amounts to, if any. */
  function WriteOf(msg: Bytes, memSize: nat, world: World): (w: Option<Write>)
    ensures w.Some? ==> w.value.addr + |w.value.data| <= memSize
  {
    if !Accepted(msg) || world.targetNode != world.localNode then None
    else
      var h := Parse(msg[..HEADER_SIZE]);
      if LocalOutcome(memSize, h.dstDevice, h.dataSize, h.operation, Payload(msg), world.mapping) == Done
         && world.mapping == AtDestination
      then Some(Write(h.dstDevice, Written(h.dataSize, h.operation, Payload(msg))))
      else None
  }

  function Perform(mem: Bytes, w: Write): (r: Bytes)
    requires w.addr + |w.data| <= |mem|
    ensures |r| == |mem|
  {
    WriteAt(mem, w.addr, w.data)
  }

  /** One NUMA node: its memory, and the commands it has sent to others. */
  class Node {
    const memory: array<byte>
    var sent: seq<(int, Command)>

    constructor (memory: array<byte>)
      ensures this.memory == memory && sent == []
    {
      this.memory := memory;
      sent := [];
    }

    method AccessViaXBus(addr: u64, size: nat, operation: int, payload: Bytes, mapping: Mapping) returns (r: Access)
      modifies memory
      ensures r == LocalOutcome(memory.Length, addr, size, operation, payload, mapping)
      ensures memory[..] == if r == Done && mapping == AtDestination
                            then WriteAt(old(memory[..]), addr, Written(size, operation, payload)) else old(memory[..])
      ensures r == Done && mapping == AtDestination ==>
                forall a :: 0 <= a < memory.Length ==>
                              memory[a] == if addr <= a < addr + size
                              then (if operation == MEMCPY_OPERATION then payload[a - addr] else payload[0])
                              else old(memory[a])
    {
      if operation == MEMCPY_OPERATION {
        if |payload| < size {
          return Failed(PayloadTooSmall);
        }
        if |payload| == 0 {
          return Panicked;
        }
        if !Mapped(memory.Length, addr, size, mapping) {
          return Failed(MmapFailed);
        }
        var sharedMem, base := Mmap(addr, size, mapping);
        var n := if size < |payload| then size else |payload|;
        forall i | 0 <= i < n {
          sharedMem[base + i] := payload[i];
        }
        assert mapping == AtDestination ==> memory[..] == WriteAt(old(memory[..]), addr, payload[..size]);
        return Done;
      } else if operation == MEMSET_OPERATION {
        if |payload| < 1 {
          return Failed(NoValue);
        }
        var value := payload[0];
        if !Mapped(memory.Length, addr, size, mapping) {
          return Failed(MmapFailed);
        }
        var sharedMem, base := Mmap(addr, size, mapping);
        ghost var before := sharedMem[..];
        for i := 0 to size
          invariant forall a :: 0 <= a < sharedMem.Length ==>
                                  sharedMem[a] == if base <= a < base + i then value else before[a]
          invariant mapping != AtDestination ==> memory[..] == old(memory[..])
        {
          sharedMem[base + i] := value;
        }
        assert mapping == AtDestination ==> memory[..] == WriteAt(old(memory[..]), addr, Fill(value, size));
        return Done;
      } else {
        return Failed(Unsupported);
      }
    }

    /** The bytes a mapping shows: those of the memory from `addr`, or a fresh region of their own. */
    method Mmap(addr: u64, size: nat, mapping: Mapping) returns (shared: array<byte>, base: nat)
      requires Mapped(memory.Length, addr, size, mapping)
      ensures if mapping == AtDestination then shared == memory && base == addr
              else fresh(shared) && shared.Length == size && base == 0
    {
      if mapping == AtDestination {
        return memory, addr;
      }
      shared := new byte[size](_ => 0);
      return shared, 0;
    }

    method RouteMemoryAccess(addr: u64, size: nat, operation: int, payload: Bytes, world: World) returns (r: Access)
      requires size < 0x1_0000_0000_0000_0000
      modifies this, memory
      ensures world.targetNode == world.localNode ==>
                && r == LocalOutcome(memory.Length, addr, size, operation, payload, world.mapping)
                && sent == old(sent)
      ensures memory[..] == if r == Done && world.targetNode == world.localNode && world.mapping == AtDestination
                            then WriteAt(old(memory[..]), addr, Written(size, operation, payload)) else old(memory[..])
      ensures world.targetNode != world.localNode ==>
                && r == (if world.sendOk then Done else Failed(SendFailed))
                && sent == old(sent) + (if world.sendOk then [(world.targetNode, Command(addr, size, operation, payload))] else [])
    {
      if world.targetNode == world.localNode {
        r := AccessViaXBus(addr, size, operation, payload, world.mapping);
      } else {
        if !world.sendOk {
          return Failed(SendFailed);
        }
        sent := sent + [(world.targetNode, Command(addr, size, operation, payload))];
        return Done;
      }
    }

    /** A message is accepted exactly when it holds its header and as many bytes as that announces. */
    method ProcessMessage(msg: Bytes, world: World) returns (outcome: Outcome)
      modifies this, memory
      ensures outcome == TooShort <==> |msg| < HEADER_SIZE
      ensures outcome.Routed? <==> Accepted(msg)
      ensures memory[..] == (match WriteOf(msg, memory.Length, world)
                             case None => old(memory[..])
                             case Some(w) => Perform(old(memory[..]), w))
      ensures sent == old(sent) +
                      (if Accepted(msg) && world.targetNode != world.localNode && world.sendOk then
                         var h := Parse(msg[..HEADER_SIZE]);
                         [(world.targetNode, Command(h.dstDevice, h.dataSize, h.operation, Payload(msg)))]
                       else [])
      ensures Accepted(msg) && world.targetNode == world.localNode ==>
                var h := Parse(msg[..HEADER_SIZE]);
                && outcome.access == LocalOutcome(memory.Length, h.dstDevice, h.dataSize, h.operation, Payload(msg), world.mapping)
                && outcome.access != Failed(PayloadTooSmall)
      ensures outcome == Routed(Panicked) <==> Panics(msg, world)
    {
      if |msg| < HEADER_SIZE {
        return TooShort;
      }
      var h := Parse(msg[..HEADER_SIZE]);
      var expectedSize := HEADER_SIZE + h.dataSize;
      if |msg| < expectedSize {
        return SizeMismatch;
      }
      var payload := msg[HEADER_SIZE..HEADER_SIZE + h.dataSize];
      var access := RouteMemoryAccess(h.dstDevice, h.dataSize, h.operation, payload, world);
      return Routed(access);
    }
  }

  /** A local write changes the bytes from addr to addr + size, to what was asked, and no others. */
  lemma WriteChangesExactlyItsRange(mem: Bytes, addr: nat, data: Bytes)
    requires addr + |data| <= |mem|
    ensures |WriteAt(mem, addr, data)| == |mem|
    ensures forall a :: 0 <= a < |mem| ==>
                          WriteAt(mem, addr, data)[a] == if addr <= a < addr + |data| then data[a - addr] else mem[a]
  {
  }

  // ---------------------------------------------------------- many messages

  ghost predicate Fit(ws: seq<Write>, memSize: nat) {
    forall w :: w in ws ==> w.addr + |w.data| <= memSize
  }

  function PerformAll(mem: Bytes, ws: seq<Write>): (r: Bytes)
    requires Fit(ws, |mem|)
    ensures |r| == |mem|
  {
    if ws == [] then mem else Perform(PerformAll(mem, ws[..|ws| - 1]), ws[|ws| - 1])
  }

  ghost predicate Covers(w: Write, a: nat) {
    w.addr <= a < w.addr + |w.data|
  }

  function ByteOf(w: Write, a: nat): byte
    requires w.addr <= a < w.addr + |w.data|
  {
    w.data[a - w.addr]
  }

  /** Writes that touch the same byte say the same about it. */
  ghost predicate Agree(ws: seq<Write>) {
    forall v, w, a: nat :: v in ws && w in ws && Covers(v, a) && Covers(w, a) ==> ByteOf(v, a) == ByteOf(w, a)
  }

  lemma PerformPush(mem: Bytes, ws: seq<Write>, w: Write)
    requires Fit(ws, |mem|) && w.addr + |w.data| <= |mem|
    ensures Fit(ws + [w], |mem|) && PerformAll(mem, ws + [w]) == Perform(PerformAll(mem, ws), w)
  {
    assert (ws + [w])[..|ws + [w]| - 1] == ws;
  }

  /** Each byte ends as the last write that covers it says. */
  lemma LastWriteWins(mem: Bytes, ws: seq<Write>, w: Write, a: nat)
    requires Fit(ws, |mem|) && w.addr + |w.data| <= |mem| && a < |mem|
    ensures Fit(ws + [w], |mem|)
    ensures PerformAll(mem, ws + [w])[a] == if Covers(w, a) then ByteOf(w, a) else PerformAll(mem, ws)[a]
  {
    PerformPush(mem, ws, w);
    WriteChangesExactlyItsRange(PerformAll(mem, ws), w.addr, w.data);
  }

  /** Each byte ends as one of the writes that cover it says, or as it was. */
  lemma {:induction false} ByteAfterAll(mem: Bytes, ws: seq<Write>, a: nat)
    requires Fit(ws, |mem|) && a < |mem|
    ensures (forall w :: w in ws ==> !Covers(w, a)) ==> PerformAll(mem, ws)[a] == mem[a]
    ensures (exists w :: w in ws && Covers(w, a)) ==> exists w :: w in ws && Covers(w, a) && PerformAll(mem, ws)[a] == ByteOf(w, a)
  {
    if ws == [] {
    } else {
      var init, last := ws[..|ws| - 1], ws[|ws| - 1];
      ByteAfterAll(mem, init, a);
      assert ws == init + [last];
      LastWriteWins(mem, init, last, a);
      if !Covers(last, a) {
        if w :| w in init && Covers(w, a) && PerformAll(mem, init)[a] == ByteOf(w, a) {
          assert w in ws;
        }
      }
    }
  }

  /** The same agreeing writes leave the same memory, in whatever order and however often they are performed. */
  lemma AnyOrderSameMemory(mem: Bytes, ws: seq<Write>, vs: seq<Write>)
    requires Fit(ws, |mem|) && Agree(ws)
    requires forall w :: w in ws <==> w in vs
    ensures PerformAll(mem, ws) == PerformAll(mem, vs)
  {
    forall a | 0 <= a < |mem|
      ensures PerformAll(mem, ws)[a] == PerformAll(mem, vs)[a]
    {
      ByteAfterAll(mem, ws, a);
      ByteAfterAll(mem, vs, a);
      if w :| w in ws && Covers(w, a) {
        assert w in vs;
      }
    }
  }

  /** A well-formed copy message is done, and leaves its payload at its address, if the mapping shows the destination. */
  lemma CopyMessageArrives(h: Header, payload: Bytes, mem: Bytes, world: World)
    requires IsHeader(h) && h.operation == MEMCPY_OPERATION && h.dataSize == |payload| > 0
    requires world.targetNode == world.localNode && world.mapping == AtDestination
    requires h.dstDevice + |payload| <= |mem|
    ensures WriteOf(Layout(h) + payload, |mem|, world) == Some(Write(h.dstDevice, payload))
    ensures WriteAt(mem, h.dstDevice, payload)[h.dstDevice..h.dstDevice + |payload|] == payload
  {
    var msg := Layout(h) + payload;
    ParseInvertsLayout(h);
    assert msg[..HEADER_SIZE] == Layout(h);
    assert Accepted(msg) && Payload(msg) == payload;
    assert payload[..|payload|] == payload;
  }

  /** A local message of operation `op`, for `n` bytes at `addr`, by its bytes alone; the destination is mapped. */
  ghost predicate LocalRequest(msg: Bytes, op: byte, addr: nat, n: nat, memSize: nat, world: World) {
    && |msg| >= 32 + n && n > 0 && msg[0] == op
    && FromLE(msg[1..9]) == addr && FromLE(msg[9..13]) == n
    && addr + n <= memSize && world.targetNode == world.localNode && world.mapping == AtDestination
  }

  lemma ParsedRequest(msg: Bytes, op: byte, addr: nat, n: nat, memSize: nat, world: World)
    requires LocalRequest(msg, op, addr, n, memSize, world)
    ensures Accepted(msg)
    ensures var h := Parse(msg[..HEADER_SIZE]);
            h.operation == op && h.dstDevice == addr && h.dataSize == n && Payload(msg) == msg[32..32 + n]
  {
    var bs := msg[..HEADER_SIZE];
    assert bs[0..1] == [msg[0]] && bs[1..9] == msg[1..9] && bs[9..13] == msg[9..13];
    assert FromLE([msg[0]]) == msg[0] + 256 * FromLE([]);
  }

  /** After a copy each byte of the range is the byte of the message that many places after the header, and no other has changed. */
  lemma CopiedBytes(msg: Bytes, addr: nat, n: nat, mem: Bytes, world: World)
    requires LocalRequest(msg, 1, addr, n, |mem|, world)
    ensures WriteOf(msg, |mem|, world).Some?
    ensures forall a :: 0 <= a < |mem| ==>
                          Perform(mem, WriteOf(msg, |mem|, world).value)[a] == if addr <= a < addr + n then msg[32 + (a - addr)] else mem[a]
  {
    ParsedRequest(msg, 1, addr, n, |mem|, world);
  }

  /** After a set each byte of the range is the first byte after the header, and no other has changed. */
  lemma SetMessageArrives(msg: Bytes, addr: nat, n: nat, mem: Bytes, world: World)
    requires LocalRequest(msg, 2, addr, n, |mem|, world)
    ensures WriteOf(msg, |mem|, world).Some?
    ensures forall a :: 0 <= a < |mem| ==>
                          Perform(mem, WriteOf(msg, |mem|, world).value)[a] == if addr <= a < addr + n then msg[32] else mem[a]
  {
    ParsedRequest(msg, 2, addr, n, |mem|, world);
  }

  /** Each error of a local access, and what is asked for when it comes. */
  lemma LocalErrors(memSize: nat, addr: u64, size: nat, operation: int, payload: Bytes, mapping: Mapping)
    ensures var r := LocalOutcome(memSize, addr, size, operation, payload, mapping);
            && (r == Failed(Unsupported) <==> operation != 1 && operation != 2)
            && (r == Failed(PayloadTooSmall) <==> operation == 1 && |payload| < size)
            && (r == Failed(NoValue) <==> operation == 2 && payload == [])
            && (r == Panicked <==> operation == 1 && size == 0 && payload == [])
            && (r == Done <==> operation in {1, 2} && payload != [] && (operation == 1 ==> size <= |payload|)
                               && size > 0 && mapping != Refused && (mapping == AtDestination ==> addr + size <= memSize))
            && r != Failed(SendFailed)
  {
  }

  /** Work that is reported done has reached this node's memory exactly if the mapping showed the destination. */
  lemma ReachesMemoryIff(msg: Bytes, memSize: nat, world: World)
    requires Accepted(msg) && world.targetNode == world.localNode
    requires var h := Parse(msg[..HEADER_SIZE]);
             LocalOutcome(memSize, h.dstDevice, h.dataSize, h.operation, Payload(msg), world.mapping) == Done
    ensures WriteOf(msg, memSize, world).Some? <==> world.mapping == AtDestination
  {
  }

  /**
    With the mapping the source asks for, every local copy or set of at least one byte is reported done,
    nothing else is, and no message of any kind changes memory.
   */
  lemma AsWrittenNothingArrives(msg: Bytes, memSize: nat, world: World)
    requires Accepted(msg) && world.targetNode == world.localNode && world.mapping == SOURCE_MAPPING
    ensures var h := Parse(msg[..HEADER_SIZE]);
            LocalOutcome(memSize, h.dstDevice, h.dataSize, h.operation, Payload(msg), world.mapping) == Done
            <==> h.operation in {MEMCPY_OPERATION, MEMSET_OPERATION} && h.dataSize > 0
    ensures WriteOf(msg, memSize, world) == None
  {
  }

  /** The thirty-two byte datagram that asks for a copy of no bytes to `addr`. */
  function ZeroCopy(addr: u64): Bytes {
    Layout(Header(MEMCPY_OPERATION, addr, 0, Fill(0, 19)))
  }

  lemma ZeroCopyPanics(addr: u64, world: World)
    ensures Accepted(ZeroCopy(addr)) && |ZeroCopy(addr)| == HEADER_SIZE
    ensures Panics(ZeroCopy(addr), world) <==> world.targetNode == world.localNode
  {
    ParseInvertsLayout(Header(MEMCPY_OPERATION, addr, 0, Fill(0, 19)));
    assert ZeroCopy(addr)[..HEADER_SIZE] == ZeroCopy(addr);
  }
}
