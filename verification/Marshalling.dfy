/**
  Kernel parameters on both sides of the wire: `convertToKernelLaunch` counts and
  packs them on the client, `prepareParamBuffer` joins them in a recycled buffer
  on the server.
 */
module Marshalling {
  import opened Wrappers
  import opened LittleEndian

  const WORD: nat := 8

  // ------------------------------------------------------------------- client

  /** The launcher's answer for an argument that may be a device pointer. */
  datatype Location = Location(nodeId: nat, memoryType: nat)

  predicate Known(l: Location) {
    l.nodeId != 0xFFFF_FFFF
  }

  datatype ParamType = Scalar | Pointer

  datatype Param = Param(kind: ParamType, value: Bytes, location: Option<Location>, alignment: nat, offset: nat)

  /** The launcher's location table and the caller's memory, as the packing loop reads them. */
  datatype Memory = Memory(locate: u64 -> Location, word: u64 -> u64)

  /** A located pointer travels as itself with its location, anything else as the word it points at. */
  function Pack(p: u64, m: Memory): Param {
    if Known(m.locate(p)) then Param(Pointer, ToLE(p, WORD), Some(m.locate(p)), 8, 0)
    else Param(Scalar, ToLE(m.word(p), WORD), None, 8, 0)
  }

  /** What the server sees of a packed parameter. */
  lemma PackedParameter(p: u64, m: Memory)
    ensures var q := Pack(p, m);
            && (q.kind == Pointer <==> m.locate(p).nodeId != 0xFFFF_FFFF)
            && (q.kind == Pointer ==> q.location == Some(m.locate(p)) && FromLE(q.value) == p)
            && (q.kind == Scalar ==> q.location == None && FromLE(q.value) == m.word(p))
            && |q.value| == q.alignment == 8 && q.offset == 0
  {
    assert Pow256(8) == 0x1_0000_0000_0000_0000;
    FromToLE(p, WORD);
    FromToLE(m.word(p), WORD);
  }

  /** The number of leading non-null entries, at most `max`. */
  ghost predicate IsParamCount(params: seq<u64>, max: nat, count: nat) {
    && count <= max && count <= |params|
    && (forall i :: 0 <= i < count ==> params[i] != 0)
    && (count < max ==> count < |params| && params[count] == 0)
  }

  /**
    The counting and packing loops of `convertToKernelLaunch`. The loop test looks at an
    entry before it looks at the bound, so the array must be readable one entry further
    unless it holds a null.
   */
  method ConvertToKernelLaunch(kernelParams: array<u64>, max: nat, m: Memory) returns (params: seq<Param>)
    requires kernelParams.Length > max || exists k :: 0 <= k < kernelParams.Length && kernelParams[k] == 0
    ensures IsParamCount(kernelParams[..], max, |params|)
    ensures forall i :: 0 <= i < |params| ==> params[i] == Pack(kernelParams[i], m)
  {
    var paramCount := 0;
    while kernelParams[paramCount] != 0 && paramCount < max
      invariant paramCount <= max && paramCount < kernelParams.Length
      invariant forall i :: 0 <= i < paramCount ==> kernelParams[i] != 0
      decreases max - paramCount
    {
      paramCount := paramCount + 1;
    }
    params := [];
    for i := 0 to paramCount
      invariant |params| == i
      invariant forall j :: 0 <= j < i ==> params[j] == Pack(kernelParams[j], m)
    {
      params := params + [Pack(kernelParams[i], m)];
    }
  }

  // ------------------------------------------------------------------- server

  datatype Fault = SliceBounds | EmptyBuffer

  function Concat(values: seq<Bytes>): Bytes {
    if values == [] then [] else Concat(values[..|values| - 1]) + values[|values| - 1]
  }

  /** `copy(buf[offset:], value)`: as much of the value as fits. */
  function CopyAt(buf: Bytes, offset: nat, value: Bytes): (r: Bytes)
    requires offset <= |buf|
    ensures |r| == |buf|
  {
    var n := if |value| <= |buf| - offset then |value| else |buf| - offset;
    buf[..offset] + value[..n] + buf[offset + n..]
  }

  /** The overlap of two byte strings laid from the same start: `over` wins, `under` shows where `over` ends. */
  function Overlay(over: Bytes, under: Bytes): (r: Bytes)
    ensures |r| == |under|
  {
    if |over| <= |under| then over + under[|over|..] else over[..|under|]
  }

  /** Whether some copy would start beyond the end of the buffer. */
  ghost predicate Overruns(values: seq<Bytes>, totalSize: nat) {
    exists k :: 0 <= k < |values| && |Concat(values[..k])| > totalSize
  }

  function Recycled(pooled: Bytes, totalSize: nat): (r: Bytes)
    ensures |r| == totalSize
  {
    if |pooled| < totalSize then seq(totalSize, _ => 0) else pooled[..totalSize]
  }

  /** The outcome for an announced size: a fault, or the joined values laid over the recycled bytes. */
  ghost predicate Prepared(values: seq<Bytes>, totalSize: nat, pooled: Bytes, result: Result<Bytes, Fault>) {
    if Overruns(values, totalSize) then result == Err(SliceBounds)
    else if totalSize == 0 then result == Err(EmptyBuffer)
    else result == Ok(Overlay(Concat(values), Recycled(pooled, totalSize)))
  }

  /**
    The buffer `prepareParamBuffer` hands to the device. `pooled` is the recycled backing
    array: used as it is when it is long enough, replaced by zeros when it is not.
   */
  method PrepareParamBuffer(values: seq<Bytes>, totalSize: nat, pooled: Bytes) returns (result: Result<Bytes, Fault>)
    ensures Prepared(values, totalSize, pooled, result)
  {
    var buf := Recycled(pooled, totalSize);
    var offset := 0;
    for i := 0 to |values|
      invariant offset == |Concat(values[..i])|
      invariant forall k :: 0 <= k < i ==> |Concat(values[..k])| <= totalSize
      invariant buf == Overlay(Concat(values[..i]), Recycled(pooled, totalSize))
    {
      if offset > |buf| {
        return Err(SliceBounds);
      }
      assert values[..i + 1][..i] == values[..i];
      buf := CopyAt(buf, offset, values[i]);
      offset := offset + |values[i]|;
    }
    assert values[..|values|] == values;
    if |buf| == 0 {
      return Err(EmptyBuffer);
    }
    return Ok(buf);
  }

  lemma {:induction false} ConcatGrows(values: seq<Bytes>, k: nat)
    requires k <= |values|
    ensures |Concat(values[..k])| <= |Concat(values)|
    decreases |values|
  {
    if k < |values| {
      assert values[..|values| - 1][..k] == values[..k];
      ConcatGrows(values[..|values| - 1], k);
    } else {
      assert values[..k] == values;
    }
  }

  lemma ExactSizePrepares(values: seq<Bytes>, pooled: Bytes, result: Result<Bytes, Fault>)
    requires |Concat(values)| > 0 && Prepared(values, |Concat(values)|, pooled, result)
    ensures result == Ok(Concat(values))
  {
    forall k | 0 <= k < |values|
      ensures |Concat(values[..k])| <= |Concat(values)|
    {
      ConcatGrows(values, k);
    }
    assert Overlay(Concat(values), Recycled(pooled, |Concat(values)|)) == Concat(values);
  }

  /** The device gets exactly the values in order, whatever the pool held, iff the announced size is their sum and not 0. */
  lemma BufferIsConcatenationIff(values: seq<Bytes>, totalSize: nat, pooled: Bytes, result: Result<Bytes, Fault>)
    requires Prepared(values, totalSize, pooled, result)
    ensures result == Ok(Concat(values)) <==> totalSize == |Concat(values)| && totalSize > 0
  {
    if totalSize == |Concat(values)| && totalSize > 0 {
      ExactSizePrepares(values, pooled, result);
    } else if result.Ok? {
      assert |result.value| == totalSize;
    }
  }

  /** Every byte of a buffer that is handed over: of the values while they last, then of the recycled array, or zero if it was replaced. */
  lemma BytesOfBuffer(values: seq<Bytes>, totalSize: nat, pooled: Bytes, result: Result<Bytes, Fault>, k: nat)
    requires Prepared(values, totalSize, pooled, result) && result.Ok? && k < totalSize
    ensures |result.value| == totalSize
    ensures result.value[k] ==
            if k < |Concat(values)| then Concat(values)[k] else if |pooled| >= totalSize then pooled[k] else 0
  {
  }

  /** The faults: the values but the last do not fit, or the size is 0. */
  lemma FaultIff(values: seq<Bytes>, totalSize: nat, pooled: Bytes, result: Result<Bytes, Fault>)
    requires Prepared(values, totalSize, pooled, result)
    ensures result == Err(SliceBounds) <==> values != [] && |Concat(values[..|values| - 1])| > totalSize
    ensures result == Err(EmptyBuffer) <==> totalSize == 0 && (values == [] || Concat(values[..|values| - 1]) == [])
  {
    if k :| 0 <= k < |values| && |Concat(values[..k])| > totalSize {
      var init := values[..|values| - 1];
      assert init[..k] == values[..k];
      ConcatGrows(init, k);
    }
    if values != [] && |Concat(values[..|values| - 1])| > totalSize {
      assert Overruns(values, totalSize);
    }
  }

  // -------------------------------------------------------------- end to end

  function Values(params: seq<Param>): seq<Bytes> {
    seq(|params|, i requires 0 <= i < |params| => params[i].value)
  }

  lemma SlicePrefix(a: Bytes, b: Bytes, from: nat, to: nat)
    requires from <= to <= |a|
    ensures (a + b)[from..to] == a[from..to]
  {
  }

  lemma SliceSuffix(a: Bytes, b: Bytes)
    ensures (a + b)[|a|..|a| + |b|] == b
  {
  }

  /** Eight-byte values lie one after the other, the i-th at bytes 8i to 8i + 8. */
  lemma {:induction false} WordsAtMultiples(values: seq<Bytes>)
    requires forall i :: 0 <= i < |values| ==> |values[i]| == WORD
    ensures |Concat(values)| == WORD * |values|
    ensures forall i :: 0 <= i < |values| ==> Concat(values)[WORD * i..WORD * i + WORD] == values[i]
  {
    if values == [] {
    } else {
      var init, last := values[..|values| - 1], values[|values| - 1];
      WordsAtMultiples(init);
      assert Concat(values) == Concat(init) + last;
      forall i | 0 <= i < |values|
        ensures Concat(values)[WORD * i..WORD * i + WORD] == values[i]
      {
        if i < |init| {
          SlicePrefix(Concat(init), last, WORD * i, WORD * i + WORD);
        } else {
          SliceSuffix(Concat(init), last);
        }
      }
    }
  }

  /** With the size set to eight bytes a parameter, the server's buffer decodes back to the client's words in order. */
  lemma ParametersArrive(raw: seq<u64>, m: Memory, params: seq<Param>, pooled: Bytes, result: Result<Bytes, Fault>)
    requires 0 < |params| <= |raw|
    requires forall i :: 0 <= i < |params| ==> params[i] == Pack(raw[i], m)
    requires Prepared(Values(params), WORD * |params|, pooled, result)
    ensures result.Ok? && |result.value| == WORD * |params|
    ensures forall i :: 0 <= i < |params| ==>
                          FromLE(result.value[8 * i..8 * i + 8]) == if m.locate(raw[i]).nodeId != 0xFFFF_FFFF then raw[i] else m.word(raw[i])
  {
    WordsAtMultiples(Values(params));
    BufferIsConcatenationIff(Values(params), WORD * |params|, pooled, result);
    forall i | 0 <= i < |params|
      ensures FromLE(result.value[8 * i..8 * i + 8]) == if m.locate(raw[i]).nodeId != 0xFFFF_FFFF then raw[i] else m.word(raw[i])
    {
      assert result.value[WORD * i..WORD * i + WORD] == Values(params)[i];
      PackedParameter(raw[i], m);
    }
  }

  /**
    The client leaves the size at its default of 0, and then every launch with a parameter fails on the server.
    The fault of a single parameter comes after the allocation of 0 bytes on the device: a driver that refuses
    that returns its error instead, and the launch fails all the same.
   */
  lemma UnsetSizeAlwaysFails(params: seq<Param>, pooled: Bytes, result: Result<Bytes, Fault>)
    requires |params| > 0 && forall i :: 0 <= i < |params| ==> |params[i].value| == WORD
    requires Prepared(Values(params), 0, pooled, result)
    ensures result == if |params| == 1 then Err(EmptyBuffer) else Err(SliceBounds)
  {
    var values := Values(params);
    if |params| > 1 {
      assert |Concat(values[..1])| == WORD;
      assert Overruns(values, 0);
    } else {
    }
  }
}
