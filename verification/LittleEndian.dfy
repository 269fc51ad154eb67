/** Unsigned integers as little-endian bytes. */
module LittleEndian {
  import opened Wrappers

  /** `n` little-endian bytes of `v`. */
  function ToLE(v: nat, n: nat): (bs: Bytes)
    ensures |bs| == n
  {
    if n == 0 then [] else [v % 256] + ToLE(v / 256, n - 1)
  }

  function FromLE(bs: Bytes): nat {
    if bs == [] then 0 else bs[0] + 256 * FromLE(bs[1..])
  }

  function Pow256(n: nat): nat {
    if n == 0 then 1 else 256 * Pow256(n - 1)
  }

  lemma {:induction false} FromToLE(v: nat, n: nat)
    requires v < Pow256(n)
    ensures FromLE(ToLE(v, n)) == v
  {
    if n == 0 {
    } else {
      FromToLE(v / 256, n - 1);
      assert ToLE(v, n)[1..] == ToLE(v / 256, n - 1);
    }
  }

  lemma {:induction false} ToFromLE(bs: Bytes)
    ensures FromLE(bs) < Pow256(|bs|)
    ensures ToLE(FromLE(bs), |bs|) == bs
  {
    if bs == [] {
    } else {
      ToFromLE(bs[1..]);
      assert FromLE(bs) / 256 == FromLE(bs[1..]);
      assert bs == [bs[0]] + bs[1..];
    }
  }

  /** The value shifted right by `i` bytes. */
  function Shifted(v: nat, i: nat): nat {
    if i == 0 then v else Shifted(v, i - 1) / 256
  }

  lemma {:induction false} ShiftedOnce(v: nat, i: nat)
    ensures Shifted(v / 256, i) == Shifted(v, i + 1)
  {
    if i == 0 {
    } else {
      ShiftedOnce(v, i - 1);
    }
  }

  /** The least significant byte comes first. */
  lemma {:induction false} LeastByteFirst(v: nat, n: nat, i: nat)
    requires i < n
    ensures ToLE(v, n)[i] == Shifted(v, i) % 256
  {
    if i == 0 {
    } else {
      LeastByteFirst(v / 256, n - 1, i - 1);
      ShiftedOnce(v, i - 1);
    }
  }
}
