/** Bytes, little-endian words and slices. */
module ByteCode {
  import opened Wrappers

  type Byte = x: int | 0 <= x < 256
  type Bytes = seq<Byte>

  function Pow256(n: nat): (r: nat)
    ensures r > 0
  {
    if n == 0 then 1 else 256 * Pow256(n - 1)
  }

  lemma WordSizes()
    ensures Pow256(2) == 0x1_0000 && Pow256(4) == 0x1_0000_0000 && Pow256(8) == 0x1_0000_0000_0000_0000
  {
    assert Pow256(1) == 256;
    assert Pow256(3) == 256 * Pow256(2);
    assert Pow256(5) == 256 * Pow256(4) && Pow256(6) == 256 * Pow256(5) && Pow256(7) == 256 * Pow256(6);
  }

  /** The low `width` bytes of `n`, least significant first. */
  function Le(n: nat, width: nat): (r: Bytes)
    ensures |r| == width
  {
    if width == 0 then [] else [n % 256] + Le(n / 256, width - 1)
  }

  function FromLe(bs: Bytes): nat {
    if bs == [] then 0 else bs[0] + 256 * FromLe(bs[1..])
  }

  lemma {:induction false} FromLeBelow(bs: Bytes)
    ensures FromLe(bs) < Pow256(|bs|)
  {
    if bs != [] { FromLeBelow(bs[1..]); }
  }

  lemma {:induction false} LeReadsBack(n: nat, width: nat)
    requires n < Pow256(width)
    ensures FromLe(Le(n, width)) == n
  {
    if width > 0 {
      LeReadsBack(n / 256, width - 1);
      assert Le(n, width)[1..] == Le(n / 256, width - 1);
    }
  }

  lemma {:induction false} FromLeWritesBack(bs: Bytes)
    ensures Le(FromLe(bs), |bs|) == bs
  {
    if bs != [] {
      FromLeWritesBack(bs[1..]);
      var n := FromLe(bs);
      assert n % 256 == bs[0] && n / 256 == FromLe(bs[1..]);
      assert bs == [bs[0]] + bs[1..];
    }
  }

  /** `slice::get(off..off + len)`. */
  function Slice(bs: Bytes, off: nat, len: nat): (r: Option<Bytes>)
    ensures r.Some? ==> |r.value| == len
  {
    if off + len <= |bs| then Some(bs[off..off + len]) else None
  }

  lemma SliceOfMiddle(pre: Bytes, mid: Bytes, post: Bytes)
    ensures Slice(pre + mid + post, |pre|, |mid|) == Some(mid)
  {
    assert (pre + mid + post)[|pre|..|pre| + |mid|] == mid;
  }
}
