/**
  Little-endian unsigned integers as fixed-width byte strings, the layout of
  `u32::to_le_bytes`, `u32::from_le_bytes` and `u64::from_le_bytes`.
 */
module LittleEndian {
  import opened Native

  function Pow256(width: nat): (p: nat)
    ensures p >= 1
  {
    if width == 0 then 1 else 256 * Pow256(width - 1)
  }

  /** The number a little-endian byte string denotes: byte `i` weighs 256^i. */
  function Value(bs: Bytes): nat {
    if bs == [] then 0 else bs[0] + 256 * Value(bs[1..])
  }

  /** The `width` low-order bytes of `n`, least significant first. */
  function Encode(n: nat, width: nat): (r: Bytes)
    ensures |r| == width
  {
    if width == 0 then [] else [n % 256] + Encode(n / 256, width - 1)
  }

  /** A byte string of width `w` denotes a number below 256^w. */
  lemma {:induction false} ValueBound(bs: Bytes)
    ensures Value(bs) < Pow256(|bs|)
  {
    if bs != [] {
      ValueBound(bs[1..]);
    }
  }

  /** Encoding a number that fits and reading it back gives the number. */
  lemma {:induction false} ValueOfEncode(n: nat, width: nat)
    requires n < Pow256(width)
    ensures Value(Encode(n, width)) == n
  {
    if width > 0 {
      assert n / 256 < Pow256(width - 1);
      ValueOfEncode(n / 256, width - 1);
      assert Encode(n, width)[1..] == Encode(n / 256, width - 1);
    }
  }

  /** Reading a byte string and encoding its value at the same width gives the bytes back. */
  lemma {:induction false} EncodeOfValue(bs: Bytes)
    ensures Encode(Value(bs), |bs|) == bs
  {
    if bs != [] {
      var v := Value(bs);
      assert v % 256 == bs[0];
      assert v / 256 == Value(bs[1..]);
      EncodeOfValue(bs[1..]);
    }
  }
}
