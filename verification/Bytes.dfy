/** Bytes and big-endian numbers. */
module Bytes {
  import opened Seqs

  type byte = x: int | 0 <= x < 256

  type Buffer = seq<byte>

  function Pow256(n: nat): (r: int)
    ensures r >= 1
  {
    if n == 0 then 1 else 256 * Pow256(n - 1)
  }

  /** The low `width` bytes of `n`, most significant first. */
  function ToBytes(n: nat, width: nat): (r: Buffer)
    ensures |r| == width
  {
    if width == 0 then [] else ToBytes(n / 256, width - 1) + [n % 256]
  }

  function FromBytes(b: Buffer): nat {
    if b == [] then 0 else FromBytes(b[..|b| - 1]) * 256 + b[|b| - 1]
  }

  lemma {:induction false} FromBytesRange(b: Buffer)
    ensures FromBytes(b) < Pow256(|b|)
    decreases |b|
  {
    if b != [] {
      FromBytesRange(b[..|b| - 1]);
    }
  }

  lemma {:induction false} FromToBytes(n: nat, width: nat)
    requires n < Pow256(width)
    ensures FromBytes(ToBytes(n, width)) == n
    decreases width
  {
    if width > 0 {
      FromToBytes(n / 256, width - 1);
      var b := ToBytes(n, width);
      assert b[..width - 1] == ToBytes(n / 256, width - 1);
    }
  }

  lemma {:induction false} ToFromBytes(b: Buffer)
    ensures ToBytes(FromBytes(b), |b|) == b
    decreases |b|
  {
    if b != [] {
      ToFromBytes(b[..|b| - 1]);
      assert b == b[..|b| - 1] + [b[|b| - 1]];
    }
  }

  /** The first byte stands for the multiples of the power above the others. */
  lemma {:induction false} FromBytesHead(b: Buffer)
    requires b != []
    ensures FromBytes(b) == b[0] * Pow256(|b| - 1) + FromBytes(b[1..])
    decreases |b|
  {
    if |b| == 1 {
      assert b[..0] == [] && b[1..] == [];
    } else {
      var init, last := b[..|b| - 1], b[|b| - 1];
      FromBytesHead(init);
      assert b[1..][..|b| - 2] == init[1..];
      assert FromBytes(b[1..]) == FromBytes(init[1..]) * 256 + last;
      assert Pow256(|b| - 1) == 256 * Pow256(|b| - 2);
      Distribute(b[0], Pow256(|b| - 2), FromBytes(init[1..]));
    }
  }

  lemma Distribute(x: int, y: int, z: int)
    ensures (x * y + z) * 256 == x * (256 * y) + z * 256
  {
  }

  // ----- Two's complement -----

  /** The number a non-empty buffer stands for in two's complement. */
  function Signed(b: Buffer): int
    requires b != []
  {
    if b[0] < 128 then FromBytes(b) else FromBytes(b) - Pow256(|b|)
  }

  predicate FitsSigned(v: int, width: nat) {
    -Pow256(width) <= 2 * v < Pow256(width)
  }

  function ToSigned(v: int, width: nat): (r: Buffer)
    requires FitsSigned(v, width)
    ensures |r| == width
  {
    ToBytes(if v < 0 then v + Pow256(width) else v, width)
  }

  lemma {:induction false} SignedRange(b: Buffer)
    requires b != []
    ensures FitsSigned(Signed(b), |b|)
  {
    FromBytesHead(b);
    FromBytesRange(b[1..]);
    var p := Pow256(|b| - 1);
    assert Pow256(|b|) == 256 * p;
    if b[0] < 128 {
      MulAtMost(b[0], 127, p);
    } else {
      MulAtMost(128, b[0], p);
      MulAtMost(b[0], 255, p);
    }
  }

  lemma MulAtMost(x: int, y: int, p: int)
    requires x <= y && p >= 0
    ensures x * p <= y * p
  {
  }

  lemma {:induction false} SignedRoundTrip(v: int, width: nat)
    requires width > 0 && FitsSigned(v, width)
    ensures Signed(ToSigned(v, width)) == v
  {
    var n := if v < 0 then v + Pow256(width) else v;
    var b := ToSigned(v, width);
    FromToBytes(n, width);
    FromBytesHead(b);
    FromBytesRange(b[1..]);
    var p := Pow256(width - 1);
    assert Pow256(width) == 256 * p;
    if b[0] < 128 {
      MulAtMost(b[0], 127, p);
    } else {
      MulAtMost(128, b[0], p);
    }
  }
}
