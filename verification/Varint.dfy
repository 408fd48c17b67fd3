/**
 The `varint` type: integers of any size in two's complement (lib/encoder.js; section 6.23
 of the CQL binary protocol v4).
 */
module Varint {
  import opened Bytes
  import opened Seqs

  /** The bytes of a positive number, without leading zeros. */
  function Digits(v: nat): Buffer {
    if v == 0 then [] else Digits(v / 256) + [v % 256]
  }

  /** The bytes of a negative number down to where only sign bits remain. */
  function NegativeDigits(v: int): Buffer
    requires v < 0
    decreases -v
  {
    if v == -1 then [] else NegativeDigits(v / 256) + [v % 256]
  }

  function EncodeVarint(v: int): (b: Buffer)
    ensures b != []
  {
    if v == 0 then [0]
    else if v == -1 then [255]
    else if v > 0 then
      var d := Digits(v);
      if d[0] > 127 then [0] + d else d
    else
      var d := NegativeDigits(v);
      if d == [] || d[0] <= 127 then [255] + d else d
  }

  /** `_encodeVarintFromBigInt`: bytes are unshifted while the value is shifted right. */
  method EncodeVarintFromBigInt(bigint: int) returns (parts: Buffer)
    ensures parts == EncodeVarint(bigint)
  {
    if bigint == 0 {
      return [0];
    } else if bigint == -1 {
      return [255];
    }
    parts := [];
    var value := bigint;
    if value > 0 {
      while value != 0
        invariant value >= 0 && Digits(value) + parts == Digits(bigint)
        decreases value
      {
        Assoc(Digits(value / 256), [value % 256], parts);
        parts := [value % 256] + parts;
        value := value / 256;
      }
      assert parts == Digits(bigint);
      if parts[0] > 127 {
        // the first bit would make it negative
        parts := [0] + parts;
      }
    } else {
      while value != -1
        invariant value < 0 && NegativeDigits(value) + parts == NegativeDigits(bigint)
        decreases -value
      {
        Assoc(NegativeDigits(value / 256), [value % 256], parts);
        parts := [value % 256] + parts;
        value := value / 256;
      }
      assert parts == NegativeDigits(bigint);
      if parts[0] <= 127 {
        // the first bit would make it positive
        parts := [255] + parts;
      }
    }
  }

  /** What `_decodeVarintAsBigInt` computes; an empty buffer reads as -1. */
  function DecodeVarint(b: Buffer): int {
    if b == [] then -1 else Signed(b)
  }

  /** The sum of the bytes' complements. */
  function ComplementFrom(b: Buffer): nat {
    if b == [] then 0 else ComplementFrom(b[..|b| - 1]) * 256 + (255 - b[|b| - 1])
  }

  lemma {:induction false} ComplementSum(b: Buffer)
    ensures FromBytes(b) + ComplementFrom(b) == Pow256(|b|) - 1
    decreases |b|
  {
    if b != [] {
      ComplementSum(b[..|b| - 1]);
    }
  }

  lemma {:induction false} ComplementHead(b: Buffer)
    requires b != []
    ensures ComplementFrom(b) == (255 - b[0]) * Pow256(|b| - 1) + ComplementFrom(b[1..])
  {
    ComplementSum(b);
    ComplementSum(b[1..]);
    FromBytesHead(b);
    assert Pow256(|b|) == 256 * Pow256(|b| - 1);
    assert (255 - b[0]) * Pow256(|b| - 1) == 255 * Pow256(|b| - 1) - b[0] * Pow256(|b| - 1);
  }

  /** The bits a byte adds lie above those already there, so `|` adds. */
  method DecodeVarintAsBigInt(bytes: Buffer) returns (result: int)
    ensures result == DecodeVarint(bytes)
  {
    result := 0;
    if |bytes| > 0 && bytes[0] <= 127 {
      for i := 0 to |bytes|
        invariant result == FromBytes(bytes[|bytes| - i..])
      {
        FromBytesHead(bytes[|bytes| - 1 - i..]);
        assert bytes[|bytes| - 1 - i..][1..] == bytes[|bytes| - i..];
        result := result + bytes[|bytes| - 1 - i] * Pow256(i);
      }
      assert bytes[0..] == bytes;
    } else {
      for i := 0 to |bytes|
        invariant result == ComplementFrom(bytes[|bytes| - i..])
      {
        ComplementHead(bytes[|bytes| - 1 - i..]);
        assert bytes[|bytes| - 1 - i..][1..] == bytes[|bytes| - i..];
        result := result + (255 - bytes[|bytes| - 1 - i]) * Pow256(i);
      }
      assert bytes[0..] == bytes;
      ComplementSum(bytes);
      result := -1 - result;
    }
  }

  // ----- Round trip and minimality -----

  lemma {:induction false} DigitsMeaning(v: nat)
    ensures FromBytes(Digits(v)) == v
    ensures v > 0 ==> Digits(v) != [] && Digits(v)[0] > 0
    decreases v
  {
    if v > 0 {
      DigitsMeaning(v / 256);
      assert Digits(v)[..|Digits(v)| - 1] == Digits(v / 256);
    }
  }

  lemma {:induction false} NegativeDigitsMeaning(v: int)
    requires v < 0
    ensures FromBytes(NegativeDigits(v)) - Pow256(|NegativeDigits(v)|) == v
    ensures v < -1 ==> NegativeDigits(v) != [] && NegativeDigits(v)[0] < 255
    decreases -v
  {
    if v < -1 {
      NegativeDigitsMeaning(v / 256);
      assert NegativeDigits(v)[..|NegativeDigits(v)| - 1] == NegativeDigits(v / 256);
    }
  }

  lemma {:induction false} PadKeepsValue(pad: byte, b: Buffer)
    ensures FromBytes([pad] + b) == pad * Pow256(|b|) + FromBytes(b)
  {
    FromBytesHead([pad] + b);
    assert ([pad] + b)[1..] == b;
  }

  lemma {:induction false} PositiveRoundTrip(v: int)
    requires v > 0
    ensures Signed(EncodeVarint(v)) == v
  {
    var d := Digits(v);
    DigitsMeaning(v);
    PadKeepsValue(0, d);
  }

  lemma {:induction false} NegativeRoundTrip(v: int)
    requires v < -1
    ensures Signed(EncodeVarint(v)) == v
  {
    var d := NegativeDigits(v);
    NegativeDigitsMeaning(v);
    if d[0] <= 127 {
      PadKeepsValue(255, d);
      assert Pow256(|d| + 1) == 256 * Pow256(|d|);
      assert Signed([255] + d) == FromBytes([255] + d) - Pow256(|d| + 1);
    }
  }

  /** Decoding the encoding of any integer returns it. */
  lemma {:induction false} VarintRoundTrip(v: int)
    ensures DecodeVarint(EncodeVarint(v)) == v
  {
    if v > 0 {
      PositiveRoundTrip(v);
    } else if v < -1 {
      NegativeRoundTrip(v);
    } else {
      assert FromBytes([0]) == 0 && FromBytes([255]) == 255 by {
        assert [0][..0] == [] && [255][..0] == [];
      }
    }
  }

  lemma {:induction false} PowMonotone(a: nat, b: nat)
    requires a <= b
    ensures Pow256(a) <= Pow256(b)
    decreases b
  {
    if a < b {
      PowMonotone(a, b - 1);
    }
  }

  lemma {:induction false} PositiveNeedsLength(v: int)
    requires v > 0 && |EncodeVarint(v)| > 1
    ensures !FitsSigned(v, |EncodeVarint(v)| - 1)
  {
    var d := Digits(v);
    DigitsMeaning(v);
    FromBytesHead(d);
    var p := Pow256(|d| - 1);
    assert Pow256(|d|) == 256 * p;
    MulAtMost(if d[0] > 127 then 128 else 1, d[0], p);
  }

  lemma {:induction false} NegativeNeedsLength(v: int)
    requires v < -1 && |EncodeVarint(v)| > 1
    ensures !FitsSigned(v, |EncodeVarint(v)| - 1)
  {
    var d := NegativeDigits(v);
    NegativeDigitsMeaning(v);
    FromBytesHead(d);
    FromBytesRange(d[1..]);
    var p := Pow256(|d| - 1);
    assert Pow256(|d|) == 256 * p;
    MulAtMost(d[0], if d[0] <= 127 then 127 else 254, p);
  }

  /** An encoding of more than one byte is needed: the number does not fit in one byte less. */
  lemma {:induction false} NeedsItsLength(v: int)
    requires |EncodeVarint(v)| > 1
    ensures !FitsSigned(v, |EncodeVarint(v)| - 1)
  {
    if v > 0 {
      PositiveNeedsLength(v);
    } else {
      NegativeNeedsLength(v);
    }
  }

  /** No shorter buffer stands for the same number. */
  lemma {:induction false} VarintShortest(v: int, b: Buffer)
    requires b != [] && Signed(b) == v
    ensures |EncodeVarint(v)| <= |b|
  {
    SignedRange(b);
    if |EncodeVarint(v)| > |b| {
      NeedsItsLength(v);
      PowMonotone(|b|, |EncodeVarint(v)| - 1);
    }
  }
}
