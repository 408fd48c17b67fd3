/**
 Variable-length integers (`VIntCoding` in lib/utils.js; section 3 of the CQL binary protocol v5).

 A 64-bit value is its unsigned bit pattern, a number below 2^64; shifts, masks and `|` on
 patterns are written as the division, remainder and sum they amount to.
 */
module VIntCoding {
  import opened Bytes
  import opened Seqs

  const TWO_32 := 0x1_0000_0000
  const TWO_63 := 0x8000_0000_0000_0000
  const TWO_64 := 0x1_0000_0000_0000_0000

  type Pattern = x: int | 0 <= x < TWO_64
  type Long = x: int | -TWO_63 <= x < TWO_63

  function PatternOf(n: Long): Pattern {
    if n < 0 then n + TWO_64 else n
  }

  function LongOf(p: Pattern): Long {
    if p >= TWO_63 then p - TWO_64 else p
  }

  /** Every bit flipped: exclusive or with all ones. */
  function Flip(p: Pattern): Pattern {
    TWO_64 - 1 - p
  }

  /** `(n << 1) ^ (n >> 63)`, where `n >> 63` is no bits or all bits. */
  function EncodeZigZag64(n: Long): Pattern {
    var shifted := PatternOf(n) * 2 % TWO_64;
    if n >= 0 then shifted else Flip(shifted)
  }

  /** `(n >>> 1) ^ -(n & 1)`, where `-(n & 1)` is no bits or all bits. */
  function DecodeZigZag64(p: Pattern): Long {
    LongOf(if p % 2 == 0 then p / 2 else Flip(p / 2))
  }

  /** Zigzag encoding maps 0, -1, 1, -2, 2, ... to 0, 1, 2, 3, 4, ... and back. */
  lemma ZigZag(n: Long)
    ensures EncodeZigZag64(n) == if n >= 0 then 2 * n else -2 * n - 1
    ensures DecodeZigZag64(EncodeZigZag64(n)) == n
  {
  }

  // ----- Sizes -----

  /** The bits of a 32-bit pattern above its highest one, by binary search. */
  function NumberOfLeadingZerosInt32(i: int): int
    requires 0 <= i < TWO_32
  {
    if i == 0 then 32
    else
      var (n, x) := if i < 0x1_0000 then (17, i * 0x1_0000) else (1, i);
      var (n, x) := if x < 0x100_0000 then (n + 8, x * 0x100) else (n, x);
      var (n, x) := if x < 0x1000_0000 then (n + 4, x * 0x10) else (n, x);
      var (n, x) := if x < 0x4000_0000 then (n + 2, x * 4) else (n, x);
      if x >= 0x8000_0000 then n - 1 else n
  }

  function NumberOfLeadingZeros(p: Pattern): int {
    if p == 0 then 64
    else if p / TWO_32 == 0 then 32 + NumberOfLeadingZerosInt32(p)
    else NumberOfLeadingZerosInt32(p / TWO_32)
  }

  function ComputeUnsignedVIntSize(p: Pattern): int {
    var magnitude := NumberOfLeadingZeros(if p % 2 == 0 then p + 1 else p);  // value | 1
    (639 - magnitude * 9) / 64
  }

  /** The size the format gives: 7 bits in the first byte and in each byte after it, up to 8 whole bytes. */
  function SizeOf(p: Pattern): (s: nat)
    ensures 1 <= s <= 9
  {
    if p < 0x80 then 1
    else if p < 0x4000 then 2
    else if p < 0x20_0000 then 3
    else if p < 0x1000_0000 then 4
    else if p < 0x8_0000_0000 then 5
    else if p < 0x400_0000_0000 then 6
    else if p < 0x2_0000_0000_0000 then 7
    else if p < 0x100_0000_0000_0000 then 8
    else 9
  }

  lemma LeadingZerosOfHalf(i: int)
    requires 0 < i < TWO_32
    ensures i < 0x80 <==> NumberOfLeadingZerosInt32(i) >= 25
    ensures i < 0x4000 <==> NumberOfLeadingZerosInt32(i) >= 18
    ensures i < 0x20_0000 <==> NumberOfLeadingZerosInt32(i) >= 11
    ensures i < 0x1000_0000 <==> NumberOfLeadingZerosInt32(i) >= 4
    ensures i < 0x8 <==> NumberOfLeadingZerosInt32(i) >= 29
    ensures i < 0x400 <==> NumberOfLeadingZerosInt32(i) >= 22
    ensures i < 0x2_0000 <==> NumberOfLeadingZerosInt32(i) >= 15
    ensures i < 0x100_0000 <==> NumberOfLeadingZerosInt32(i) >= 8
    ensures 0 <= NumberOfLeadingZerosInt32(i) <= 31
  {
  }

  /** The closed form `(639 - 9 * leadingZeros) >> 6` is the size of the format. */
  lemma SizeFormula(p: Pattern)
    ensures ComputeUnsignedVIntSize(p) == SizeOf(p)
  {
    var v := if p % 2 == 0 then p + 1 else p;
    if v / TWO_32 == 0 {
      LeadingZerosOfHalf(v);
    } else {
      LeadingZerosOfHalf(v / TWO_32);
    }
  }

  // ----- Writing -----

  /** The bits that say how many bytes follow the first: `~(0xff >> (size - 1))`. */
  function Prefix(size: nat): (r: byte)
    requires 1 <= size <= 9
  {
    match size
    case 1 => 0
    case 2 => 0x80
    case 3 => 0xC0
    case 4 => 0xE0
    case 5 => 0xF0
    case 6 => 0xF8
    case 7 => 0xFC
    case 8 => 0xFE
    case 9 => 0xFF
  }

  /** The format: the prefix and the top bits in the first byte, the rest big-endian after it. */
  function UnsignedVInt(p: Pattern): (b: Buffer)
    ensures |b| == SizeOf(p)
  {
    var size := SizeOf(p);
    FirstByteFits(p);
    [Prefix(size) + p / Pow256(size - 1)] + ToBytes(p % Pow256(size - 1), size - 1)
  }

  lemma Powers()
    ensures Pow256(0) == 1 && Pow256(1) == 0x100 && Pow256(2) == 0x1_0000 && Pow256(3) == 0x100_0000
    ensures Pow256(4) == TWO_32 && Pow256(5) == 0x100_0000_0000 && Pow256(6) == 0x1_0000_0000_0000
    ensures Pow256(7) == 0x100_0000_0000_0000 && Pow256(8) == TWO_64
  {
    assert Pow256(2) == 256 * Pow256(1);
    assert Pow256(3) == 256 * Pow256(2);
    assert Pow256(4) == 256 * Pow256(3);
    assert Pow256(5) == 256 * Pow256(4);
    assert Pow256(6) == 256 * Pow256(5);
    assert Pow256(7) == 256 * Pow256(6);
    assert Pow256(8) == 256 * Pow256(7);
  }

  /** The top bits leave room for the prefix, and no value needs more than the size says. */
  lemma FirstByteFits(p: Pattern)
    ensures var top := p / Pow256(SizeOf(p) - 1);
      && 0 <= top && Prefix(SizeOf(p)) + top < 256
      && (if SizeOf(p) == 9 then top == 0 else Prefix(SizeOf(p)) + top < Prefix(SizeOf(p) + 1))
  {
    Powers();
  }

  /** The `k`-th byte from the low end. */
  function Digit(p: int, k: nat): byte
    decreases k
  {
    if k == 0 then p % 256 else Digit(p / 256, k - 1)
  }

  lemma {:induction false} ToBytesDigits(p: nat, width: nat, k: nat)
    requires k < width
    ensures ToBytes(p, width)[width - 1 - k] == Digit(p, k)
    decreases width
  {
    if k > 0 {
      ToBytesDigits(p / 256, width - 1, k - 1);
    }
  }

  /** Numbers that differ by a multiple of a power agree on the digits below it. */
  lemma {:induction false} SameDigits(x: int, y: int, a: int, m: nat, k: nat)
    requires k < m && x == y + Pow256(m) * a
    ensures Digit(x, k) == Digit(y, k)
    decreases k
  {
    var b := Pow256(m - 1) * a;
    assert Pow256(m) * a == 256 * b by {
      assert Pow256(m) == 256 * Pow256(m - 1);
    }
    assert x % 256 == y % 256 && x / 256 == y / 256 + b;
    if k > 0 {
      SameDigits(x / 256, y / 256, a, m - 1, k - 1);
    }
  }

  /** The digits of the low and high 32 bits, read as signed numbers, are those of the value. */
  lemma LowAndHighDigits(p: Pattern, low: int, high: int, k: nat)
    requires low == p % TWO_32 || low == p % TWO_32 - TWO_32
    requires high == p / TWO_32 || high == p / TWO_32 - TWO_32
    requires k < 4
    ensures Digit(low, k) == Digit(p, k) && Digit(high, k) == Digit(p, k + 4)
  {
    Powers();
    var q := p / TWO_32;
    SameDigits(low, p, if low == p % TWO_32 then -q else -q - 1, 4, k);
    SameDigits(high, q, if high == q then 0 else -1, 4, k);
    assert q == p / 256 / 256 / 256 / 256;
    assert Digit(p, k + 4) == Digit(p / 256, k + 3) == Digit(p / 256 / 256, k + 2)
        == Digit(p / 256 / 256 / 256, k + 1) == Digit(q, k);
  }

  function ToInt32(x: int): int
    requires 0 <= x < TWO_32
  {
    if x >= 0x8000_0000 then x - TWO_32 else x
  }

  /** `b | ~(0xff >> extra)`: the low `8 - extra` bits of `b` below the prefix bits. */
  function OrPrefix(b: byte, size: nat): byte
    requires 1 <= size <= 9
  {
    match size
    case 1 => b
    case 2 => b % 0x80 + 0x80
    case 3 => b % 0x40 + 0xC0
    case 4 => b % 0x20 + 0xE0
    case 5 => b % 0x10 + 0xF0
    case 6 => b % 8 + 0xF8
    case 7 => b % 4 + 0xFC
    case 8 => b % 2 + 0xFE
    case 9 => 0xFF
  }

  function ShiftRight(x: int, bytes: nat): int
    decreases bytes
  {
    if bytes == 0 then x else ShiftRight(x / 256, bytes - 1)
  }

  lemma {:induction false} ShiftStep(x: int, k: nat)
    ensures ShiftRight(x, k) / 256 == ShiftRight(x, k + 1)
    ensures ShiftRight(x, k) % 256 == Digit(x, k)
    decreases k
  {
    if k > 0 {
      ShiftStep(x / 256, k - 1);
    }
  }

  /** `encodeVInt`: fills the first `size` bytes of a scratch buffer, whatever they held. */
  method EncodeVInt(p: Pattern, size: nat, buffer: array<byte>)
    requires 2 <= size <= 9 <= buffer.Length && size == SizeOf(p)
    modifies buffer
    ensures buffer[..size] == UnsignedVInt(p)
    ensures buffer[size..] == old(buffer[size..])
  {
    var extraBytes := size - 1;
    var low, high := ToInt32(p % TWO_32), ToInt32(p / TWO_32);
    var intValue := low;
    var i := extraBytes;
    var intBytes := 4;
    while i >= 0 && intBytes > 0
      invariant -1 <= i <= extraBytes && 0 <= intBytes <= 4 && extraBytes - i == 4 - intBytes
      invariant intValue == ShiftRight(low, extraBytes - i)
      invariant forall j :: i < j <= extraBytes ==> buffer[j] == Digit(p, extraBytes - j)
      invariant buffer[size..] == old(buffer[size..])
    {
      intBytes := intBytes - 1;
      ShiftStep(low, extraBytes - i);
      LowAndHighDigits(p, low, high, extraBytes - i);
      buffer[i] := intValue % 256;
      intValue := intValue / 256;
      i := i - 1;
    }
    intValue := high;
    while i >= 0
      invariant -1 <= i <= extraBytes && (i >= 0 ==> extraBytes - i >= 4)
      invariant i >= 0 ==> intValue == ShiftRight(high, extraBytes - i - 4)
      invariant forall j :: i < j <= extraBytes && (0 < j || size < 9) ==> buffer[j] == Digit(p, extraBytes - j)
      invariant buffer[size..] == old(buffer[size..])
    {
      ShiftStep(high, extraBytes - i - 4);
      if extraBytes - i < 8 {
        LowAndHighDigits(p, low, high, extraBytes - i - 4);
      }
      buffer[i] := intValue % 256;
      intValue := intValue / 256;
      i := i - 1;
    }
    buffer[0] := OrPrefix(buffer[0], size);
    DigitsMakeVInt(p, buffer[..size]);
  }

  lemma DivideTwice(p: nat, q: int)
    requires q >= 1
    ensures p / 256 / q == p / (256 * q)
  {
    var b, s, r := p / 256 / q, p / 256 % q, p % 256;
    assert p == (256 * q) * b + (256 * s + r);
    DivisionIs(p, 256 * q, b, 256 * s + r);
  }

  lemma DivisionIs(p: nat, d: int, b: int, r: int)
    requires d > 0 && p == d * b + r && 0 <= r < d
    ensures p / d == b
  {
    var x := p / d - b;
    assert d * x == r - p % d;
    if x >= 1 {
      MulAtMost(1, x, d);
    } else if x <= -1 {
      MulAtMost(x, -1, d);
    }
  }

  lemma {:induction false} TopDigit(p: nat, k: nat)
    ensures Digit(p, k) == p / Pow256(k) % 256
    decreases k
  {
    if k > 0 {
      TopDigit(p / 256, k - 1);
      DivideTwice(p, Pow256(k - 1));
    }
  }

  lemma {:induction false} FirstByte(p: Pattern, b: byte)
    requires SizeOf(p) >= 2
    requires b == OrPrefix(if SizeOf(p) < 9 then Digit(p, SizeOf(p) - 1) else b, SizeOf(p))
    ensures b == UnsignedVInt(p)[0]
  {
    var size := SizeOf(p);
    var top := p / Pow256(size - 1);
    FirstByteFits(p);
    VIntParts(p);
    TopDigit(p, size - 1);
    FirstByteOf(top, Digit(p, size - 1), size, b);
  }

  lemma FirstByteOf(top: nat, digit: byte, size: nat, b: byte)
    requires 2 <= size <= 9 && digit == top % 256
    requires if size == 9 then top == 0 else Prefix(size) + top < Prefix(size + 1)
    requires b == OrPrefix(if size < 9 then digit else b, size)
    ensures b == Prefix(size) + top
  {
  }

  lemma {:induction false} OtherByte(p: Pattern, j: nat)
    requires 0 < j < SizeOf(p)
    ensures UnsignedVInt(p)[j] == Digit(p, SizeOf(p) - 1 - j)
  {
    var width := SizeOf(p) - 1;
    var m := p % Pow256(width);
    ToBytesDigits(m, width, width - j);
    assert m == p + Pow256(width) * -(p / Pow256(width));
    SameDigits(m, p, -(p / Pow256(width)), width, width - j);
  }

  lemma {:induction false} DigitsMakeVInt(p: Pattern, b: Buffer)
    requires SizeOf(p) >= 2 && |b| == SizeOf(p)
    requires forall j :: 0 < j < |b| ==> b[j] == Digit(p, |b| - 1 - j)
    requires b[0] == OrPrefix(if |b| < 9 then Digit(p, |b| - 1) else b[0], |b|)
    ensures b == UnsignedVInt(p)
  {
    FirstByte(p, b[0]);
    forall j | 0 < j < |b|
      ensures b[j] == UnsignedVInt(p)[j]
    {
      OtherByte(p, j);
    }
  }

  /** `writeUnsignedVInt`: the number of bytes written. */
  method WriteUnsignedVInt(p: Pattern, buffer: array<byte>) returns (size: nat)
    requires buffer.Length >= 9
    modifies buffer
    ensures size == SizeOf(p) && buffer[..size] == UnsignedVInt(p)
    ensures buffer[size..] == old(buffer[size..])
  {
    hide UnsignedVInt;
    size := SizeFor(p);
    if size == 1 {
      OneByte(p);
      buffer[0] := p % TWO_32 % 256;
      assert buffer[..1] == [p];
    } else {
      EncodeVInt(p, size, buffer);
    }
  }

  method SizeFor(p: Pattern) returns (size: nat)
    ensures size == SizeOf(p)
  {
    SizeFormula(p);
    size := ComputeUnsignedVIntSize(p);
  }

  lemma OneByte(p: Pattern)
    requires SizeOf(p) == 1
    ensures UnsignedVInt(p) == [p]
  {
    Powers();
  }

  method WriteVInt(value: Long, buffer: array<byte>) returns (size: nat)
    requires buffer.Length >= 9
    modifies buffer
    ensures size == SizeOf(EncodeZigZag64(value)) && buffer[..size] == VInt(value)
    ensures buffer[size..] == old(buffer[size..])
  {
    size := WriteUnsignedVInt(EncodeZigZag64(value), buffer);
  }

  function VInt(value: Long): Buffer {
    UnsignedVInt(EncodeZigZag64(value))
  }

  // ----- Reading -----

  /** A byte of the input; beyond the end there is `undefined`, which counts as no bits. */
  function ByteAt(input: Buffer, offset: nat): byte {
    if offset < |input| then input[offset] else 0
  }

  /** The leading ones of a byte of 128 or more. */
  function LeadingOnes(firstByte: byte): (n: int)
    requires firstByte >= 128
    ensures 1 <= n <= 8
  {
    if firstByte < 0xC0 then 1
    else if firstByte < 0xE0 then 2
    else if firstByte < 0xF0 then 3
    else if firstByte < 0xF8 then 4
    else if firstByte < 0xFC then 5
    else if firstByte < 0xFE then 6
    else if firstByte < 0xFF then 7
    else 8
  }

  /** Instead of counting ones, the zeros of the 32-bit complement are counted. */
  method NumberOfExtraBytesToRead(firstByte: byte) returns (n: int)
    requires firstByte >= 128
    ensures n == LeadingOnes(firstByte)
  {
    n := NumberOfLeadingZerosInt32(255 - firstByte) - 24;
  }

  /** `firstByte & (0xff >> extra)` */
  function ValueBits(firstByte: byte, extra: int): byte
    requires 1 <= extra <= 8
  {
    match extra
    case 1 => firstByte % 0x80
    case 2 => firstByte % 0x40
    case 3 => firstByte % 0x20
    case 4 => firstByte % 0x10
    case 5 => firstByte % 8
    case 6 => firstByte % 4
    case 7 => firstByte % 2
    case 8 => 0
  }

  /** `(result << 8) | byte` for each of `n` bytes from `offset`, in 64 bits. */
  function Gather(result: Pattern, input: Buffer, offset: nat, n: nat): Pattern {
    if n == 0 then result
    else (Gather(result, input, offset, n - 1) * 256 % TWO_64) + ByteAt(input, offset + n - 1)
  }

  method ReadUnsignedVInt(input: Buffer, offset: nat) returns (p: Pattern, next: nat)
    ensures (p, next) == UnsignedAt(input, offset)
  {
    var firstByte := ByteAt(input, offset);
    next := offset + 1;
    if firstByte < 128 {
      return firstByte, next;
    }
    var size := NumberOfExtraBytesToRead(firstByte);
    p, next := ReadExtraBytes(ValueBits(firstByte, size), input, next, size);
  }

  /** The loop of `readUnsignedVInt`. */
  method ReadExtraBytes(top: Pattern, input: Buffer, offset: nat, size: nat) returns (result: Pattern, next: nat)
    ensures result == Gather(top, input, offset, size) && next == offset + size
  {
    result, next := top, offset;
    for ii := 0 to size
      invariant next == offset + ii && result == Gather(top, input, offset, ii)
    {
      result := (result * 256 % TWO_64) + ByteAt(input, next);
      next := next + 1;
    }
  }

  /** What is read at an offset, and the offset after it. */
  function UnsignedAt(input: Buffer, offset: nat): (Pattern, nat) {
    var first := ByteAt(input, offset);
    if first < 128 then (first, offset + 1)
    else
      var extra := LeadingOnes(first);
      (Gather(ValueBits(first, extra), input, offset + 1, extra), offset + 1 + extra)
  }

  method ReadVInt(input: Buffer, offset: nat) returns (value: Long, next: nat)
    ensures value == DecodeZigZag64(UnsignedAt(input, offset).0) && next == UnsignedAt(input, offset).1
  {
    var p, n := ReadUnsignedVInt(input, offset);
    value, next := DecodeZigZag64(p), n;
  }

  // ----- Round trip -----

  /** The first byte written tells the reader the size, and carries the top bits. */
  lemma FirstByteReads(p: Pattern)
    requires SizeOf(p) >= 2
    ensures var first := Prefix(SizeOf(p)) + p / Pow256(SizeOf(p) - 1);
      && 128 <= first < 256
      && LeadingOnes(first) == SizeOf(p) - 1
      && ValueBits(first, SizeOf(p) - 1) == p / Pow256(SizeOf(p) - 1)
  {
    FirstByteFits(p);
    HeadReads(p / Pow256(SizeOf(p) - 1), SizeOf(p));
  }

  lemma HeadReads(top: nat, size: nat)
    requires 2 <= size <= 9 && (if size == 9 then top == 0 else Prefix(size) + top < Prefix(size + 1))
    ensures 128 <= Prefix(size) + top < 256
    ensures LeadingOnes(Prefix(size) + top) == size - 1 && ValueBits(Prefix(size) + top, size - 1) == top
  {
  }

  lemma {:induction false} GatherBytes(top: Pattern, input: Buffer, offset: nat, n: nat)
    requires offset + n <= |input| && top * Pow256(n) + FromBytes(input[offset..offset + n]) < TWO_64
    ensures Gather(top, input, offset, n) == top * Pow256(n) + FromBytes(input[offset..offset + n])
    decreases n
  {
    if n == 0 {
      assert input[offset..offset] == [];
    } else {
      var b := input[offset..offset + n];
      assert b[..n - 1] == input[offset..offset + n - 1];
      var before := top * Pow256(n - 1) + FromBytes(b[..n - 1]);
      assert top * Pow256(n) + FromBytes(b) == before * 256 + b[n - 1] by {
        Distribute(top, Pow256(n - 1), FromBytes(b[..n - 1]));
        assert Pow256(n) == 256 * Pow256(n - 1);
        assert FromBytes(b) == FromBytes(b[..n - 1]) * 256 + b[n - 1];
      }
      assert 0 <= before by {
        MulAtMost(0, top, Pow256(n - 1));
      }
      GatherBytes(top, input, offset, n - 1);
    }
  }

  lemma VIntParts(p: Pattern)
    ensures var width := SizeOf(p) - 1;
      UnsignedVInt(p)[0] == Prefix(SizeOf(p)) + p / Pow256(width) && UnsignedVInt(p)[1..] == ToBytes(p % Pow256(width), width)
  {
  }

  lemma SubSlice(input: Buffer, at: nat, b: Buffer)
    requires b != [] && at + |b| <= |input| && input[at..at + |b|] == b
    ensures input[at] == b[0] && input[at + 1..at + |b|] == b[1..]
  {
    assert input[at] == input[at..at + |b|][0];
    assert input[at + 1..at + |b|] == input[at..at + |b|][1..];
  }

  lemma {:induction false} GatherWritten(top: Pattern, rest: nat, input: Buffer, at: nat, width: nat)
    requires at + width <= |input| && input[at..at + width] == ToBytes(rest, width)
    requires rest < Pow256(width) && top * Pow256(width) + rest < TWO_64
    ensures Gather(top, input, at, width) == top * Pow256(width) + rest
  {
    FromToBytes(rest, width);
    GatherBytes(top, input, at, width);
  }

  lemma DivMod(p: nat, q: int)
    requires q >= 1
    ensures 0 <= p / q <= p && 0 <= p % q < q && (p / q) * q + p % q == p
  {
    MulAtMost(1, q, p / q);
  }

  /** Reading at a place that holds the bytes of a value returns it and moves past it. */
  lemma {:induction false} ReadsWritten(p: Pattern, input: Buffer, at: nat)
    requires at + SizeOf(p) <= |input| && input[at..at + SizeOf(p)] == UnsignedVInt(p)
    ensures UnsignedAt(input, at) == (p, at + SizeOf(p))
  {
    var size := SizeOf(p);
    SubSlice(input, at, UnsignedVInt(p));
    if size == 1 {
      OneByte(p);
    } else {
      VIntParts(p);
      FirstByteReads(p);
      var power := Pow256(size - 1);
      DivMod(p, power);
      GatherWritten(p / power, p % power, input, at + 1, size - 1);
    }
  }

  lemma {:induction false} UnsignedRoundTrip(p: Pattern, before: Buffer, after: Buffer)
    ensures UnsignedAt(before + UnsignedVInt(p) + after, |before|) == (p, |before| + SizeOf(p))
  {
    var b := UnsignedVInt(p);
    var input := before + b + after;
    assert input[|before|..|before| + |b|] == b;
    ReadsWritten(p, input, |before|);
  }

  /** `readVInt` inverts `writeVInt` for every 64-bit integer and advances by the size written, 1 to 9 bytes. */
  lemma {:induction false} VIntRoundTrip(value: Long, before: Buffer, after: Buffer)
    ensures var (p, next) := UnsignedAt(before + VInt(value) + after, |before|);
      DecodeZigZag64(p) == value && next == |before| + |VInt(value)| && 1 <= |VInt(value)| <= 9
  {
    UnsignedRoundTrip(EncodeZigZag64(value), before, after);
    ZigZag(value);
  }

  // ----- The second pair of functions, for lengths below 2^31 -----

  const TWO_31 := 0x8000_0000

  /** `n.toString(2).length` */
  function BitLength(n: nat): (r: nat)
    ensures r >= 1
  {
    if n < 2 then 1 else 1 + BitLength(n / 2)
  }

  function Pow2(n: nat): (r: int)
    ensures r >= 1
  {
    if n == 0 then 1 else 2 * Pow2(n - 1)
  }

  lemma {:induction false} BitLengthAbove(n: nat, m: nat)
    requires n >= 1
    ensures BitLength(n) > m <==> n >= Pow2(m)
    decreases m
  {
    if n >= 2 && m > 0 {
      BitLengthAbove(n / 2, m - 1);
    }
  }

  lemma Pow2Sevens()
    ensures Pow2(7) == 0x80 && Pow2(14) == 0x4000 && Pow2(21) == 0x20_0000 && Pow2(28) == 0x1000_0000 && Pow2(35) == 0x8_0000_0000
  {
    assert Pow2(7) == 128 * Pow2(0);
    assert Pow2(14) == 128 * Pow2(7);
    assert Pow2(21) == 128 * Pow2(14);
    assert Pow2(28) == 128 * Pow2(21);
    assert Pow2(35) == 128 * Pow2(28);
  }

  /** After `extra` extra bytes the rest of the value does not fit next to the prefix yet. */
  lemma MoreBytesNeeded(n: nat, extra: nat)
    requires 128 <= n < TWO_31 && extra <= 4
    ensures BitLength(n) > 7 + 7 * extra <==> SizeOf(n) > extra + 1
  {
    Pow2Sevens();
    BitLengthAbove(n, 7 + 7 * extra);
  }

  /** `(0xff >> (8 - extra)) << (8 - extra)`: the prefix of `extra + 1` bytes, added to a value below it. */
  function OrOnes(v: nat, extra: nat): int
    requires extra <= 4
  {
    OrPrefix(v % 256, extra + 1)
  }

  function Reverse(b: Buffer): (r: Buffer)
    ensures |r| == |b|
  {
    if b == [] then [] else Reverse(b[1..]) + [b[0]]
  }

  lemma {:induction false} ReverseAppend(b: Buffer, x: byte)
    ensures Reverse(b + [x]) == [x] + Reverse(b)
    decreases |b|
  {
    if b == [] {
      assert b + [x] == [x] && [x][1..] == [];
    } else {
      assert (b + [x])[1..] == b[1..] + [x];
      ReverseAppend(b[1..], x);
      Assoc([x], Reverse(b[1..]), [b[0]]);
    }
  }

  method UvintPack(val: nat) returns (rv: Buffer)
    requires val < TWO_31
    ensures rv == UnsignedVInt(val)
  {
    rv := [];
    if val < 128 {
      OneByte(val);
      rv := [val];
      assert rv[1..] == [] && Reverse(rv) == rv;
    } else {
      var v, numExtraBytes := val, 0;
      var numBits: int := BitLength(v);
      var reservedBits := numExtraBytes + 1;
      MoreBytesNeeded(val, 0);
      while numBits > 8 - reservedBits
        invariant numExtraBytes + 1 <= SizeOf(val) <= 5 && reservedBits == numExtraBytes + 1
        invariant numBits == BitLength(val) - 8 * numExtraBytes
        invariant numBits > 8 - reservedBits <==> SizeOf(val) > numExtraBytes + 1
        invariant 0 <= v == ShiftRight(val, numExtraBytes) <= val
        invariant |rv| == numExtraBytes && forall k :: 0 <= k < numExtraBytes ==> rv[k] == Digit(val, k)
        decreases SizeOf(val) - numExtraBytes
      {
        ShiftStep(val, numExtraBytes);
        numExtraBytes := numExtraBytes + 1;
        numBits := numBits - 8;
        reservedBits := if numExtraBytes + 1 < 8 then numExtraBytes + 1 else 8;
        rv := rv + [v % 256];
        v := v / 256;
        if numExtraBytes <= 4 {
          MoreBytesNeeded(val, numExtraBytes);
        }
      }
      ShiftStep(val, numExtraBytes);
      rv := rv + [OrOnes(v, numExtraBytes)];
      PackedDigits(val, rv);
    }
    rv := Reverse(rv);
  }

  lemma {:induction false} ReverseAt(b: Buffer, k: nat)
    requires k < |b|
    ensures Reverse(b)[k] == b[|b| - 1 - k]
    decreases |b|
  {
    if k < |b| - 1 {
      ReverseAt(b[1..], k);
    }
  }

  lemma {:induction false} PackedDigits(p: nat, rv: Buffer)
    requires 128 <= p < TWO_31 && |rv| == SizeOf(p)
    requires forall k :: 0 <= k < |rv| - 1 ==> rv[k] == Digit(p, k)
    requires rv[|rv| - 1] == OrPrefix(Digit(p, |rv| - 1), |rv|)
    ensures Reverse(rv) == UnsignedVInt(p)
  {
    var b := Reverse(rv);
    forall j | 0 <= j < |b|
      ensures b[j] == rv[|rv| - 1 - j]
    {
      ReverseAt(rv, j);
    }
    DigitsMakeVInt(p, b);
  }

  /** `(rv << 8) | byte` in 32 bits. */
  function ShiftIn(rv: int, b: byte): int {
    var wide := (rv * 256 + b) % TWO_32;
    ToInt32(wide)
  }

  /** The size and the number of bytes read; the length of the complement in binary is never 0. */
  method UvintUnpack(bytes: Buffer) returns (rv: int, bytesRead: nat)
    ensures (rv, bytesRead) == Unpacked(bytes)
  {
    var firstByte := ByteAt(bytes, 0);
    if firstByte < 128 {
      return firstByte, 1;
    }
    var numExtraBytes := 8 - BitLength(255 - firstByte);
    BitsOfComplement(firstByte);
    rv := ValueBits(firstByte, numExtraBytes);
    var idx := 1;
    while idx <= numExtraBytes
      invariant 1 <= idx <= numExtraBytes + 1
      invariant rv == ShiftAll(ValueBits(firstByte, numExtraBytes), bytes, idx - 1)
    {
      rv := ShiftIn(rv, ByteAt(bytes, idx));
      idx := idx + 1;
    }
    bytesRead := numExtraBytes + 1;
  }

  function ShiftAll(rv: int, bytes: Buffer, n: nat): int {
    if n == 0 then rv else ShiftIn(ShiftAll(rv, bytes, n - 1), ByteAt(bytes, n))
  }

  /** What `uvintUnpack` returns; a first byte of all ones reads like one with seven. */
  function Unpacked(bytes: Buffer): (int, nat) {
    var first := ByteAt(bytes, 0);
    if first < 128 then (first, 1)
    else
      var extra := if first == 255 then 7 else LeadingOnes(first);
      (ShiftAll(ValueBits(first, extra), bytes, extra), extra + 1)
  }

  lemma BitsOfComplement(first: byte)
    requires first >= 128
    ensures 8 - BitLength(255 - first) == if first == 255 then 7 else LeadingOnes(first)
  {
    var n := 255 - first;
    if n >= 1 {
      assert Pow2(0) == 1 && Pow2(1) == 2 && Pow2(2) == 4 && Pow2(3) == 8 && Pow2(4) == 16 && Pow2(5) == 32 && Pow2(6) == 64;
      BitLengthAbove(n, 1);
      BitLengthAbove(n, 2);
      BitLengthAbove(n, 3);
      BitLengthAbove(n, 4);
      BitLengthAbove(n, 5);
      BitLengthAbove(n, 6);
      BitLengthAbove(n, 7);
    }
  }

  /** While the value stays below 2^31, 32-bit shifting loses nothing. */
  lemma {:induction false} ShiftAllIsGather(top: byte, bytes: Buffer, n: nat)
    requires n <= 4 && Gather(top, bytes, 1, n) < TWO_31
    ensures ShiftAll(top, bytes, n) == Gather(top, bytes, 1, n)
    decreases n
  {
    if n > 0 {
      var before := Gather(top, bytes, 1, n - 1);
      GatherSmall(top, bytes, n - 1);
      assert before * 256 % TWO_64 == before * 256;
      assert before < TWO_31;
      ShiftAllIsGather(top, bytes, n - 1);
      ShiftInSmall(before, ByteAt(bytes, n));
    }
  }

  lemma ShiftInSmall(rv: nat, b: byte)
    requires rv * 256 + b < TWO_31
    ensures ShiftIn(rv, b) == rv * 256 + b
  {
  }

  lemma {:induction false} GatherSmall(top: byte, bytes: Buffer, n: nat)
    requires n <= 3
    ensures Gather(top, bytes, 1, n) < Pow256(n + 1) <= TWO_32
    decreases n
  {
    Powers();
    if n > 0 {
      GatherSmall(top, bytes, n - 1);
    }
  }

  /** For lengths below 2^31 both pairs of functions agree, and unpacking inverts packing. */
  lemma {:induction false} UvintRoundTrip(val: nat, after: Buffer)
    requires val < TWO_31
    ensures Unpacked(UnsignedVInt(val) + after) == (val, |UnsignedVInt(val)|)
  {
    var b := UnsignedVInt(val);
    var input := b + after;
    assert input[..|b|] == b && input[0..0 + |b|] == b;
    ReadsWritten(val, input, 0);
    var first := ByteAt(input, 0);
    if first >= 128 {
      assert LeadingOnes(first) + 1 == SizeOf(val) <= 5;
      ShiftAllIsGather(ValueBits(first, LeadingOnes(first)), input, LeadingOnes(first));
    }
  }
}
