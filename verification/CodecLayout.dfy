/**
 The bytes on the wire, spelled out (sections 6 and 7 of the CQL binary protocol v4): which byte stands where in
 numbers, collections, tuples, objects and vectors, and what is read from buffers that no encoder writes.
 */
module CodecLayout {
  import opened Bytes
  import opened Codec
  import opened CodecRoundTrip
  import opened Durations
  import opened Framing
  import opened Seqs
  import opened Wrappers
  import VIntCoding

  // ----- Numbers -----

  /** The low two bytes of a number, the high one first. */
  function Two(n: nat): Buffer {
    [n / 256 % 256, n % 256]
  }

  function Four(n: nat): Buffer {
    [n / 256 / 256 / 256 % 256, n / 256 / 256 % 256, n / 256 % 256, n % 256]
  }

  function Eight(n: nat): Buffer {
    Four(n / 256 / 256 / 256 / 256) + Four(n)
  }

  lemma OneByteMore(n: nat, width: nat)
    ensures ToBytes(n, width + 1) == ToBytes(n / 256, width) + [n % 256]
    ensures ToBytes(n, 0) == []
  {
  }

  lemma TwoSpelled(n: nat)
    ensures ToBytes(n, 1) == [n % 256] && ToBytes(n, 2) == Two(n)
  {
    hide ToBytes;
    OneByteMore(n, 0);
    OneByteMore(n / 256, 0);
    OneByteMore(n, 1);
  }

  lemma FourSpelled(n: nat)
    ensures ToBytes(n, 4) == Four(n)
  {
    hide ToBytes;
    OneByteMore(n, 3);
    OneByteMore(n / 256, 2);
    TwoSpelled(n / 256 / 256);
  }

  lemma EightSpelled(n: nat)
    ensures ToBytes(n, 8) == Eight(n)
  {
    hide ToBytes;
    OneByteMore(n, 7);
    OneByteMore(n / 256, 6);
    OneByteMore(n / 256 / 256, 5);
    OneByteMore(n / 256 / 256 / 256, 4);
    FourSpelled(n / 256 / 256 / 256 / 256);
  }

  /** Numbers are two's complement, high byte first; a Date is its milliseconds. */
  lemma NumbersSpelled(n: int)
    ensures EncodeOwn(Number(n), Tinyint) == if -0x80 <= n < 0x80 then Bytes([n % 0x100]) else Throws
    ensures EncodeOwn(Number(n), Smallint) == if -0x8000 <= n < 0x8000 then Bytes(Two(n % 0x1_0000)) else Throws
    ensures EncodeOwn(Number(n), Int) == if -0x8000_0000 <= n < 0x8000_0000 then Bytes(Four(n % VIntCoding.TWO_32)) else Throws
    ensures EncodeOwn(BigInt(n), Bigint) == EncodeOwn(BigInt(n), Counter) == EncodeOwn(Date(n), Timestamp)
         == Bytes(Eight(n % VIntCoding.TWO_64))
  {
    VIntCoding.Powers();
    TwoSpelled(n % 0x100);
    TwoSpelled(n % 0x1_0000);
    FourSpelled(n % VIntCoding.TWO_32);
    EightSpelled(n % VIntCoding.TWO_64);
    hide ToBytes, Pow256, Four, Two, Eight, ToSigned, WrappedLong;
    SignedIs(n, 1);
    SignedIs(n, 2);
    SignedIs(n, 4);
    WrappedIs(n);
    assert n % 0x100 % 256 == n % 0x100;
  }

  lemma WrappedIs(n: int)
    ensures WrappedLong(n) == ToBytes(n % VIntCoding.TWO_64, 8)
  {
  }

  lemma SignedIs(n: int, width: nat)
    requires width == 1 || width == 2 || width == 4
    ensures FitsSigned(n, width) ==> ToSigned(n, width) == ToBytes(n % Pow256(width), width)
  {
    VIntCoding.Powers();
    hide ToBytes, Pow256;
  }

  /** The other types without parts; a duration is its months, days and nanoseconds. */
  lemma OthersSpelled(v: Value)
    ensures v.Bool? ==> EncodeOwn(v, Boolean) == Bytes([if v.b then 1 else 0])
    ensures v.Chars? ==> EncodeOwn(v, Text) == Bytes(v.bytes)
    ensures v.Real? && |v.bytes| == 8 ==> EncodeOwn(v, Double) == Bytes(v.bytes)
    ensures v.Real? && |v.bytes| == 4 ==> EncodeOwn(v, Float) == Bytes(v.bytes)
    ensures v.Id? && |v.bytes| == 16 ==> EncodeOwn(v, Uuid) == EncodeOwn(v, TimeUuid) == Bytes(v.bytes)
    ensures v.DurationValue? ==>
      EncodeOwn(v, DurationCode)
      == Bytes(VIntCoding.VInt(v.duration.months) + (VIntCoding.VInt(v.duration.days) + VIntCoding.VInt(v.duration.nanoseconds)))
  {
    hide VIntCoding.VInt;
  }

  /**
   A vint read as one number, high byte first, is its value with as many ones in front as bytes follow the first;
   there are the fewest bytes that leave room for them. (Section 3 of the CQL binary protocol v5.)
   */
  lemma VIntSpelled(p: VIntCoding.Pattern)
    ensures var b := VIntCoding.UnsignedVInt(p);
      && FromBytes(b) == p + LeadingBits(|b|)
      && 1 <= |b| <= 9 && p < Room(|b|) && (|b| > 1 ==> p >= Room(|b| - 1))
  {
    hide LeadingBits, Room, VIntCoding.SizeOf, VIntCoding.Prefix, Pow256, ToBytes;
    var size := VIntCoding.SizeOf(p);
    var power := Pow256(size - 1);
    VIntCoding.FirstByteFits(p);
    PrefixLeads(size);
    SizeIsLeast(p);
    var prefix, top, low := VIntCoding.Prefix(size), p / power, ToBytes(p % power, size - 1);
    var b := [prefix + top] + low;
    assert VIntCoding.UnsignedVInt(p) == b;
    assert b[1..] == low;
    FromBytesHead(b);
    LowBits(p, power);
    FromToBytes(p % power, size - 1);
    Distribute(prefix, top, power);
  }

  lemma Distribute(x: int, y: int, z: int)
    ensures (x + y) * z == x * z + y * z
  {
  }

  lemma PrefixLeads(size: nat)
    requires 1 <= size <= 9
    ensures VIntCoding.Prefix(size) * Pow256(size - 1) == LeadingBits(size) && Pow256(size - 1) > 0
  {
    VIntCoding.Powers();
  }

  lemma SizeIsLeast(p: VIntCoding.Pattern)
    ensures var size := VIntCoding.SizeOf(p);
      1 <= size <= 9 && p < Room(size) && (size > 1 ==> p >= Room(size - 1))
  {
  }

  lemma LowBits(p: nat, power: nat)
    requires power > 0
    ensures p == p / power * power + p % power && 0 <= p % power < power
  {
  }

  /** The ones in front of a vint of some size, as they stand in the whole number. */
  function LeadingBits(size: nat): nat
    requires 1 <= size <= 9
  {
    [0, 0x8000, 0xC0_0000, 0xE000_0000, 0xF0_0000_0000, 0xF800_0000_0000, 0xFC_0000_0000_0000, 0xFE00_0000_0000_0000,
     0xFF_0000_0000_0000_0000][size - 1]
  }

  /** The first number that a vint of some size has no room for. */
  function Room(size: nat): nat
    requires 1 <= size <= 9
  {
    [0x80, 0x4000, 0x20_0000, 0x1000_0000, 0x8_0000_0000, 0x400_0000_0000, 0x2_0000_0000_0000, 0x100_0000_0000_0000,
     VIntCoding.TWO_64][size - 1]
  }

  lemma EncodesAlone(enc: Encoder, v: Value, code: Code)
    ensures Encode(enc, v, Single(code))
         == if Missing(v) then NoBytes else if v.Raw? then Bytes(v.bytes) else EncodeSingle(enc, v, code)
  {
  }

  predicate OtherClass(v: Value, code: Code) {
    || code == Blob || (code == Text && !v.Chars?) || (code == DurationCode && !v.DurationValue?)
    || (code in {Uuid, TimeUuid} && !v.Chars? && !v.Id?)
    || (code in {Bigint, Counter, Varint} && !v.Chars? && !v.BigInt?)
    || (code in {Tinyint, Smallint, Int} && v.BigInt?)
    || (code in {Double, Float} && !v.Real? && !v.Number? && !v.Chars?)
  }

  /** The classes that types without parts refuse; a buffer is taken for any type as it is. */
  lemma ClassesRefused(enc: Encoder, v: Value, code: Code)
    ensures v.Raw? ==> Encode(enc, v, Single(code)) == Bytes(v.bytes)
    ensures !Missing(v) && !v.Raw? && OtherClass(v, code) ==> Encode(enc, v, Single(code)) == Throws
  {
    EncodesAlone(enc, v, code);
    hide Encode, EncodeOwn;
    OwnClassOnly(v);
  }

  /** The classes they convert without JavaScript's help: booleans, dates and numbers. */
  lemma ClassesConverted(enc: Encoder, n: int, code: Code)
    ensures code in {Tinyint, Smallint, Int} ==>
      && Encode(enc, Bool(true), Single(code)) == Encode(enc, Number(1), Single(code))
      && Encode(enc, Bool(false), Single(code)) == Encode(enc, Number(0), Single(code))
      && Encode(enc, Date(n), Single(code)) == Encode(enc, Number(n), Single(code)) == EncodeOwn(Number(n), code)
    ensures Encode(enc, Number(n), Single(Timestamp)) == Encode(enc, BigInt(n), Single(Timestamp))
         == Encode(enc, Date(n), Single(Timestamp)) == Bytes(Eight(n % VIntCoding.TWO_64))
  {
    forall v, c
      ensures Encode(enc, v, Single(c))
           == if Missing(v) then NoBytes else if v.Raw? then Bytes(v.bytes) else EncodeSingle(enc, v, c)
    {
      EncodesAlone(enc, v, c);
    }
    NumbersSpelled(n);
    hide Encode, Eight, EncodeOwn;
  }

  lemma OwnClassOnly(v: Value)
    ensures EncodeOwn(v, Blob) == Throws
    ensures !v.Chars? ==> EncodeOwn(v, Text) == Throws
    ensures !v.DurationValue? ==> EncodeOwn(v, DurationCode) == Throws
  {
  }

  /** A boolean is false for `false`, zero, no number and an empty text, and true for everything else that is not missing. */
  lemma BooleansSpelled(enc: Encoder, v: Value)
    requires !Missing(v) && !v.Raw?
    ensures var no := v == Bool(false) || v == Number(0) || v == BigInt(0) || v == Chars([]) || (v.Real? && IsZeroOrNaN(v.bytes));
      Encode(enc, v, Single(Boolean)) == Bytes([if no then 0 else 1])
  {
  }

  /** A collection's length is a positive number of 32 bits, or any of 16 bits up to version 2 of the protocol. */
  lemma LengthsAccepted(wide: bool, n: nat)
    ensures EncodeLength(wide, n) == Throws <==> n > if wide then 0x7FFF_FFFF else 0xFFFF
  {
  }

  // ----- Collections -----

  /** A length as collections write it: four bytes, or two up to version 2 of the protocol. */
  function Length(wide: bool, n: nat): Buffer {
    if wide then Four(n) else Two(n)
  }

  lemma LengthSpelled(wide: bool, n: nat)
    requires n <= MaxLength(wide)
    ensures EncodeLength(wide, n) == Bytes(Length(wide, n))
  {
    TwoSpelled(n);
    FourSpelled(n);
    hide Four, Two, ToBytes;
  }

  /** Every item after its length. */
  function ItemsSpelled(wide: bool, items: seq<Buffer>): Buffer {
    if items == [] then [] else Length(wide, |items[0]|) + (items[0] + ItemsSpelled(wide, items[1..]))
  }

  /** The bytes of the parts from the i-th on. */
  function From(parts: seq<Encoded>, i: nat): (r: seq<Buffer>)
    requires i <= |parts|
    ensures |r| == |parts| - i && forall k :: 0 <= k < |r| ==> r[k] == Payload(parts[i + k])
  {
    seq(|parts| - i, k requires 0 <= k < |parts| - i => Payload(parts[i + k]))
  }

  lemma FromStep(parts: seq<Encoded>, i: nat)
    requires i < |parts|
    ensures From(parts, i) == [Payload(parts[i])] + From(parts, i + 1)
    ensures From(parts, i)[0] == Payload(parts[i]) && From(parts, i)[1..] == From(parts, i + 1)
  {
  }

  lemma {:induction false} ItemsJoined(wide: bool, parts: seq<Encoded>, i: nat)
    requires i <= |parts| && JoinItems(wide, parts, i).Bytes?
    ensures JoinItems(wide, parts, i).bytes == ItemsSpelled(wide, From(parts, i))
    ensures forall k :: i <= k < |parts| ==> parts[k].Bytes?
    decreases |parts| - i
  {
    hide Length, LengthBytes;
    if i < |parts| {
      ItemsJoined(wide, parts, i + 1);
      FromStep(parts, i);
      LengthSpelled(wide, |parts[i].bytes|);
      Assoc(Length(wide, |parts[i].bytes|), parts[i].bytes, ItemsSpelled(wide, From(parts, i + 1)));
    }
  }

  /** A list or set: its number of items, and every item after its length. */
  lemma {:induction false} ListSpelled(enc: Encoder, items: seq<Value>, t: Type, b: Buffer)
    requires (t.List? || t.Set?) && Encode(enc, ListValue(items), t) == Bytes(b)
    ensures var parts := EncodeEach(enc, items, t.item);
      && (forall i :: 0 <= i < |items| ==> parts[i].Bytes?)
      && b == Length(enc.wide, |items|) + ItemsSpelled(enc.wide, From(parts, 0))
  {
    hide Length, LengthBytes, JoinItems, ItemsSpelled, EncodeSingle;
    var present, parts := EncodeItems(enc, items, t.item), EncodeEach(enc, items, t.item);
    LengthSpelled(enc.wide, |items|);
    ItemsJoined(enc.wide, present, 0);
    hide Encode;
    assert forall i :: 0 <= i < |items| ==> present[i] == parts[i];
    assert present == parts;
  }

  /** Every key and every value after its length; a value without bytes has the length zero. */
  function EntriesSpelled(wide: bool, keys: seq<Buffer>, values: seq<Buffer>): Buffer
    requires |keys| == |values|
  {
    if keys == [] then []
    else Length(wide, |keys[0]|) + (keys[0] + (Length(wide, |values[0]|) + (values[0] + EntriesSpelled(wide, keys[1..], values[1..]))))
  }

  lemma {:induction false} EntriesJoined(wide: bool, keys: seq<Encoded>, values: seq<Encoded>, i: nat)
    requires i <= |keys| == |values| && JoinEntries(wide, keys, values, i).Bytes?
    ensures JoinEntries(wide, keys, values, i).bytes == EntriesSpelled(wide, From(keys, i), From(values, i))
    ensures forall k :: i <= k < |keys| ==> keys[k].Bytes? && !values[k].Throws?
    decreases |keys| - i
  {
    hide Length, LengthBytes, Sized, SizedOrEmpty;
    if i < |keys| {
      EntriesJoined(wide, keys, values, i + 1);
      FromStep(keys, i);
      FromStep(values, i);
      hide From;
      SizedSpelt(wide, keys[i]);
      SizedSpelt(wide, values[i]);
      var x, y := Payload(keys[i]), Payload(values[i]);
      FourParts(Length(wide, |x|), x, Length(wide, |y|), y, EntriesSpelled(wide, From(keys, i + 1), From(values, i + 1)));
    }
  }

  lemma SizedSpelt(wide: bool, e: Encoded)
    ensures Sized(wide, e).Bytes? ==> e.Bytes? && Sized(wide, e).bytes == Length(wide, |Payload(e)|) + Payload(e)
    ensures SizedOrEmpty(wide, e).Bytes? ==> !e.Throws? && SizedOrEmpty(wide, e).bytes == Length(wide, |Payload(e)|) + Payload(e)
  {
    hide Length, LengthBytes;
    if |Payload(e)| <= MaxLength(wide) {
      LengthSpelled(wide, |Payload(e)|);
    }
    assert Length(wide, 0) + [] == Length(wide, 0);
  }

  lemma FourParts(a: Buffer, b: Buffer, c: Buffer, d: Buffer, rest: Buffer)
    ensures a + (b + (c + (d + rest))) == ((a + b) + (c + d)) + rest
  {
  }

  /** A map: its number of entries, and every key and value after its length. */
  lemma {:induction false} MapSpelled(enc: Encoder, v: Value, t: Type, b: Buffer)
    requires t.Map? && !Missing(v) && !v.Raw? && Encode(enc, v, t) == Bytes(b)
    ensures var entries := MapEntries(enc, v);
      var keys, values := EncodeKeys(enc, entries, t.key), EncodeValues(enc, entries, t.value);
      && (forall i :: 0 <= i < |entries| ==>
            keys[i] == Encode(enc, entries[i].key, t.key) && keys[i].Bytes?
            && values[i] == Encode(enc, entries[i].value, t.value) && !values[i].Throws?)
      && b == Length(enc.wide, |entries|) + EntriesSpelled(enc.wide, From(keys, 0), From(values, 0))
  {
    hide Length, LengthBytes, JoinEntries, EntriesSpelled, EncodeSingle, MapEntries;
    var entries := MapEntries(enc, v);
    LengthSpelled(enc.wide, |entries|);
    EntriesJoined(enc.wide, EncodeKeys(enc, entries, t.key), EncodeValues(enc, entries, t.value), 0);
  }

  // ----- Tuples and objects -----

  const MINUS_ONE: Buffer := [255, 255, 255, 255]

  /** Every component after its length in four bytes; -1 for one without bytes. */
  function ComponentsSpelled(parts: seq<Encoded>, i: nat): Buffer
    requires i <= |parts|
    decreases |parts| - i
  {
    if i == |parts| then []
    else (if parts[i].Bytes? then Four(|parts[i].bytes|) + parts[i].bytes else MINUS_ONE) + ComponentsSpelled(parts, i + 1)
  }

  lemma MinusOne()
    ensures ToSigned(-1, 4) == MINUS_ONE
  {
    VIntCoding.Powers();
    FourSpelled(0xFFFF_FFFF);
  }

  lemma {:induction false} ComponentsJoined(parts: seq<Encoded>, i: nat)
    requires i <= |parts| && JoinParts(parts, i).Bytes?
    ensures JoinParts(parts, i).bytes == ComponentsSpelled(parts, i)
    decreases |parts| - i
  {
    hide Four, LengthBytes, ToSigned;
    if i < |parts| {
      ComponentsJoined(parts, i + 1);
      MinusOne();
      if parts[i].Bytes? {
        LengthSpelled(true, |parts[i].bytes|);
      }
    }
  }

  /** A tuple or an object: its components, each after four bytes of length. */
  lemma {:induction false} PartsSpelled(enc: Encoder, v: Value, t: Type, b: Buffer)
    requires (t.Tuple? || t.Udt?) && !Missing(v) && !v.Raw? && Encode(enc, v, t) == Bytes(b)
    ensures b == ComponentsSpelled(EncodeParts(enc, v, t), 0)
  {
    hide JoinParts, ComponentsSpelled, EncodeParts, EncodeSingle;
    ComponentsJoined(EncodeParts(enc, v, t), 0);
  }

  // ----- Vectors -----

  /** The types of which a vector holds the bare bytes of its elements. */
  predicate Bare(t: Type) {
    match t
    case Single(code) => code in {Bigint, Boolean, Timestamp, Double, Float, Int, TimeUuid, Uuid}
    case Vector(item, _) => Bare(item)
    case _ => false
  }

  function BareSize(t: Type): nat
    requires Bare(t)
  {
    match t
    case Single(Boolean) => 1
    case Single(Float) => 4
    case Single(Int) => 4
    case Single(TimeUuid) => 16
    case Single(Uuid) => 16
    case Single(_) => 8
    case Vector(item, dimension) => dimension * BareSize(item)
  }

  lemma {:induction false} BareIsFixed(t: Type)
    ensures Bare(t) <==> FixedSize(t) != -1
    ensures Bare(t) ==> FixedSize(t) == BareSize(t)
    decreases t
  {
    if t.Vector? {
      BareIsFixed(t.item);
      if Bare(t.item) {
        Commutes(BareSize(t.item), t.dimension);
      }
    }
  }

  lemma Commutes(x: int, y: int)
    ensures x * y == y * x
  {
  }

  function BareSpelled(elements: seq<Buffer>): Buffer {
    if elements == [] then [] else elements[0] + BareSpelled(elements[1..])
  }

  predicate Small(elements: seq<Buffer>) {
    forall k :: 0 <= k < |elements| ==> |elements[k]| < VIntCoding.TWO_31
  }

  /** Every element after its size as an unsigned vint. */
  function SizedSpelled(elements: seq<Buffer>): Buffer
    requires Small(elements)
  {
    if elements == [] then []
    else VIntCoding.UnsignedVInt(|elements[0]|) + (elements[0] + SizedSpelled(elements[1..]))
  }

  lemma {:induction false} BareJoined(parts: seq<Encoded>, i: nat)
    requires i <= |parts| && JoinElements(true, parts, i).Bytes?
    ensures JoinElements(true, parts, i).bytes == BareSpelled(From(parts, i))
    ensures forall k :: i <= k < |parts| ==> parts[k].Bytes?
    decreases |parts| - i
  {
    if i < |parts| {
      BareJoined(parts, i + 1);
      FromStep(parts, i);
    }
  }

  lemma {:induction false} SizedJoined(parts: seq<Encoded>, i: nat)
    requires i <= |parts| && JoinElements(false, parts, i).Bytes?
    ensures Small(From(parts, i))
    ensures JoinElements(false, parts, i).bytes == SizedSpelled(From(parts, i))
    ensures forall k :: i <= k < |parts| ==> parts[k].Bytes?
    decreases |parts| - i
  {
    hide VIntCoding.UnsignedVInt;
    if i < |parts| {
      SizedJoined(parts, i + 1);
      FromStep(parts, i);
      hide From;
      var x := parts[i].bytes;
      SizedStep(From(parts, i), x, From(parts, i + 1));
    }
  }

  lemma SizedStep(all: seq<Buffer>, x: Buffer, rest: seq<Buffer>)
    requires all == [x] + rest && |x| < VIntCoding.TWO_31 && Small(rest)
    ensures Small(all) && SizedSpelled(all) == (VIntCoding.UnsignedVInt(|x|) + x) + SizedSpelled(rest)
  {
    hide VIntCoding.UnsignedVInt;
    DropPrefix([x], rest);
    Assoc(VIntCoding.UnsignedVInt(|x|), x, SizedSpelled(rest));
  }

  /**
   A vector of big integers, booleans, timestamps, doubles, floats, integers or identifiers, or of vectors of them,
   is the bare bytes of its elements, 8, 1, 8, 8, 4, 4 or 16 each; of every other type, each element follows its size.
   */
  lemma {:induction false} VectorSpelled(enc: Encoder, items: seq<Value>, t: Type, b: Buffer)
    requires t.Vector? && Encode(enc, VectorValue(items), t) == Bytes(b)
    ensures var parts := EncodeEach(enc, items, t.item);
      && |items| == t.dimension > 0 && (forall i :: 0 <= i < |items| ==> parts[i].Bytes?)
      && (if Bare(t.item) then b == BareSpelled(From(parts, 0))
          else Small(From(parts, 0)) && b == SizedSpelled(From(parts, 0)))
      && (Bare(t.item) ==> forall i :: 0 <= i < |items| && WellTyped(items[i], t.item) ==> |parts[i].bytes| == BareSize(t.item))
  {
    hide JoinElements, EncodeSingle, EncodeEach, FixedSize, Bare, BareSize, WellTyped, BareSpelled, SizedSpelled, Small;
    BareIsFixed(t.item);
    VectorJoined(enc, items, t, b);
    var parts := EncodeEach(enc, items, t.item);
    if Bare(t.item) {
      BareJoined(parts, 0);
      forall i | 0 <= i < |items| && WellTyped(items[i], t.item)
        ensures |parts[i].bytes| == BareSize(t.item)
      {
        FixedSizeEncodes(enc, items[i], t.item);
      }
    } else {
      SizedJoined(parts, 0);
    }
  }

  lemma VectorJoined(enc: Encoder, items: seq<Value>, t: Type, b: Buffer)
    requires t.Vector? && Encode(enc, VectorValue(items), t) == Bytes(b)
    ensures |items| == t.dimension > 0
    ensures JoinElements(FixedSize(t.item) != -1, EncodeEach(enc, items, t.item), 0) == Bytes(b)
    ensures forall i :: 0 <= i < |items| ==> EncodeEach(enc, items, t.item)[i] == Encode(enc, items[i], t.item)
  {
    hide JoinElements, EncodeSingle, FixedSize;
  }

  // ----- Buffers that no encoder writes -----

  /** The first bytes of a buffer as a number in two's complement. */
  function Leading(b: Buffer, width: nat): int
    requires 0 < width <= |b|
  {
    FromBytes(b[..width]) - if b[0] >= 128 then Pow256(width) else 0
  }

  /** What integers are read from any buffer that is not empty: bytes beyond them are ignored, and too few throw. */
  lemma IntegersRead(wide: bool, b: Buffer)
    requires b != []
    ensures Decode(wide, b, Single(Tinyint)) == Returns(Number(Leading(b, 1)))
    ensures Decode(wide, b, Single(Smallint)) == if |b| < 2 then Fails else Returns(Number(Leading(b, 2)))
    ensures Decode(wide, b, Single(Int)) == if |b| < 4 then Fails else Returns(Number(Leading(b, 4)))
    ensures Decode(wide, b, Single(Bigint)) == Decode(wide, b, Single(Counter))
         == if |b| < 8 then Fails else Returns(BigInt(Leading(b, 8)))
    ensures Decode(wide, b, Single(Timestamp)) == if |b| < 8 then Fails else Returns(Date(Leading(b, 8)))
    ensures Decode(wide, b, Single(Varint)) == Returns(BigInt(Leading(b, |b|)))
  {
    LeadingRead(b, 1);
    LeadingRead(b, 2);
    LeadingRead(b, 4);
    LeadingRead(b, 8);
    assert b[..|b|] == b;
    hide FromBytes, Pow256, ReadSigned;
  }

  lemma LeadingRead(b: Buffer, width: nat)
    requires b != [] && 0 < width <= 8
    ensures ReadSigned(b, 0, width) == if |b| < width then Fails else Returns(Leading(b, width))
  {
    assert b[0..0 + if |b| < width then 0 else width] == b[..if |b| < width then 0 else width];
  }

  /** The same of the other types without parts. */
  lemma OthersRead(wide: bool, b: Buffer)
    requires b != []
    ensures Decode(wide, b, Single(Boolean)) == Returns(Bool(b[0] != 0))
    ensures Decode(wide, b, Single(Double)) == if |b| < 8 then Fails else Returns(Real(b[..8]))
    ensures Decode(wide, b, Single(Float)) == if |b| < 4 then Fails else Returns(Real(b[..4]))
    ensures Decode(wide, b, Single(Uuid)) == Decode(wide, b, Single(TimeUuid)) == if |b| == 16 then Returns(Id(b)) else Fails
    ensures Decode(wide, b, Single(Text)) == Returns(Chars(b)) && Decode(wide, b, Single(Blob)) == Returns(Raw(b))
  {
  }

  /** An empty buffer is an empty text, blob or duration, no vector, and `null` for every other type. */
  lemma {:induction false} EmptyBuffers(wide: bool, t: Type)
    ensures Decode(wide, [], t) ==
      match t
      case Single(Text) => Returns(Chars([]))
      case Single(Blob) => Returns(Raw([]))
      case Single(DurationCode) => Returns(DurationValue(Duration(0, 0, 0)))
      case Vector(_, _) => Fails
      case _ => Returns(Null)
  {
    match t
    case Vector(item, dimension) => EmptyVector(wide, t);
    case Single(DurationCode) => assert FieldsAt([]) == Fields(0, 0, 0);
    case _ =>
  }

  lemma {:induction false} EmptyVector(wide: bool, t: Type)
    requires t.Vector?
    ensures Decode(wide, [], t).Fails?
    decreases t
  {
    hide DecodeSingle, DecodeList, ElementFrames, DecodeEach;
    if t.dimension > 0 {
      BareIsFixed(t.item);
      if FixedSize(t.item) == 0 {
        ZeroSize(t.item);
        EmptyVector(wide, t.item);
        NoElements(t.dimension);
        EmptyFails(wide, t.item, t.dimension);
      } else {
        NoRoom(FixedSize(t.item), t.dimension);
      }
    }
  }

  lemma NoRoom(fixed: int, n: nat)
    requires n > 0 && fixed != 0 && fixed >= -1
    ensures ElementFrames([], fixed, 0, n).Fails?
  {
  }

  lemma EmptyFails(wide: bool, item: Type, n: nat)
    requires n > 0 && Decode(wide, [], item).Fails?
    requires ElementFrames([], 0, 0, n).Returns? ==> forall f <- ElementFrames([], 0, 0, n).value :: f == []
    ensures ElementFrames([], 0, 0, n).Returns? ==> DecodeEach(wide, ElementFrames([], 0, 0, n).value, item).Fails?
  {
    hide Decode, ElementFrames;
    var r := ElementFrames([], 0, 0, n);
    if r.Returns? {
      FramesCount([], 0, 0, n);
      var outcomes := seq(|r.value|, i requires 0 <= i < |r.value| => Decode(wide, r.value[i], item));
      assert r.value[0] in r.value;
      assert outcomes[0].Fails?;
    }
  }

  lemma {:induction false} FramesCount(b: Buffer, fixed: int, offset: int, n: nat)
    ensures ElementFrames(b, fixed, offset, n).Returns? ==> |ElementFrames(b, fixed, offset, n).value| == n
    decreases n
  {
    if n > 0 {
      var (size, start) := ElementAt(b, fixed, offset);
      FramesCount(b, fixed, start + size, n - 1);
    }
  }

  lemma {:induction false} ZeroSize(t: Type)
    requires FixedSize(t) == 0
    ensures t.Vector?
  {
  }

  lemma {:induction false} NoElements(n: nat)
    ensures ElementFrames([], 0, 0, n).Returns? ==> forall f <- ElementFrames([], 0, 0, n).value :: f == []
    decreases n
  {
    if n > 0 {
      NoElements(n - 1);
    }
  }

  /** A buffer that ends after some components holds only those, as one written before a type had the others. */
  lemma {:induction false} FirstComponents(wide: bool, parts: seq<Encoded>, values: seq<Value>, t: Type, b: Buffer)
    requires (t.Tuple? || t.Udt?) && 0 < |parts| == |values| <= t.Arity() && JoinParts(parts, 0) == Bytes(b)
    requires forall i :: 0 <= i < |parts| ==>
      if parts[i].NoBytes? then values[i] == Null else parts[i].Bytes? && Decode(wide, parts[i].bytes, t.Component(i)) == Returns(values[i])
    ensures t.Tuple? ==> Decode(wide, b, t) == Returns(TupleValue(values + Holes(|t.items| - |values|)))
    ensures t.Udt? ==> Decode(wide, b, t) == Returns(UdtValue(Members(t.fields, values, |values|)))
  {
    PartsNotEmpty(parts);
    hide JoinParts, PartFrames, Members;
    assert b[0..] == b;
    PartsFramed(parts, 0, b, 0, t.Arity());
    var frames := PartsOf(parts, 0);
    ComponentsDecode(wide, frames, parts, values, t);
    PartsDecoded(wide, b, frames, values, t);
    hide DecodeParts, DecodeSingle, DecodeList;
  }

  lemma ComponentsDecode(wide: bool, frames: seq<Option<Buffer>>, parts: seq<Encoded>, values: seq<Value>, t: Type)
    requires (t.Tuple? || t.Udt?) && frames == PartsOf(parts, 0) && |parts| == |values| <= t.Arity()
    requires forall i :: 0 <= i < |parts| ==>
      if parts[i].NoBytes? then values[i] == Null else parts[i].Bytes? && Decode(wide, parts[i].bytes, t.Component(i)) == Returns(values[i])
    ensures |frames| == |values| && forall i :: 0 <= i < |frames| ==> DecodePart(wide, frames[i], t.Component(i)) == Returns(values[i])
  {
    hide Decode;
  }

  lemma PartsDecoded(wide: bool, b: Buffer, frames: seq<Option<Buffer>>, values: seq<Value>, t: Type)
    requires (t.Tuple? || t.Udt?) && |frames| == |values| <= t.Arity() && PartFrames(b, 0, t.Arity()) == Returns(frames)
    requires forall i :: 0 <= i < |frames| ==> DecodePart(wide, frames[i], t.Component(i)) == Returns(values[i])
    ensures DecodeParts(wide, b, t) == Returns(values)
  {
    hide DecodePart, PartFrames;
    var outcomes := seq(|frames|, i requires 0 <= i < |frames| => DecodePart(wide, frames[i], t.Component(i)));
    assert All(outcomes).value == values;
  }

  /** A length below zero stands for `null` where a map's value should be. */
  lemma {:induction false} NullInMap(wide: bool, key: Buffer, k: Value, t: Type)
    requires t.Map? && wide && |key| <= MaxLength(wide) && Decode(wide, key, t.key) == Returns(k)
    ensures Decode(wide, Four(1) + (Four(|key|) + (key + MINUS_ONE)), t) == Returns(MapValue([Entry(k, Null)]))
  {
    var b := Four(1) + (Four(|key|) + (key + MINUS_ONE));
    hide Decode, Slice;
    assert b[0..4] == Four(1) && b[4..8] == Four(|key|) && b[8 + |key|..8 + |key| + 4] == MINUS_ONE && b[8..8 + |key|] == key;
    ReadsLength(b, 0, 1);
    ReadsLength(b, 4, |key|);
    ReadsMinusOne(b, 8 + |key|);
    OneEntry(wide, b, key, k, t);
  }

  lemma ReadsLength(b: Buffer, at: nat, n: nat)
    requires at + 4 <= |b| && b[at..at + 4] == Four(n) && n <= MaxLength(true)
    ensures ReadLength(true, b, at) == Returns(n)
  {
    VIntCoding.Powers();
    FourSpelled(n);
    FromToBytes(n, 4);
  }

  lemma ReadsMinusOne(b: Buffer, at: nat)
    requires at + 4 <= |b| && b[at..at + 4] == MINUS_ONE
    ensures ReadLength(true, b, at) == Returns(-1)
  {
    VIntCoding.Powers();
    MinusOne();
    SignedRoundTrip(-1, 4);
  }

  lemma OneEntry(wide: bool, b: Buffer, key: Buffer, k: Value, t: Type)
    requires t.Map? && wide && Decode(wide, key, t.key) == Returns(k)
    requires |b| == 12 + |key| && b[8..8 + |key|] == key
    requires ReadLength(true, b, 0) == Returns(1) && ReadLength(true, b, 4) == Returns(|key|)
    requires ReadLength(true, b, 8 + |key|) == Returns(-1)
    ensures Decode(wide, b, t) == Returns(MapValue([Entry(k, Null)]))
  {
    hide ReadLength, Slice, Decode;
    SliceIs(b, 8, key);
    OneFrame(b, key);
    var frames := EntryFrames(wide, b, 4, 1);
    var outcomes := seq(1, i requires 0 <= i < 1 => DecodeEntry(wide, frames.value[i], t));
    EntryDecodes(wide, EntryFrame(key, None), k, t);
    assert All(outcomes).value == [Entry(k, Null)];
    assert DecodeEntries(wide, frames.value, t) == Returns([Entry(k, Null)]);
    MapDecodes(wide, b, t);
  }

  lemma EntryDecodes(wide: bool, frame: EntryFrame, k: Value, t: Type)
    requires t.Map? && frame.value.None? && Decode(wide, frame.key, t.key) == Returns(k)
    ensures DecodeEntry(wide, frame, t) == Returns(Entry(k, Null))
  {
    hide Decode;
  }

  lemma OneFrame(b: Buffer, key: Buffer)
    requires ReadLength(true, b, 4) == Returns(|key|) && ReadLength(true, b, 8 + |key|) == Returns(-1)
    requires Slice(b, 8, 8 + |key|) == key
    ensures EntryFrames(true, b, 4, 1) == Returns([EntryFrame(key, None)])
  {
    hide ReadLength, Slice;
    assert EntryFrames(true, b, 12 + |key|, 0) == Returns([]);
    assert 4 + Width(true) == 8 && 8 + |key| + Width(true) == 12 + |key|;
    assert [EntryFrame(key, None)] + [] == [EntryFrame(key, None)];
  }

  lemma SliceIs(b: Buffer, at: nat, x: Buffer)
    requires at + |x| <= |b| && b[at..at + |x|] == x
    ensures Slice(b, at, at + |x|) == x
  {
  }

  lemma MapDecodes(wide: bool, b: Buffer, t: Type)
    requires t.Map? && wide && b != [] && ReadLength(wide, b, 0) == Returns(1) && EntryFrames(wide, b, 4, 1).Returns?
    ensures var entries := DecodeEntries(wide, EntryFrames(wide, b, 4, 1).value, t);
      entries.Returns? ==> Decode(wide, b, t) == Returns(MapValue(entries.value))
  {
    hide ReadLength, EntryFrames, DecodeEntries;
  }
}
