/**
 What `encode` and `decode` of lib/encoder.js compute, type by type (sections 6 and 7 of the
 CQL binary protocol v4). The loops are in CodecLoops.dfy, the laws in CodecRoundTrip.dfy.

 A container is encoded by encoding its parts and joining them, and decoded by finding the parts
 and decoding them; an exception at any point is the outcome of the whole.
 */
module Codec {
  import opened Bytes
  import opened Durations
  import opened Framing
  import opened Wrappers
  import Varint
  import VIntCoding

  /** Types that hold no other types. Text stands for ascii, text and varchar, whose values are their bytes. */
  datatype Code =
    | Tinyint | Smallint | Int | Bigint | Counter | Timestamp
    | Boolean | Double | Float | Uuid | TimeUuid
    | Text | Blob | Varint | DurationCode

  datatype Field = Field(name: string, fieldType: Type)

  datatype Type =
    | Single(code: Code)
    | List(item: Type)
    | Set(item: Type)
    | Map(key: Type, value: Type)
    | Tuple(items: seq<Type>)
    | Udt(fields: seq<Field>)
    | Vector(item: Type, dimension: nat)
  {
    /** How many components a tuple or a user-defined type has. */
    function Arity(): nat
      requires Tuple? || Udt?
    {
      if Tuple? then |items| else |fields|
    }

    function Component(i: nat): (t: Type)
      requires (Tuple? || Udt?) && i < Arity()
      ensures t < this
    {
      if Tuple? then items[i] else fields[i].fieldType
    }
  }

  datatype Entry = Entry(key: Value, value: Value)

  /**
   A JavaScript value. A Real is a number known by its bytes as a float or a double, an Id is a Uuid or TimeUuid,
   and a Raw one is a Buffer.
   */
  datatype Value =
    | Null
    | Undefined
    | Number(n: int)
    | BigInt(n: int)
    | Date(n: int)
    | Bool(b: bool)
    | Chars(bytes: Buffer)
    | Raw(bytes: Buffer)
    | Real(bytes: Buffer)
    | Id(bytes: Buffer)
    | DurationValue(duration: Duration)
    | ListValue(items: seq<Value>)
    | MapValue(entries: seq<Entry>)
    | TupleValue(items: seq<Value>)
    | UdtValue(members: map<string, Value>)
    | VectorValue(items: seq<Value>)

  /**
   The encoder: the length of collection lengths, and what JavaScript makes of values that are not of the class a
   type is for, which is not modelled. `convert` gives the value that one of another class is converted to, if it is
   not refused; `properties` are the own properties of an object, in order; `member` is one of any object's; and
   `hasLength` says whether an object's `length` is above zero.
   */
  datatype Encoder = Encoder(
    wide: bool, convert: (Value, Code) -> Option<Value>, properties: Value -> seq<Entry>,
    member: (Value, string) -> Value, hasLength: Value -> bool)

  // ----- Values of other classes -----

  /** Of an IEEE 754 number: whether it is zero, of either sign, or no number. */
  predicate IsZeroOrNaN(b: Buffer) {
    if |b| == 8 then
      var exponent, zero := (b[0] as int) % 128 * 16 + b[1] / 16, b[1] % 16 == 0 && b[2..] == [0, 0, 0, 0, 0, 0];
      (exponent == 0 && zero) || (exponent == 2047 && !zero)
    else if |b| == 4 then
      var exponent, zero := (b[0] as int) % 128 * 2 + b[1] / 128, b[1] % 128 == 0 && b[2..] == [0, 0];
      (exponent == 0 && zero) || (exponent == 255 && !zero)
    else false
  }

  predicate Truthy(v: Value) {
    match v
    case Null => false
    case Undefined => false
    case Number(n) => n != 0
    case BigInt(n) => n != 0
    case Bool(b) => b
    case Chars(bytes) => bytes != []
    case Real(bytes) => !IsZeroOrNaN(bytes)
    case _ => true
  }

  /** The number that one of the small integer types is given: `isNaN` refuses a BigInt and what is no number. */
  function TakenAsInteger(enc: Encoder, v: Value, code: Code): Option<Value> {
    match v
    case Number(_) => Some(v)
    case Date(n) => Some(Number(n))
    case Bool(b) => Some(Number(if b then 1 else 0))
    case BigInt(_) => None
    case _ => enc.convert(v, code)
  }

  /** The value of the type's own class that its encoder takes a value for, or None where it throws. */
  function Taken(enc: Encoder, v: Value, code: Code): Option<Value> {
    match code
    case Tinyint => TakenAsInteger(enc, v, code)
    case Smallint => TakenAsInteger(enc, v, code)
    case Int => TakenAsInteger(enc, v, code)
    case Timestamp => if v.Date? then Some(v) else if v.Number? || v.BigInt? then Some(Date(v.n)) else enc.convert(v, code)
    case Boolean => Some(Bool(Truthy(v)))
    case Double => TakenAsReal(enc, v, code, 8)
    case Float => TakenAsReal(enc, v, code, 4)
    case Uuid => if v.Id? then Some(v) else if v.Chars? then enc.convert(v, code) else None
    case TimeUuid => if v.Id? then Some(v) else if v.Chars? then enc.convert(v, code) else None
    case Text => if v.Chars? then Some(v) else None
    case Blob => None
    case DurationCode => if v.DurationValue? then Some(v) else None
    case _ => if v.BigInt? then Some(v) else if v.Chars? then enc.convert(v, code) else None
  }

  /** Numbers of another size are rounded. */
  function TakenAsReal(enc: Encoder, v: Value, code: Code, width: nat): Option<Value> {
    if v.Real? && |v.bytes| == width then Some(v)
    else if v.Real? || v.Number? || v.Chars? then enc.convert(v, code)
    else None
  }

  /** What `encodeMap` goes through: the entries of a Map, or the own properties of anything else. */
  function MapEntries(enc: Encoder, v: Value): seq<Entry> {
    match v
    case MapValue(entries) => entries
    case Number(_) => []
    case BigInt(_) => []
    case Bool(_) => []
    case Real(_) => []
    case Date(_) => []
    case _ => enc.properties(v)
  }

  /** Whether `value.length` is above zero, so that `encodeTuple` calls `value.get`. */
  predicate HasLength(enc: Encoder, v: Value) {
    match v
    case TupleValue(items) => items != []
    case ListValue(items) => items != []
    case VectorValue(items) => items != []
    case Chars(bytes) => bytes != []
    case MapValue(_) => enc.hasLength(v)
    case UdtValue(_) => enc.hasLength(v)
    case _ => false
  }

  // ----- Encoding -----

  function EncodeSigned(n: int, width: nat): Encoded {
    if FitsSigned(n, width) then Bytes(ToSigned(n, width)) else Throws
  }

  /** The bytes of a value of the type's own class. */
  function EncodeOwn(v: Value, code: Code): Encoded {
    match code
    case Tinyint => if v.Number? then EncodeSigned(v.n, 1) else Throws
    case Smallint => if v.Number? then EncodeSigned(v.n, 2) else Throws
    case Int => if v.Number? then EncodeSigned(v.n, 4) else Throws
    case Bigint => if v.BigInt? then Bytes(WrappedLong(v.n)) else Throws
    case Counter => if v.BigInt? then Bytes(WrappedLong(v.n)) else Throws
    case Timestamp => if v.Date? then Bytes(WrappedLong(v.n)) else Throws
    case Boolean => if v.Bool? then Bytes([if v.b then 1 else 0]) else Throws
    case Double => if v.Real? && |v.bytes| == 8 then Bytes(v.bytes) else Throws
    case Float => if v.Real? && |v.bytes| == 4 then Bytes(v.bytes) else Throws
    case Uuid => if v.Id? && |v.bytes| == 16 then Bytes(v.bytes) else Throws
    case TimeUuid => if v.Id? && |v.bytes| == 16 then Bytes(v.bytes) else Throws
    case Text => if v.Chars? then Bytes(v.bytes) else Throws
    case Blob => Throws
    case Varint => if v.BigInt? then Bytes(Varint.EncodeVarint(v.n)) else Throws
    case DurationCode => if v.DurationValue? then Bytes(DurationBytes(v.duration)) else Throws
  }

  function EncodeSingle(enc: Encoder, v: Value, code: Code): Encoded {
    var taken := Taken(enc, v, code);
    if taken.Some? then EncodeOwn(taken.value, code) else Throws
  }

  /** The high and the low 32 bits, whatever the number. */
  function WrappedLong(n: int): Buffer {
    ToBytes(n % VIntCoding.TWO_64, 8)
  }

  /** `serializationSizeIfFixed` */
  function FixedSize(t: Type): int {
    match t
    case Single(Bigint) => 8
    case Single(Boolean) => 1
    case Single(Timestamp) => 8
    case Single(Double) => 8
    case Single(Float) => 4
    case Single(Int) => 4
    case Single(TimeUuid) => 16
    case Single(Uuid) => 16
    case Vector(item, dimension) =>
      var size := FixedSize(item);
      if size == -1 then -1 else size * dimension
    case _ => -1
  }

  predicate Missing(v: Value) {
    v.Null? || v.Undefined?
  }

  /** The value a tuple or a user-defined object holds for a component. */
  function Part(v: Value, t: Type, i: nat): Value
    requires (t.Tuple? || t.Udt?) && i < t.Arity()
  {
    if t.Tuple? then
      if v.TupleValue? && i < |v.items| then v.items[i] else Undefined
    else if v.UdtValue? && t.fields[i].name in v.members then v.members[t.fields[i].name]
    else Undefined
  }

  /** `value[name]` of anything but an object for the type is JavaScript's to say. */
  function ComponentOf(enc: Encoder, v: Value, t: Type, i: nat): Value
    requires (t.Tuple? || t.Udt?) && i < t.Arity()
  {
    if t.Udt? && !v.UdtValue? then enc.member(v, t.fields[i].name) else Part(v, t, i)
  }

  /** How many components are written: of a tuple, those that both it and its type have. */
  function Written(v: Value, t: Type): nat
    requires t.Tuple? || t.Udt?
  {
    if t.Udt? then |t.fields|
    else if !v.TupleValue? then 0
    else if |v.items| < |t.items| then |v.items| else |t.items|
  }

  /** Only a tuple has the method `get`; nothing else may have components to get. */
  predicate HasParts(enc: Encoder, v: Value, t: Type)
    requires t.Tuple? || t.Udt?
  {
    t.Udt? || v.TupleValue? || t.items == [] || !HasLength(enc, v)
  }

  /** `encode`: what each part becomes, put together. */
  function Encode(enc: Encoder, v: Value, t: Type): Encoded
    decreases t, 1
  {
    if Missing(v) then NoBytes
    else if v.Raw? then Bytes(v.bytes)
    else match t
      case Single(code) => EncodeSingle(enc, v, code)
      case List(item) => EncodeList(enc, v, item)
      case Set(item) => EncodeList(enc, v, item)
      case Map(key, value) =>
        var entries := MapEntries(enc, v);
        Then(EncodeLength(enc.wide, |entries|),
             JoinEntries(enc.wide, EncodeKeys(enc, entries, key), EncodeValues(enc, entries, value), 0))
      case Tuple(_) => if HasParts(enc, v, t) then JoinParts(EncodeParts(enc, v, t), 0) else Throws
      case Udt(_) => JoinParts(EncodeParts(enc, v, t), 0)
      case Vector(item, dimension) =>
        if v.VectorValue? && |v.items| == dimension && dimension > 0 then
          JoinElements(FixedSize(item) != -1, EncodeEach(enc, v.items, item), 0)
        else Throws
  }

  /** An empty list or set becomes `null`. */
  function EncodeList(enc: Encoder, v: Value, item: Type): Encoded
    decreases item, 4
  {
    if !v.ListValue? then Throws
    else if v.items == [] then NoBytes
    else Then(EncodeLength(enc.wide, |v.items|), JoinItems(enc.wide, EncodeItems(enc, v.items, item), 0))
  }

  /** An item, key or value of a collection must not be `null`. */
  function EncodePresent(enc: Encoder, v: Value, t: Type): Encoded
    decreases t, 2
  {
    if Missing(v) then Throws else Encode(enc, v, t)
  }

  function EncodeItems(enc: Encoder, items: seq<Value>, item: Type): (parts: seq<Encoded>)
    ensures |parts| == |items|
    ensures forall i :: 0 <= i < |items| ==> parts[i] == EncodePresent(enc, items[i], item)
    decreases item, 3
  {
    seq(|items|, i requires 0 <= i < |items| => EncodePresent(enc, items[i], item))
  }

  function EncodeKeys(enc: Encoder, entries: seq<Entry>, key: Type): (parts: seq<Encoded>)
    ensures |parts| == |entries|
    ensures forall i :: 0 <= i < |entries| ==> parts[i] == EncodePresent(enc, entries[i].key, key)
    decreases key, 3
  {
    seq(|entries|, i requires 0 <= i < |entries| => EncodePresent(enc, entries[i].key, key))
  }

  function EncodeValues(enc: Encoder, entries: seq<Entry>, value: Type): (parts: seq<Encoded>)
    ensures |parts| == |entries|
    ensures forall i :: 0 <= i < |entries| ==> parts[i] == EncodePresent(enc, entries[i].value, value)
    decreases value, 3
  {
    seq(|entries|, i requires 0 <= i < |entries| => EncodePresent(enc, entries[i].value, value))
  }

  function EncodeEach(enc: Encoder, items: seq<Value>, item: Type): (parts: seq<Encoded>)
    ensures |parts| == |items|
    ensures forall i :: 0 <= i < |items| ==> parts[i] == Encode(enc, items[i], item)
    decreases item, 3
  {
    seq(|items|, i requires 0 <= i < |items| => Encode(enc, items[i], item))
  }

  function EncodeParts(enc: Encoder, v: Value, t: Type): (parts: seq<Encoded>)
    requires t.Tuple? || t.Udt?
    ensures |parts| == Written(v, t)
    ensures forall i :: 0 <= i < Written(v, t) ==> parts[i] == Encode(enc, ComponentOf(enc, v, t, i), t.Component(i))
    decreases t, 0
  {
    seq(Written(v, t), i requires 0 <= i < Written(v, t) => Encode(enc, ComponentOf(enc, v, t, i), t.Component(i)))
  }

  // ----- Decoding -----

  function DecodeNumber(b: Buffer, width: nat): Outcome<Value>
    requires width > 0
  {
    var n := ReadSigned(b, 0, width);
    if n.Returns? then Returns(Number(n.value)) else Fails
  }

  function AsBigInt(n: Outcome<int>): Outcome<Value> {
    if n.Returns? then Returns(BigInt(n.value)) else Fails
  }

  function AsDate(n: Outcome<int>): Outcome<Value> {
    if n.Returns? then Returns(Date(n.value)) else Fails
  }

  function DecodeReal(b: Buffer, width: nat): Outcome<Value> {
    if |b| < width then Fails else Returns(Real(b[..width]))
  }

  function DecodeId(b: Buffer): Outcome<Value> {
    if |b| != 16 then Fails else Returns(Id(b))
  }

  function DecodeSingle(b: Buffer, code: Code): Outcome<Value> {
    match code
    case Tinyint => DecodeNumber(b, 1)
    case Smallint => DecodeNumber(b, 2)
    case Int => DecodeNumber(b, 4)
    case Bigint => AsBigInt(ReadSigned(b, 0, 8))
    case Counter => AsBigInt(ReadSigned(b, 0, 8))
    case Timestamp => AsDate(ReadSigned(b, 0, 8))
    case Boolean => if b == [] then Fails else Returns(Bool(b[0] != 0))
    case Double => DecodeReal(b, 8)
    case Float => DecodeReal(b, 4)
    case Uuid => DecodeId(b)
    case TimeUuid => DecodeId(b)
    case Text => Returns(Chars(b))
    case Blob => Returns(Raw(b))
    case Varint => Returns(BigInt(Varint.DecodeVarint(b)))
    case DurationCode => Returns(DurationValue(DurationOf(FieldsAt(b))))
  }

  /** The months and days become 32-bit integers. */
  function DurationOf(f: Fields): Duration {
    Duration(Truncate(f.months), Truncate(f.days), f.nanoseconds)
  }

  function Truncate(n: int): Int32 {
    var low := n % VIntCoding.TWO_32;
    if low >= 0x8000_0000 then low - VIntCoding.TWO_32 else low
  }

  /** Types for which an empty buffer is a value; for the others it is `null`. */
  predicate ZeroLengthSupported(t: Type) {
    t.Vector? || t == Single(Text) || t == Single(Blob) || t == Single(DurationCode)
  }

  function Decode(wide: bool, b: Buffer, t: Type): Outcome<Value>
    decreases t, 2
  {
    if b == [] && !ZeroLengthSupported(t) then Returns(Null)
    else match t
      case Single(code) => DecodeSingle(b, code)
      case List(item) => DecodeList(wide, b, item)
      case Set(item) => DecodeList(wide, b, item)
      case Map(key, value) =>
        var total := ReadLength(wide, b, 0);
        if total.Fails? then Fails
        else
          var frames := EntryFrames(wide, b, Width(wide), AtLeastZero(total.value));
          if frames.Fails? then Fails
          else
            var entries := DecodeEntries(wide, frames.value, t);
            if entries.Fails? then Fails else Returns(MapValue(entries.value))
      case Tuple(items) =>
        var parts := DecodeParts(wide, b, t);
        if parts.Fails? || items == [] then Fails
        else Returns(TupleValue(parts.value + Holes(|items| - |parts.value|)))
      case Udt(fields) =>
        var parts := DecodeParts(wide, b, t);
        if parts.Fails? then Fails else Returns(UdtValue(Members(fields, parts.value, |parts.value|)))
      case Vector(item, dimension) =>
        var frames := ElementFrames(b, FixedSize(item), 0, dimension);
        if frames.Fails? then Fails
        else
          var items := DecodeEach(wide, frames.value, item);
          if items.Fails? || dimension == 0 then Fails else Returns(VectorValue(items.value))
  }

  /** A loop up to a number below zero does nothing. */
  function AtLeastZero(n: int): nat {
    if n < 0 then 0 else n
  }

  /** The elements an array has but were never set. */
  function Holes(n: nat): (s: seq<Value>)
    ensures |s| == n && forall i :: 0 <= i < n ==> s[i] == Undefined
  {
    seq(n, _ => Undefined)
  }

  /** `result[name] = value` for the first n fields, one after another. */
  function Members(fields: seq<Field>, parts: seq<Value>, n: nat): map<string, Value>
    requires n <= |parts| <= |fields|
  {
    if n == 0 then map[] else Members(fields, parts, n - 1)[fields[n - 1].name := parts[n - 1]]
  }

  /** The constructor of arrays throws for a length below zero. */
  function DecodeList(wide: bool, b: Buffer, item: Type): Outcome<Value>
    decreases item, 5
  {
    var total := ReadLength(wide, b, 0);
    if total.Fails? || total.value < 0 then Fails
    else
      var frames := ItemFrames(wide, b, Width(wide), total.value);
      if frames.Fails? then Fails
      else
        var items := DecodeEach(wide, frames.value, item);
        if items.Fails? then Fails else Returns(ListValue(items.value))
  }

  function DecodeEach(wide: bool, frames: seq<Buffer>, item: Type): Outcome<seq<Value>>
    decreases item, 4
  {
    All(seq(|frames|, i requires 0 <= i < |frames| => Decode(wide, frames[i], item)))
  }

  function DecodeEntries(wide: bool, frames: seq<EntryFrame>, t: Type): Outcome<seq<Entry>>
    requires t.Map?
    decreases t, 1
  {
    All(seq(|frames|, i requires 0 <= i < |frames| => DecodeEntry(wide, frames[i], t)))
  }

  function DecodeEntry(wide: bool, frame: EntryFrame, t: Type): Outcome<Entry>
    requires t.Map?
    decreases t, 0
  {
    var k, v := Decode(wide, frame.key, t.key), DecodePart(wide, frame.value, t.value);
    if k.Fails? || v.Fails? then Fails else Returns(Entry(k.value, v.value))
  }

  /** What is absent is `null`. */
  function DecodePart(wide: bool, frame: Option<Buffer>, t: Type): Outcome<Value>
    decreases t, 3
  {
    if frame.None? then Returns(Null) else Decode(wide, frame.value, t)
  }

  /** The components that the buffer holds. */
  function DecodeParts(wide: bool, b: Buffer, t: Type): (r: Outcome<seq<Value>>)
    requires t.Tuple? || t.Udt?
    ensures r.Returns? ==> |r.value| <= t.Arity()
    decreases t, 0
  {
    var frames := PartFrames(b, 0, t.Arity());
    if frames.Fails? then Fails
    else All(seq(|frames.value|, i requires 0 <= i < |frames.value| => DecodePart(wide, frames.value[i], t.Component(i))))
  }
}
