/** Decoding inverts encoding, through any nesting of collections, tuples, user-defined types and vectors. */
module CodecRoundTrip {
  import opened Bytes
  import opened Codec
  import opened Durations
  import opened Framing
  import opened Wrappers
  import Varint
  import VIntCoding

  // ----- What is promised of a value -----

  /** The last millisecond a JavaScript Date can hold; the first is its negative. */
  const MAX_DATE := 8_640_000_000_000_000

  /** The JavaScript class that a type's encoder asks for, and the range of 64-bit numbers and of dates. */
  predicate SingleTyped(v: Value, code: Code) {
    match code
    case Bigint => v.BigInt? && FitsSigned(v.n, 8)
    case Counter => v.BigInt? && FitsSigned(v.n, 8)
    case Timestamp => v.Date? && -MAX_DATE <= v.n <= MAX_DATE
    case Boolean => v.Bool?
    case Double => v.Real? && |v.bytes| == 8
    case Float => v.Real? && |v.bytes| == 4
    case Uuid => v.Id?
    case TimeUuid => v.Id?
    case Text => v.Chars?
    case Blob => v.Raw?
    case Varint => v.BigInt?
    case DurationCode => v.DurationValue?
    case _ => v.Number?
  }

  ghost predicate DistinctNames(fields: seq<Field>) {
    forall i, j :: 0 <= i < j < |fields| ==> fields[i].name != fields[j].name
  }

  /** `null` and `undefined` belong to every type; whether they may be encoded is for `encode` to say. */
  ghost predicate WellTyped(v: Value, t: Type)
    decreases t, 1
  {
    Missing(v) ||
    match t
    case Single(code) => SingleTyped(v, code)
    case List(item) => v.ListValue? && forall i :: 0 <= i < |v.items| ==> WellTyped(v.items[i], item)
    case Set(item) => v.ListValue? && forall i :: 0 <= i < |v.items| ==> WellTyped(v.items[i], item)
    case Map(key, value) =>
      v.MapValue? && forall i :: 0 <= i < |v.entries| ==>
        WellTyped(v.entries[i].key, key) && WellTyped(v.entries[i].value, value)
    case Tuple(_) => v.TupleValue? && v.items != [] && PartsTyped(v, t)
    case Udt(fields) => v.UdtValue? && DistinctNames(fields) && PartsTyped(v, t)
    case Vector(item, _) => v.VectorValue? && forall i :: 0 <= i < |v.items| ==> WellTyped(v.items[i], item)
  }

  ghost predicate PartsTyped(v: Value, t: Type)
    requires (v.TupleValue? && t.Tuple?) || (v.UdtValue? && t.Udt?)
    decreases t, 0
  {
    forall i: nat :: i < t.Arity() ==> WellTyped(Part(v, t, i), t.Component(i))
  }

  /** The value that comes back: empty lists and sets, and tuples and objects without components, come back as `null`. */
  function Norm(v: Value, t: Type): Value
    decreases t, 1
  {
    if Missing(v) then Null
    else if (t.List? || t.Set?) && v.ListValue? then
      if v.items == [] then Null else ListValue(NormEach(v.items, t.item))
    else if t.Map? && v.MapValue? then MapValue(NormEntries(v.entries, t))
    else if t.Tuple? && v.TupleValue? then
      if Written(v, t) == 0 then Null else TupleValue(NormParts(v, t) + Holes(|t.items| - Written(v, t)))
    else if t.Udt? && v.UdtValue? then
      if t.fields == [] then Null else UdtValue(Members(t.fields, NormParts(v, t), |t.fields|))
    else if t.Vector? && v.VectorValue? then VectorValue(NormEach(v.items, t.item))
    else v
  }

  function NormEach(items: seq<Value>, item: Type): (r: seq<Value>)
    ensures |r| == |items| && forall i :: 0 <= i < |r| ==> r[i] == Norm(items[i], item)
    decreases item, 2
  {
    seq(|items|, i requires 0 <= i < |items| => Norm(items[i], item))
  }

  function NormEntries(entries: seq<Entry>, t: Type): (r: seq<Entry>)
    requires t.Map?
    ensures |r| == |entries|
    ensures forall i :: 0 <= i < |r| ==> r[i] == Entry(Norm(entries[i].key, t.key), Norm(entries[i].value, t.value))
    decreases t, 0
  {
    seq(|entries|, i requires 0 <= i < |entries| => Entry(Norm(entries[i].key, t.key), Norm(entries[i].value, t.value)))
  }

  function NormParts(v: Value, t: Type): (r: seq<Value>)
    requires (v.TupleValue? && t.Tuple?) || (v.UdtValue? && t.Udt?)
    ensures |r| == Written(v, t) && forall i :: 0 <= i < |r| ==> r[i] == Norm(Part(v, t, i), t.Component(i))
    decreases t, 0
  {
    seq(Written(v, t), i requires 0 <= i < Written(v, t) => Norm(Part(v, t, i), t.Component(i)))
  }

  // ----- Types without parts -----

  lemma NumberRoundTrip(n: int, width: nat)
    requires width > 0 && FitsSigned(n, width)
    ensures DecodeNumber(ToSigned(n, width), width) == Returns(Number(n))
  {
    var b := ToSigned(n, width);
    assert b[0..0 + width] == b;
    SignedRoundTrip(n, width);
  }

  lemma LongRoundTrip(n: int)
    requires FitsSigned(n, 8)
    ensures ReadSigned(WrappedLong(n), 0, 8) == Returns(n) && WrappedLong(n) != []
  {
    WrappedIsSigned(n);
    var b := ToSigned(n, 8);
    assert b[0..0 + 8] == b;
    SignedRoundTrip(n, 8);
  }

  lemma WrappedIsSigned(n: int)
    requires FitsSigned(n, 8)
    ensures WrappedLong(n) == ToSigned(n, 8)
  {
    hide ToBytes;
    VIntCoding.Powers();
  }

  lemma DateFits(n: int)
    requires -MAX_DATE <= n <= MAX_DATE
    ensures FitsSigned(n, 8)
  {
    VIntCoding.Powers();
  }

  lemma TruncateKeeps(d: Duration, f: Fields)
    requires f == Fields(d.months, d.days, d.nanoseconds)
    ensures DurationOf(f) == d
  {
  }

  lemma DurationComesBack(d: Duration, b: Buffer)
    requires b == DurationBytes(d)
    ensures DurationOf(FieldsAt(b)) == d
  {
    DurationRoundTrip(d);
    TruncateKeeps(d, FieldsAt(b));
  }

  lemma {:induction false} SingleRoundTrip(v: Value, code: Code, b: Buffer)
    requires SingleTyped(v, code) && !v.Raw? && EncodeOwn(v, code) == Bytes(b)
    ensures DecodeSingle(b, code) == Returns(v)
    ensures b != [] || ZeroLengthSupported(Single(code))
  {
    hide DecodeNumber, ReadSigned, WrappedLong, ToSigned, FitsSigned, DurationOf, FieldsAt, DurationBytes;
    hide Varint.EncodeVarint, Varint.DecodeVarint;
    assert b[..|b|] == b;
    match code
    case Tinyint => NumberRoundTrip(v.n, 1);
    case Smallint => NumberRoundTrip(v.n, 2);
    case Int => NumberRoundTrip(v.n, 4);
    case Bigint => LongRoundTrip(v.n);
    case Counter => LongRoundTrip(v.n);
    case Timestamp => DateFits(v.n); LongRoundTrip(v.n);
    case Varint => Varint.VarintRoundTrip(v.n);
    case DurationCode => DurationComesBack(v.duration, b);
    case _ =>
  }

  // ----- Types with parts -----

  /** What is encoded for one value comes back, and `null` comes back where nothing is encoded. */
  ghost predicate ComesBack(enc: Encoder, v: Value, t: Type) {
    var e := Encode(enc, v, t);
    && (e.Bytes? ==> Decode(enc.wide, e.bytes, t) == Returns(Norm(v, t)))
    && (e.NoBytes? ==> Norm(v, t) == Null)
    && (e.NoBytes? && !Missing(v) ==> Decode(enc.wide, [], t) == Returns(Null))
  }

  lemma {:induction false} EachDecodes(enc: Encoder, items: seq<Value>, item: Type, frames: seq<Buffer>)
    requires forall i :: 0 <= i < |items| ==> ComesBack(enc, items[i], item)
    requires |frames| == |items| && forall i :: 0 <= i < |items| ==> Encode(enc, items[i], item) == Bytes(frames[i])
    ensures DecodeEach(enc.wide, frames, item) == Returns(NormEach(items, item))
  {
    hide Encode, Decode, Norm;
    var outcomes := seq(|frames|, i requires 0 <= i < |frames| => Decode(enc.wide, frames[i], item));
    forall i | 0 <= i < |frames|
      ensures outcomes[i] == Returns(Norm(items[i], item))
    {
      assert ComesBack(enc, items[i], item);
    }
    assert All(outcomes).value == NormEach(items, item);
  }

  /** All that the buffer of a list holds after its length. */
  lemma {:induction false} ListRoundTrip(enc: Encoder, items: seq<Value>, item: Type, b: Buffer)
    requires forall i :: 0 <= i < |items| ==> ComesBack(enc, items[i], item)
    requires Then(EncodeLength(enc.wide, |items|), JoinItems(enc.wide, EncodeItems(enc, items, item), 0)) == Bytes(b)
    ensures DecodeList(enc.wide, b, item) == Returns(ListValue(NormEach(items, item))) && b != []
  {
    hide Encode, Decode, Norm, ReadLength, EncodeLength, ItemFrames, JoinItems, DecodeEach;
    var parts := EncodeItems(enc, items, item);
    ListFramed(enc.wide, parts, b);
    EachDecodes(enc, items, item, Payloads(parts, 0));
  }

  lemma {:induction false} EntriesDecode(enc: Encoder, entries: seq<Entry>, t: Type, keys: seq<Encoded>, values: seq<Encoded>)
    requires t.Map? && |keys| == |values| == |entries|
    requires forall i :: 0 <= i < |entries| ==>
      ComesBack(enc, entries[i].key, t.key) && ComesBack(enc, entries[i].value, t.value)
    requires forall i :: 0 <= i < |entries| ==> keys[i] == EncodePresent(enc, entries[i].key, t.key) && keys[i].Bytes?
    requires forall i :: 0 <= i < |entries| ==>
      values[i] == EncodePresent(enc, entries[i].value, t.value) && !values[i].Throws?
    ensures DecodeEntries(enc.wide, Pairs(keys, values, 0), t) == Returns(NormEntries(entries, t))
  {
    hide Encode, Decode, Norm;
    var frames := Pairs(keys, values, 0);
    var outcomes := seq(|frames|, i requires 0 <= i < |frames| => DecodeEntry(enc.wide, frames[i], t));
    forall i | 0 <= i < |frames|
      ensures outcomes[i] == Returns(NormEntries(entries, t)[i])
    {
      assert ComesBack(enc, entries[i].key, t.key) && ComesBack(enc, entries[i].value, t.value);
      assert DecodePart(enc.wide, frames[i].value, t.value) == Returns(Norm(entries[i].value, t.value));
      assert DecodeEntry(enc.wide, frames[i], t) == Returns(NormEntries(entries, t)[i]);
    }
    assert All(outcomes).value == NormEntries(entries, t);
  }

  lemma {:induction false} MapRoundTrip(enc: Encoder, entries: seq<Entry>, t: Type, b: Buffer)
    requires t.Map?
    requires forall i :: 0 <= i < |entries| ==>
      ComesBack(enc, entries[i].key, t.key) && ComesBack(enc, entries[i].value, t.value)
    requires Then(EncodeLength(enc.wide, |entries|),
                  JoinEntries(enc.wide, EncodeKeys(enc, entries, t.key), EncodeValues(enc, entries, t.value), 0)) == Bytes(b)
    ensures Decode(enc.wide, b, t) == Returns(MapValue(NormEntries(entries, t)))
  {
    hide Encode, ComesBack, Norm, ReadLength, EncodeLength, EntryFrames, JoinEntries, DecodeEntries;
    var keys, values := EncodeKeys(enc, entries, t.key), EncodeValues(enc, entries, t.value);
    MapFramed(enc.wide, keys, values, b);
    EntriesDecode(enc, entries, t, keys, values);
  }

  lemma {:induction false} PartsDecode(enc: Encoder, v: Value, t: Type, b: Buffer)
    requires (v.TupleValue? && t.Tuple?) || (v.UdtValue? && t.Udt?)
    requires forall i: nat :: i < Written(v, t) ==> ComesBack(enc, Part(v, t, i), t.Component(i))
    requires JoinParts(EncodeParts(enc, v, t), 0) == Bytes(b)
    ensures DecodeParts(enc.wide, b, t) == Returns(NormParts(v, t))
  {
    hide Encode, Decode, Norm, JoinParts, PartFrames, Part;
    var parts := EncodeParts(enc, v, t);
    assert b[0..] == b;
    PartsFramed(parts, 0, b, 0, t.Arity());
    var frames := PartsOf(parts, 0);
    var outcomes := seq(|frames|, i requires 0 <= i < |frames| => DecodePart(enc.wide, frames[i], t.Component(i)));
    forall i | 0 <= i < |frames|
      ensures outcomes[i] == Returns(NormParts(v, t)[i])
    {
      assert ComesBack(enc, Part(v, t, i), t.Component(i));
    }
    assert All(outcomes).value == NormParts(v, t);
  }

  /** Every component takes at least the four bytes of its length. */
  lemma PartsNotEmpty(parts: seq<Encoded>)
    requires JoinParts(parts, 0).Bytes?
    ensures JoinParts(parts, 0).bytes == [] <==> parts == []
  {
  }

  /** A type of fixed size gives every value that many bytes, so no size needs to be written. */
  lemma {:induction false} FixedSizeEncodes(enc: Encoder, v: Value, t: Type)
    requires FixedSize(t) != -1 && WellTyped(v, t) && Encode(enc, v, t).Bytes?
    ensures |Encode(enc, v, t).bytes| == FixedSize(t)
    decreases t
  {
    if t.Vector? {
      var parts := EncodeEach(enc, v.items, t.item);
      forall i | 0 <= i < |parts| && parts[i].Bytes?
        ensures |parts[i].bytes| == FixedSize(t.item)
      {
        FixedSizeEncodes(enc, v.items[i], t.item);
      }
      ElementsLength(parts, FixedSize(t.item), 0);
    }
  }

  lemma {:induction false} ElementsLength(parts: seq<Encoded>, size: int, i: nat)
    requires i <= |parts| && JoinElements(true, parts, i).Bytes?
    requires forall e <- parts :: e.Bytes? ==> |e.bytes| == size
    ensures |JoinElements(true, parts, i).bytes| == size * (|parts| - i)
    decreases |parts| - i
  {
    if i < |parts| {
      ElementsLength(parts, size, i + 1);
      Once(size, |parts| - i);
    }
  }

  lemma Once(size: int, n: int)
    ensures size + size * (n - 1) == size * n
  {
  }

  lemma {:induction false} VectorFramed(enc: Encoder, items: seq<Value>, item: Type, b: Buffer)
    requires forall i :: 0 <= i < |items| ==> WellTyped(items[i], item)
    requires JoinElements(FixedSize(item) != -1, EncodeEach(enc, items, item), 0) == Bytes(b)
    ensures var parts := EncodeEach(enc, items, item);
      && ElementFrames(b, FixedSize(item), 0, |items|) == Returns(Payloads(parts, 0))
      && forall i :: 0 <= i < |parts| ==> parts[i].Bytes?
  {
    hide Encode, WellTyped, FixedSize, ElementFrames, JoinElements;
    var parts := EncodeEach(enc, items, item);
    forall i | 0 <= i < |parts| && FixedSize(item) != -1 && parts[i].Bytes?
      ensures |parts[i].bytes| == FixedSize(item)
    {
      FixedSizeEncodes(enc, items[i], item);
    }
    assert b[0..] == b;
    ElementsFramed(FixedSize(item), parts, 0, b, 0);
  }

  lemma {:induction false} VectorRoundTrip(enc: Encoder, items: seq<Value>, t: Type, b: Buffer)
    requires t.Vector? && |items| == t.dimension > 0
    requires forall i :: 0 <= i < |items| ==> WellTyped(items[i], t.item)
    requires forall i :: 0 <= i < |items| ==> ComesBack(enc, items[i], t.item)
    requires JoinElements(FixedSize(t.item) != -1, EncodeEach(enc, items, t.item), 0) == Bytes(b)
    ensures Decode(enc.wide, b, t) == Returns(VectorValue(NormEach(items, t.item)))
  {
    hide Encode, WellTyped, Norm, FixedSize, ElementFrames, JoinElements, DecodeEach, DecodeSingle, ComesBack;
    VectorFramed(enc, items, t.item, b);
    EachDecodes(enc, items, t.item, Payloads(EncodeEach(enc, items, t.item), 0));
  }

  lemma {:induction false} EachComesBack(enc: Encoder, items: seq<Value>, item: Type)
    requires forall i :: 0 <= i < |items| ==> WellTyped(items[i], item)
    ensures forall i :: 0 <= i < |items| ==> ComesBack(enc, items[i], item)
    decreases item, 3
  {
    hide WellTyped, ComesBack;
    forall i | 0 <= i < |items|
      ensures ComesBack(enc, items[i], item)
    {
      RoundTrip(enc, items[i], item);
    }
  }

  lemma {:induction false} EntriesComeBack(enc: Encoder, entries: seq<Entry>, t: Type)
    requires t.Map?
    requires forall i :: 0 <= i < |entries| ==> WellTyped(entries[i].key, t.key) && WellTyped(entries[i].value, t.value)
    ensures forall i :: 0 <= i < |entries| ==>
      ComesBack(enc, entries[i].key, t.key) && ComesBack(enc, entries[i].value, t.value)
    decreases t, 0
  {
    hide WellTyped, ComesBack;
    forall i | 0 <= i < |entries|
      ensures ComesBack(enc, entries[i].key, t.key) && ComesBack(enc, entries[i].value, t.value)
    {
      RoundTrip(enc, entries[i].key, t.key);
      RoundTrip(enc, entries[i].value, t.value);
    }
  }

  lemma {:induction false} PartsComeBack(enc: Encoder, v: Value, t: Type)
    requires ((v.TupleValue? && t.Tuple?) || (v.UdtValue? && t.Udt?)) && PartsTyped(v, t)
    ensures forall i: nat :: i < Written(v, t) ==> ComesBack(enc, Part(v, t, i), t.Component(i))
    decreases t, 0
  {
    hide WellTyped, ComesBack, Part;
    forall i: nat | i < Written(v, t)
      ensures ComesBack(enc, Part(v, t, i), t.Component(i))
    {
      RoundTrip(enc, Part(v, t, i), t.Component(i));
    }
  }

  lemma {:induction false} TupleRoundTrip(enc: Encoder, v: Value, t: Type, b: Buffer)
    requires ((v.TupleValue? && t.Tuple?) || (v.UdtValue? && t.Udt?)) && (v.TupleValue? ==> v.items != [])
    requires forall i: nat :: i < Written(v, t) ==> ComesBack(enc, Part(v, t, i), t.Component(i))
    requires JoinParts(EncodeParts(enc, v, t), 0) == Bytes(b)
    ensures Decode(enc.wide, b, t) == Returns(Norm(v, t))
  {
    hide ComesBack, Part, JoinParts, EncodeParts, DecodeParts;
    PartsNotEmpty(EncodeParts(enc, v, t));
    PartsDecode(enc, v, t, b);
  }

  /**
   Whatever is encoded for a well-typed value decodes to that value, with empty lists and sets,
   and tuples and objects of no components, replaced by `null`.
   */
  lemma {:induction false} RoundTrip(enc: Encoder, v: Value, t: Type)
    requires WellTyped(v, t)
    ensures ComesBack(enc, v, t)
    decreases t, 2
  {
    if Missing(v) {
      assert Encode(enc, v, t).NoBytes? && Norm(v, t) == Null;
    } else {
      hide ComesBack;
      match t
      case Single(code) => SingleComesBack(enc, v, code);
      case List(item) => ListComesBack(enc, v, t);
      case Set(item) => ListComesBack(enc, v, t);
      case Map(_, _) => MapComesBack(enc, v, t);
      case Tuple(_) => TupleComesBack(enc, v, t);
      case Udt(_) => TupleComesBack(enc, v, t);
      case Vector(_, _) => VectorComesBack(enc, v, t);
    }
  }

  lemma SingleComesBack(enc: Encoder, v: Value, code: Code)
    requires SingleTyped(v, code)
    ensures ComesBack(enc, v, Single(code))
  {
    hide Encode, Decode, Norm, EncodeSingle, EncodeOwn, DecodeSingle, SingleTyped, Taken;
    OwnEncodes(enc, v, code);
    SingleUnfolds(enc, v, code);
    if v.Raw? {
      RawIsBlob(v, code);
    } else if EncodeOwn(v, code).Bytes? {
      SingleRoundTrip(v, code, EncodeOwn(v, code).bytes);
    }
  }

  lemma SingleUnfolds(enc: Encoder, v: Value, code: Code)
    requires !Missing(v)
    ensures Encode(enc, v, Single(code)) == if v.Raw? then Bytes(v.bytes) else EncodeSingle(enc, v, code)
    ensures Norm(v, Single(code)) == v
    ensures forall b :: b != [] || ZeroLengthSupported(Single(code)) ==> Decode(enc.wide, b, Single(code)) == DecodeSingle(b, code)
  {
    hide EncodeSingle, DecodeSingle;
  }

  /** A value of the type's class is taken for itself. */
  lemma OwnEncodes(enc: Encoder, v: Value, code: Code)
    requires SingleTyped(v, code)
    ensures !EncodeOwn(v, code).NoBytes? && !Missing(v)
    ensures !v.Raw? ==> EncodeSingle(enc, v, code) == EncodeOwn(v, code)
  {
    hide WrappedLong, Varint.EncodeVarint, DurationBytes, ToSigned, FitsSigned, IsZeroOrNaN;
  }

  lemma RawIsBlob(v: Value, code: Code)
    requires SingleTyped(v, code) && v.Raw?
    ensures code == Blob && DecodeSingle(v.bytes, code) == Returns(v)
  {
  }

  lemma {:induction false} ListComesBack(enc: Encoder, v: Value, t: Type)
    requires (t.List? || t.Set?) && v.ListValue? && WellTyped(v, t)
    ensures ComesBack(enc, v, t)
    decreases t, 1
  {
    hide EncodeSingle, DecodeSingle, EncodeLength, JoinItems, DecodeList;
    EachComesBack(enc, v.items, t.item);
    var e := EncodeList(enc, v, t.item);
    if e.Bytes? {
      ListRoundTrip(enc, v.items, t.item, e.bytes);
    }
  }

  lemma {:induction false} MapComesBack(enc: Encoder, v: Value, t: Type)
    requires t.Map? && v.MapValue? && WellTyped(v, t)
    ensures ComesBack(enc, v, t)
    decreases t, 1
  {
    hide EncodeSingle, DecodeSingle, EncodeLength, JoinEntries, Decode;
    EntriesComeBack(enc, v.entries, t);
    var e := Encode(enc, v, t);
    if e.Bytes? {
      MapRoundTrip(enc, v.entries, t, e.bytes);
    }
  }

  lemma {:induction false} TupleComesBack(enc: Encoder, v: Value, t: Type)
    requires ((v.TupleValue? && t.Tuple?) || (v.UdtValue? && t.Udt?)) && WellTyped(v, t)
    ensures ComesBack(enc, v, t)
    decreases t, 1
  {
    hide EncodeSingle, DecodeSingle, JoinParts, EncodeParts, Decode, PartsTyped;
    PartsComeBack(enc, v, t);
    var e := Encode(enc, v, t);
    if e.Bytes? {
      TupleRoundTrip(enc, v, t, e.bytes);
    }
  }

  lemma {:induction false} VectorComesBack(enc: Encoder, v: Value, t: Type)
    requires t.Vector? && v.VectorValue? && WellTyped(v, t)
    ensures ComesBack(enc, v, t)
    decreases t, 1
  {
    hide EncodeSingle, DecodeSingle, JoinElements, EncodeEach, Decode, FixedSize;
    EachComesBack(enc, v.items, t.item);
    var e := Encode(enc, v, t);
    if e.Bytes? {
      VectorRoundTrip(enc, v.items, t, e.bytes);
    }
  }

  // ----- When exactly the same value comes back -----

  function NamesOf(fields: seq<Field>): set<string> {
    set f | f in fields :: f.name
  }

  /** No `undefined`, no empty list or set, and tuples and objects with exactly the components of their types. */
  ghost predicate Plain(v: Value, t: Type)
    decreases t
  {
    v.Null? ||
    match t
    case Single(_) => !v.Undefined?
    case List(item) => v.ListValue? && v.items != [] && forall i :: 0 <= i < |v.items| ==> Plain(v.items[i], item)
    case Set(item) => v.ListValue? && v.items != [] && forall i :: 0 <= i < |v.items| ==> Plain(v.items[i], item)
    case Map(key, value) =>
      v.MapValue? && forall i :: 0 <= i < |v.entries| ==> Plain(v.entries[i].key, key) && Plain(v.entries[i].value, value)
    case Tuple(items) =>
      v.TupleValue? && |v.items| == |items| && forall i: nat :: i < |items| ==> Plain(Part(v, t, i), t.Component(i))
    case Udt(fields) =>
      && v.UdtValue? && fields != [] && v.members.Keys == NamesOf(fields)
      && forall i: nat :: i < |fields| ==> Plain(Part(v, t, i), t.Component(i))
    case Vector(item, _) => v.VectorValue? && forall i :: 0 <= i < |v.items| ==> Plain(v.items[i], item)
  }

  lemma {:induction false} MembersLookup(fields: seq<Field>, parts: seq<Value>, n: nat)
    requires n <= |parts| <= |fields| && DistinctNames(fields)
    ensures Members(fields, parts, n).Keys == NamesOf(fields[..n])
    ensures forall i :: 0 <= i < n ==>
      fields[i].name in Members(fields, parts, n) && Members(fields, parts, n)[fields[i].name] == parts[i]
    decreases n
  {
    hide NamesOf;
    NamesOfStep(fields, n);
    if n > 0 {
      MembersLookup(fields, parts, n - 1);
    }
  }

  lemma NamesOfStep(fields: seq<Field>, n: nat)
    requires n <= |fields|
    ensures NamesOf(fields[..n]) == if n == 0 then {} else NamesOf(fields[..n - 1]) + {fields[n - 1].name}
  {
    if n > 0 {
      assert fields[..n] == fields[..n - 1] + [fields[n - 1]];
    }
  }

  lemma {:induction false} NormKeepsEach(items: seq<Value>, item: Type)
    requires forall i :: 0 <= i < |items| ==> WellTyped(items[i], item)
    ensures NormEach(items, item) == items <==> forall i :: 0 <= i < |items| ==> Plain(items[i], item)
    decreases item, 3
  {
    hide WellTyped, Plain, Norm;
    forall i | 0 <= i < |items|
      ensures Norm(items[i], item) == items[i] <==> Plain(items[i], item)
    {
      NormKeeps(items[i], item);
    }
  }

  lemma {:induction false} NormKeepsEntries(entries: seq<Entry>, t: Type)
    requires t.Map?
    requires forall i :: 0 <= i < |entries| ==> WellTyped(entries[i].key, t.key) && WellTyped(entries[i].value, t.value)
    ensures NormEntries(entries, t) == entries
       <==> forall i :: 0 <= i < |entries| ==> Plain(entries[i].key, t.key) && Plain(entries[i].value, t.value)
    decreases t, 0
  {
    hide WellTyped, Plain, Norm;
    forall i | 0 <= i < |entries|
      ensures NormEntries(entries, t)[i] == entries[i] <==> Plain(entries[i].key, t.key) && Plain(entries[i].value, t.value)
    {
      NormKeeps(entries[i].key, t.key);
      NormKeeps(entries[i].value, t.value);
    }
  }

  lemma {:induction false} NormKeepsParts(v: Value, t: Type)
    requires ((v.TupleValue? && t.Tuple?) || (v.UdtValue? && t.Udt?)) && PartsTyped(v, t)
    ensures (forall i: nat :: i < Written(v, t) ==> NormParts(v, t)[i] == Part(v, t, i))
       <==> forall i: nat :: i < Written(v, t) ==> Plain(Part(v, t, i), t.Component(i))
    decreases t, 0
  {
    hide WellTyped, Plain, Norm, Part;
    forall i: nat | i < Written(v, t)
      ensures NormParts(v, t)[i] == Part(v, t, i) <==> Plain(Part(v, t, i), t.Component(i))
    {
      NormKeeps(Part(v, t, i), t.Component(i));
    }
  }

  lemma {:induction false} NormKeepsTuple(v: Value, t: Type)
    requires t.Tuple? && v.TupleValue? && v.items != [] && PartsTyped(v, t)
    ensures Norm(v, t) == v <==> Plain(v, t)
    decreases t, 1
  {
    NormKeepsParts(v, t);
    var parts := NormParts(v, t);
    if |v.items| == |t.items| {
      assert parts + Holes(0) == parts;
      assert parts == v.items <==> forall i: nat :: i < Written(v, t) ==> parts[i] == Part(v, t, i);
    }
  }

  /** The object that comes back has a member for every field and no others. */
  lemma {:induction false} NormKeepsMembers(members: map<string, Value>, fields: seq<Field>, parts: seq<Value>)
    requires |parts| == |fields| && DistinctNames(fields)
    ensures Members(fields, parts, |fields|) == members
       <==> members.Keys == NamesOf(fields) && forall i: nat :: i < |fields| ==> members[fields[i].name] == parts[i]
  {
    hide DistinctNames, Members, NamesOf;
    MembersLookup(fields, parts, |fields|);
    assert fields[..|fields|] == fields;
    SameMembers(members, Members(fields, parts, |fields|), fields);
  }

  lemma {:induction false} NormKeepsUdt(v: Value, t: Type)
    requires t.Udt? && v.UdtValue? && DistinctNames(t.fields) && PartsTyped(v, t)
    ensures Norm(v, t) == v <==> Plain(v, t)
    decreases t, 1
  {
    hide DistinctNames, Members, PartsTyped, WellTyped;
    NormKeepsParts(v, t);
    NormKeepsMembers(v.members, t.fields, NormParts(v, t));
  }

  lemma SameMembers(a: map<string, Value>, b: map<string, Value>, fields: seq<Field>)
    requires b.Keys == NamesOf(fields)
    ensures b == a <==> a.Keys == NamesOf(fields) && forall i: nat :: i < |fields| ==> a[fields[i].name] == b[fields[i].name]
  {
    if a.Keys == NamesOf(fields) && forall i: nat :: i < |fields| ==> a[fields[i].name] == b[fields[i].name] {
      forall name | name in a
        ensures a[name] == b[name]
      {
        var f :| f in fields && f.name == name;
        var i: nat :| i < |fields| && fields[i] == f;
      }
    }
  }

  lemma {:induction false} NormKeeps(v: Value, t: Type)
    requires WellTyped(v, t)
    ensures Norm(v, t) == v <==> Plain(v, t)
    decreases t, 2
  {
    if !Missing(v) {
      match t
      case Single(_) =>
      case List(item) => NormKeepsEach(v.items, item);
      case Set(item) => NormKeepsEach(v.items, item);
      case Map(_, _) => NormKeepsEntries(v.entries, t);
      case Tuple(_) => NormKeepsTuple(v, t);
      case Udt(_) => NormKeepsUdt(v, t);
      case Vector(item, _) => NormKeepsEach(v.items, item);
    }
  }

  /**
   The buffer made of a well-typed value decodes without an exception, and to the same value exactly
   when the value is plain.
   */
  lemma {:induction false} DecodeInvertsEncode(enc: Encoder, v: Value, t: Type, b: Buffer)
    requires WellTyped(v, t) && Encode(enc, v, t) == Bytes(b)
    ensures Decode(enc.wide, b, t) == Returns(Norm(v, t))
    ensures Decode(enc.wide, b, t) == Returns(v) <==> Plain(v, t)
  {
    RoundTrip(enc, v, t);
    hide Encode, Decode, Norm, WellTyped, Plain;
    NormKeeps(v, t);
  }
}
