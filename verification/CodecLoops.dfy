/**
 The encoders and decoders of lib/encoder.js as they run, with their loops, offsets and early
 exits, each proved to compute the function of the Codec module.
 */
module CodecLoops {
  import opened Bytes
  import opened Codec
  import opened Framing
  import opened Seqs
  import opened Wrappers
  import VIntCoding

  // ----- Encoding -----

  lemma ThenStep(acc: Buffer, x: Encoded, rest: Encoded)
    ensures x.Bytes? ==> Then(Bytes(acc), Then(x, rest)) == Then(Bytes(acc + x.bytes), rest)
    ensures !x.Bytes? ==> Then(Bytes(acc), Then(x, rest)) == Throws
  {
    if x.Bytes? && rest.Bytes? {
      Assoc(acc, x.bytes, rest.bytes);
    }
  }

  lemma ThenNothing(acc: Buffer)
    ensures Then(Bytes(acc), Bytes([])) == Bytes(acc)
  {
    assert acc + [] == acc;
  }

  method EncodeValue(enc: Encoder, v: Value, t: Type) returns (e: Encoded)
    ensures e == Encode(enc, v, t)
    decreases t, 1
  {
    if Missing(v) {
      return NoBytes;
    } else if v.Raw? {
      return Bytes(v.bytes);
    }
    match t {
      case Single(code) => e := EncodeSingle(enc, v, code);
      case List(item) => e := EncodeListItems(enc, v, item);
      case Set(item) => e := EncodeListItems(enc, v, item);
      case Map(_, _) => e := EncodeMap(enc, v, t);
      case Tuple(_) => e := EncodeTuple(enc, v, t);
      case Udt(_) => e := EncodeTuple(enc, v, t);
      case Vector(_, _) => e := EncodeVector(enc, v, t);
    }
  }

  method EncodeListItems(enc: Encoder, v: Value, item: Type) returns (e: Encoded)
    ensures e == EncodeList(enc, v, item)
    decreases item, 2
  {
    hide Encode, EncodeLength, JoinItems, EncodeItems, Sized;
    if !v.ListValue? {
      return Throws;
    }
    var value := v.items;
    if |value| == 0 {
      return NoBytes;
    }
    ghost var encoded := EncodeItems(enc, value, item);
    var length := EncodeLength(enc.wide, |value|);
    if !length.Bytes? {
      return Throws;
    }
    var parts := length.bytes;
    for i := 0 to |value|
      invariant EncodeList(enc, v, item) == Then(Bytes(parts), JoinItems(enc.wide, encoded, i))
    {
      ItemsStep(enc.wide, encoded, i, parts);
      if Missing(value[i]) {
        return Throws;
      }
      var bytes := EncodeValue(enc, value[i], item);
      var sized := Sized(enc.wide, bytes);
      if !sized.Bytes? {
        return Throws;
      }
      parts := parts + sized.bytes;
    }
    ItemsEnd(enc.wide, encoded, parts);
    e := Bytes(parts);
  }

  lemma ItemsStep(wide: bool, parts: seq<Encoded>, i: nat, acc: Buffer)
    requires i < |parts|
    ensures var x := Sized(wide, parts[i]);
      Then(Bytes(acc), JoinItems(wide, parts, i))
      == if x.Bytes? then Then(Bytes(acc + x.bytes), JoinItems(wide, parts, i + 1)) else Throws
    ensures parts[i].Throws? ==> Sized(wide, parts[i]).Throws?
  {
    ThenStep(acc, Sized(wide, parts[i]), JoinItems(wide, parts, i + 1));
  }

  lemma ItemsEnd(wide: bool, parts: seq<Encoded>, acc: Buffer)
    ensures Then(Bytes(acc), JoinItems(wide, parts, |parts|)) == Bytes(acc)
  {
    ThenNothing(acc);
  }

  /** The number of entries is counted while they are added, and put in front at the end. */
  method EncodeMap(enc: Encoder, v: Value, t: Type) returns (e: Encoded)
    requires t.Map? && !Missing(v) && !v.Raw?
    ensures e == Encode(enc, v, t)
    decreases t, 0
  {
    var entries := MapEntries(enc, v);
    ghost var keys, values := EncodeKeys(enc, entries, t.key), EncodeValues(enc, entries, t.value);
    MapIsJoined(enc, v, t);
    hide Encode, EncodeLength, JoinEntries, EncodeKeys, EncodeValues, Sized, SizedOrEmpty;
    var parts: Buffer, propCounter := [], 0;
    EntriesStart(JoinEntries(enc.wide, keys, values, 0));
    for i := 0 to |entries|
      invariant propCounter == i
      invariant JoinEntries(enc.wide, keys, values, 0) == Then(Bytes(parts), JoinEntries(enc.wide, keys, values, i))
    {
      EntriesStep(enc.wide, keys, values, i, parts);
      if Missing(entries[i].key) || Missing(entries[i].value) {
        return Throws;
      }
      var keyBuffer := EncodeValue(enc, entries[i].key, t.key);
      var sizedKey := Sized(enc.wide, keyBuffer);
      if !sizedKey.Bytes? {
        return Throws;
      }
      var valueBuffer := EncodeValue(enc, entries[i].value, t.value);
      var sizedValue := SizedOrEmpty(enc.wide, valueBuffer);
      if !sizedValue.Bytes? {
        return Throws;
      }
      parts := parts + (sizedKey.bytes + sizedValue.bytes);
      propCounter := propCounter + 1;
    }
    EntriesEnd(enc.wide, keys, values, parts);
    e := Then(EncodeLength(enc.wide, propCounter), Bytes(parts));
  }

  lemma MapIsJoined(enc: Encoder, v: Value, t: Type)
    requires t.Map? && !Missing(v) && !v.Raw?
    ensures var entries := MapEntries(enc, v);
      Encode(enc, v, t) == Then(EncodeLength(enc.wide, |entries|),
        JoinEntries(enc.wide, EncodeKeys(enc, entries, t.key), EncodeValues(enc, entries, t.value), 0))
  {
  }

  lemma EntriesStart(e: Encoded)
    requires !e.NoBytes?
    ensures Then(Bytes([]), e) == e
  {
    if e.Bytes? {
      assert [] + e.bytes == e.bytes;
    }
  }

  lemma EntriesStep(wide: bool, keys: seq<Encoded>, values: seq<Encoded>, i: nat, acc: Buffer)
    requires i < |keys| == |values|
    ensures var x, y := Sized(wide, keys[i]), SizedOrEmpty(wide, values[i]);
      Then(Bytes(acc), JoinEntries(wide, keys, values, i))
      == if x.Bytes? && y.Bytes? then Then(Bytes(acc + (x.bytes + y.bytes)), JoinEntries(wide, keys, values, i + 1))
         else Throws
    ensures keys[i].Throws? ==> Sized(wide, keys[i]).Throws?
    ensures values[i].Throws? ==> SizedOrEmpty(wide, values[i]).Throws?
  {
    hide JoinEntries;
    ThenStep(acc, Then(Sized(wide, keys[i]), SizedOrEmpty(wide, values[i])), JoinEntries(wide, keys, values, i + 1));
    EntriesJoin(wide, keys, values, i);
  }

  lemma EntriesJoin(wide: bool, keys: seq<Encoded>, values: seq<Encoded>, i: nat)
    requires i < |keys| == |values|
    ensures JoinEntries(wide, keys, values, i)
         == Then(Then(Sized(wide, keys[i]), SizedOrEmpty(wide, values[i])), JoinEntries(wide, keys, values, i + 1))
  {
  }

  lemma EntriesEnd(wide: bool, keys: seq<Encoded>, values: seq<Encoded>, acc: Buffer)
    requires |keys| == |values|
    ensures Then(Bytes(acc), JoinEntries(wide, keys, values, |keys|)) == Bytes(acc)
  {
    ThenNothing(acc);
  }

  /** `encodeTuple` and `encodeUdt`, which differ in where a component's value comes from. */
  method EncodeTuple(enc: Encoder, v: Value, t: Type) returns (e: Encoded)
    requires (t.Tuple? || t.Udt?) && !Missing(v) && !v.Raw?
    ensures e == Encode(enc, v, t)
    decreases t, 0
  {
    if t.Tuple? && t.items != [] && !v.TupleValue? && HasLength(enc, v) {
      // there is no method `get` to call
      return Throws;
    }
    ghost var encoded := EncodeParts(enc, v, t);
    TupleIsJoined(enc, v, t);
    hide Encode, JoinParts, EncodeParts, SizedOrNull, ComponentOf;
    var length := Written(v, t);
    var parts: Buffer, totalLength := [], 0;
    EntriesStart(JoinParts(encoded, 0));
    for i := 0 to length
      invariant totalLength == |parts|
      invariant JoinParts(encoded, 0) == Then(Bytes(parts), JoinParts(encoded, i))
    {
      PartsStep(encoded, i, parts);
      var item := EncodeValue(enc, ComponentOf(enc, v, t, i), t.Component(i));
      var sized := SizedOrNull(item);
      if !sized.Bytes? {
        return Throws;
      }
      PartLength(item);
      parts := parts + sized.bytes;
      totalLength := totalLength + (if item.Bytes? then |item.bytes| + 4 else 4);
    }
    PartsEnd(encoded, parts);
    e := Bytes(parts[..totalLength]);
    assert parts[..totalLength] == parts;
  }

  lemma TupleIsJoined(enc: Encoder, v: Value, t: Type)
    requires (t.Tuple? || t.Udt?) && HasParts(enc, v, t) && !Missing(v) && !v.Raw?
    ensures Encode(enc, v, t) == JoinParts(EncodeParts(enc, v, t), 0)
  {
  }

  lemma PartLength(e: Encoded)
    requires SizedOrNull(e).Bytes?
    ensures |SizedOrNull(e).bytes| == if e.Bytes? then |e.bytes| + 4 else 4
  {
  }

  lemma PartsStep(parts: seq<Encoded>, i: nat, acc: Buffer)
    requires i < |parts|
    ensures var x := SizedOrNull(parts[i]);
      Then(Bytes(acc), JoinParts(parts, i))
      == if x.Bytes? then Then(Bytes(acc + x.bytes), JoinParts(parts, i + 1)) else Throws
  {
    ThenStep(acc, SizedOrNull(parts[i]), JoinParts(parts, i + 1));
  }

  lemma PartsEnd(parts: seq<Encoded>, acc: Buffer)
    ensures Then(Bytes(acc), JoinParts(parts, |parts|)) == Bytes(acc)
  {
    ThenNothing(acc);
  }

  method EncodeVector(enc: Encoder, v: Value, t: Type) returns (e: Encoded)
    requires t.Vector? && !Missing(v) && !v.Raw?
    ensures e == Encode(enc, v, t)
    decreases t, 0
  {
    if !v.VectorValue? || |v.items| != t.dimension || |v.items| == 0 {
      return Throws;
    }
    ghost var parts := EncodeEach(enc, v.items, t.item);
    VectorIsJoined(enc, v, t);
    hide Encode, JoinElements, EncodeEach, Packed, FixedSize;
    var serializationSize := FixedSize(t.item);
    var encoded: Buffer := [];
    EntriesStart(JoinElements(serializationSize != -1, parts, 0));
    for i := 0 to |v.items|
      invariant JoinElements(serializationSize != -1, parts, 0)
             == Then(Bytes(encoded), JoinElements(serializationSize != -1, parts, i))
    {
      ElementsStep(serializationSize != -1, parts, i, encoded);
      var elemBuffer := EncodeValue(enc, v.items[i], t.item);
      var packed := PackElement(serializationSize != -1, elemBuffer);
      if !packed.Bytes? {
        return Throws;
      }
      encoded := encoded + packed.bytes;
    }
    ElementsEnd(serializationSize != -1, parts, encoded);
    e := Bytes(encoded);
  }

  method PackElement(bare: bool, e: Encoded) returns (r: Encoded)
    ensures r == Packed(bare, e)
  {
    if !e.Bytes? {
      return Throws;
    } else if bare {
      return e;
    } else if |e.bytes| >= VIntCoding.TWO_31 {
      return Throws;
    }
    var size := VIntCoding.UvintPack(|e.bytes|);
    r := Bytes(size + e.bytes);
  }

  lemma VectorIsJoined(enc: Encoder, v: Value, t: Type)
    requires t.Vector? && v.VectorValue? && |v.items| == t.dimension > 0
    ensures Encode(enc, v, t) == JoinElements(FixedSize(t.item) != -1, EncodeEach(enc, v.items, t.item), 0)
  {
  }

  lemma ElementsStep(bare: bool, parts: seq<Encoded>, i: nat, acc: Buffer)
    requires i < |parts|
    ensures var x := Packed(bare, parts[i]);
      Then(Bytes(acc), JoinElements(bare, parts, i))
      == if x.Bytes? then Then(Bytes(acc + x.bytes), JoinElements(bare, parts, i + 1)) else Throws
  {
    ThenStep(acc, Packed(bare, parts[i]), JoinElements(bare, parts, i + 1));
  }

  lemma ElementsEnd(bare: bool, parts: seq<Encoded>, acc: Buffer)
    ensures Then(Bytes(acc), JoinElements(bare, parts, |parts|)) == Bytes(acc)
  {
    ThenNothing(acc);
  }

  // ----- Decoding -----

  function Prepend<T>(done: seq<T>, rest: Outcome<seq<T>>): Outcome<seq<T>> {
    if rest.Returns? then Returns(done + rest.value) else Fails
  }

  lemma PrependCons<T>(done: seq<T>, x: T, rest: Outcome<seq<T>>)
    ensures Prepend(done, Cons(x, rest)) == Prepend(done + [x], rest)
  {
    if rest.Returns? {
      Assoc(done, [x], rest.value);
    }
  }

  lemma PrependNone<T>(rest: Outcome<seq<T>>)
    ensures Prepend([], rest) == rest
  {
    if rest.Returns? {
      assert [] + rest.value == rest.value;
    }
  }

  lemma PrependAll<T>(done: seq<T>)
    ensures Prepend(done, Returns([])) == Returns(done)
  {
    assert done + [] == done;
  }

  method DecodeValue(wide: bool, b: Buffer, t: Type) returns (r: Outcome<Value>)
    ensures r == Decode(wide, b, t)
    decreases t, 1
  {
    if b == [] && !ZeroLengthSupported(t) {
      return Returns(Null);
    }
    match t {
      case Single(code) => r := DecodeSingle(b, code);
      case List(item) => r := DecodeListItems(wide, b, item);
      case Set(item) => r := DecodeListItems(wide, b, item);
      case Map(_, _) => r := DecodeMap(wide, b, t);
      case Tuple(_) => r := DecodeTuple(wide, b, t);
      case Udt(_) => r := DecodeUdt(wide, b, t);
      case Vector(_, _) => r := DecodeVector(wide, b, t);
    }
  }

  method DecodeListItems(wide: bool, b: Buffer, item: Type) returns (r: Outcome<Value>)
    ensures r == DecodeList(wide, b, item)
    decreases item, 2
  {
    hide Decode, ReadLength, ItemFrames, Slice;
    var total := ReadLength(wide, b, 0);
    if total.Fails? || total.value < 0 {
      return Fails;
    }
    var totalItems: nat := total.value;
    var offset: int := Width(wide);
    var list: seq<Value> := [];
    ghost var done: seq<Buffer> := [];
    PrependNone(ItemFrames(wide, b, offset, totalItems));
    for i := 0 to totalItems
      invariant |list| == |done| == i
      invariant ItemFrames(wide, b, Width(wide), totalItems) == Prepend(done, ItemFrames(wide, b, offset, totalItems - i))
      invariant forall k :: 0 <= k < i ==> Decode(wide, done[k], item) == Returns(list[k])
    {
      ItemStep(wide, b, offset, totalItems - i, done);
      var length := ReadLength(wide, b, offset);
      if length.Fails? {
        return Fails;
      }
      offset := offset + Width(wide);
      var slice := Slice(b, offset, offset + length.value);
      done := done + [slice];
      var value := DecodeValue(wide, slice, item);
      if value.Fails? {
        EachFails(wide, done, ItemFrames(wide, b, offset + length.value, totalItems - i - 1), item);
        return Fails;
      }
      list := list + [value.value];
      offset := offset + length.value;
    }
    ItemEnd(wide, b, offset, done);
    EachReturns(wide, done, list, item);
    r := Returns(ListValue(list));
  }

  lemma ItemStep(wide: bool, b: Buffer, offset: int, n: nat, done: seq<Buffer>)
    requires n > 0
    ensures var length := ReadLength(wide, b, offset);
      var start := offset + Width(wide);
      Prepend(done, ItemFrames(wide, b, offset, n))
      == if length.Fails? then Fails
         else Prepend(done + [Slice(b, start, start + length.value)], ItemFrames(wide, b, start + length.value, n - 1))
  {
    hide ReadLength, Slice;
    var length := ReadLength(wide, b, offset);
    if length.Returns? {
      var start := offset + Width(wide);
      PrependCons(done, Slice(b, start, start + length.value), ItemFrames(wide, b, start + length.value, n - 1));
    }
  }

  lemma ItemEnd(wide: bool, b: Buffer, offset: int, done: seq<Buffer>)
    ensures Prepend(done, ItemFrames(wide, b, offset, 0)) == Returns(done)
  {
    PrependAll(done);
  }

  /** A frame that does not decode makes the whole fail, if the frames after it have not failed already. */
  lemma EachFails(wide: bool, done: seq<Buffer>, rest: Outcome<seq<Buffer>>, item: Type)
    requires done != [] && Decode(wide, done[|done| - 1], item).Fails?
    ensures var frames := Prepend(done, rest);
      frames.Returns? ==> DecodeEach(wide, frames.value, item).Fails?
  {
    hide Decode;
    var frames := Prepend(done, rest);
    if frames.Returns? {
      assert frames.value[|done| - 1] == done[|done| - 1];
      var outcomes := seq(|frames.value|, i requires 0 <= i < |frames.value| => Decode(wide, frames.value[i], item));
      assert outcomes[|done| - 1].Fails?;
    }
  }

  lemma EachReturns(wide: bool, done: seq<Buffer>, list: seq<Value>, item: Type)
    requires |done| == |list| && forall k :: 0 <= k < |done| ==> Decode(wide, done[k], item) == Returns(list[k])
    ensures DecodeEach(wide, done, item) == Returns(list)
  {
    hide Decode;
    var outcomes := seq(|done|, i requires 0 <= i < |done| => Decode(wide, done[i], item));
    assert All(outcomes).value == list;
  }

  method DecodeMap(wide: bool, b: Buffer, t: Type) returns (r: Outcome<Value>)
    requires t.Map? && b != []
    ensures r == Decode(wide, b, t)
    decreases t, 0
  {
    MapIsDecoded(wide, b, t);
    hide Decode, ReadLength, EntryFrames, DecodeEntries;
    var total := ReadLength(wide, b, 0);
    if total.Fails? {
      return Fails;
    }
    var entries := ReadValues(wide, b, t, AtLeastZero(total.value));
    r := if entries.Fails? then Fails else Returns(MapValue(entries.value));
  }

  lemma MapIsDecoded(wide: bool, b: Buffer, t: Type)
    requires t.Map? && b != []
    ensures var total := ReadLength(wide, b, 0);
      if total.Fails? then Decode(wide, b, t).Fails?
      else
        var frames := EntryFrames(wide, b, Width(wide), AtLeastZero(total.value));
        if frames.Fails? || DecodeEntries(wide, frames.value, t).Fails? then Decode(wide, b, t).Fails?
        else Decode(wide, b, t) == Returns(MapValue(DecodeEntries(wide, frames.value, t).value))
  {
  }

  /** The keys and values given to the callback, in the order of the buffer. */
  method ReadValues(wide: bool, b: Buffer, t: Type, totalItems: nat) returns (r: Outcome<seq<Entry>>)
    requires t.Map?
    ensures var frames := EntryFrames(wide, b, Width(wide), totalItems);
      r == if frames.Fails? then Fails else DecodeEntries(wide, frames.value, t)
    decreases t, 0, 1
  {
    hide Decode, EntryFrames, EntryAt, DecodeEntries, DecodeEntry;
    var offset: int := Width(wide);
    var entries: seq<Entry> := [];
    ghost var done: seq<EntryFrame> := [];
    PrependNone(EntryFrames(wide, b, offset, totalItems));
    for i := 0 to totalItems
      invariant |entries| == |done| == i
      invariant EntryFrames(wide, b, Width(wide), totalItems) == Prepend(done, EntryFrames(wide, b, offset, totalItems - i))
      invariant forall k :: 0 <= k < i ==> DecodeEntry(wide, done[k], t) == Returns(entries[k])
    {
      EntryStep(wide, b, offset, totalItems - i, done);
      ghost var at := EntryAt(wide, b, offset);
      var entry, next := ReadEntry(wide, b, t, offset);
      if at.Returns? {
        done := done + [at.value.0];
      }
      if entry.Fails? {
        if at.Returns? {
          EntryFails(wide, done, EntryFrames(wide, b, at.value.1, totalItems - i - 1), t);
        }
        return Fails;
      }
      entries, offset := entries + [entry.value], next;
    }
    EntryEnd(wide, b, offset, done);
    EntriesReturn(wide, done, entries, t);
    r := Returns(entries);
  }

  /** One round of the loop. */
  method ReadEntry(wide: bool, b: Buffer, t: Type, at: int) returns (entry: Outcome<Entry>, offset: int)
    requires t.Map?
    ensures EntryAt(wide, b, at).Fails? ==> entry.Fails?
    ensures EntryAt(wide, b, at).Returns? ==> entry == DecodeEntry(wide, EntryAt(wide, b, at).value.0, t)
    ensures entry.Returns? ==> offset == EntryAt(wide, b, at).value.1
    decreases t, 0, 0
  {
    hide Decode, ReadLength, Slice;
    offset := at;
    var keyLength := ReadLength(wide, b, offset);
    if keyLength.Fails? {
      return Fails, offset;
    }
    offset := offset + Width(wide);
    var key := DecodeValue(wide, Slice(b, offset, offset + keyLength.value), t.key);
    if key.Fails? {
      return Fails, offset;
    }
    offset := offset + keyLength.value;
    var valueLength := ReadLength(wide, b, offset);
    if valueLength.Fails? {
      return Fails, offset;
    }
    offset := offset + Width(wide);
    if valueLength.value < 0 {
      return Returns(Entry(key.value, Null)), offset;
    }
    var value := DecodeValue(wide, Slice(b, offset, offset + valueLength.value), t.value);
    if value.Fails? {
      return Fails, offset;
    }
    offset := offset + valueLength.value;
    entry := Returns(Entry(key.value, value.value));
  }

  /** The entry that stands at an offset, and the offset after it. */
  function EntryAt(wide: bool, b: Buffer, offset: int): Outcome<(EntryFrame, int)> {
    var keyLength := ReadLength(wide, b, offset);
    if keyLength.Fails? then Fails
    else
      var start := offset + Width(wide);
      var key := Slice(b, start, start + keyLength.value);
      var valueLength := ReadLength(wide, b, start + keyLength.value);
      if valueLength.Fails? then Fails
      else
        var from := start + keyLength.value + Width(wide);
        if valueLength.value < 0 then Returns((EntryFrame(key, None), from))
        else Returns((EntryFrame(key, Some(Slice(b, from, from + valueLength.value))), from + valueLength.value))
  }

  lemma EntryStep(wide: bool, b: Buffer, offset: int, n: nat, done: seq<EntryFrame>)
    requires n > 0
    ensures var at := EntryAt(wide, b, offset);
      Prepend(done, EntryFrames(wide, b, offset, n))
      == if at.Fails? then Fails else Prepend(done + [at.value.0], EntryFrames(wide, b, at.value.1, n - 1))
  {
    hide ReadLength, Slice;
    var at := EntryAt(wide, b, offset);
    if at.Returns? {
      PrependCons(done, at.value.0, EntryFrames(wide, b, at.value.1, n - 1));
    }
  }

  lemma EntryEnd(wide: bool, b: Buffer, offset: int, done: seq<EntryFrame>)
    ensures Prepend(done, EntryFrames(wide, b, offset, 0)) == Returns(done)
  {
    PrependAll(done);
  }

  lemma EntryFails(wide: bool, done: seq<EntryFrame>, rest: Outcome<seq<EntryFrame>>, t: Type)
    requires t.Map? && done != [] && DecodeEntry(wide, done[|done| - 1], t).Fails?
    ensures var frames := Prepend(done, rest);
      frames.Returns? ==> DecodeEntries(wide, frames.value, t).Fails?
  {
    hide DecodeEntry;
    var frames := Prepend(done, rest);
    if frames.Returns? {
      assert frames.value[|done| - 1] == done[|done| - 1];
      var outcomes := seq(|frames.value|, i requires 0 <= i < |frames.value| => DecodeEntry(wide, frames.value[i], t));
      assert outcomes[|done| - 1].Fails?;
    }
  }

  lemma EntriesReturn(wide: bool, done: seq<EntryFrame>, entries: seq<Entry>, t: Type)
    requires t.Map? && |done| == |entries|
    requires forall k :: 0 <= k < |done| ==> DecodeEntry(wide, done[k], t) == Returns(entries[k])
    ensures DecodeEntries(wide, done, t) == Returns(entries)
  {
    hide DecodeEntry;
    var outcomes := seq(|done|, i requires 0 <= i < |done| => DecodeEntry(wide, done[i], t));
    assert All(outcomes).value == entries;
  }

  /** The array of elements is made at full length; those the buffer does not hold stay undefined. */
  method DecodeTuple(wide: bool, b: Buffer, t: Type) returns (r: Outcome<Value>)
    requires t.Tuple? && b != []
    ensures r == Decode(wide, b, t)
    decreases t, 0
  {
    TupleIsDecoded(wide, b, t);
    var parts := DecodeComponents(wide, b, t);
    if parts.Fails? {
      return Fails;
    }
    var elements := new Value[|t.items|](_ => Undefined);
    for i := 0 to |parts.value|
      invariant elements[..] == parts.value[..i] + Holes(|t.items| - i)
    {
      HoleStep(elements[..], parts.value, i, |t.items|);
      elements[i] := parts.value[i];
    }
    assert parts.value[..|parts.value|] == parts.value;
    if elements.Length == 0 {
      return Fails;
    }
    r := Returns(TupleValue(elements[..]));
  }

  lemma HoleStep(elements: seq<Value>, parts: seq<Value>, i: nat, n: nat)
    requires i < |parts| <= n && elements == parts[..i] + Holes(n - i)
    ensures elements[i := parts[i]] == parts[..i + 1] + Holes(n - i - 1)
  {
  }

  lemma TupleIsDecoded(wide: bool, b: Buffer, t: Type)
    requires t.Tuple? && b != []
    ensures var parts := DecodeParts(wide, b, t);
      if parts.Fails? || t.items == [] then Decode(wide, b, t).Fails?
      else Decode(wide, b, t) == Returns(TupleValue(parts.value + Holes(|t.items| - |parts.value|)))
  {
  }

  method DecodeUdt(wide: bool, b: Buffer, t: Type) returns (r: Outcome<Value>)
    requires t.Udt? && b != []
    ensures r == Decode(wide, b, t)
    decreases t, 0
  {
    UdtIsDecoded(wide, b, t);
    var parts := DecodeComponents(wide, b, t);
    if parts.Fails? {
      return Fails;
    }
    var result: map<string, Value> := map[];
    for i := 0 to |parts.value|
      invariant result == Members(t.fields, parts.value, i)
    {
      result := result[t.fields[i].name := parts.value[i]];
    }
    r := Returns(UdtValue(result));
  }

  lemma UdtIsDecoded(wide: bool, b: Buffer, t: Type)
    requires t.Udt? && b != []
    ensures var parts := DecodeParts(wide, b, t);
      if parts.Fails? then Decode(wide, b, t).Fails?
      else Decode(wide, b, t) == Returns(UdtValue(Members(t.fields, parts.value, |parts.value|)))
  {
  }

  /** The loop that tuples and user-defined types share: it ends with the components or with the buffer. */
  method DecodeComponents(wide: bool, b: Buffer, t: Type) returns (r: Outcome<seq<Value>>)
    requires t.Tuple? || t.Udt?
    ensures r == DecodeParts(wide, b, t)
    decreases t, 0, 0
  {
    hide Decode, ReadSigned, PartFrames, Slice, DecodeParts;
    var elements: seq<Value>, offset: nat, i := [], 0, 0;
    ghost var done: seq<Option<Buffer>> := [];
    PrependNone(PartFrames(b, 0, t.Arity()));
    while i < t.Arity() && offset < |b|
      invariant |elements| == |done| == i <= t.Arity()
      invariant PartFrames(b, 0, t.Arity()) == Prepend(done, PartFrames(b, offset, t.Arity() - i))
      invariant forall k :: 0 <= k < i ==> DecodePart(wide, done[k], t.Component(k)) == Returns(elements[k])
      decreases t.Arity() - i
    {
      PartStep(b, offset, t.Arity() - i, done);
      var length := ReadSigned(b, offset, 4);
      if length.Fails? {
        PartsFail(wide, b, t);
        return Fails;
      }
      offset := offset + 4;
      if length.value < 0 {
        elements, done, i := elements + [Null], done + [None], i + 1;
        continue;
      }
      var slice := Slice(b, offset, offset + length.value);
      var element := DecodeValue(wide, slice, t.Component(i));
      done := done + [Some(slice)];
      if element.Fails? {
        PartFails(wide, b, t, done, PartFrames(b, offset + length.value, t.Arity() - i - 1));
        return Fails;
      }
      elements, offset, i := elements + [element.value], offset + length.value, i + 1;
    }
    PartEnd(b, offset, t.Arity() - i, done);
    PartsReturn(wide, b, t, done, elements);
    r := Returns(elements);
  }

  lemma PartStep(b: Buffer, offset: nat, n: nat, done: seq<Option<Buffer>>)
    requires n > 0 && offset < |b|
    ensures var length := ReadSigned(b, offset, 4);
      Prepend(done, PartFrames(b, offset, n))
      == if length.Fails? then Fails
         else if length.value < 0 then Prepend(done + [None], PartFrames(b, offset + 4, n - 1))
         else Prepend(done + [Some(Slice(b, offset + 4, offset + 4 + length.value))],
                      PartFrames(b, offset + 4 + length.value, n - 1))
  {
    hide ReadSigned, Slice;
    var length := ReadSigned(b, offset, 4);
    if length.Returns? {
      if length.value < 0 {
        PrependCons(done, None, PartFrames(b, offset + 4, n - 1));
      } else {
        var slice := Some(Slice(b, offset + 4, offset + 4 + length.value));
        PrependCons(done, slice, PartFrames(b, offset + 4 + length.value, n - 1));
      }
    }
  }

  lemma PartEnd(b: Buffer, offset: nat, n: nat, done: seq<Option<Buffer>>)
    requires n == 0 || offset >= |b|
    ensures Prepend(done, PartFrames(b, offset, n)) == Returns(done)
  {
    PrependAll(done);
  }

  lemma PartsFail(wide: bool, b: Buffer, t: Type)
    requires (t.Tuple? || t.Udt?) && PartFrames(b, 0, t.Arity()).Fails?
    ensures DecodeParts(wide, b, t).Fails?
  {
  }

  lemma PartFails(wide: bool, b: Buffer, t: Type, done: seq<Option<Buffer>>, rest: Outcome<seq<Option<Buffer>>>)
    requires (t.Tuple? || t.Udt?) && PartFrames(b, 0, t.Arity()) == Prepend(done, rest)
    requires 0 < |done| <= t.Arity() && DecodePart(wide, done[|done| - 1], t.Component(|done| - 1)).Fails?
    ensures DecodeParts(wide, b, t).Fails?
  {
    hide DecodePart, PartFrames;
    var frames := PartFrames(b, 0, t.Arity());
    if frames.Returns? {
      assert frames.value[|done| - 1] == done[|done| - 1];
      var outcomes := seq(|frames.value|, i requires 0 <= i < |frames.value| => DecodePart(wide, frames.value[i], t.Component(i)));
      assert outcomes[|done| - 1].Fails?;
    }
  }

  lemma PartsReturn(wide: bool, b: Buffer, t: Type, done: seq<Option<Buffer>>, elements: seq<Value>)
    requires (t.Tuple? || t.Udt?) && |done| == |elements| <= t.Arity() && PartFrames(b, 0, t.Arity()) == Returns(done)
    requires forall k :: 0 <= k < |done| ==> DecodePart(wide, done[k], t.Component(k)) == Returns(elements[k])
    ensures DecodeParts(wide, b, t) == Returns(elements)
  {
    hide DecodePart, PartFrames;
    var outcomes := seq(|done|, i requires 0 <= i < |done| => DecodePart(wide, done[i], t.Component(i)));
    assert All(outcomes).value == elements;
  }

  method DecodeVector(wide: bool, b: Buffer, t: Type) returns (r: Outcome<Value>)
    requires t.Vector?
    ensures r == Decode(wide, b, t)
    decreases t, 0
  {
    VectorIsDecoded(wide, b, t);
    hide Decode, FixedSize, ElementFrames, DecodeEach;
    var rv := ReadElements(wide, b, t.item, t.dimension);
    if rv.Fails? || t.dimension == 0 {
      return Fails;
    }
    r := Returns(VectorValue(rv.value));
  }

  method ReadElements(wide: bool, b: Buffer, item: Type, dimension: nat) returns (r: Outcome<seq<Value>>)
    ensures var frames := ElementFrames(b, FixedSize(item), 0, dimension);
      r == if frames.Fails? then Fails else DecodeEach(wide, frames.value, item)
    decreases item, 2
  {
    hide Decode, FixedSize, ElementFrames, ElementAt, Slice, DecodeEach;
    var elemLength := FixedSize(item);
    var offset: int, rv: seq<Value> := 0, [];
    ghost var done: seq<Buffer> := [];
    PrependNone(ElementFrames(b, elemLength, offset, dimension));
    for i := 0 to dimension
      invariant |rv| == |done| == i
      invariant ElementFrames(b, elemLength, 0, dimension) == Prepend(done, ElementFrames(b, elemLength, offset, dimension - i))
      invariant forall k :: 0 <= k < i ==> Decode(wide, done[k], item) == Returns(rv[k])
    {
      ElementStep(b, elemLength, offset, dimension - i, done);
      var size;
      size, offset := NextElement(b, elemLength, offset);
      if offset + size > |b| {
        return Fails;
      }
      var slice := Slice(b, offset, offset + size);
      done := done + [slice];
      var element := DecodeValue(wide, slice, item);
      if element.Fails? {
        EachFails(wide, done, ElementFrames(b, elemLength, offset + size, dimension - i - 1), item);
        return Fails;
      }
      rv := rv + [element.value];
      offset := offset + size;
    }
    ElementEnd(b, elemLength, offset, done);
    if offset != |b| {
      return Fails;
    }
    EachReturns(wide, done, rv, item);
    r := Returns(rv);
  }

  method NextElement(b: Buffer, elemLength: int, offset: int) returns (size: int, start: int)
    ensures (size, start) == ElementAt(b, elemLength, offset)
  {
    if elemLength != -1 {
      return elemLength, offset;
    }
    // the size stands in front of the element
    var bytesRead;
    size, bytesRead := VIntCoding.UvintUnpack(Slice(b, offset, |b|));
    start := offset + bytesRead;
  }

  lemma VectorIsDecoded(wide: bool, b: Buffer, t: Type)
    requires t.Vector?
    ensures var frames := ElementFrames(b, FixedSize(t.item), 0, t.dimension);
      if frames.Fails? || t.dimension == 0 || DecodeEach(wide, frames.value, t.item).Fails? then Decode(wide, b, t).Fails?
      else Decode(wide, b, t) == Returns(VectorValue(DecodeEach(wide, frames.value, t.item).value))
  {
  }

  lemma ElementStep(b: Buffer, fixed: int, offset: int, n: nat, done: seq<Buffer>)
    requires n > 0
    ensures var (size, start) := ElementAt(b, fixed, offset);
      Prepend(done, ElementFrames(b, fixed, offset, n))
      == if start + size > |b| then Fails
         else Prepend(done + [Slice(b, start, start + size)], ElementFrames(b, fixed, start + size, n - 1))
  {
    hide ElementAt, Slice;
    var (size, start) := ElementAt(b, fixed, offset);
    if start + size <= |b| {
      PrependCons(done, Slice(b, start, start + size), ElementFrames(b, fixed, start + size, n - 1));
    }
  }

  lemma ElementEnd(b: Buffer, fixed: int, offset: int, done: seq<Buffer>)
    ensures Prepend(done, ElementFrames(b, fixed, offset, 0)) == if offset == |b| then Returns(done) else Fails
  {
    PrependAll(done);
  }
}
