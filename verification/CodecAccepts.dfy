/** Exactly which values can be encoded, and to how many bytes. */
module CodecAccepts {
  import opened Bytes
  import opened Codec
  import opened CodecRoundTrip
  import opened Durations
  import opened Framing
  import opened Wrappers
  import Varint
  import VIntCoding

  // ----- How long joined parts are -----

  function Sum(sizes: seq<nat>, i: nat): nat
    requires i <= |sizes|
    decreases |sizes| - i
  {
    if i == |sizes| then 0 else sizes[i] + Sum(sizes, i + 1)
  }

  lemma {:induction false} SumSame(a: seq<nat>, b: seq<nat>, i: nat)
    requires i <= |a| == |b| && forall k :: i <= k < |a| ==> a[k] == b[k]
    ensures Sum(a, i) == Sum(b, i)
    decreases |a| - i
  {
    if i < |a| {
      SumSame(a, b, i + 1);
    }
  }

  /** Parts are joined when each of them, with its length in front, has bytes. */
  ghost predicate ItemFits(wide: bool, e: Encoded) {
    e.Bytes? && |e.bytes| <= MaxLength(wide)
  }

  ghost predicate ValueFits(wide: bool, e: Encoded) {
    e.NoBytes? || ItemFits(wide, e)
  }

  ghost predicate ElementFits(bare: bool, e: Encoded) {
    e.Bytes? && (bare || |e.bytes| < VIntCoding.TWO_31)
  }

  function ElementSize(bare: bool, size: nat): nat {
    if bare || size >= VIntCoding.TWO_31 then size else VIntCoding.SizeOf(size) + size
  }

  lemma {:induction false} ItemsJoin(wide: bool, parts: seq<Encoded>, i: nat)
    requires i <= |parts|
    ensures JoinItems(wide, parts, i).Bytes? <==> forall k :: i <= k < |parts| ==> ItemFits(wide, parts[k])
    ensures !JoinItems(wide, parts, i).NoBytes?
    ensures JoinItems(wide, parts, i).Bytes? ==>
      |JoinItems(wide, parts, i).bytes| == Sum(seq(|parts|, k requires 0 <= k < |parts| => Width(wide) + |Payload(parts[k])|), i)
    decreases |parts| - i
  {
    if i < |parts| {
      ItemsJoin(wide, parts, i + 1);
    }
  }

  lemma {:induction false} EntriesJoin(wide: bool, keys: seq<Encoded>, values: seq<Encoded>, i: nat)
    requires i <= |keys| == |values|
    ensures JoinEntries(wide, keys, values, i).Bytes?
       <==> forall k :: i <= k < |keys| ==> ItemFits(wide, keys[k]) && ValueFits(wide, values[k])
    ensures !JoinEntries(wide, keys, values, i).NoBytes?
    ensures JoinEntries(wide, keys, values, i).Bytes? ==>
      |JoinEntries(wide, keys, values, i).bytes|
      == Sum(seq(|keys|, k requires 0 <= k < |keys| => 2 * Width(wide) + |Payload(keys[k])| + |Payload(values[k])|), i)
    decreases |keys| - i
  {
    hide ItemFits, LengthBytes;
    if i < |keys| {
      EntriesJoin(wide, keys, values, i + 1);
      SizedLength(wide, keys[i]);
      SizedLength(wide, values[i]);
    }
  }

  lemma SizedLength(wide: bool, e: Encoded)
    ensures Sized(wide, e).Bytes? <==> ItemFits(wide, e)
    ensures SizedOrEmpty(wide, e).Bytes? <==> ValueFits(wide, e)
    ensures Sized(wide, e).Bytes? ==> |Sized(wide, e).bytes| == Width(wide) + |Payload(e)|
    ensures SizedOrEmpty(wide, e).Bytes? ==> |SizedOrEmpty(wide, e).bytes| == Width(wide) + |Payload(e)|
    ensures SizedOrNull(e).Bytes? <==> ValueFits(true, e)
    ensures SizedOrNull(e).Bytes? ==> |SizedOrNull(e).bytes| == 4 + |Payload(e)|
  {
  }

  lemma {:induction false} PartsJoin(parts: seq<Encoded>, i: nat)
    requires i <= |parts|
    ensures JoinParts(parts, i).Bytes? <==> forall k :: i <= k < |parts| ==> ValueFits(true, parts[k])
    ensures JoinParts(parts, i).Bytes? ==>
      |JoinParts(parts, i).bytes| == Sum(seq(|parts|, k requires 0 <= k < |parts| => 4 + |Payload(parts[k])|), i)
    decreases |parts| - i
  {
    hide SizedOrNull;
    if i < |parts| {
      PartsJoin(parts, i + 1);
      SizedLength(true, parts[i]);
    }
  }

  lemma {:induction false} ElementsJoin(bare: bool, parts: seq<Encoded>, i: nat)
    requires i <= |parts|
    ensures JoinElements(bare, parts, i).Bytes? <==> forall k :: i <= k < |parts| ==> ElementFits(bare, parts[k])
    ensures JoinElements(bare, parts, i).Bytes? ==>
      |JoinElements(bare, parts, i).bytes|
      == Sum(seq(|parts|, k requires 0 <= k < |parts| => ElementSize(bare, |Payload(parts[k])|)), i)
    decreases |parts| - i
  {
    hide VIntCoding.UnsignedVInt;
    if i < |parts| {
      ElementsJoin(bare, parts, i + 1);
    }
  }

  // ----- What a value needs -----

  /** Encoded as `null`. */
  predicate Vanishes(v: Value, t: Type) {
    Missing(v) || ((t.List? || t.Set?) && v == ListValue([]))
  }

  predicate OwnAccepted(v: Value, code: Code) {
    match code
    case Tinyint => v.Number? && FitsSigned(v.n, 1)
    case Smallint => v.Number? && FitsSigned(v.n, 2)
    case Int => v.Number? && FitsSigned(v.n, 4)
    case Timestamp => v.Date?
    case Boolean => v.Bool?
    case Double => v.Real? && |v.bytes| == 8
    case Float => v.Real? && |v.bytes| == 4
    case Uuid => v.Id? && |v.bytes| == 16
    case TimeUuid => v.Id? && |v.bytes| == 16
    case Text => v.Chars?
    case Blob => false
    case DurationCode => v.DurationValue?
    case _ => v.BigInt?
  }

  /** Types without parts: what the value is taken for decides. */
  predicate SingleAccepted(enc: Encoder, v: Value, code: Code) {
    var taken := Taken(enc, v, code);
    taken.Some? && OwnAccepted(taken.value, code)
  }

  function OwnSize(v: Value, code: Code): nat {
    match code
    case Tinyint => 1
    case Smallint => 2
    case Int => 4
    case Boolean => 1
    case Text => if v.Chars? then |v.bytes| else 0
    case Varint => if v.BigInt? then |Varint.EncodeVarint(v.n)| else 0
    case DurationCode =>
      if v.DurationValue? then
        var d := v.duration;
        |VIntCoding.VInt(d.months)| + |VIntCoding.VInt(d.days)| + |VIntCoding.VInt(d.nanoseconds)|
      else 0
    case Double => 8
    case Float => 4
    case Uuid => 16
    case TimeUuid => 16
    case Blob => 0
    case _ => 8
  }

  function SingleSize(enc: Encoder, v: Value, code: Code): nat {
    var taken := Taken(enc, v, code);
    if taken.Some? then OwnSize(taken.value, code) else 0
  }

  /** The number of bytes of an encoded value, from the sizes of its parts. */
  function Size(enc: Encoder, v: Value, t: Type): nat
    decreases t, 0
  {
    if Missing(v) then 0
    else if v.Raw? then |v.bytes|
    else match t
      case Single(code) => SingleSize(enc, v, code)
      case List(item) => if v.ListValue? then ListSize(enc, v.items, item) else 0
      case Set(item) => if v.ListValue? then ListSize(enc, v.items, item) else 0
      case Map(key, value) =>
        var entries := MapEntries(enc, v);
        Width(enc.wide) + Sum(seq(|entries|, i requires 0 <= i < |entries| =>
          2 * Width(enc.wide) + Size(enc, entries[i].key, key) + Size(enc, entries[i].value, value)), 0)
      case Tuple(_) =>
        Sum(seq(Written(v, t), i requires 0 <= i < Written(v, t) =>
          4 + Size(enc, ComponentOf(enc, v, t, i), t.Component(i))), 0)
      case Udt(_) =>
        Sum(seq(Written(v, t), i requires 0 <= i < Written(v, t) =>
          4 + Size(enc, ComponentOf(enc, v, t, i), t.Component(i))), 0)
      case Vector(item, _) =>
        if v.VectorValue? then Sum(seq(|v.items|, i requires 0 <= i < |v.items| =>
          ElementSize(FixedSize(item) != -1, Size(enc, v.items[i], item))), 0) else 0
  }

  /** An empty list takes no bytes at all. */
  function ListSize(enc: Encoder, items: seq<Value>, item: Type): nat
    decreases item, 1
  {
    if items == [] then 0
    else Width(enc.wide) + Sum(seq(|items|, i requires 0 <= i < |items| => Width(enc.wide) + Size(enc, items[i], item)), 0)
  }

  /** A value that may stand in a collection: not `null`, and short enough for its length. */
  predicate ItemAccepted(enc: Encoder, v: Value, t: Type)
    decreases t, 1
  {
    !Vanishes(v, t) && Accepts(enc, v, t) && Size(enc, v, t) <= MaxLength(enc.wide)
  }

  /** What `encode` accepts. */
  predicate Accepts(enc: Encoder, v: Value, t: Type)
    decreases t, 0
  {
    Missing(v) || v.Raw? ||
    match t
    case Single(code) => SingleAccepted(enc, v, code)
    case List(item) =>
      v.ListValue? && (v.items == [] || |v.items| <= MaxLength(enc.wide)) &&
      forall i :: 0 <= i < |v.items| ==> ItemAccepted(enc, v.items[i], item)
    case Set(item) =>
      v.ListValue? && (v.items == [] || |v.items| <= MaxLength(enc.wide)) &&
      forall i :: 0 <= i < |v.items| ==> ItemAccepted(enc, v.items[i], item)
    case Map(key, value) =>
      var entries := MapEntries(enc, v);
      |entries| <= MaxLength(enc.wide) &&
      forall i :: 0 <= i < |entries| ==>
        ItemAccepted(enc, entries[i].key, key) && !Missing(entries[i].value)
        && Accepts(enc, entries[i].value, value) && Size(enc, entries[i].value, value) <= MaxLength(enc.wide)
    case Tuple(_) =>
      HasParts(enc, v, t) && forall i: nat :: i < Written(v, t) ==>
        Accepts(enc, ComponentOf(enc, v, t, i), t.Component(i))
        && Size(enc, ComponentOf(enc, v, t, i), t.Component(i)) <= MaxLength(true)
    case Udt(_) =>
      forall i: nat :: i < Written(v, t) ==>
        Accepts(enc, ComponentOf(enc, v, t, i), t.Component(i))
        && Size(enc, ComponentOf(enc, v, t, i), t.Component(i)) <= MaxLength(true)
    case Vector(item, dimension) =>
      v.VectorValue? && |v.items| == dimension > 0 &&
      forall i :: 0 <= i < |v.items| ==>
        !Vanishes(v.items[i], item) && Accepts(enc, v.items[i], item)
        && (FixedSize(item) != -1 || Size(enc, v.items[i], item) < VIntCoding.TWO_31)
  }

  /** The three outcomes, told apart without encoding. */
  ghost predicate Told(enc: Encoder, v: Value, t: Type) {
    var e := Encode(enc, v, t);
    && (e.Throws? <==> !Accepts(enc, v, t))
    && (e.NoBytes? <==> Vanishes(v, t))
    && |Payload(e)| == if e.Throws? then 0 else Size(enc, v, t)
  }

  // ----- The proof, type by type -----

  lemma SingleTold(enc: Encoder, v: Value, code: Code)
    requires !Missing(v) && !v.Raw?
    ensures Told(enc, v, Single(code))
  {
    hide EncodeSingle, SingleAccepted, SingleSize, Encode, Accepts, Size;
    SingleIs(enc, v, code);
    SingleExactly(enc, v, code);
    ToldIs(enc, v, Single(code));
  }

  lemma SingleIs(enc: Encoder, v: Value, code: Code)
    requires !Missing(v) && !v.Raw?
    ensures Encode(enc, v, Single(code)) == EncodeSingle(enc, v, code)
    ensures Accepts(enc, v, Single(code)) == SingleAccepted(enc, v, code)
    ensures Size(enc, v, Single(code)) == SingleSize(enc, v, code)
  {
    hide EncodeSingle, SingleAccepted, SingleSize;
  }

  lemma SingleExactly(enc: Encoder, v: Value, code: Code)
    ensures var e := EncodeSingle(enc, v, code);
      && !e.NoBytes? && (e.Bytes? <==> SingleAccepted(enc, v, code))
      && (e.Bytes? ==> |e.bytes| == SingleSize(enc, v, code))
  {
    hide EncodeOwn, OwnAccepted, OwnSize, Taken;
    var taken := Taken(enc, v, code);
    if taken.Some? {
      OwnExactly(taken.value, code);
    }
  }

  lemma OwnExactly(v: Value, code: Code)
    ensures !EncodeOwn(v, code).NoBytes? && (EncodeOwn(v, code).Bytes? <==> OwnAccepted(v, code))
    ensures EncodeOwn(v, code).Bytes? ==> |EncodeOwn(v, code).bytes| == OwnSize(v, code)
  {
    hide ToSigned, WrappedLong, Varint.EncodeVarint, VIntCoding.VInt, FitsSigned, DurationBytes;
    match code
    case Bigint => if v.BigInt? { WrappedLength(v.n); }
    case Counter => if v.BigInt? { WrappedLength(v.n); }
    case Timestamp => if v.Date? { WrappedLength(v.n); }
    case DurationCode => if v.DurationValue? { DurationLength(v.duration); }
    case _ =>
  }

  lemma WrappedLength(n: int)
    ensures |WrappedLong(n)| == 8
  {
  }

  lemma DurationLength(d: Duration)
    ensures |DurationBytes(d)| == |VIntCoding.VInt(d.months)| + |VIntCoding.VInt(d.days)| + |VIntCoding.VInt(d.nanoseconds)|
  {
    hide VIntCoding.VInt;
  }

  lemma EncodedAccordingly(enc: Encoder, v: Value, t: Type)
    requires Told(enc, v, t)
    ensures ItemFits(enc.wide, EncodePresent(enc, v, t)) <==> ItemAccepted(enc, v, t)
    ensures ItemFits(enc.wide, EncodePresent(enc, v, t)) ==> |Payload(EncodePresent(enc, v, t))| == Size(enc, v, t)
    ensures ValueFits(enc.wide, EncodePresent(enc, v, t))
       <==> !Missing(v) && Accepts(enc, v, t) && Size(enc, v, t) <= MaxLength(enc.wide)
    ensures ValueFits(enc.wide, EncodePresent(enc, v, t)) ==> |Payload(EncodePresent(enc, v, t))| == Size(enc, v, t)
  {
    VanishesAccepted(enc, v, t);
    ItemAcceptedIs(enc, v, t);
    hide Encode, Accepts, Size, ItemAccepted;
    ToldIs(enc, v, t);
    hide Told;
  }

  lemma ItemAcceptedIs(enc: Encoder, v: Value, t: Type)
    ensures ItemAccepted(enc, v, t) == (!Vanishes(v, t) && Accepts(enc, v, t) && Size(enc, v, t) <= MaxLength(enc.wide))
  {
    hide Accepts, Size;
  }

  lemma VanishesAccepted(enc: Encoder, v: Value, t: Type)
    ensures Vanishes(v, t) ==> Accepts(enc, v, t) && Size(enc, v, t) == 0
  {
  }

  lemma {:induction false} ListTold(enc: Encoder, v: Value, t: Type)
    requires (t.List? || t.Set?) && v.ListValue?
    requires forall i :: 0 <= i < |v.items| ==> Told(enc, v.items[i], t.item)
    ensures Told(enc, v, t)
  {
    var parts := EncodeItems(enc, v.items, t.item);
    ItemsTold(enc, v.items, t.item, parts);
    hide Told, JoinItems, EncodeSingle, ItemAccepted, SingleAccepted, EncodeItems;
    ListIs(enc, v, t);
    if v.items == [] {
      assert v == ListValue([]);
    }
    ToldIs(enc, v, t);
  }

  lemma ToldIs(enc: Encoder, v: Value, t: Type)
    ensures Told(enc, v, t) <==>
      var e := Encode(enc, v, t);
      && (e.Throws? <==> !Accepts(enc, v, t)) && (e.NoBytes? <==> Vanishes(v, t))
      && |Payload(e)| == if e.Throws? then 0 else Size(enc, v, t)
  {
    hide Encode, Accepts, Size, Vanishes;
  }

  /** What the definitions say of a list. */
  lemma ListIs(enc: Encoder, v: Value, t: Type)
    requires (t.List? || t.Set?) && v.ListValue?
    ensures Encode(enc, v, t) == if v.items == [] then NoBytes
      else Then(EncodeLength(enc.wide, |v.items|), JoinItems(enc.wide, EncodeItems(enc, v.items, t.item), 0))
    ensures Accepts(enc, v, t) == (
      (v.items == [] || |v.items| <= MaxLength(enc.wide)) && forall i :: 0 <= i < |v.items| ==> ItemAccepted(enc, v.items[i], t.item))
    ensures Size(enc, v, t) == ListSize(enc, v.items, t.item)
  {
    hide ItemAccepted, JoinItems, EncodeItems, ListSize, EncodeSingle, SingleAccepted, SingleSize;
  }

  lemma {:induction false} ItemsTold(enc: Encoder, items: seq<Value>, item: Type, parts: seq<Encoded>)
    requires |parts| == |items| && forall i :: 0 <= i < |items| ==> Told(enc, items[i], item)
    requires forall i :: 0 <= i < |items| ==> parts[i] == EncodePresent(enc, items[i], item)
    ensures var e := JoinItems(enc.wide, parts, 0);
      && !e.NoBytes? && (e.Bytes? <==> forall i :: 0 <= i < |items| ==> ItemAccepted(enc, items[i], item))
      && (e.Bytes? && items != [] ==> Width(enc.wide) + |e.bytes| == ListSize(enc, items, item))
  {
    hide Told, ItemFits, EncodePresent, ItemAccepted, JoinItems, Size;
    ItemsJoin(enc.wide, parts, 0);
    forall i | 0 <= i < |items|
      ensures ItemFits(enc.wide, parts[i]) <==> ItemAccepted(enc, items[i], item)
      ensures ItemFits(enc.wide, parts[i]) ==> |Payload(parts[i])| == Size(enc, items[i], item)
    {
      EncodedAccordingly(enc, items[i], item);
    }
    if JoinItems(enc.wide, parts, 0).Bytes? {
      SumSame(seq(|parts|, k requires 0 <= k < |parts| => Width(enc.wide) + |Payload(parts[k])|),
              seq(|items|, i requires 0 <= i < |items| => Width(enc.wide) + Size(enc, items[i], item)), 0);
    }
  }

  /** What the definitions say of a map. */
  lemma MapIs(enc: Encoder, v: Value, t: Type)
    requires t.Map? && !Missing(v) && !v.Raw?
    ensures var entries := MapEntries(enc, v);
      && Encode(enc, v, t) == Then(EncodeLength(enc.wide, |entries|),
           JoinEntries(enc.wide, EncodeKeys(enc, entries, t.key), EncodeValues(enc, entries, t.value), 0))
      && Accepts(enc, v, t) == (|entries| <= MaxLength(enc.wide) && EntriesAccepted(enc, entries, t))
      && Size(enc, v, t) == Width(enc.wide) + Sum(EntrySizes(enc, entries, t), 0)
  {
    hide MapEntries, ItemAccepted, JoinEntries, EncodeKeys, EncodeValues, EncodeSingle, SingleAccepted, SingleSize;
  }

  predicate EntriesAccepted(enc: Encoder, entries: seq<Entry>, t: Type)
    requires t.Map?
  {
    forall i :: 0 <= i < |entries| ==>
      ItemAccepted(enc, entries[i].key, t.key) && !Missing(entries[i].value)
      && Accepts(enc, entries[i].value, t.value) && Size(enc, entries[i].value, t.value) <= MaxLength(enc.wide)
  }

  function EntrySizes(enc: Encoder, entries: seq<Entry>, t: Type): seq<nat>
    requires t.Map?
  {
    seq(|entries|, i requires 0 <= i < |entries| =>
      2 * Width(enc.wide) + Size(enc, entries[i].key, t.key) + Size(enc, entries[i].value, t.value))
  }

  lemma {:induction false} EntriesTold(enc: Encoder, entries: seq<Entry>, t: Type, keys: seq<Encoded>, values: seq<Encoded>)
    requires t.Map? && |keys| == |values| == |entries|
    requires forall i :: 0 <= i < |entries| ==> Told(enc, entries[i].key, t.key) && Told(enc, entries[i].value, t.value)
    requires forall i :: 0 <= i < |entries| ==>
      keys[i] == EncodePresent(enc, entries[i].key, t.key) && values[i] == EncodePresent(enc, entries[i].value, t.value)
    ensures var e := JoinEntries(enc.wide, keys, values, 0);
      && !e.NoBytes? && (e.Bytes? <==> EntriesAccepted(enc, entries, t))
      && (e.Bytes? ==> |e.bytes| == Sum(EntrySizes(enc, entries, t), 0))
  {
    hide Told, ItemFits, ValueFits, EncodePresent, ItemAccepted, JoinEntries, Size, Accepts;
    EntriesJoin(enc.wide, keys, values, 0);
    forall i | 0 <= i < |entries|
      ensures ItemFits(enc.wide, keys[i]) <==> ItemAccepted(enc, entries[i].key, t.key)
      ensures ItemFits(enc.wide, keys[i]) ==> |Payload(keys[i])| == Size(enc, entries[i].key, t.key)
      ensures ValueFits(enc.wide, values[i]) == (!Missing(entries[i].value) && Accepts(enc, entries[i].value, t.value)
                                             && Size(enc, entries[i].value, t.value) <= MaxLength(enc.wide))
      ensures ValueFits(enc.wide, values[i]) ==> |Payload(values[i])| == Size(enc, entries[i].value, t.value)
    {
      EncodedAccordingly(enc, entries[i].key, t.key);
      EncodedAccordingly(enc, entries[i].value, t.value);
    }
    if JoinEntries(enc.wide, keys, values, 0).Bytes? {
      SumSame(seq(|keys|, k requires 0 <= k < |keys| => 2 * Width(enc.wide) + |Payload(keys[k])| + |Payload(values[k])|),
              EntrySizes(enc, entries, t), 0);
    }
  }

  lemma {:induction false} MapTold(enc: Encoder, v: Value, t: Type)
    requires t.Map? && !Missing(v) && !v.Raw?
    requires var entries := MapEntries(enc, v);
      forall i :: 0 <= i < |entries| ==> Told(enc, entries[i].key, t.key) && Told(enc, entries[i].value, t.value)
    ensures Told(enc, v, t)
  {
    hide MapEntries, Told, JoinEntries, EncodeSingle, EncodeKeys, EncodeValues, EntriesAccepted, EntrySizes, Encode, Accepts, Size;
    var entries := MapEntries(enc, v);
    EntriesTold(enc, entries, t, EncodeKeys(enc, entries, t.key), EncodeValues(enc, entries, t.value));
    MapIs(enc, v, t);
    ToldIs(enc, v, t);
  }

  /** What the definitions say of a tuple or an object. */
  lemma PartsIs(enc: Encoder, v: Value, t: Type)
    requires (t.Tuple? || t.Udt?) && HasParts(enc, v, t) && !Missing(v) && !v.Raw?
    ensures Encode(enc, v, t) == JoinParts(EncodeParts(enc, v, t), 0)
    ensures Accepts(enc, v, t) == PartsAccepted(enc, v, t)
    ensures Size(enc, v, t) == Sum(PartSizes(enc, v, t), 0)
  {
    hide JoinParts, EncodeParts, EncodeSingle, SingleAccepted, SingleSize, ComponentOf, Written;
  }

  ghost predicate PartsAccepted(enc: Encoder, v: Value, t: Type)
    requires t.Tuple? || t.Udt?
  {
    forall i: nat :: i < Written(v, t) ==>
      Accepts(enc, ComponentOf(enc, v, t, i), t.Component(i)) && Size(enc, ComponentOf(enc, v, t, i), t.Component(i)) <= MaxLength(true)
  }

  function PartSizes(enc: Encoder, v: Value, t: Type): seq<nat>
    requires t.Tuple? || t.Udt?
  {
    seq(Written(v, t), i requires 0 <= i < Written(v, t) => 4 + Size(enc, ComponentOf(enc, v, t, i), t.Component(i)))
  }

  lemma {:induction false} PartsTold(enc: Encoder, v: Value, t: Type)
    requires t.Tuple? || t.Udt?
    requires forall i: nat :: i < Written(v, t) ==> Told(enc, ComponentOf(enc, v, t, i), t.Component(i))
    ensures var e := JoinParts(EncodeParts(enc, v, t), 0);
      && (e.Bytes? <==> PartsAccepted(enc, v, t))
      && (e.Bytes? ==> |e.bytes| == Sum(PartSizes(enc, v, t), 0))
  {
    hide Told, ValueFits, JoinParts, ComponentOf, Encode, Accepts, Size, Sum, Missing, HasParts;
    var parts := EncodeParts(enc, v, t);
    PartsJoin(parts, 0);
    forall i: nat | i < Written(v, t)
      ensures ValueFits(true, parts[i])
         <==> Accepts(enc, ComponentOf(enc, v, t, i), t.Component(i))
              && Size(enc, ComponentOf(enc, v, t, i), t.Component(i)) <= MaxLength(true)
      ensures ValueFits(true, parts[i]) ==> |Payload(parts[i])| == Size(enc, ComponentOf(enc, v, t, i), t.Component(i))
    {
      PartAccordingly(enc, ComponentOf(enc, v, t, i), t.Component(i));
    }
    if JoinParts(parts, 0).Bytes? {
      SumSame(seq(|parts|, k requires 0 <= k < |parts| => 4 + |Payload(parts[k])|), PartSizes(enc, v, t), 0);
    }
  }

  lemma {:induction false} TupleTold(enc: Encoder, v: Value, t: Type)
    requires (t.Tuple? || t.Udt?) && HasParts(enc, v, t) && !Missing(v) && !v.Raw?
    requires forall i: nat :: i < Written(v, t) ==> Told(enc, ComponentOf(enc, v, t, i), t.Component(i))
    ensures Told(enc, v, t)
  {
    hide Told, JoinParts, EncodeParts, ComponentOf, Encode, Accepts, Size, Written, PartsAccepted, PartSizes, HasParts;
    PartsTold(enc, v, t);
    PartsIs(enc, v, t);
    ToldIs(enc, v, t);
  }

  lemma PartAccordingly(enc: Encoder, v: Value, t: Type)
    requires Told(enc, v, t)
    ensures ValueFits(true, Encode(enc, v, t)) <==> Accepts(enc, v, t) && Size(enc, v, t) <= MaxLength(true)
    ensures ValueFits(true, Encode(enc, v, t)) ==> |Payload(Encode(enc, v, t))| == Size(enc, v, t)
  {
    VanishesAccepted(enc, v, t);
    hide Encode, Accepts, Size;
  }

  /** What the definitions say of a vector. */
  lemma VectorIs(enc: Encoder, v: Value, t: Type)
    requires t.Vector? && v.VectorValue?
    ensures Encode(enc, v, t) == if |v.items| == t.dimension > 0 then
        JoinElements(FixedSize(t.item) != -1, EncodeEach(enc, v.items, t.item), 0) else Throws
    ensures Accepts(enc, v, t) == (|v.items| == t.dimension > 0 && ElementsAccepted(enc, v.items, t.item))
    ensures Size(enc, v, t) == Sum(ElementSizes(enc, v.items, t.item), 0)
  {
    hide JoinElements, EncodeEach, EncodeSingle, SingleAccepted, SingleSize, FixedSize;
  }

  predicate ElementsAccepted(enc: Encoder, items: seq<Value>, item: Type) {
    forall i :: 0 <= i < |items| ==>
      !Vanishes(items[i], item) && Accepts(enc, items[i], item)
      && (FixedSize(item) != -1 || Size(enc, items[i], item) < VIntCoding.TWO_31)
  }

  function ElementSizes(enc: Encoder, items: seq<Value>, item: Type): seq<nat> {
    seq(|items|, i requires 0 <= i < |items| => ElementSize(FixedSize(item) != -1, Size(enc, items[i], item)))
  }

  lemma {:induction false} VectorTold(enc: Encoder, v: Value, t: Type)
    requires t.Vector? && v.VectorValue?
    requires forall i :: 0 <= i < |v.items| ==> Told(enc, v.items[i], t.item)
    ensures Told(enc, v, t)
  {
    hide Told, JoinElements, Encode, Accepts, Size, FixedSize, ElementsAccepted, ElementSizes, EncodeEach;
    ElementsTold(enc, v.items, t.item);
    VectorIs(enc, v, t);
    ToldIs(enc, v, t);
  }

  lemma {:induction false} ElementsTold(enc: Encoder, items: seq<Value>, item: Type)
    requires forall i :: 0 <= i < |items| ==> Told(enc, items[i], item)
    ensures var e := JoinElements(FixedSize(item) != -1, EncodeEach(enc, items, item), 0);
      && !e.NoBytes? && (e.Bytes? <==> ElementsAccepted(enc, items, item))
      && (e.Bytes? ==> |e.bytes| == Sum(ElementSizes(enc, items, item), 0))
  {
    hide Told, JoinElements, Encode, Accepts, Size, FixedSize, ElementFits, ElementSize, Vanishes;
    var bare := FixedSize(item) != -1;
    var parts := EncodeEach(enc, items, item);
    ElementsJoin(bare, parts, 0);
    forall i | 0 <= i < |items|
      ensures ElementFits(bare, parts[i]) == (!Vanishes(items[i], item) && Accepts(enc, items[i], item)
                                              && (bare || Size(enc, items[i], item) < VIntCoding.TWO_31))
      ensures ElementFits(bare, parts[i]) ==> |Payload(parts[i])| == Size(enc, items[i], item)
    {
      ElementAccordingly(enc, bare, items[i], item);
    }
    if JoinElements(bare, parts, 0).Bytes? {
      SumSame(seq(|parts|, k requires 0 <= k < |parts| => ElementSize(bare, |Payload(parts[k])|)),
              ElementSizes(enc, items, item), 0);
    }
  }

  lemma ElementAccordingly(enc: Encoder, bare: bool, v: Value, t: Type)
    requires Told(enc, v, t)
    ensures ElementFits(bare, Encode(enc, v, t))
       <==> !Vanishes(v, t) && Accepts(enc, v, t) && (bare || Size(enc, v, t) < VIntCoding.TWO_31)
    ensures ElementFits(bare, Encode(enc, v, t)) ==> |Payload(Encode(enc, v, t))| == Size(enc, v, t)
  {
    VanishesAccepted(enc, v, t);
    hide Encode, Accepts, Size, Vanishes;
  }

  lemma OtherTold(enc: Encoder, v: Value, t: Type)
    requires !Missing(v) && !v.Raw? && !t.Single?
    requires match t
      case Map(_, _) => false
      case Tuple(_) => !HasParts(enc, v, t)
      case Udt(_) => false
      case Vector(_, _) => !v.VectorValue?
      case _ => !v.ListValue?
    ensures Told(enc, v, t)
  {
    hide EncodeSingle, SingleAccepted, SingleSize, JoinItems, JoinEntries, JoinParts, JoinElements;
    assert Encode(enc, v, t).Throws?;
    assert !Accepts(enc, v, t);
  }

  lemma MissingTold(enc: Encoder, v: Value, t: Type)
    requires Missing(v) || v.Raw?
    ensures Told(enc, v, t)
  {
    hide EncodeSingle, SingleAccepted, SingleSize;
  }

  /**
   For every value, of whatever class, and every type: `encode` throws exactly for what is not accepted, gives `null` exactly for
   missing values and empty lists and sets, and otherwise as many bytes as the sizes of the parts say.
   */
  lemma {:induction false} EncodeTold(enc: Encoder, v: Value, t: Type)
    ensures Told(enc, v, t)
    decreases t, 1
  {
    hide Told;
    if Missing(v) || v.Raw? {
      MissingTold(enc, v, t);
    } else {
      match t
      case Single(code) => SingleTold(enc, v, code);
      case List(item) => ListCase(enc, v, t);
      case Set(item) => ListCase(enc, v, t);
      case Map(key, value) =>
        var entries := MapEntries(enc, v);
        forall i | 0 <= i < |entries|
          ensures Told(enc, entries[i].key, t.key) && Told(enc, entries[i].value, t.value)
        {
          EncodeTold(enc, entries[i].key, key);
          EncodeTold(enc, entries[i].value, value);
        }
        MapTold(enc, v, t);
      case Tuple(_) => PartsCase(enc, v, t);
      case Udt(_) => PartsCase(enc, v, t);
      case Vector(item, _) =>
        if v.VectorValue? {
          forall i | 0 <= i < |v.items|
            ensures Told(enc, v.items[i], t.item)
          {
            EncodeTold(enc, v.items[i], item);
          }
          VectorTold(enc, v, t);
        } else {
          OtherTold(enc, v, t);
        }
    }
  }

  lemma {:induction false} ListCase(enc: Encoder, v: Value, t: Type)
    requires (t.List? || t.Set?) && !Missing(v) && !v.Raw?
    ensures Told(enc, v, t)
    decreases t, 0
  {
    hide Told;
    if v.ListValue? {
      forall i | 0 <= i < |v.items|
        ensures Told(enc, v.items[i], t.item)
      {
        EncodeTold(enc, v.items[i], t.item);
      }
      ListTold(enc, v, t);
    } else {
      OtherTold(enc, v, t);
    }
  }

  lemma {:induction false} PartsCase(enc: Encoder, v: Value, t: Type)
    requires (t.Tuple? || t.Udt?) && !Missing(v) && !v.Raw?
    ensures Told(enc, v, t)
    decreases t, 0
  {
    hide Told, ComponentOf;
    if HasParts(enc, v, t) {
      forall i: nat | i < Written(v, t)
        ensures Told(enc, ComponentOf(enc, v, t, i), t.Component(i))
      {
        EncodeTold(enc, ComponentOf(enc, v, t, i), t.Component(i));
      }
      TupleTold(enc, v, t);
    } else {
      OtherTold(enc, v, t);
    }
  }

  /** Every accepted value of its type that is not `null` makes a buffer, which decodes to the value as it comes back. */
  lemma {:induction false} AcceptedRoundTrip(enc: Encoder, v: Value, t: Type)
    requires WellTyped(v, t) && Accepts(enc, v, t) && !Vanishes(v, t)
    ensures var e := Encode(enc, v, t);
      e.Bytes? && |e.bytes| == Size(enc, v, t) && Decode(enc.wide, e.bytes, t) == Returns(Norm(v, t))
  {
    hide Encode, Decode, Norm, Accepts, Vanishes, Size;
    EncodeTold(enc, v, t);
    DecodeInvertsEncode(enc, v, t, Encode(enc, v, t).bytes);
  }

  // ----- Values of other classes -----

  /** A value of another class that a type without parts takes comes back as the one it was taken for. */
  lemma TakenComesBack(enc: Encoder, v: Value, code: Code)
    requires !Missing(v) && !v.Raw? && Taken(enc, v, code).Some?
    requires var w := Taken(enc, v, code).value;
      !w.Raw? && SingleTyped(w, code) && OwnAccepted(w, code)
    ensures var e := Encode(enc, v, Single(code));
      e.Bytes? && Decode(enc.wide, e.bytes, Single(code)) == Returns(Taken(enc, v, code).value)
  {
    hide EncodeOwn, OwnAccepted, SingleTyped, Taken, DecodeSingle, EncodeList, DecodeList;
    var w := Taken(enc, v, code).value;
    OwnExactly(w, code);
    SingleRoundTrip(w, code, EncodeOwn(w, code).bytes);
  }

  /**
   Booleans, maps, tuples and user-defined types do not look at the class: every value is a boolean, one without
   properties is an empty map, one without `length` an empty tuple, and one without members an object of nulls.
   */
  lemma {:induction false} ClassesNotChecked(enc: Encoder, v: Value, t: Type)
    requires !Missing(v) && !v.Raw?
    ensures t == Single(Boolean) ==> Encode(enc, v, t) == Bytes([if Truthy(v) then 1 else 0])
    ensures t.Map? && MapEntries(enc, v) == [] ==> Encode(enc, v, t) == Bytes(LengthBytes(enc.wide, 0))
    ensures t.Tuple? && !v.TupleValue? ==>
      Encode(enc, v, t) == if t.items == [] || !HasLength(enc, v) then Bytes([]) else Throws
    ensures t.Udt? && !v.UdtValue? && (forall name :: Missing(enc.member(v, name))) ==>
      Encode(enc, v, t).Bytes? && |Encode(enc, v, t).bytes| == 4 * |t.fields|
  {
    if t.Udt? && !v.UdtValue? && forall name :: Missing(enc.member(v, name)) {
      AllNull(EncodeParts(enc, v, t), 0);
    }
  }

  lemma {:induction false} AllNull(parts: seq<Encoded>, i: nat)
    requires i <= |parts| && forall k :: 0 <= k < |parts| ==> parts[k].NoBytes?
    ensures JoinParts(parts, i).Bytes? && |JoinParts(parts, i).bytes| == 4 * (|parts| - i)
    decreases |parts| - i
  {
    if i < |parts| {
      AllNull(parts, i + 1);
    }
  }
}
