/**
 How encoded parts are put one after another in a buffer and found again (lib/encoder.js), for
 each of the layouts that lists, maps, tuples and vectors use.

 `wide` says whether collection lengths take four bytes, signed (protocol v3 and later), or two,
 unsigned.
 */
module Framing {
  import opened Bytes
  import opened Seqs
  import opened Wrappers
  import VIntCoding

  /** The result of `encode`: a buffer, `null`, or an exception. */
  datatype Encoded = Bytes(bytes: Buffer) | NoBytes | Throws

  // ----- Lengths -----

  function Width(wide: bool): nat {
    if wide then 4 else 2
  }

  /** The largest length that `writeInt32BE` or `writeUInt16BE` accepts. */
  function MaxLength(wide: bool): nat {
    if wide then 0x7FFF_FFFF else 0xFFFF
  }

  function LengthBytes(wide: bool, n: nat): (b: Buffer)
    ensures |b| == Width(wide)
  {
    ToBytes(n, Width(wide))
  }

  function EncodeLength(wide: bool, n: nat): Encoded {
    if n <= MaxLength(wide) then Bytes(LengthBytes(wide, n)) else Throws
  }

  /** `readInt32BE`, `readInt16BE` and `readInt8` throw out of range. */
  function ReadSigned(b: Buffer, offset: int, width: nat): Outcome<int>
    requires width > 0
  {
    if 0 <= offset && offset + width <= |b| then Returns(Signed(b[offset..offset + width])) else Fails
  }

  function ReadLength(wide: bool, b: Buffer, offset: int): Outcome<int> {
    if wide then ReadSigned(b, offset, 4)
    else if 0 <= offset && offset + 2 <= |b| then Returns(FromBytes(b[offset..offset + 2]))
    else Fails
  }

  function ClampIndex(n: nat, i: int): (r: nat)
    ensures r <= n
  {
    if i < 0 then (if n + i < 0 then 0 else n + i) else if i > n then n else i
  }

  /** `slice` and `subarray` of a Buffer: indexes below zero count from the end, those beyond it stop there. */
  function Slice(b: Buffer, start: int, end: int): Buffer {
    var s, e := ClampIndex(|b|, start), ClampIndex(|b|, end);
    if e < s then [] else b[s..e]
  }

  // ----- Writing -----

  /** Parts are concatenated at the end, and an exception anywhere leaves nothing. */
  function Then(first: Encoded, rest: Encoded): Encoded {
    if first.Bytes? && rest.Bytes? then Bytes(first.bytes + rest.bytes) else Throws
  }

  /** A list item or a map key: its length and its bytes; concatenating `null` throws. */
  function Sized(wide: bool, e: Encoded): Encoded {
    if e.Bytes? then Then(EncodeLength(wide, |e.bytes|), e) else Throws
  }

  /** A map value: `null` is written as a length of zero. */
  function SizedOrEmpty(wide: bool, e: Encoded): Encoded {
    if e.NoBytes? then EncodeLength(wide, 0) else Sized(wide, e)
  }

  /** A component of a tuple or user-defined type: always four bytes of length, -1 for `null`. */
  function SizedOrNull(e: Encoded): Encoded {
    if e.NoBytes? then Bytes(ToSigned(-1, 4)) else Sized(true, e)
  }

  /** A vector element: bare when the element type has a fixed size, else after its size as a vint. */
  function Packed(bare: bool, e: Encoded): Encoded {
    if !e.Bytes? then Throws
    else if bare then e
    else if |e.bytes| >= VIntCoding.TWO_31 then Throws
    else Bytes(VIntCoding.UnsignedVInt(|e.bytes|) + e.bytes)
  }

  /** The parts from the i-th on. */
  function JoinItems(wide: bool, parts: seq<Encoded>, i: nat): Encoded
    requires i <= |parts|
    decreases |parts| - i
  {
    if i == |parts| then Bytes([]) else Then(Sized(wide, parts[i]), JoinItems(wide, parts, i + 1))
  }

  function JoinEntries(wide: bool, keys: seq<Encoded>, values: seq<Encoded>, i: nat): Encoded
    requires i <= |keys| == |values|
    decreases |keys| - i
  {
    if i == |keys| then Bytes([])
    else Then(Then(Sized(wide, keys[i]), SizedOrEmpty(wide, values[i])), JoinEntries(wide, keys, values, i + 1))
  }

  function JoinParts(parts: seq<Encoded>, i: nat): (r: Encoded)
    requires i <= |parts|
    ensures !r.NoBytes?
    decreases |parts| - i
  {
    if i == |parts| then Bytes([]) else Then(SizedOrNull(parts[i]), JoinParts(parts, i + 1))
  }

  function JoinElements(bare: bool, parts: seq<Encoded>, i: nat): (r: Encoded)
    requires i <= |parts|
    ensures !r.NoBytes?
    decreases |parts| - i
  {
    if i == |parts| then Bytes([]) else Then(Packed(bare, parts[i]), JoinElements(bare, parts, i + 1))
  }

  // ----- Reading -----

  function Cons<T>(first: T, rest: Outcome<seq<T>>): Outcome<seq<T>> {
    if rest.Returns? then Returns([first] + rest.value) else Fails
  }

  /** `n` sized buffers from an offset on. */
  function ItemFrames(wide: bool, b: Buffer, offset: int, n: nat): (r: Outcome<seq<Buffer>>)
    ensures r.Returns? ==> |r.value| == n
    decreases n
  {
    if n == 0 then Returns([])
    else
      var length := ReadLength(wide, b, offset);
      if length.Fails? then Fails
      else
        var start := offset + Width(wide);
        Cons(Slice(b, start, start + length.value), ItemFrames(wide, b, start + length.value, n - 1))
  }

  datatype EntryFrame = EntryFrame(key: Buffer, value: Option<Buffer>)

  /** `n` keys, each with its value, which is absent when its length is below zero. */
  function EntryFrames(wide: bool, b: Buffer, offset: int, n: nat): (r: Outcome<seq<EntryFrame>>)
    ensures r.Returns? ==> |r.value| == n
    decreases n
  {
    if n == 0 then Returns([])
    else
      var keyLength := ReadLength(wide, b, offset);
      if keyLength.Fails? then Fails
      else
        var start := offset + Width(wide);
        var key := Slice(b, start, start + keyLength.value);
        var valueLength := ReadLength(wide, b, start + keyLength.value);
        if valueLength.Fails? then Fails
        else
          var from := start + keyLength.value + Width(wide);
          if valueLength.value < 0 then Cons(EntryFrame(key, None), EntryFrames(wide, b, from, n - 1))
          else Cons(EntryFrame(key, Some(Slice(b, from, from + valueLength.value))),
                    EntryFrames(wide, b, from + valueLength.value, n - 1))
  }

  /** Up to `n` components, as many as the buffer holds; absent ones have a length below zero. */
  function PartFrames(b: Buffer, offset: nat, n: nat): (r: Outcome<seq<Option<Buffer>>>)
    ensures r.Returns? ==> |r.value| <= n
    decreases n
  {
    if n == 0 || offset >= |b| then Returns([])
    else
      var length := ReadSigned(b, offset, 4);
      if length.Fails? then Fails
      else if length.value < 0 then Cons(None, PartFrames(b, offset + 4, n - 1))
      else Cons(Some(Slice(b, offset + 4, offset + 4 + length.value)), PartFrames(b, offset + 4 + length.value, n - 1))
  }

  /** The size of the next vector element and where it starts; a fixed size of -1 means that it is written before it. */
  function ElementAt(b: Buffer, fixed: int, offset: int): (int, int) {
    if fixed != -1 then (fixed, offset)
    else
      var (size, bytesRead) := VIntCoding.Unpacked(Slice(b, offset, |b|));
      (size, offset + bytesRead)
  }

  /** `n` elements, which must end where the buffer ends. */
  function ElementFrames(b: Buffer, fixed: int, offset: int, n: nat): (r: Outcome<seq<Buffer>>)
    ensures r.Returns? ==> |r.value| == n
    decreases n
  {
    if n == 0 then (if offset == |b| then Returns([]) else Fails)
    else
      var (size, start) := ElementAt(b, fixed, offset);
      if start + size > |b| then Fails
      else Cons(Slice(b, start, start + size), ElementFrames(b, fixed, start + size, n - 1))
  }

  // ----- Reading what was written -----

  /** The bytes a part leaves in a buffer. */
  function Payload(e: Encoded): Buffer {
    if e.Bytes? then e.bytes else []
  }

  function Payloads(parts: seq<Encoded>, i: nat): (r: seq<Buffer>)
    requires i <= |parts|
    ensures |r| == |parts| - i && forall k :: 0 <= k < |r| ==> r[k] == Payload(parts[i + k])
    decreases |parts| - i
  {
    if i == |parts| then [] else [Payload(parts[i])] + Payloads(parts, i + 1)
  }

  function Pairs(keys: seq<Encoded>, values: seq<Encoded>, i: nat): (r: seq<EntryFrame>)
    requires i <= |keys| == |values|
    ensures |r| == |keys| - i
    ensures forall k :: 0 <= k < |r| ==> r[k] == EntryFrame(Payload(keys[i + k]), Some(Payload(values[i + k])))
    decreases |keys| - i
  {
    if i == |keys| then []
    else [EntryFrame(Payload(keys[i]), Some(Payload(values[i])))] + Pairs(keys, values, i + 1)
  }

  function PartOf(e: Encoded): Option<Buffer> {
    if e.Bytes? then Some(e.bytes) else None
  }

  function PartsOf(parts: seq<Encoded>, i: nat): (r: seq<Option<Buffer>>)
    requires i <= |parts|
    ensures |r| == |parts| - i && forall k :: 0 <= k < |r| ==> r[k] == PartOf(parts[i + k])
    decreases |parts| - i
  {
    if i == |parts| then [] else [PartOf(parts[i])] + PartsOf(parts, i + 1)
  }

  lemma Rest(b: Buffer, at: nat, x: Buffer, rest: Buffer)
    requires at <= |b| && b[at..] == x + rest
    ensures at + |x| <= |b|
    ensures b[at..at + |x|] == x && b[at + |x|..] == rest && Slice(b, at, at + |x|) == x
  {
    DropPrefix(x, rest);
    assert |b[at..]| == |x| + |rest|;
    assert b[at..at + |x|] == b[at..][..|x|];
    assert b[at + |x|..] == b[at..][|x|..];
  }

  lemma LengthReads(wide: bool, n: nat, b: Buffer, at: nat)
    requires n <= MaxLength(wide) && at + Width(wide) <= |b|
    requires b[at..at + Width(wide)] == LengthBytes(wide, n)
    ensures ReadLength(wide, b, at) == Returns(n)
  {
    VIntCoding.Powers();
    FromToBytes(n, Width(wide));
    if wide {
      SignedRoundTrip(n, 4);
    }
  }

  /** A length and the bytes it counts, at a place where the rest of the buffer is known. */
  lemma SizedReads(wide: bool, x: Buffer, b: Buffer, at: nat, rest: Buffer)
    requires |x| <= MaxLength(wide) && at <= |b| && b[at..] == (LengthBytes(wide, |x|) + x) + rest
    ensures ReadLength(wide, b, at) == Returns(|x|)
    ensures var start := at + Width(wide);
      start + |x| <= |b| && Slice(b, start, start + |x|) == x && b[start + |x|..] == rest
  {
    Assoc(LengthBytes(wide, |x|), x, rest);
    Rest(b, at, LengthBytes(wide, |x|), x + rest);
    Rest(b, at + Width(wide), x, rest);
    LengthReads(wide, |x|, b, at);
  }

  lemma {:induction false} ItemsFramed(wide: bool, parts: seq<Encoded>, i: nat, b: Buffer, at: nat)
    requires i <= |parts| && at <= |b| && JoinItems(wide, parts, i) == Bytes(b[at..])
    ensures ItemFrames(wide, b, at, |parts| - i) == Returns(Payloads(parts, i))
    ensures forall k :: i <= k < |parts| ==> parts[k].Bytes?
    decreases |parts| - i
  {
    hide ReadLength, Slice, LengthBytes;
    if i < |parts| {
      var x := parts[i].bytes;
      SizedReads(wide, x, b, at, JoinItems(wide, parts, i + 1).bytes);
      ItemsFramed(wide, parts, i + 1, b, at + Width(wide) + |x|);
    }
  }

  /** The value's length and bytes, which are none when it is `null`. */
  lemma ValueBytes(wide: bool, e: Encoded)
    requires SizedOrEmpty(wide, e).Bytes?
    ensures |Payload(e)| <= MaxLength(wide)
    ensures SizedOrEmpty(wide, e).bytes == LengthBytes(wide, |Payload(e)|) + Payload(e)
  {
  }

  lemma EntryReads(wide: bool, key: Encoded, value: Encoded, b: Buffer, at: nat, rest: Buffer)
    requires at <= |b| && Then(Then(Sized(wide, key), SizedOrEmpty(wide, value)), Bytes(rest)) == Bytes(b[at..])
    ensures var start := at + Width(wide);
      var from := start + |Payload(key)| + Width(wide);
      && key.Bytes? && !value.Throws?
      && ReadLength(wide, b, at) == Returns(|Payload(key)|)
      && Slice(b, start, start + |Payload(key)|) == Payload(key)
      && ReadLength(wide, b, start + |Payload(key)|) == Returns(|Payload(value)|)
      && Slice(b, from, from + |Payload(value)|) == Payload(value)
      && from + |Payload(value)| <= |b| && b[from + |Payload(value)|..] == rest
  {
    hide ReadLength, Slice, LengthBytes;
    var x, y := Payload(key), Payload(value);
    ValueBytes(wide, value);
    Assoc(LengthBytes(wide, |x|) + x, LengthBytes(wide, |y|) + y, rest);
    SizedReads(wide, x, b, at, (LengthBytes(wide, |y|) + y) + rest);
    SizedReads(wide, y, b, at + Width(wide) + |x|, rest);
  }

  lemma {:induction false} EntriesFramed(wide: bool, keys: seq<Encoded>, values: seq<Encoded>, i: nat, b: Buffer, at: nat)
    requires i <= |keys| == |values| && at <= |b| && JoinEntries(wide, keys, values, i) == Bytes(b[at..])
    ensures EntryFrames(wide, b, at, |keys| - i) == Returns(Pairs(keys, values, i))
    ensures forall k :: i <= k < |keys| ==> keys[k].Bytes? && !values[k].Throws?
    decreases |keys| - i
  {
    hide ReadLength, Slice, LengthBytes, SizedOrEmpty;
    if i < |keys| {
      EntryReads(wide, keys[i], values[i], b, at, JoinEntries(wide, keys, values, i + 1).bytes);
      var next := at + Width(wide) + |Payload(keys[i])| + Width(wide) + |Payload(values[i])|;
      EntriesFramed(wide, keys, values, i + 1, b, next);
    }
  }

  lemma NullReads(b: Buffer, at: nat, rest: Buffer)
    requires at <= |b| && b[at..] == ToSigned(-1, 4) + rest
    ensures at + 4 <= |b| && ReadSigned(b, at, 4) == Returns(-1) && b[at + 4..] == rest
  {
    VIntCoding.Powers();
    Rest(b, at, ToSigned(-1, 4), rest);
    SignedRoundTrip(-1, 4);
  }

  lemma {:induction false} PartsFramed(parts: seq<Encoded>, i: nat, b: Buffer, at: nat, n: nat)
    requires i <= |parts| <= n + i && at <= |b| && JoinParts(parts, i) == Bytes(b[at..])
    ensures PartFrames(b, at, n) == Returns(PartsOf(parts, i))
    ensures forall k :: i <= k < |parts| ==> !parts[k].Throws?
    decreases |parts| - i
  {
    hide ReadSigned, Slice, LengthBytes, ToSigned;
    if i < |parts| {
      var rest := JoinParts(parts, i + 1).bytes;
      if parts[i].NoBytes? {
        NullReads(b, at, rest);
        PartsFramed(parts, i + 1, b, at + 4, n - 1);
      } else {
        SizedReads(true, parts[i].bytes, b, at, rest);
        PartsFramed(parts, i + 1, b, at + 4 + |parts[i].bytes|, n - 1);
      }
    }
  }

  lemma ElementReads(fixed: int, e: Encoded, b: Buffer, at: nat, rest: Buffer)
    requires at <= |b| && Then(Packed(fixed != -1, e), Bytes(rest)) == Bytes(b[at..])
    requires fixed != -1 && e.Bytes? ==> |e.bytes| == fixed
    ensures var (size, start) := ElementAt(b, fixed, at);
      && e.Bytes? && size == |e.bytes| && 0 <= start && start + size <= |b|
      && Slice(b, start, start + size) == e.bytes && b[start + size..] == rest
  {
    hide Slice, VIntCoding.UnsignedVInt, VIntCoding.Unpacked;
    if fixed != -1 {
      Rest(b, at, e.bytes, rest);
    } else {
      SizedElementReads(e.bytes, b, at, rest);
    }
  }

  lemma SizedElementReads(x: Buffer, b: Buffer, at: nat, rest: Buffer)
    requires |x| < VIntCoding.TWO_31 && at <= |b| && b[at..] == (VIntCoding.UnsignedVInt(|x|) + x) + rest
    ensures var (size, start) := ElementAt(b, -1, at);
      && size == |x| && 0 <= start && start + size <= |b|
      && Slice(b, start, start + size) == x && b[start + size..] == rest
  {
    var size := VIntCoding.UnsignedVInt(|x|);
    assert Slice(b, at, |b|) == b[at..];
    VIntCoding.UvintRoundTrip(|x|, x + rest);
    hide Slice, VIntCoding.UnsignedVInt, VIntCoding.Unpacked;
    Assoc(size, x, rest);
    Rest(b, at, size, x + rest);
    Rest(b, at + |size|, x, rest);
  }

  /** Elements are found again, and the last one ends where the buffer ends. */
  lemma {:induction false} ElementsFramed(fixed: int, parts: seq<Encoded>, i: nat, b: Buffer, at: nat)
    requires i <= |parts| && at <= |b| && JoinElements(fixed != -1, parts, i) == Bytes(b[at..])
    requires forall e <- parts :: fixed != -1 && e.Bytes? ==> |e.bytes| == fixed
    ensures ElementFrames(b, fixed, at, |parts| - i) == Returns(Payloads(parts, i))
    ensures forall k :: i <= k < |parts| ==> parts[k].Bytes?
    decreases |parts| - i
  {
    hide ElementAt, Slice, VIntCoding.UnsignedVInt;
    if i < |parts| {
      ElementReads(fixed, parts[i], b, at, JoinElements(fixed != -1, parts, i + 1).bytes);
      var (size, start) := ElementAt(b, fixed, at);
      ElementsFramed(fixed, parts, i + 1, b, start + size);
    }
  }

  /** A whole list: its length, then its items. */
  lemma {:induction false} ListFramed(wide: bool, parts: seq<Encoded>, b: Buffer)
    requires Then(EncodeLength(wide, |parts|), JoinItems(wide, parts, 0)) == Bytes(b)
    ensures b != [] && ReadLength(wide, b, 0) == Returns(|parts|)
    ensures ItemFrames(wide, b, Width(wide), |parts|) == Returns(Payloads(parts, 0))
    ensures forall k :: 0 <= k < |parts| ==> parts[k].Bytes?
  {
    hide ReadLength, LengthBytes, ItemFrames, JoinItems, Slice;
    assert b[0..] == b;
    Rest(b, 0, LengthBytes(wide, |parts|), JoinItems(wide, parts, 0).bytes);
    LengthReads(wide, |parts|, b, 0);
    ItemsFramed(wide, parts, 0, b, Width(wide));
  }

  /** A whole map: its length, then its entries. */
  lemma {:induction false} MapFramed(wide: bool, keys: seq<Encoded>, values: seq<Encoded>, b: Buffer)
    requires |keys| == |values|
    requires Then(EncodeLength(wide, |keys|), JoinEntries(wide, keys, values, 0)) == Bytes(b)
    ensures b != [] && ReadLength(wide, b, 0) == Returns(|keys|)
    ensures EntryFrames(wide, b, Width(wide), |keys|) == Returns(Pairs(keys, values, 0))
    ensures forall k :: 0 <= k < |keys| ==> keys[k].Bytes? && !values[k].Throws?
  {
    hide ReadLength, LengthBytes, EntryFrames, JoinEntries, Slice;
    assert b[0..] == b;
    Rest(b, 0, LengthBytes(wide, |keys|), JoinEntries(wide, keys, values, 0).bytes);
    LengthReads(wide, |keys|, b, 0);
    EntriesFramed(wide, keys, values, 0, b, Width(wide));
  }
}
