/** Routing keys made of the encoded partition key (lib/encoder.js). */
module RoutingKeys {
  import opened Bytes
  import opened Framing
  import opened Seqs
  import opened Wrappers

  /** One part of a composite key: two bytes of length, the bytes, and a zero. */
  function KeyPart(item: Buffer): Buffer {
    ToBytes(|item|, 2) + (item + [0])
  }

  function Composite(parts: seq<Buffer>, i: nat): Buffer
    requires i <= |parts|
    decreases |parts| - i
  {
    if i == |parts| then [] else KeyPart(parts[i]) + Composite(parts, i + 1)
  }

  function TotalLength(parts: seq<Buffer>, i: nat): nat
    requires i <= |parts|
    decreases |parts| - i
  {
    if i == |parts| then 0 else |parts[i]| + 3 + TotalLength(parts, i + 1)
  }

  /** Three extra bytes for each part give the exact length. */
  lemma {:induction false} CompositeLength(parts: seq<Buffer>, i: nat)
    requires i <= |parts|
    ensures |Composite(parts, i)| == TotalLength(parts, i)
    decreases |parts| - i
  {
    if i < |parts| {
      CompositeLength(parts, i + 1);
    }
  }

  /** What the routing key is for encoded parts: `null`, a buffer, or an exception. */
  function RoutingKey(items: seq<Encoded>): Outcome<Option<Buffer>> {
    var parts := Payloads(items, 0);
    if items == [] || exists i :: 0 <= i < |items| && !items[i].Bytes? then Returns(None)
    else if |parts| == 1 then Returns(Some(parts[0]))
    else if exists i :: 0 <= i < |parts| && |parts[i]| >= 0x1_0000 then Fails
    else Returns(Some(Composite(parts, 0)))
  }

  /** `_encodeRoutingKeyParts`: an exception, caught by its callers, leaves 0 too. */
  method EncodeRoutingKeyParts(items: seq<Encoded>) returns (parts: seq<Buffer>, totalLength: nat)
    ensures (forall i :: 0 <= i < |items| ==> items[i].Bytes?) ==>
      parts == Payloads(items, 0) && totalLength == TotalLength(parts, 0)
    ensures (exists i :: 0 <= i < |items| && !items[i].Bytes?) ==> totalLength == 0
  {
    parts, totalLength := [], 0;
    for i := 0 to |items|
      invariant |parts| == i && forall k :: 0 <= k < i ==> items[k] == Bytes(parts[k])
      invariant totalLength == TotalLength(parts, 0)
    {
      if !items[i].Bytes? {
        return parts, 0;
      }
      TotalLengthAppend(parts, items[i].bytes, 0);
      totalLength := totalLength + |items[i].bytes| + 3;
      parts := parts + [items[i].bytes];
    }
    assert parts == Payloads(items, 0);
  }

  lemma {:induction false} TotalLengthAppend(parts: seq<Buffer>, item: Buffer, i: nat)
    requires i <= |parts|
    ensures TotalLength(parts + [item], i) == TotalLength(parts, i) + |item| + 3
    decreases |parts| - i
  {
    if i < |parts| {
      TotalLengthAppend(parts, item, i + 1);
    } else {
      assert TotalLength(parts + [item], i + 1) == 0;
    }
  }

  /** `concatRoutingKey`: fills a buffer of the length computed before. */
  method ConcatRoutingKey(parts: seq<Buffer>, totalLength: nat) returns (key: Outcome<Option<Buffer>>)
    requires totalLength == TotalLength(parts, 0)
    ensures parts == [] ==> key == Returns(None)
    ensures |parts| == 1 ==> key == Returns(Some(parts[0]))
    ensures |parts| > 1 ==>
      key == if exists i :: 0 <= i < |parts| && |parts[i]| >= 0x1_0000 then Fails else Returns(Some(Composite(parts, 0)))
  {
    if totalLength == 0 {
      return Returns(None);
    }
    if |parts| == 1 {
      return Returns(Some(parts[0]));
    }
    hide KeyPart;
    CompositeLength(parts, 0);
    var routingKey := new byte[totalLength];
    var offset := 0;
    for i := 0 to |parts|
      invariant 0 <= offset <= offset + TotalLength(parts, i) == totalLength == routingKey.Length
      invariant Composite(parts, 0) == routingKey[..offset] + Composite(parts, i)
      invariant forall k :: 0 <= k < i ==> |parts[k]| < 0x1_0000
    {
      var item := parts[i];
      CompositeLength(parts, i);
      if |item| >= 0x1_0000 {
        return Fails;
      }
      Assoc(routingKey[..offset], KeyPart(item), Composite(parts, i + 1));
      offset := WritePart(routingKey, offset, item);
    }
    assert routingKey[..offset] + [] == routingKey[..];
    key := Returns(Some(routingKey[..]));
  }

  /** `writeUInt16BE`, `copy` and assignment: bytes put at an offset, what precedes them kept. */
  method Write(target: array<byte>, offset: nat, b: Buffer)
    requires offset + |b| <= target.Length
    modifies target
    ensures target[..offset + |b|] == old(target[..offset]) + b
  {
    for k := 0 to |b|
      invariant target[..offset + k] == old(target[..offset]) + b[..k]
    {
      target[offset + k] := b[k];
    }
    assert b[..|b|] == b;
  }

  method WritePart(routingKey: array<byte>, at: nat, item: Buffer) returns (offset: nat)
    requires at + |item| + 3 <= routingKey.Length
    modifies routingKey
    ensures offset == at + |item| + 3 && routingKey[..offset] == old(routingKey[..at]) + KeyPart(item)
  {
    offset := at;
    Write(routingKey, offset, ToBytes(|item|, 2));
    offset := offset + 2;
    Write(routingKey, offset, item);
    offset := offset + |item|;
    Write(routingKey, offset, [0]);
    offset := offset + 1;
    ThreeWrites(old(routingKey[..at]), ToBytes(|item|, 2), item, [0]);
  }

  lemma ThreeWrites(before: Buffer, length: Buffer, item: Buffer, zero: Buffer)
    ensures before + (length + (item + zero)) == ((before + length) + item) + zero
  {
  }

  /** Where part i starts. */
  function Offset(parts: seq<Buffer>, i: nat): nat
    requires i <= |parts|
  {
    if i == 0 then 0 else Offset(parts, i - 1) + |parts[i - 1]| + 3
  }

  /** The layout of a composite key: length in two bytes, most significant first, the bytes, and a zero, part after part. */
  lemma {:induction false} CompositeLayout(parts: seq<Buffer>, i: nat)
    requires i < |parts| && |parts[i]| < 0x1_0000
    ensures var key, o, n := Composite(parts, 0), Offset(parts, i), |parts[i]|;
      && |key| >= o + n + 3
      && key[o] as int == n / 256 && key[o + 1] as int == n % 256
      && key[o + 2..o + 2 + n] == parts[i] && key[o + 2 + n] == 0
      && (i == |parts| - 1 ==> |key| == o + n + 3)
  {
    hide KeyPart, Composite, Offset;
    var before := CompositeFrom(parts, i);
    PartLayout(parts[i]);
    NextPart(parts, i);
    PartInside(before, KeyPart(parts[i]), Composite(parts, i + 1), parts[i]);
  }

  lemma NextPart(parts: seq<Buffer>, i: nat)
    requires i < |parts|
    ensures Composite(parts, i) == KeyPart(parts[i]) + Composite(parts, i + 1)
    ensures i == |parts| - 1 ==> Composite(parts, i + 1) == []
  {
    hide KeyPart;
  }

  lemma PartInside(before: Buffer, part: Buffer, after: Buffer, item: Buffer)
    requires |part| == |item| + 3 && part[2..2 + |item|] == item
    ensures var key, o, n := before + (part + after), |before|, |item|;
      && |key| == o + n + 3 + |after|
      && key[o] == part[0] && key[o + 1] == part[1] && key[o + 2 + n] == part[2 + n]
      && key[o + 2..o + 2 + n] == item
  {
    var key, o, n := before + (part + after), |before|, |item|;
    InTheMiddle(before, part, after);
    assert key[o..o + n + 3][2..2 + n] == key[o + 2..o + 2 + n];
  }

  lemma InTheMiddle(before: Buffer, part: Buffer, after: Buffer)
    ensures var key := before + (part + after);
      && |key| == |before| + |part| + |after|
      && key[|before|..|before| + |part|] == part
      && forall k :: 0 <= k < |part| ==> key[|before| + k] == part[k]
  {
  }

  lemma PartLayout(item: Buffer)
    requires |item| < 0x1_0000
    ensures var part, n := KeyPart(item), |item|;
      && |part| == n + 3 && part[0] as int == n / 256 && part[1] as int == n % 256
      && part[2..2 + n] == item && part[2 + n] == 0
  {
    var n := |item|;
    assert ToBytes(n / 256, 1) == ToBytes(n / 256 / 256, 0) + [n / 256 % 256];
    assert ToBytes(n, 2) == ToBytes(n / 256, 1) + [n % 256];
  }

  lemma {:induction false} CompositeFrom(parts: seq<Buffer>, i: nat) returns (before: Buffer)
    requires i <= |parts|
    ensures |before| == Offset(parts, i) && Composite(parts, 0) == before + Composite(parts, i)
    decreases i
  {
    if i == 0 {
      before := [];
    } else {
      var first := CompositeFrom(parts, i - 1);
      before := first + KeyPart(parts[i - 1]);
      Assoc(first, KeyPart(parts[i - 1]), Composite(parts, i));
    }
  }

  /**
   There is no routing key exactly when there are no parts or one of them has no bytes; a single part is the key
   as it is; and several make a key unless one of them is too long for two bytes of length.
   */
  lemma RoutingKeyOutcome(items: seq<Encoded>)
    ensures RoutingKey(items) == Returns(None) <==> items == [] || exists i :: 0 <= i < |items| && !items[i].Bytes?
    ensures forall b: Buffer :: items == [Bytes(b)] ==> RoutingKey(items) == Returns(Some(b))
    ensures RoutingKey(items).Fails? <==>
      && |items| >= 2 && (forall i :: 0 <= i < |items| ==> items[i].Bytes?)
      && exists k :: 0 <= k < |items| && |Payload(items[k])| >= 0x1_0000
  {
    var parts := Payloads(items, 0);
    assert |parts| == |items| && forall k :: 0 <= k < |parts| ==> parts[k] == Payload(items[k]);
  }

  lemma FirstPart(a: Buffer, x: Buffer, b: Buffer, y: Buffer)
    requires |a| < 0x1_0000 && |b| < 0x1_0000 && KeyPart(a) + x == KeyPart(b) + y
    ensures a == b && x == y
  {
    assert Pow256(2) == 0x1_0000 by {
      assert Pow256(1) == 256;
    }
    FromToBytes(|a|, 2);
    FromToBytes(|b|, 2);
    hide ToBytes;
    assert ToBytes(|a|, 2) == (KeyPart(a) + x)[..2] && ToBytes(|b|, 2) == (KeyPart(b) + y)[..2];
    assert a == (KeyPart(a) + x)[2..2 + |a|] && b == (KeyPart(b) + y)[2..2 + |a|];
    DropPrefix(KeyPart(a), x);
    DropPrefix(KeyPart(b), y);
  }

  lemma {:induction false} CompositeInjective(a: seq<Buffer>, b: seq<Buffer>, i: nat)
    requires i <= |a| && i <= |b| && Composite(a, i) == Composite(b, i)
    requires forall k :: 0 <= k < |a| ==> |a[k]| < 0x1_0000
    requires forall k :: 0 <= k < |b| ==> |b[k]| < 0x1_0000
    ensures |a| == |b| && a[i..] == b[i..]
    decreases |a| - i
  {
    CompositeLength(a, i);
    CompositeLength(b, i);
    if i < |a| && i < |b| {
      FirstPart(a[i], Composite(a, i + 1), b[i], Composite(b, i + 1));
      CompositeInjective(a, b, i + 1);
    }
  }

  /** Equal composite keys of two parts or more have equal parts. */
  lemma {:induction false} RoutingKeyInjective(a: seq<Encoded>, b: seq<Encoded>)
    requires |a| >= 2 && |b| >= 2
    requires RoutingKey(a) == RoutingKey(b) && RoutingKey(a).Returns? && RoutingKey(a).value.Some?
    ensures a == b
  {
    var x, y := Payloads(a, 0), Payloads(b, 0);
    CompositeInjective(x, y, 0);
    assert x[0..] == x && y[0..] == y;
    forall i | 0 <= i < |a|
      ensures a[i] == b[i]
    {
      assert a[i] == Bytes(x[i]) && b[i] == Bytes(y[i]);
    }
  }

  /** The two steps together. */
  method SetRoutingKey(items: seq<Encoded>) returns (key: Outcome<Option<Buffer>>)
    ensures key == RoutingKey(items)
  {
    var parts, totalLength := EncodeRoutingKeyParts(items);
    if totalLength == 0 {
      return Returns(None);
    }
    key := ConcatRoutingKey(parts, totalLength);
  }
}
