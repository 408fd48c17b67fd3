/**
 A vector's buffer cannot be shortened or extended: whatever is left out at its end or put behind it, decoding
 throws. The sizes in front of elements are read by `uvintUnpack`, also where their own bytes are cut off.
 */
module VectorLengths {
  import opened Bytes
  import opened Codec
  import opened CodecRoundTrip
  import opened Framing
  import opened Seqs
  import opened Wrappers
  import opened VIntCoding

  // ----- A size whose bytes are cut off -----

  lemma {:induction false} GatherLess(top: byte, c: Buffer, b: Buffer, n: nat)
    requires n <= 4 && c <= b && Gather(top, b, 1, n) < TWO_31
    ensures Gather(top, c, 1, n) <= Gather(top, b, 1, n)
    decreases n
  {
    if n > 0 {
      GatherSmall(top, b, n - 1);
      var before := Gather(top, b, 1, n - 1);
      assert before * 256 % TWO_64 == before * 256;
      GatherLess(top, c, b, n - 1);
      assert Gather(top, c, 1, n - 1) * 256 % TWO_64 == Gather(top, c, 1, n - 1) * 256;
    }
  }

  /** Without its last bytes a size is read as one that is not negative, and as many bytes are counted as read. */
  lemma {:induction false} SizeCutOff(val: nat, c: Buffer)
    requires val < TWO_31 && c < UnsignedVInt(val)
    ensures var (size, bytesRead) := Unpacked(c);
      size >= 0 && bytesRead > |c|
  {
    if c != [] {
      var b := UnsignedVInt(val);
      hide UnsignedVInt;
      assert b[0..0 + |b|] == b;
      ReadsWritten(val, b, 0);
      var first := ByteAt(b, 0);
      assert first == ByteAt(c, 0) && first >= 128 && LeadingOnes(first) + 1 == |b| <= 5;
      var extra := LeadingOnes(first);
      var top := ValueBits(first, extra);
      GatherLess(top, c, b, extra);
      ShiftAllIsGather(top, c, extra);
    }
  }

  // ----- One element -----

  lemma PrefixFrom(c: Buffer, b: Buffer, at: nat)
    requires (c <= b || b <= c) && at <= |c| && at <= |b|
    ensures c[at..] <= b[at..] || b[at..] <= c[at..]
  {
  }

  /** An element that lies in both buffers is read alike; one that is cut off is not read at all. */
  lemma {:induction false} ElementOrNothing(fixed: int, e: Encoded, b: Buffer, c: Buffer, at: nat, rest: Buffer)
    requires (c <= b || b <= c) && at <= |b| && at <= |c| && Then(Packed(fixed != -1, e), Bytes(rest)) == Bytes(b[at..])
    requires fixed != -1 && e.Bytes? ==> |e.bytes| == fixed
    ensures var (size, start) := ElementAt(b, fixed, at);
      var (size', start') := ElementAt(c, fixed, at);
      && (start' + size' > |c| || (size', start') == (size, start))
      && 0 <= start && 0 <= start + size <= |b| && b[start + size..] == rest
  {
    ElementReads(fixed, e, b, at, rest);
    if fixed == -1 {
      var x := e.bytes;
      var size := UnsignedVInt(|x|);
      assert e.Bytes? && b[at..] == (size + x) + rest;
      Assoc(size, x, rest);
      SizeRead(|x|, x + rest, b, at);
      assert Slice(c, at, |c|) == c[at..];
      PrefixFrom(c, b, at);
      SizeOrNothing(|x|, x + rest, b[at..], c[at..]);
    }
  }

  lemma SizeRead(val: nat, after: Buffer, b: Buffer, at: nat)
    requires val < TWO_31 && at <= |b| && b[at..] == UnsignedVInt(val) + after
    ensures ElementAt(b, -1, at) == (val, at + |UnsignedVInt(val)|)
  {
    UvintRoundTrip(val, after);
    assert Slice(b, at, |b|) == b[at..];
  }

  lemma {:induction false} SizeOrNothing(val: nat, after: Buffer, b: Buffer, c: Buffer)
    requires val < TWO_31 && b == UnsignedVInt(val) + after && (c <= b || b <= c)
    ensures var (size, bytesRead) := Unpacked(c);
      (size, bytesRead) == (val, |UnsignedVInt(val)|) || (size >= 0 && bytesRead > |c|)
  {
    var s := UnsignedVInt(val);
    hide UnsignedVInt;
    assert b[..|s|] == s;
    if |c| < |s| {
      assert c == s[..|c|];
      SizeCutOff(val, c);
    } else {
      assert c[..|s|] == s;
      assert c == s + c[|s|..];
      UvintRoundTrip(val, c[|s|..]);
    }
  }

  // ----- All elements -----

  lemma {:induction false} OtherLengthFails(fixed: int, parts: seq<Encoded>, i: nat, b: Buffer, c: Buffer, at: nat)
    requires i <= |parts| && at <= |b| && at <= |c| && JoinElements(fixed != -1, parts, i) == Bytes(b[at..])
    requires forall e <- parts :: fixed != -1 && e.Bytes? ==> |e.bytes| == fixed
    requires (c <= b || b <= c) && |c| != |b|
    ensures ElementFrames(c, fixed, at, |parts| - i).Fails?
    decreases |parts| - i
  {
    hide ElementAt, Slice, Packed;
    if i < |parts| {
      ElementOrNothing(fixed, parts[i], b, c, at, JoinElements(fixed != -1, parts, i + 1).bytes);
      var (size, start) := ElementAt(b, fixed, at);
      var (size', start') := ElementAt(c, fixed, at);
      if start' + size' <= |c| {
        OtherLengthFails(fixed, parts, i + 1, b, c, start + size);
      }
    }
  }

  /**
   Decoding throws for every buffer that is a vector's buffer with something left out at its end, or with
   something put behind it.
   */
  lemma {:induction false} VectorLengthIsExact(enc: Encoder, v: Value, t: Type, b: Buffer, c: Buffer)
    requires t.Vector? && WellTyped(v, t) && Encode(enc, v, t) == Bytes(b)
    requires c < b || b < c
    ensures Decode(enc.wide, c, t).Fails?
  {
    hide WellTyped, JoinElements, FixedSize, ElementFrames, EncodeSingle, DecodeEach;
    assert v.VectorValue? by {
      VectorTyped(v, t);
    }
    var parts := EncodeEach(enc, v.items, t.item);
    forall e | e in parts && FixedSize(t.item) != -1 && e.Bytes?
      ensures |e.bytes| == FixedSize(t.item)
    {
      var i :| 0 <= i < |parts| && parts[i] == e;
      VectorTyped(v, t);
      FixedSizeEncodes(enc, v.items[i], t.item);
    }
    assert b[0..] == b;
    OtherLengthFails(FixedSize(t.item), parts, 0, b, c, 0);
  }

  lemma VectorTyped(v: Value, t: Type)
    requires t.Vector? && WellTyped(v, t)
    ensures !Missing(v) ==> v.VectorValue? && forall i :: 0 <= i < |v.items| ==> WellTyped(v.items[i], t.item)
  {
  }
}
