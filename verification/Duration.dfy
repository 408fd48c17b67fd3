/** Durations on the wire (lib/types/duration.js): three vints one after another. */
module Durations {
  import opened Bytes
  import opened Seqs
  import opened VIntCoding

  type Int32 = x: int | -0x8000_0000 <= x < 0x8000_0000

  datatype Duration = Duration(months: Int32, days: Int32, nanoseconds: Long)

  /** What `Duration.fromBuffer` hands to the constructor. */
  datatype Fields = Fields(months: Long, days: Long, nanoseconds: Long)

  /** The buffers that `toBuffer` reuses from one call to the next. */
  class ReusableBuffers {
    const months: array<byte>
    const days: array<byte>
    const nanoseconds: array<byte>

    ghost predicate Valid()
      reads this
    {
      && months.Length == days.Length == nanoseconds.Length == 9
      && months != days && months != nanoseconds && days != nanoseconds
    }

    constructor ()
      ensures Valid() && fresh(months) && fresh(days) && fresh(nanoseconds)
    {
      months, days, nanoseconds := new byte[9], new byte[9], new byte[9];
    }

    /** The bytes depend on the duration only, not on what earlier calls left in the buffers. */
    method ToBuffer(d: Duration) returns (buffer: Buffer)
      requires Valid()
      modifies months, days, nanoseconds
      ensures buffer == DurationBytes(d)
    {
      var lengthMonths := WriteVInt(d.months, months);
      var lengthDays := WriteVInt(d.days, days);
      var lengthNanoseconds := WriteVInt(d.nanoseconds, nanoseconds);
      buffer := months[..lengthMonths];
      buffer := buffer + days[..lengthDays];
      buffer := buffer + nanoseconds[..lengthNanoseconds];
      Assoc(VInt(d.months), VInt(d.days), VInt(d.nanoseconds));
    }
  }

  function DurationBytes(d: Duration): Buffer {
    VInt(d.months) + (VInt(d.days) + VInt(d.nanoseconds))
  }

  method FromBuffer(buffer: Buffer) returns (f: Fields)
    ensures f == FieldsAt(buffer)
  {
    var offset := 0;
    var months, days, nanoseconds;
    months, offset := ReadVInt(buffer, offset);
    days, offset := ReadVInt(buffer, offset);
    nanoseconds, offset := ReadVInt(buffer, offset);
    f := Fields(months, days, nanoseconds);
  }

  function FieldsAt(buffer: Buffer): Fields {
    var (months, afterMonths) := UnsignedAt(buffer, 0);
    var (days, afterDays) := UnsignedAt(buffer, afterMonths);
    var (nanoseconds, _) := UnsignedAt(buffer, afterDays);
    Fields(DecodeZigZag64(months), DecodeZigZag64(days), DecodeZigZag64(nanoseconds))
  }

  /** A field is read back wherever its bytes stand, and the offset moves past it. */
  lemma {:induction false} ReadsField(value: Long, input: Buffer, before: Buffer, after: Buffer)
    requires input == before + (VInt(value) + after)
    ensures UnsignedAt(input, |before|).1 == |before + VInt(value)|
    ensures DecodeZigZag64(UnsignedAt(input, |before|).0) == value
  {
    Assoc(before, VInt(value), after);
    VIntRoundTrip(value, before, after);
  }

  /** `fromBuffer` restores the three fields that `toBuffer` wrote. */
  lemma {:induction false} DurationRoundTrip(d: Duration)
    ensures FieldsAt(DurationBytes(d)) == Fields(d.months, d.days, d.nanoseconds)
  {
    ThreeFields(VInt(d.months), VInt(d.days), VInt(d.nanoseconds));
    var input := DurationBytes(d);
    ReadsField(d.months, input, [], VInt(d.days) + VInt(d.nanoseconds));
    ReadsField(d.days, input, [] + VInt(d.months), VInt(d.nanoseconds));
    ReadsField(d.nanoseconds, input, [] + VInt(d.months) + VInt(d.days), []);
  }

  lemma ThreeFields(m: Buffer, s: Buffer, n: Buffer)
    ensures m + (s + n) == [] + (m + (s + n)) == ([] + m) + (s + n) == ([] + m + s) + (n + [])
  {
  }
}
