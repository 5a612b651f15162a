/** The duration wrappers of the protocol (`Proto/Time.cs`).

    Both wrappers encode `TimeSpan.Milliseconds`, the sub-second component,
    but decode the wire value as a total number of milliseconds. A duration
    therefore survives the round trip only when it is shorter than a second,
    and the wrappers disagree with `PacketWriter.WriteDurMs16`/`WriteDurMs32`,
    which write the total.
 */
module Time {
  import opened Wrappers
  import opened Bytes
  import opened Packet

  datatype DurationMs16 = DurationMs16(dur: TimeSpan)
  datatype DurationMs32 = DurationMs32(dur: TimeSpan)

  /** Whether the duration is below one second in magnitude, the range in
      which the millisecond component equals the total. */
  predicate SubSecond(t: TimeSpan)
  {
    -1000 < t.totalMilliseconds < 1000
  }

  /** `WriteShort((short)dur.Milliseconds)`; the cast never wraps because the
      component lies in -999..999. */
  function EncodeDurationMs16(d: DurationMs16): (bs: seq<byte>)
    ensures |bs| == 2 && DecodeSigned(bs) == d.dur.Milliseconds()
  {
    WriteShort(d.dur.Milliseconds())
  }

  function DecodeDurationMs16(r: Reader): (res: Result<Parsed<DurationMs16>>)
    ensures res.Ok? <==> 2 <= Remaining(r)
    ensures res.Ok? ==> res.value.value.dur.totalMilliseconds == DecodeSigned(r.data[r.pos .. r.pos + 2])
                        && res.value.next == Skip(r, 2)
  {
    var s :- ReadShort(r);
    AtSlice(r, WriteShort(s.value));
    Ok(Parsed(DurationMs16(FromMilliseconds(s.value)), s.next))
  }

  function EncodeDurationMs32(d: DurationMs32): (bs: seq<byte>)
    ensures |bs| == 4 && DecodeSigned(bs) == d.dur.Milliseconds()
  {
    WriteInt(d.dur.Milliseconds())
  }

  function DecodeDurationMs32(r: Reader): (res: Result<Parsed<DurationMs32>>)
    ensures res.Ok? <==> 4 <= Remaining(r)
    ensures res.Ok? ==> res.value.value.dur.totalMilliseconds == DecodeSigned(r.data[r.pos .. r.pos + 4])
                        && res.value.next == Skip(r, 4)
  {
    var s :- ReadInt(r);
    AtSlice(r, WriteInt(s.value));
    Ok(Parsed(DurationMs32(FromMilliseconds(s.value)), s.next))
  }

  /** The millisecond component is the whole duration exactly below one second. */
  lemma SubSecondMilliseconds(t: TimeSpan)
    ensures t.Milliseconds() == t.totalMilliseconds <==> SubSecond(t)
  {
  }

  lemma WriteShortInjective(a: i16, b: i16)
    ensures WriteShort(a) == WriteShort(b) <==> a == b
  {
  }

  lemma WriteIntInjective(a: i32, b: i32)
    ensures WriteInt(a) == WriteInt(b) <==> a == b
  {
  }

  /** Decoding an encoded duration keeps only its millisecond component; the
      duration comes back unchanged exactly when it is below one second. */
  lemma DurationMs16RoundTrip(r: Reader, d: DurationMs16)
    requires At(r, EncodeDurationMs16(d))
    ensures var res := DecodeDurationMs16(r);
      res == Ok(Parsed(DurationMs16(FromMilliseconds(d.dur.Milliseconds())), Skip(r, 2)))
    ensures DecodeDurationMs16(r).value.value == d <==> SubSecond(d.dur)
  {
    AtSlice(r, EncodeDurationMs16(d));
    SubSecondMilliseconds(d.dur);
  }

  lemma DurationMs32RoundTrip(r: Reader, d: DurationMs32)
    requires At(r, EncodeDurationMs32(d))
    ensures var res := DecodeDurationMs32(r);
      res == Ok(Parsed(DurationMs32(FromMilliseconds(d.dur.Milliseconds())), Skip(r, 4)))
    ensures DecodeDurationMs32(r).value.value == d <==> SubSecond(d.dur)
  {
    AtSlice(r, EncodeDurationMs32(d));
    SubSecondMilliseconds(d.dur);
  }

  /** Re-encoding a decoded wire value `v` reproduces `v` exactly when
      |v| < 1000; otherwise it writes the millisecond component of `v`, the
      remainder by 1000 truncated toward zero. */
  lemma WireValue16Reencoded(v: i16)
    ensures var d := DecodeDurationMs16(Start(WriteShort(v)));
      d.Ok? && EncodeDurationMs16(d.value.value) == WriteShort(FromMilliseconds(v).Milliseconds())
    ensures EncodeDurationMs16(DecodeDurationMs16(Start(WriteShort(v))).value.value) == WriteShort(v)
      <==> -1000 < v < 1000
  {
    ReadWriteShort(Start(WriteShort(v)), v);
    SubSecondMilliseconds(FromMilliseconds(v));
    WriteShortInjective(FromMilliseconds(v).Milliseconds(), v);
  }

  lemma WireValue32Reencoded(v: i32)
    ensures var d := DecodeDurationMs32(Start(WriteInt(v)));
      d.Ok? && EncodeDurationMs32(d.value.value) == WriteInt(FromMilliseconds(v).Milliseconds())
    ensures EncodeDurationMs32(DecodeDurationMs32(Start(WriteInt(v))).value.value) == WriteInt(v)
      <==> -1000 < v < 1000
  {
    ReadWriteInt(Start(WriteInt(v)), v);
    SubSecondMilliseconds(FromMilliseconds(v));
    WriteIntInjective(FromMilliseconds(v).Milliseconds(), v);
  }

  /** The wrappers and `PacketWriter.WriteDurMs16`/`WriteDurMs32` write the
      same bytes exactly for durations below one second. */
  lemma WrappersDisagreeWithWriter(t: TimeSpan)
    requires -0x8000 <= t.totalMilliseconds < 0x8000
    ensures EncodeDurationMs16(DurationMs16(t)) == WriteDurMs16(t) <==> SubSecond(t)
    ensures EncodeDurationMs32(DurationMs32(t)) == WriteDurMs32(t) <==> SubSecond(t)
  {
    SubSecondMilliseconds(t);
    WriteShortInjective(t.Milliseconds(), t.totalMilliseconds);
    WriteIntInjective(t.Milliseconds(), t.totalMilliseconds);
  }
}
