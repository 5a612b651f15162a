/** The read and write cursors of the wire codec (`PacketReader` and
    `PacketWriter`).

    A reader is a buffer with a position; every read returns the decoded value
    together with the advanced reader, or fails with `Truncated` when fewer
    bytes remain than it needs. A writer only ever appends, so each write is
    modelled as the byte sequence it appends: writing `a` then `b` produces
    `Write(a) + Write(b)`.

    Contracts of the reads are stated against the writes: a successful read
    returns the value whose encoding sits at the reader's position, and the
    `Read…Write…` lemmas give the other direction.
 */
module Packet {
  import opened Wrappers
  import opened Bytes

  /** Size of the opcode header that starts every framed message. */
  const HeaderSize: nat := 2

  datatype Cursor = Cursor(data: seq<byte>, pos: nat)

  /** A cursor whose position lies inside its buffer. */
  type Reader = c: Cursor | c.pos <= |c.data| witness Cursor([], 0)

  /** A decoded value together with the reader positioned after it. */
  datatype Parsed<+T> = Parsed(value: T, next: Reader)

  function Remaining(r: Reader): nat
  {
    |r.data| - r.pos
  }

  function Skip(r: Reader, n: nat): (r': Reader)
    requires n <= Remaining(r)
    ensures r'.data == r.data && Remaining(r') == Remaining(r) - n
  {
    Cursor(r.data, r.pos + n)
  }

  /** The bytes `bs` come next in `r`. */
  predicate At(r: Reader, bs: seq<byte>)
  {
    bs <= r.data[r.pos..]
  }

  lemma AtSplit(r: Reader, a: seq<byte>, b: seq<byte>)
    requires At(r, a + b)
    ensures |a| <= Remaining(r) && At(r, a) && At(Skip(r, |a|), b)
  {
    assert r.data[r.pos..][..|a|] == (a + b)[..|a|] == a;
    assert r.data[r.pos + |a|..] == r.data[r.pos..][|a|..];
    assert (a + b)[|a|..] == b;
  }

  /** The bytes next in `r` as a slice of its buffer. */
  lemma AtSlice(r: Reader, bs: seq<byte>)
    requires At(r, bs)
    ensures |bs| <= Remaining(r) && r.data[r.pos .. r.pos + |bs|] == bs
  {
    assert r.data[r.pos .. r.pos + |bs|] == r.data[r.pos..][..|bs|];
  }

  lemma AtJoin(r: Reader, a: seq<byte>, b: seq<byte>)
    requires |a| <= Remaining(r) && At(r, a) && At(Skip(r, |a|), b)
    ensures At(r, a + b)
  {
    assert r.data[r.pos + |a|..] == r.data[r.pos..][|a|..];
  }

  /** A reader over a whole buffer, positioned at its start. */
  function Start(data: seq<byte>): (r: Reader)
    ensures At(r, data) && Remaining(r) == |data|
  {
    Cursor(data, 0)
  }

  // ---------------------------------------------------------------------------
  // Time spans
  // ---------------------------------------------------------------------------

  /** A .NET `TimeSpan` of a whole number of milliseconds. */
  datatype TimeSpan = FromMilliseconds(totalMilliseconds: int) {

    /** `TimeSpan.Milliseconds`: the millisecond component, whose sign follows
        the span and whose magnitude is below one second. */
    function Milliseconds(): (ms: int)
      ensures -1000 < ms < 1000
      ensures (totalMilliseconds - ms) % 1000 == 0
      ensures 0 <= totalMilliseconds ==> 0 <= ms
      ensures totalMilliseconds <= 0 ==> ms <= 0
    {
      if totalMilliseconds >= 0 then totalMilliseconds % 1000
      else -((-totalMilliseconds) % 1000)
    }
  }

  // ---------------------------------------------------------------------------
  // Writes
  // ---------------------------------------------------------------------------

  /** One byte, the value itself: its little-endian encoding in one byte. */
  function WriteByte(b: byte): (bs: seq<byte>)
    ensures |bs| == 1 && FromLE(bs) == b
  {
    [b]
  }

  function WriteShort(v: i16): (bs: seq<byte>)
    ensures |bs| == 2 && DecodeSigned(bs) == v
  {
    PowValues();
    SignedRoundTrip(v, 2);
    EncodeSigned(v, 2)
  }

  function WriteInt(v: i32): (bs: seq<byte>)
    ensures |bs| == 4 && DecodeSigned(bs) == v
  {
    PowValues();
    SignedRoundTrip(v, 4);
    EncodeSigned(v, 4)
  }

  function WriteLong(v: i64): (bs: seq<byte>)
    ensures |bs| == 8 && DecodeSigned(bs) == v
  {
    PowValues();
    SignedRoundTrip(v, 8);
    EncodeSigned(v, 8)
  }

  /** `WriteUShort` writes the signed reinterpretation of its argument, which
      puts the plain little-endian bytes of the unsigned value on the wire. */
  function WriteUShort(v: u16): (bs: seq<byte>)
    ensures bs == ToLE(v, 2)
  {
    PowValues();
    WriteShort(Signed(v, 2))
  }

  function WriteUInt(v: u32): (bs: seq<byte>)
    ensures bs == ToLE(v, 4)
  {
    PowValues();
    WriteInt(Signed(v, 4))
  }

  function WriteULong(v: u64): (bs: seq<byte>)
    ensures bs == ToLE(v, 8)
  {
    PowValues();
    WriteLong(Signed(v, 8))
  }

  /** The opcode as an i16. */
  function WriteOpcode(op: i16): (bs: seq<byte>)
    ensures |bs| == 2 && DecodeSigned(bs) == op
  {
    WriteShort(op)
  }

  /** The bytes as they are: reading as many back from the start of what
      was written gives them back. */
  function WriteBytes(value: seq<byte>): (bs: seq<byte>)
    ensures |bs| == |value|
    ensures ReadBytes(Start(bs), |value|) == Ok(Parsed(value, Skip(Start(bs), |value|)))
  {
    assert value[0..|value|] == value;
    value
  }

  /** Latin-1 text is its own byte sequence in this model. */
  function WriteFixedString(s: seq<byte>): (bs: seq<byte>)
    ensures |bs| == |s|
    ensures ReadFixedString(Start(bs), |s|) == Ok(Parsed(s, Skip(Start(bs), |s|)))
  {
    WriteBytes(s)
  }

  /** An i16 length (`(short)value.Length`, which wraps for long strings)
      followed by the string's bytes. */
  function WriteString(s: seq<byte>): (bs: seq<byte>)
    ensures |bs| == |s| + 2
    ensures bs[2..] == s
    ensures DecodeSigned(bs[..2]) == Wrap16(|s|)
    ensures |s| < 0x8000 ==> DecodeSigned(bs[..2]) == |s|
  {
    var bs := WriteShort(Wrap16(|s|)) + WriteFixedString(s);
    assert bs[..2] == WriteShort(Wrap16(|s|));
    bs
  }

  /** `len` bytes: the string, then zeros. Fails unless a terminating zero
      byte fits after the string. */
  function WriteFixedSizeString(s: seq<byte>, len: int): (res: Result<seq<byte>>)
    ensures res.Ok? <==> |s| + 1 <= len
    ensures res.Err? ==> res.error == FixedStringOverflow
    ensures res.Ok? ==> |res.value| == len && res.value[..|s|] == s
    ensures res.Ok? ==> forall i :: |s| <= i < len ==> res.value[i] == 0
  {
    if |s| + 1 > len then Err(FixedStringOverflow)
    else Ok(WriteBytes(s) + Zeros(len - |s|))
  }

  function Zeros(n: nat): (bs: seq<byte>)
    ensures |bs| == n && forall i :: 0 <= i < n ==> bs[i] == 0
  {
    seq(n, _ => 0)
  }

  function WriteBool(b: bool): (bs: seq<byte>)
    ensures |bs| == 1 && (bs[0] == 1 <==> b) && (bs[0] == 0 <==> !b)
  {
    WriteByte(if b then 1 else 0)
  }

  /** The four 32-bit words of a 16-byte buffer in reverse order. */
  function SwapWords(x: seq<byte>): (y: seq<byte>)
    requires |x| == 16
    ensures |y| == 16
  {
    x[12..16] + x[8..12] + x[4..8] + x[0..4]
  }

  lemma SwapWordsTwice(x: seq<byte>)
    requires |x| == 16
    ensures SwapWords(SwapWords(x)) == x
  {
    var y := SwapWords(x);
    assert y[12..16] == x[0..4];
    assert y[8..12] == x[4..8];
    assert y[4..8] == x[8..12];
    assert y[0..4] == x[12..16];
    assert x == x[0..4] + x[4..8] + x[8..12] + x[12..16];
  }

  /** The four little-endian 32-bit words of a 128-bit value, most significant
      word first, each word written with `WriteInt`. */
  function WriteUInt128(v: u128): (bs: seq<byte>)
    ensures |bs| == 16
    ensures bs == SwapWords(ToLE(v, 16))
  {
    var b := ToLE(v, 16);
    WordBytes(b, 0);
    WordBytes(b, 1);
    WordBytes(b, 2);
    WordBytes(b, 3);
    WriteInt(Word(b, 3)) + WriteInt(Word(b, 2)) + WriteInt(Word(b, 1)) + WriteInt(Word(b, 0))
  }

  /** The `i`-th 32-bit word of a 16-byte little-endian buffer, as `int`. */
  function Word(b: seq<byte>, i: nat): i32
    requires |b| == 16 && i < 4
  {
    PowValues();
    DecodeSigned(b[4 * i .. 4 * i + 4])
  }

  lemma WordBytes(b: seq<byte>, i: nat)
    requires |b| == 16 && i < 4
    ensures WriteInt(Word(b, i)) == b[4 * i .. 4 * i + 4]
  {
    BytesRoundTrip(b[4 * i .. 4 * i + 4]);
  }

  /** `WriteDurMs16`: the total number of milliseconds as an i16. */
  function WriteDurMs16(d: TimeSpan): (bs: seq<byte>)
    requires -0x8000 <= d.totalMilliseconds < 0x8000
    ensures |bs| == 2 && DecodeSigned(bs) == d.totalMilliseconds
  {
    WriteShort(d.totalMilliseconds)
  }

  /** `WriteDurMs32`: the total number of milliseconds as an i32. */
  function WriteDurMs32(d: TimeSpan): (bs: seq<byte>)
    requires -0x8000_0000 <= d.totalMilliseconds < 0x8000_0000
    ensures |bs| == 4 && DecodeSigned(bs) == d.totalMilliseconds
  {
    WriteInt(d.totalMilliseconds)
  }

  // ---------------------------------------------------------------------------
  // Reads
  // ---------------------------------------------------------------------------

  /** `TryReadExact`: the next `len` bytes, unchanged. */
  function ReadBytes(r: Reader, len: int): (res: Result<Parsed<seq<byte>>>)
    ensures len < 0 ==> res == Err(NegativeCount)
    ensures 0 <= len ==> (res.Ok? <==> len <= Remaining(r))
    ensures 0 <= len && res.Err? ==> res.error == Truncated
    ensures res.Ok? ==> |res.value.value| == len && At(r, res.value.value)
                        && res.value.next == Skip(r, len)
  {
    if len < 0 then Err(NegativeCount)
    else if len > Remaining(r) then Err(Truncated)
    else Ok(Parsed(r.data[r.pos .. r.pos + len], Skip(r, len)))
  }

  function ReadByte(r: Reader): (res: Result<Parsed<byte>>)
    ensures res.Ok? <==> 1 <= Remaining(r)
    ensures res.Err? ==> res.error == Truncated
    ensures res.Ok? ==> At(r, WriteByte(res.value.value)) && res.value.next == Skip(r, 1)
  {
    var b :- ReadBytes(r, 1);
    Ok(Parsed(b.value[0], b.next))
  }

  function ReadShort(r: Reader): (res: Result<Parsed<i16>>)
    ensures res.Ok? <==> 2 <= Remaining(r)
    ensures res.Err? ==> res.error == Truncated
    ensures res.Ok? ==> At(r, WriteShort(res.value.value)) && res.value.next == Skip(r, 2)
  {
    var b :- ReadBytes(r, 2);
    PowValues();
    BytesRoundTrip(b.value);
    Ok(Parsed(DecodeSigned(b.value), b.next))
  }

  function ReadInt(r: Reader): (res: Result<Parsed<i32>>)
    ensures res.Ok? <==> 4 <= Remaining(r)
    ensures res.Err? ==> res.error == Truncated
    ensures res.Ok? ==> At(r, WriteInt(res.value.value)) && res.value.next == Skip(r, 4)
  {
    var b :- ReadBytes(r, 4);
    PowValues();
    BytesRoundTrip(b.value);
    Ok(Parsed(DecodeSigned(b.value), b.next))
  }

  function ReadLong(r: Reader): (res: Result<Parsed<i64>>)
    ensures res.Ok? <==> 8 <= Remaining(r)
    ensures res.Err? ==> res.error == Truncated
    ensures res.Ok? ==> At(r, WriteLong(res.value.value)) && res.value.next == Skip(r, 8)
  {
    var b :- ReadBytes(r, 8);
    PowValues();
    BytesRoundTrip(b.value);
    Ok(Parsed(DecodeSigned(b.value), b.next))
  }

  /** `unchecked((ushort)ReadShort())`: the plain little-endian value. */
  function ReadUShort(r: Reader): (res: Result<Parsed<u16>>)
    ensures res.Ok? <==> 2 <= Remaining(r)
    ensures res.Ok? ==> At(r, WriteUShort(res.value.value)) && res.value.next == Skip(r, 2)
  {
    var s :- ReadShort(r);
    PowValues();
    Ok(Parsed(Unsigned(s.value, 2), s.next))
  }

  function ReadUInt(r: Reader): (res: Result<Parsed<u32>>)
    ensures res.Ok? <==> 4 <= Remaining(r)
    ensures res.Ok? ==> At(r, WriteUInt(res.value.value)) && res.value.next == Skip(r, 4)
  {
    var s :- ReadInt(r);
    PowValues();
    Ok(Parsed(Unsigned(s.value, 4), s.next))
  }

  function ReadULong(r: Reader): (res: Result<Parsed<u64>>)
    ensures res.Ok? <==> 8 <= Remaining(r)
    ensures res.Ok? ==> At(r, WriteULong(res.value.value)) && res.value.next == Skip(r, 8)
  {
    var s :- ReadLong(r);
    PowValues();
    Ok(Parsed(Unsigned(s.value, 8), s.next))
  }

  /** `len` Latin-1 bytes, which are their own text in this model. */
  function ReadFixedString(r: Reader, len: int): (res: Result<Parsed<seq<byte>>>)
    ensures len < 0 ==> res == Err(NegativeCount)
    ensures 0 <= len ==> (res.Ok? <==> len <= Remaining(r))
    ensures 0 <= len && res.Err? ==> res.error == Truncated
    ensures res.Ok? ==> |res.value.value| == len && At(r, res.value.value)
                        && res.value.next == Skip(r, len)
  {
    ReadBytes(r, len)
  }

  /** An i16 length, then that many Latin-1 bytes. A negative length fails;
      a zero length reads nothing more. */
  function ReadString(r: Reader): (res: Result<Parsed<seq<byte>>>)
    ensures Remaining(r) < 2 ==> res == Err(Truncated)
    ensures 2 <= Remaining(r) && DecodeSigned(r.data[r.pos .. r.pos + 2]) < 0 ==> res == Err(NegativeLength)
    ensures res.Ok? <==> 2 <= Remaining(r) && 0 <= DecodeSigned(r.data[r.pos .. r.pos + 2]) <= Remaining(r) - 2
    ensures res.Ok? ==> |res.value.value| < 0x8000 && At(r, WriteString(res.value.value))
                        && res.value.next == Skip(r, |res.value.value| + 2)
  {
    var len :- ReadShort(r);
    assert WriteShort(len.value) == r.data[r.pos .. r.pos + 2];
    if len.value < 0 then Err(NegativeLength)
    else if len.value == 0 then
      AtJoin(r, WriteShort(Wrap16(0)), []);
      Ok(Parsed([], len.next))
    else
      var s :- ReadFixedString(len.next, len.value);
      AtJoin(r, WriteShort(Wrap16(|s.value|)), s.value);
      Ok(s)
  }

  /** Four i32 words; their order is reversed and the result read as one
      little-endian 128-bit value. */
  function ReadUInt128(r: Reader): (res: Result<Parsed<u128>>)
    ensures res.Ok? <==> 16 <= Remaining(r)
    ensures res.Ok? ==> At(r, WriteUInt128(res.value.value)) && res.value.next == Skip(r, 16)
  {
    var w0 :- ReadInt(r);
    var w1 :- ReadInt(w0.next);
    var w2 :- ReadInt(w1.next);
    var w3 :- ReadInt(w2.next);
    var reversed := WriteInt(w3.value) + WriteInt(w2.value) + WriteInt(w1.value) + WriteInt(w0.value);
    FourWords(r, w0.value, w1.value, w2.value, w3.value);
    FromLEBound(reversed);
    PowValues();
    var v: u128 := FromLE(reversed);
    UInt128Layout(r, v, reversed);
    Ok(Parsed(v, w3.next))
  }

  lemma FourWords(r: Reader, w0: i32, w1: i32, w2: i32, w3: i32)
    requires 16 <= Remaining(r)
    requires At(r, WriteInt(w0)) && At(Skip(r, 4), WriteInt(w1))
    requires At(Skip(r, 8), WriteInt(w2)) && At(Skip(r, 12), WriteInt(w3))
    ensures WriteInt(w3) + WriteInt(w2) + WriteInt(w1) + WriteInt(w0) == SwapWords(r.data[r.pos .. r.pos + 16])
  {
    AtSlice(r, WriteInt(w0));
    AtSlice(Skip(r, 4), WriteInt(w1));
    AtSlice(Skip(r, 8), WriteInt(w2));
    AtSlice(Skip(r, 12), WriteInt(w3));
    SubSlice(r.data, r.pos, 16, 0, 4);
    SubSlice(r.data, r.pos, 16, 4, 8);
    SubSlice(r.data, r.pos, 16, 8, 12);
    SubSlice(r.data, r.pos, 16, 12, 16);
  }

  /** A slice of a slice is a slice of the whole. */
  lemma SubSlice(s: seq<byte>, p: nat, n: nat, i: nat, j: nat)
    requires p + n <= |s| && i <= j <= n
    ensures s[p .. p + n][i..j] == s[p + i .. p + j]
  {
    var inner := s[p .. p + n][i..j];
    assert forall k :: 0 <= k < |inner| ==> inner[k] == s[p + i + k];
  }

  lemma UInt128Layout(r: Reader, v: u128, reversed: seq<byte>)
    requires 16 <= Remaining(r) && |reversed| == 16 && v == FromLE(reversed)
    requires reversed == SwapWords(r.data[r.pos .. r.pos + 16])
    ensures At(r, WriteUInt128(v))
  {
    ToFromLE(reversed);
    SwapWordsTwice(r.data[r.pos .. r.pos + 16]);
  }

  function ReadBool(r: Reader): (res: Result<Parsed<bool>>)
    ensures res.Ok? <==> 1 <= Remaining(r)
    ensures res.Ok? ==> (res.value.value <==> r.data[r.pos] != 0) && res.value.next == Skip(r, 1)
  {
    var b :- ReadByte(r);
    Ok(Parsed(b.value != 0, b.next))
  }

  function ReadDurMs16(r: Reader): (res: Result<Parsed<TimeSpan>>)
    ensures res.Ok? <==> 2 <= Remaining(r)
    ensures res.Ok? ==> -0x8000 <= res.value.value.totalMilliseconds < 0x8000
                        && At(r, WriteDurMs16(res.value.value)) && res.value.next == Skip(r, 2)
  {
    var s :- ReadShort(r);
    Ok(Parsed(FromMilliseconds(s.value), s.next))
  }

  function ReadDurMs32(r: Reader): (res: Result<Parsed<TimeSpan>>)
    ensures res.Ok? <==> 4 <= Remaining(r)
    ensures res.Ok? ==> -0x8000_0000 <= res.value.value.totalMilliseconds < 0x8000_0000
                        && At(r, WriteDurMs32(res.value.value)) && res.value.next == Skip(r, 4)
  {
    var s :- ReadInt(r);
    Ok(Parsed(FromMilliseconds(s.value), s.next))
  }

  // ---------------------------------------------------------------------------
  // Round trips: a write followed by the matching read returns the value
  // ---------------------------------------------------------------------------

  lemma ReadWriteShort(r: Reader, v: i16)
    requires At(r, WriteShort(v))
    ensures ReadShort(r) == Ok(Parsed(v, Skip(r, 2)))
  {
    assert r.data[r.pos .. r.pos + 2] == WriteShort(v);
  }

  lemma ReadWriteInt(r: Reader, v: i32)
    requires At(r, WriteInt(v))
    ensures ReadInt(r) == Ok(Parsed(v, Skip(r, 4)))
  {
    assert r.data[r.pos .. r.pos + 4] == WriteInt(v);
  }

  lemma ReadWriteLong(r: Reader, v: i64)
    requires At(r, WriteLong(v))
    ensures ReadLong(r) == Ok(Parsed(v, Skip(r, 8)))
  {
    assert r.data[r.pos .. r.pos + 8] == WriteLong(v);
  }

  lemma ReadWriteByte(r: Reader, v: byte)
    requires At(r, WriteByte(v))
    ensures ReadByte(r) == Ok(Parsed(v, Skip(r, 1)))
  {
    assert r.data[r.pos .. r.pos + 1] == WriteByte(v);
  }

  /** `ReadBool` accepts any nonzero byte as true; `WriteBool` only writes 0 or 1. */
  lemma ReadWriteBool(r: Reader, b: bool)
    requires At(r, WriteBool(b))
    ensures ReadBool(r) == Ok(Parsed(b, Skip(r, 1)))
  {
    assert r.data[r.pos .. r.pos + 1] == WriteBool(b);
  }

  /** Strings round-trip when their length fits the i16 prefix. */
  lemma ReadWriteString(r: Reader, s: seq<byte>)
    requires |s| < 0x8000
    requires At(r, WriteString(s))
    ensures ReadString(r) == Ok(Parsed(s, Skip(r, |s| + 2)))
  {
    var bs := WriteString(s);
    assert bs == WriteShort(Wrap16(|s|)) + s;
    AtSplit(r, WriteShort(Wrap16(|s|)), s);
    ReadWriteShort(r, Wrap16(|s|));
    if |s| > 0 {
      assert r.data[r.pos + 2 .. r.pos + 2 + |s|] == s;
    }
  }

  /** A string of 32768..65535 bytes gets a negative length prefix, so it
      cannot be read back. */
  lemma LongStringUnreadable(r: Reader, s: seq<byte>)
    requires 0x8000 <= |s| < 0x1_0000
    requires At(r, WriteString(s))
    ensures ReadString(r) == Err(NegativeLength)
  {
    assert WriteString(s)[..2] == WriteShort(Wrap16(|s|));
    AtSplit(r, WriteShort(Wrap16(|s|)), s);
    ReadWriteShort(r, Wrap16(|s|));
  }

  lemma ReadWriteUInt128(r: Reader, v: u128)
    requires At(r, WriteUInt128(v))
    ensures ReadUInt128(r) == Ok(Parsed(v, Skip(r, 16)))
  {
    var b := ToLE(v, 16);
    var d := r.data[r.pos .. r.pos + 16];
    assert d == SwapWords(b);
    PowValues();
    FromToLE(v, 16);
    SwapWordsTwice(b);
    var w := ReadInt(r).value.value;
    WordBytes(b, 3);
    assert d[0..4] == WriteInt(Word(b, 3));
    ReadWriteInt(r, Word(b, 3));
    assert d[4..8] == WriteInt(Word(b, 2));
    assert At(Skip(r, 4), WriteInt(Word(b, 2))) by { WordBytes(b, 2); }
    ReadWriteInt(Skip(r, 4), Word(b, 2));
    assert d[8..12] == WriteInt(Word(b, 1)) by { WordBytes(b, 1); }
    ReadWriteInt(Skip(r, 8), Word(b, 1));
    assert d[12..16] == WriteInt(Word(b, 0)) by { WordBytes(b, 0); }
    ReadWriteInt(Skip(r, 12), Word(b, 0));
    WordBytes(b, 0);
    WordBytes(b, 1);
    WordBytes(b, 2);
  }

  lemma {:induction false} ToLEZero(n: nat)
    ensures ToLE(0, n) == Zeros(n)
  {
    if n > 0 {
      ToLEZero(n - 1);
    }
  }

  /** The word swap is visible on the wire: 1 is written as the ints 0, 0, 0
      and then 1, so its low byte lands in position 12, not 0. */
  lemma UInt128OneLayout()
    ensures WriteUInt128(1) == WriteInt(0) + WriteInt(0) + WriteInt(0) + WriteInt(1)
  {
    var b := ToLE(1, 16);
    ToLEZero(15);
    ToLEZero(4);
    ToLEZero(3);
    assert b == [1] + Zeros(15);
    assert WriteInt(0) == Zeros(4);
    assert WriteInt(1) == [1] + Zeros(3);
    assert b[0..4] == [1] + Zeros(3);
    assert b[4..8] == Zeros(4);
    assert b[8..12] == Zeros(4);
    assert b[12..16] == Zeros(4);
    WordBytes(b, 0);
    WordBytes(b, 1);
    WordBytes(b, 2);
    WordBytes(b, 3);
  }

  lemma ReadWriteBytes(r: Reader, bs: seq<byte>)
    requires At(r, WriteBytes(bs))
    ensures ReadBytes(r, |bs|) == Ok(Parsed(bs, Skip(r, |bs|)))
  {
    assert r.data[r.pos .. r.pos + |bs|] == bs;
  }

  /** Signed and unsigned writes of the same bits agree. */
  lemma UnsignedWritesAgree(s: i16, i: i32, l: i64)
    ensures WriteShort(s) == WriteUShort(Unsigned(s, 2))
    ensures WriteInt(i) == WriteUInt(Unsigned(i, 4))
    ensures WriteLong(l) == WriteULong(Unsigned(l, 8))
  {
    PowValues();
  }

  /** A fixed-size string ends in a zero byte, and when the string itself has
      no zero byte that terminator is the first zero: the string can be
      recovered by reading up to it. */
  lemma FixedSizeStringTerminated(s: seq<byte>, len: int)
    requires |s| < len
    requires forall i :: 0 <= i < |s| ==> s[i] != 0
    ensures WriteFixedSizeString(s, len).Ok?
    ensures var bs := WriteFixedSizeString(s, len).value;
      bs[|s|] == 0 && forall i :: 0 <= i < |s| ==> bs[i] != 0
  {
  }
}
