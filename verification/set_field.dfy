/** The records the server sends when a character enters a field
    (`Actors/GameSession.cs`): `CrcSeed`, `CharName`, `CharStats` and
    `SetFieldResp`. */
module SetField {
  import opened Wrappers
  import opened Bytes
  import opened Packet
  import opened FileTimes

  // ---------------------------------------------------------------------------
  // CrcSeed
  // ---------------------------------------------------------------------------

  datatype CrcSeed = CrcSeed(s1: i32, s2: i32, s3: i32)

  function EncodeCrcSeed(c: CrcSeed): (bs: seq<byte>)
    ensures |bs| == 12
    ensures DecodeSigned(bs[..4]) == c.s1 && DecodeSigned(bs[4..8]) == c.s2 && DecodeSigned(bs[8..]) == c.s3
  {
    var bs := WriteInt(c.s1) + WriteInt(c.s2) + WriteInt(c.s3);
    assert bs[..4] == WriteInt(c.s1) && bs[4..8] == WriteInt(c.s2) && bs[8..] == WriteInt(c.s3);
    bs
  }

  /** The all-zero seed is twelve zero bytes. */
  lemma ZeroSeed()
    ensures EncodeCrcSeed(CrcSeed(0, 0, 0)) == Zeros(12)
  {
    PowValues();
    assert WriteInt(0) == [0, 0, 0, 0];
  }

  // ---------------------------------------------------------------------------
  // CharName
  // ---------------------------------------------------------------------------

  const NameWidth: nat := 13

  /** A name in a 13-byte zero-padded field; a name of 13 bytes or more has
      no room for its terminator and is refused. */
  function EncodeCharName(name: seq<byte>): (res: Result<seq<byte>>)
    ensures res.Ok? <==> |name| < NameWidth
    ensures res.Err? ==> res.error == FixedStringOverflow
    ensures res.Ok? ==> |res.value| == NameWidth && res.value[..|name|] == name
                        && forall i :: |name| <= i < NameWidth ==> res.value[i] == 0
  {
    WriteFixedSizeString(name, NameWidth)
  }

  /** How a reader recovers a zero-terminated name: the bytes before the
      first zero. */
  function TakeUntilZero(bs: seq<byte>): (s: seq<byte>)
    ensures s <= bs && forall i :: 0 <= i < |s| ==> s[i] != 0
    ensures |s| < |bs| ==> bs[|s|] == 0
  {
    if |bs| == 0 || bs[0] == 0 then [] else [bs[0]] + TakeUntilZero(bs[1..])
  }

  lemma {:induction false} TakeUntilZeroPrefix(s: seq<byte>, rest: seq<byte>)
    requires forall i :: 0 <= i < |s| ==> s[i] != 0
    requires 0 < |rest| && rest[0] == 0
    ensures TakeUntilZero(s + rest) == s
    decreases |s|
  {
    if |s| > 0 {
      assert (s + rest)[1..] == s[1..] + rest;
      TakeUntilZeroPrefix(s[1..], rest);
    } else {
      assert s + rest == rest;
    }
  }

  /** A name without zero bytes is recovered from its field. */
  lemma CharNameRoundTrip(name: seq<byte>)
    requires |name| < NameWidth
    requires forall i :: 0 <= i < |name| ==> name[i] != 0
    ensures TakeUntilZero(EncodeCharName(name).value) == name
  {
    var bs := EncodeCharName(name).value;
    assert bs == name + bs[|name|..];
    TakeUntilZeroPrefix(name, bs[|name|..]);
  }

  // ---------------------------------------------------------------------------
  // CharStats
  // ---------------------------------------------------------------------------

  datatype Gender = Male | Female

  function GenderByte(g: Gender): byte
  {
    match g
    case Male => 0
    case Female => 1
  }

  datatype SkinColor = Normal | Dark | Black | Pale | Blue | Green | White | Pink

  function SkinColorByte(c: SkinColor): byte
  {
    match c
    case Normal => 0
    case Dark => 1
    case Black => 2
    case Pale => 3
    case Blue => 4
    case Green => 5
    case White => 9
    case Pink => 10
  }

  /** How a reader maps a gender byte back to the enum: 0 and 1 name a
      member, every other byte none. */
  function GenderOf(b: byte): (g: Option<Gender>)
    ensures g.Some? <==> b < 2
    ensures g.Some? ==> GenderByte(g.value) == b
  {
    if b == 0 then Some(Male) else if b == 1 then Some(Female) else None
  }

  lemma GenderRoundTrip(g: Gender)
    ensures GenderOf(GenderByte(g)) == Some(g)
  {
  }

  /** How a reader maps a skin-colour byte back to the enum: 0 to 5, 9 and
      10 name a member, every other byte none. */
  function SkinColorOf(b: byte): (c: Option<SkinColor>)
    ensures c.Some? <==> b <= 5 || b == 9 || b == 10
    ensures c.Some? ==> SkinColorByte(c.value) == b
  {
    match b
    case 0 => Some(Normal)
    case 1 => Some(Dark)
    case 2 => Some(Black)
    case 3 => Some(Pale)
    case 4 => Some(Blue)
    case 5 => Some(Green)
    case 9 => Some(White)
    case 10 => Some(Pink)
    case _ => None
  }

  lemma SkinColorRoundTrip(c: SkinColor)
    ensures SkinColorOf(SkinColorByte(c)) == Some(c)
  {
  }

  datatype CharStats = CharStats(
    id: i32, name: seq<byte>, gender: Gender, skinColor: SkinColor,
    faceId: i32, hairId: i32, level: byte, jobId: i16,
    str: i16, dex: i16, int_: i16, luk: i16,
    hp: i32, maxHp: i32, mp: i32, maxMp: i32,
    ap: i16, sp: i16, exp: i32, pop: i16, tmpExp: i32,
    fieldId: i32, portal: byte, playtime: i32, subJob: i16)

  // ---------------------------------------------------------------------------
  // Fixed-width fields
  // ---------------------------------------------------------------------------

  /** The widths of the fixed-size fields a record writes one after another. */
  datatype Width = W8 | W16 | W32 | W64

  /** One fixed-size field value: a byte, or a signed i16, i32 or i64. */
  datatype Scalar = U8(b: byte) | S16(s: i16) | S32(i: i32) | S64(l: i64)

  function WidthOf(x: Scalar): Width
  {
    match x
    case U8(_) => W8
    case S16(_) => W16
    case S32(_) => W32
    case S64(_) => W64
  }

  function ByteCount(w: Width): nat
  {
    match w
    case W8 => 1
    case W16 => 2
    case W32 => 4
    case W64 => 8
  }

  function Widths(xs: seq<Scalar>): (ws: seq<Width>)
    ensures |ws| == |xs| && forall i :: 0 <= i < |xs| ==> ws[i] == WidthOf(xs[i])
  {
    seq(|xs|, i requires 0 <= i < |xs| => WidthOf(xs[i]))
  }

  /** The bytes a layout of widths occupies. */
  function Size(ws: seq<Width>): nat
  {
    if |ws| == 0 then 0 else ByteCount(ws[0]) + Size(ws[1..])
  }

  lemma WidthsCons(x: Scalar, rest: seq<Scalar>)
    ensures Widths([x] + rest) == [WidthOf(x)] + Widths(rest)
  {
  }

  function EncodeScalar(x: Scalar): (bs: seq<byte>)
    ensures |bs| == ByteCount(WidthOf(x))
  {
    match x
    case U8(v) => WriteByte(v)
    case S16(v) => WriteShort(v)
    case S32(v) => WriteInt(v)
    case S64(v) => WriteLong(v)
  }

  function DecodeScalar(w: Width, r: Reader): (res: Result<Parsed<Scalar>>)
    ensures res.Ok? <==> ByteCount(w) <= Remaining(r)
    ensures res.Err? ==> res.error == Truncated
    ensures res.Ok? ==> WidthOf(res.value.value) == w && At(r, EncodeScalar(res.value.value))
                        && res.value.next == Skip(r, ByteCount(w))
  {
    match w
    case W8 => var v :- ReadByte(r); Ok(Parsed(U8(v.value), v.next))
    case W16 => var v :- ReadShort(r); Ok(Parsed(S16(v.value), v.next))
    case W32 => var v :- ReadInt(r); Ok(Parsed(S32(v.value), v.next))
    case W64 => var v :- ReadLong(r); Ok(Parsed(S64(v.value), v.next))
  }

  lemma ScalarRoundTrip(r: Reader, x: Scalar)
    requires At(r, EncodeScalar(x))
    ensures DecodeScalar(WidthOf(x), r) == Ok(Parsed(x, Skip(r, ByteCount(WidthOf(x)))))
  {
    match x
    case U8(v) => ReadWriteByte(r, v);
    case S16(v) => ReadWriteShort(r, v);
    case S32(v) => ReadWriteInt(r, v);
    case S64(v) => ReadWriteLong(r, v);
  }

  /** The fields one after another. */
  function EncodeScalars(xs: seq<Scalar>): (bs: seq<byte>)
    ensures |bs| == Size(Widths(xs))
  {
    if |xs| == 0 then []
    else
      assert Widths(xs)[1..] == Widths(xs[1..]);
      EncodeScalar(xs[0]) + EncodeScalars(xs[1..])
  }

  lemma {:induction false} EncodeScalarsAppend(xs: seq<Scalar>, ys: seq<Scalar>)
    ensures EncodeScalars(xs + ys) == EncodeScalars(xs) + EncodeScalars(ys)
    decreases |xs|
  {
    if |xs| == 0 {
      assert xs + ys == ys;
    } else {
      assert (xs + ys)[0] == xs[0] && (xs + ys)[1..] == xs[1..] + ys;
      EncodeScalarsAppend(xs[1..], ys);
    }
  }

  /** A reader of a fixed layout: it succeeds exactly when the layout's bytes
      are all there, and reads a field of each width in order. */
  function DecodeScalars(ws: seq<Width>, r: Reader): (res: Result<Parsed<seq<Scalar>>>)
    ensures res.Ok? <==> Size(ws) <= Remaining(r)
    ensures res.Err? ==> res.error == Truncated
    ensures res.Ok? ==> Widths(res.value.value) == ws && res.value.next == Skip(r, Size(ws))
    decreases |ws|
  {
    if |ws| == 0 then Ok(Parsed([], r))
    else
      match DecodeScalar(ws[0], r)
      case Err(e) => Err(e)
      case Ok(x) =>
        match DecodeScalars(ws[1..], x.next)
        case Err(e) => Err(e)
        case Ok(rest) =>
          WidthsCons(x.value, rest.value);
          assert [ws[0]] + ws[1..] == ws;
          Ok(Parsed([x.value] + rest.value, rest.next))
  }

  lemma DecodeScalarsStep(ws: seq<Width>, r: Reader, x: Scalar, r1: Reader, rest: seq<Scalar>, r2: Reader)
    requires |ws| > 0
    requires DecodeScalar(ws[0], r) == Ok(Parsed(x, r1))
    requires DecodeScalars(ws[1..], r1) == Ok(Parsed(rest, r2))
    ensures DecodeScalars(ws, r) == Ok(Parsed([x] + rest, r2))
  {
  }

  lemma {:induction false} ScalarsRoundTrip(r: Reader, xs: seq<Scalar>)
    requires At(r, EncodeScalars(xs))
    ensures DecodeScalars(Widths(xs), r) == Ok(Parsed(xs, Skip(r, |EncodeScalars(xs)|)))
    decreases |xs|
  {
    if |xs| == 0 {
      assert Skip(r, 0) == r;
    } else {
      var head := EncodeScalar(xs[0]);
      var tail := EncodeScalars(xs[1..]);
      AtSplit(r, head, tail);
      ScalarRoundTrip(r, xs[0]);
      var r1 := Skip(r, |head|);
      ScalarsRoundTrip(r1, xs[1..]);
      assert Widths(xs)[1..] == Widths(xs[1..]);
      assert Skip(r1, |tail|) == Skip(r, |EncodeScalars(xs)|);
      DecodeScalarsStep(Widths(xs), r, xs[0], r1, xs[1..], Skip(r1, |tail|));
      assert [xs[0]] + xs[1..] == xs;
    }
  }

  // ---------------------------------------------------------------------------
  // The stats body
  // ---------------------------------------------------------------------------

  lemma {:induction false} SizeAppend(a: seq<Width>, b: seq<Width>)
    ensures Size(a + b) == Size(a) + Size(b)
    decreases |a|
  {
    if |a| == 0 {
      assert a + b == b;
    } else {
      assert (a + b)[1..] == a[1..] + b;
      SizeAppend(a[1..], b);
    }
  }

  lemma WidthsAppend(xs: seq<Scalar>, ys: seq<Scalar>)
    ensures Widths(xs + ys) == Widths(xs) + Widths(ys)
  {
  }

  /* Everything `CharStats.EncodePacket` writes after the name, in the groups
     and the order it writes them. */

  /** Gender and skin colour, face and hair. */
  function Looks(c: CharStats): seq<Scalar>
  {
    [U8(GenderByte(c.gender)), U8(SkinColorByte(c.skinColor)), S32(c.faceId), S32(c.hairId)]
  }

  /** Three pet slots, always empty. */
  const PetSlots: seq<Scalar> := [S64(0), S64(0), S64(0)]

  /** Level and job, then the four base stats. */
  function Career(c: CharStats): seq<Scalar>
  {
    [U8(c.level), S16(c.jobId), S16(c.str), S16(c.dex), S16(c.int_), S16(c.luk)]
  }

  /** HP and MP with their maxima, then AP and SP. */
  function Vitals(c: CharStats): seq<Scalar>
  {
    [S32(c.hp), S32(c.maxHp), S32(c.mp), S32(c.maxMp), S16(c.ap), S16(c.sp)]
  }

  /** Experience, fame and the temporary experience; the field and portal;
      play time and the sub-job. */
  function Progress(c: CharStats): seq<Scalar>
  {
    [S32(c.exp), S16(c.pop), S32(c.tmpExp), S32(c.fieldId), U8(c.portal), S32(c.playtime), S16(c.subJob)]
  }

  /** The friend limit 30 and an empty linked character. */
  const Trailer: seq<Scalar> := [U8(30), U8(0)]

  function StatsScalars(c: CharStats): seq<Scalar>
  {
    Looks(c) + PetSlots + Career(c) + Vitals(c) + Progress(c) + Trailer
  }

  const LooksLayout: seq<Width> := [W8, W8, W32, W32]
  const PetsLayout: seq<Width> := [W64, W64, W64]
  const CareerLayout: seq<Width> := [W8, W16, W16, W16, W16, W16]
  const VitalsLayout: seq<Width> := [W32, W32, W32, W32, W16, W16]
  const ProgressLayout: seq<Width> := [W32, W16, W32, W32, W8, W32, W16]
  const TrailerLayout: seq<Width> := [W8, W8]

  /** The widths of the body, which a reader knows without the record. */
  const StatsLayout: seq<Width> :=
    LooksLayout + PetsLayout + CareerLayout + VitalsLayout + ProgressLayout + TrailerLayout

  lemma GroupSizes()
    ensures Size(LooksLayout) == 10 && Size(PetsLayout) == 24 && Size(CareerLayout) == 11
    ensures Size(VitalsLayout) == 20 && Size(ProgressLayout) == 21 && Size(TrailerLayout) == 2
  {
  }

  /** The body is 28 fields in 88 bytes. */
  lemma StatsLayoutSize()
    ensures |StatsLayout| == 28 && Size(StatsLayout) == 88
  {
    var a := LooksLayout + PetsLayout;
    var b := a + CareerLayout;
    var c := b + VitalsLayout;
    var d := c + ProgressLayout;
    GroupSizes();
    SizeAppend(LooksLayout, PetsLayout);
    SizeAppend(a, CareerLayout);
    SizeAppend(b, VitalsLayout);
    SizeAppend(c, ProgressLayout);
    SizeAppend(d, TrailerLayout);
  }

  lemma GroupWidths(c: CharStats)
    ensures Widths(Looks(c)) == LooksLayout && Widths(PetSlots) == PetsLayout
    ensures Widths(Career(c)) == CareerLayout && Widths(Vitals(c)) == VitalsLayout
    ensures Widths(Progress(c)) == ProgressLayout && Widths(Trailer) == TrailerLayout
  {
  }

  /** Every record's body has the same layout. */
  lemma StatsWidths(c: CharStats)
    ensures Widths(StatsScalars(c)) == StatsLayout
  {
    var a := Looks(c) + PetSlots;
    var b := a + Career(c);
    var d := b + Vitals(c);
    var e := d + Progress(c);
    GroupWidths(c);
    WidthsAppend(Looks(c), PetSlots);
    WidthsAppend(a, Career(c));
    WidthsAppend(b, Vitals(c));
    WidthsAppend(d, Progress(c));
    WidthsAppend(e, Trailer);
  }

  function StatsBody(c: CharStats): (bs: seq<byte>)
    ensures |bs| == 88 && bs[86..] == [30, 0]
    ensures bs == EncodeScalars(StatsScalars(c)) && Widths(StatsScalars(c)) == StatsLayout
  {
    StatsWidths(c);
    StatsLayoutSize();
    var front := Looks(c) + PetSlots + Career(c) + Vitals(c) + Progress(c);
    EncodeScalarsAppend(front, Trailer);
    assert EncodeScalars(Trailer) == [30, 0] by {
      assert Trailer[1..] == [U8(0)];
    }
    EncodeScalars(StatsScalars(c))
  }

  /** `CharStats.EncodePacket`: the id, the name field, then the body. It
      fails exactly when the name does not fit its field. */
  function EncodeCharStats(c: CharStats): (res: Result<seq<byte>>)
    ensures res.Ok? <==> |c.name| < NameWidth
    ensures res.Err? ==> res.error == FixedStringOverflow
    ensures res.Ok? ==> |res.value| == 105 && res.value[103..] == [30, 0]
    ensures res.Ok? ==> DecodeSigned(res.value[..4]) == c.id
                        && res.value[4..17] == EncodeCharName(c.name).value
  {
    var name :- EncodeCharName(c.name);
    var head := WriteInt(c.id) + name;
    var bs := head + StatsBody(c);
    assert bs[..4] == WriteInt(c.id) && bs[4..17] == name;
    assert bs[103..] == StatsBody(c)[86..];
    Ok(bs)
  }

  /** Which kind of field each place of the layout holds. */
  lemma LayoutAt()
    ensures |StatsLayout| == 28
    ensures StatsLayout[0] == W8 && StatsLayout[1] == W8 && StatsLayout[2] == W32 && StatsLayout[3] == W32
    ensures StatsLayout[7] == W8 && forall i :: 8 <= i < 13 ==> StatsLayout[i] == W16
    ensures (forall i :: 13 <= i < 17 ==> StatsLayout[i] == W32) && StatsLayout[17] == W16 && StatsLayout[18] == W16
    ensures StatsLayout[19] == W32 && StatsLayout[20] == W16 && StatsLayout[21] == W32
    ensures StatsLayout[22] == W32 && StatsLayout[23] == W8 && StatsLayout[24] == W32 && StatsLayout[25] == W16
  {
  }

  lemma FieldKinds(xs: seq<Scalar>)
    requires Widths(xs) == StatsLayout
    ensures |xs| == 28
    ensures xs[0].U8? && xs[1].U8? && xs[2].S32? && xs[3].S32? && xs[7].U8?
    ensures xs[8].S16? && xs[9].S16? && xs[10].S16? && xs[11].S16? && xs[12].S16?
    ensures xs[13].S32? && xs[14].S32? && xs[15].S32? && xs[16].S32? && xs[17].S16? && xs[18].S16?
    ensures xs[19].S32? && xs[20].S16? && xs[21].S32? && xs[22].S32? && xs[23].U8? && xs[24].S32? && xs[25].S16?
  {
    LayoutAt();
    assert |xs| == |Widths(xs)|;
    assert forall i :: 0 <= i < |xs| ==> WidthOf(xs[i]) == StatsLayout[i];
  }

  /** The record a reader rebuilds from the id, the name and the body's
      fields, taking each field from its place in the layout. The pet slots
      and the two trailing bytes carry nothing it keeps. A gender or skin
      colour byte that names no member is refused. */
  function StatsOf(id: i32, name: seq<byte>, xs: seq<Scalar>): (res: Result<CharStats>)
    requires Widths(xs) == StatsLayout
    ensures |xs| == 28
    ensures res.Ok? <==> GenderOf(xs[0].b).Some? && SkinColorOf(xs[1].b).Some?
    ensures GenderOf(xs[0].b).None? ==> res == Err(UndefinedEnumValue(xs[0].b))
    ensures GenderOf(xs[0].b).Some? && SkinColorOf(xs[1].b).None? ==> res == Err(UndefinedEnumValue(xs[1].b))
    ensures res.Ok? ==> res.value.id == id && res.value.name == name
                        && GenderByte(res.value.gender) == xs[0].b
                        && SkinColorByte(res.value.skinColor) == xs[1].b
  {
    FieldKinds(xs);
    match GenderOf(xs[0].b)
    case None => Err(UndefinedEnumValue(xs[0].b))
    case Some(gender) =>
      match SkinColorOf(xs[1].b)
      case None => Err(UndefinedEnumValue(xs[1].b))
      case Some(skin) =>
        Ok(CharStats(id, name, gender, skin, xs[2].i, xs[3].i,
                     xs[7].b, xs[8].s, xs[9].s, xs[10].s, xs[11].s, xs[12].s,
                     xs[13].i, xs[14].i, xs[15].i, xs[16].i, xs[17].s, xs[18].s,
                     xs[19].i, xs[20].s, xs[21].i, xs[22].i, xs[23].b, xs[24].i, xs[25].s))
  }

  /** The fields of a record's body give the record back. */
  lemma StatsOfScalars(c: CharStats)
    ensures Widths(StatsScalars(c)) == StatsLayout
    ensures StatsOf(c.id, c.name, StatsScalars(c)) == Ok(c)
  {
    StatsWidths(c);
    GenderRoundTrip(c.gender);
    SkinColorRoundTrip(c.skinColor);
  }

  /** A client reading `CharStats`: the id, the 13-byte name field up to its
      first zero, then the 88-byte body. It needs all 105 bytes. */
  function DecodeCharStats(r: Reader): (res: Result<Parsed<CharStats>>)
    ensures Remaining(r) < 105 ==> res == Err(Truncated)
    ensures 105 <= Remaining(r) ==> res.Ok? || res.error.UndefinedEnumValue?
    ensures res.Ok? ==> res.value.next == Skip(r, 105)
                        && At(r, WriteInt(res.value.value.id))
                        && res.value.value.name == TakeUntilZero(r.data[r.pos + 4 .. r.pos + 17])
  {
    var id :- ReadInt(r);
    var name :- ReadFixedString(id.next, NameWidth);
    StatsLayoutSize();
    var body :- DecodeScalars(StatsLayout, name.next);
    AtSlice(id.next, name.value);
    var c :- StatsOf(id.value, TakeUntilZero(name.value), body.value);
    Ok(Parsed(c, body.next))
  }

  /** Reading back what `CharStats.EncodePacket` wrote gives the record,
      when its name fits the field and holds no zero byte. */
  lemma CharStatsRoundTrip(r: Reader, c: CharStats)
    requires EncodeCharStats(c).Ok? && At(r, EncodeCharStats(c).value)
    requires forall i :: 0 <= i < |c.name| ==> c.name[i] != 0
    ensures DecodeCharStats(r) == Ok(Parsed(c, Skip(r, 105)))
  {
    var name := EncodeCharName(c.name).value;
    var body := StatsBody(c);
    assert EncodeCharStats(c).value == WriteInt(c.id) + (name + body);
    AtSplit(r, WriteInt(c.id), name + body);
    ReadWriteInt(r, c.id);
    var r1 := Skip(r, 4);
    AtSplit(r1, name, body);
    ReadWriteBytes(r1, name);
    var r2 := Skip(r1, 13);
    StatsLayoutSize();
    StatsOfScalars(c);
    ScalarsRoundTrip(r2, StatsScalars(c));
    CharNameRoundTrip(c.name);
    assert Skip(r2, 88) == Skip(r, 105);
  }

  /** The fixed character `SetFieldResp` sends: id 7, named "Test". */
  const TestName: seq<byte> := [0x54, 0x65, 0x73, 0x74]

  const TestStats: CharStats := CharStats(
    7, TestName, Male, Normal, 20000, 30000, 177, 100,
    4, 4, 4, 4, 100, 100, 100, 100,
    0, 0, 0, 10, 0, 1000000, 0, 0, 0)

  // ---------------------------------------------------------------------------
  // SetFieldResp
  // ---------------------------------------------------------------------------

  datatype SetFieldResp = SetFieldResp(channelId: i32, oldDriverId: i32, fieldKey: byte, serverTime: FileTime)

  lemma SliceOfSlice(s: seq<byte>, n: nat, i: nat, j: nat)
    requires i <= j <= n <= |s|
    ensures s[..n][i..j] == s[i..j]
  {
  }

  lemma FourParts(a: seq<byte>, b: seq<byte>, c: seq<byte>, d: seq<byte>)
    ensures var s := a + b + c + d;
      s[..|a|] == a && s[|a| .. |a| + |b|] == b
      && s[|a| + |b| .. |a| + |b| + |c|] == c && s[|a| + |b| + |c|..] == d
  {
    var s := a + b + c + d;
    assert s[..|a| + |b| + |c|] == a + b + c;
    assert s[..|a| + |b|] == a + b;
  }

  lemma ThreeParts(a: seq<byte>, b: seq<byte>, c: seq<byte>)
    ensures var s := a + (b + c);
      s[..|a|] == a && s[|a| .. |a| + |b|] == b && s[|a| + |b|..] == c
  {
    var s := a + (b + c);
    assert s[|a|..] == b + c;
  }

  /** Everything before the character stats: an empty i16, the channel and
      old driver ids, the field key, the character-data flag 1, an empty
      notification list, a zero CRC seed, the flags 1 (stats only), and two
      empty bytes. */
  function SetFieldHeader(s: SetFieldResp): (bs: seq<byte>)
    ensures |bs| == 36
    ensures bs[2..6] == WriteInt(s.channelId) && bs[6..10] == WriteInt(s.oldDriverId)
    ensures bs[10] == s.fieldKey && bs[11] == 1
    ensures bs[..2] == WriteShort(0) && bs[12..14] == WriteShort(0)
    ensures bs[14..26] == EncodeCrcSeed(CrcSeed(0, 0, 0)) && bs[26..34] == WriteLong(1)
    ensures bs[34..] == [0, 0]
  {
    var flags := WriteByte(s.fieldKey) + WriteByte(1);
    var rest := WriteShort(0) + EncodeCrcSeed(CrcSeed(0, 0, 0)) + WriteLong(1) + (WriteByte(0) + WriteByte(0));
    var head := WriteShort(0) + WriteInt(s.channelId) + WriteInt(s.oldDriverId) + flags;
    FourParts(WriteShort(0), WriteInt(s.channelId), WriteInt(s.oldDriverId), flags);
    FourParts(WriteShort(0), EncodeCrcSeed(CrcSeed(0, 0, 0)), WriteLong(1), WriteByte(0) + WriteByte(0));
    SliceAfter(head, rest, 0, 2);
    SliceAfter(head, rest, 2, 14);
    SliceAfter(head, rest, 14, 22);
    SliceAfter(head, rest, 22, 24);
    SliceBefore(head, rest, 2, 6);
    SliceBefore(head, rest, 6, 10);
    head + rest
  }

  lemma SliceAfter(a: seq<byte>, b: seq<byte>, i: nat, j: nat)
    requires i <= j <= |b|
    ensures (a + b)[|a| + i .. |a| + j] == b[i..j]
  {
    var s := (a + b)[|a| + i .. |a| + j];
    assert forall k :: 0 <= k < |s| ==> s[k] == b[i + k];
  }

  lemma SliceBefore(a: seq<byte>, b: seq<byte>, i: nat, j: nat)
    requires i <= j <= |a|
    ensures (a + b)[i..j] == a[i..j]
  {
    var s := (a + b)[i..j];
    assert forall k :: 0 <= k < |s| ==> s[k] == a[i + k];
  }

  /** The bytes of the fixed character's stats. */
  function TestStatsBytes(): (bs: seq<byte>)
    ensures |bs| == 105 && bs[103..] == [30, 0]
  {
    EncodeCharStats(TestStats).value
  }

  /** The fixed character's name fits, so its stats always encode. */
  lemma TestStatsEncode()
    ensures EncodeCharStats(TestStats) == Ok(TestStatsBytes())
    ensures TakeUntilZero(TestStatsBytes()[4..17]) == TestName
  {
    CharNameRoundTrip(TestName);
  }

  /** The logout gift: four empty i32. */
  function LogoutGift(): (bs: seq<byte>)
    ensures bs == Zeros(16)
  {
    ZeroSeed();
    assert EncodeCrcSeed(CrcSeed(0, 0, 0)) == WriteInt(0) + WriteInt(0) + WriteInt(0);
    WriteInt(0) + WriteInt(0) + WriteInt(0) + WriteInt(0)
  }

  /** `SetFieldResp.EncodePacket`: the header, the fixed character's stats,
      the logout gift, and the server time. */
  function EncodeSetFieldResp(s: SetFieldResp): (bs: seq<byte>)
    ensures |bs| == 165
    ensures bs[..36] == SetFieldHeader(s)
    ensures bs[36..141] == TestStatsBytes()
    ensures bs[141..157] == Zeros(16)
    ensures bs[157..] == WriteTime(s.serverTime)
  {
    var head := SetFieldHeader(s);
    var stats := TestStatsBytes();
    FourParts(head, stats, LogoutGift(), WriteTime(s.serverTime));
    head + stats + LogoutGift() + WriteTime(s.serverTime)
  }

  /** A client reading the response finds the channel id at offset 2. */
  lemma ChannelIdReadable(s: SetFieldResp)
    ensures var r := Start(EncodeSetFieldResp(s));
      ReadInt(Skip(r, 2)) == Ok(Parsed(s.channelId, Skip(r, 6)))
  {
    var bs := EncodeSetFieldResp(s);
    var r := Start(bs);
    SliceOfSlice(bs, 36, 2, 6);
    assert At(Skip(r, 2), WriteInt(s.channelId));
    ReadWriteInt(Skip(r, 2), s.channelId);
  }

  /** A client reading the response finds the server time's raw value at
      offset 157, the last eight bytes. */
  lemma ServerTimeReadable(s: SetFieldResp, serial: nat)
    ensures var r := Start(EncodeSetFieldResp(s));
      ReadTime(Skip(r, 157), serial) == Ok(Parsed(New(serial, s.serverTime.rawValue), Skip(r, 165)))
  {
    var bs := EncodeSetFieldResp(s);
    var r := Start(bs);
    assert At(Skip(r, 157), WriteTime(s.serverTime));
    TimeRoundTrip(Skip(r, 157), s.serverTime, serial);
  }
}
