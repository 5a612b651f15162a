/** Character and mob movement records (`Proto/Movement.cs`).

    A movement is a tagged union: one code byte, then the fields of the
    variant the code selects. The decoder's `switch` maps the 35 named codes
    to eight variants and throws for every other byte. Each variant's encoder
    writes the code byte and then its fields.

    The variants are modelled through their field lists: `Fields` lists a
    movement's fields in the order its `EncodePacket` writes them, and
    `Layout` lists the field types in the order the decoder reads them for a
    code group. `Build` is the record constructor the decoder calls, and is
    the inverse of `Fields`.
 */
module Movement {
  import opened Wrappers
  import opened Bytes
  import opened Packet
  import opened Ids
  import opened TwoD
  import opened Time

  // ---------------------------------------------------------------------------
  // MovementCode
  // ---------------------------------------------------------------------------

  const Normal: byte := 0x00
  const Jump: byte := 0x01
  const Impact: byte := 0x02
  const Immediate: byte := 0x03
  const Teleport: byte := 0x04
  const HangOnBack: byte := 0x05
  const Assaulter: byte := 0x06
  const Assassinate: byte := 0x07
  const Rush: byte := 0x08
  const StatChange: byte := 0x09
  const SitDown: byte := 0x0A
  const StartFallDown: byte := 0x0B
  const FallDown: byte := 0x0C
  const StartWings: byte := 0x0D
  const Wings: byte := 0x0E
  const MobToss: byte := 0x10
  const FlyingBlock: byte := 0x11
  const DashSlide: byte := 0x12
  const FlashJump: byte := 0x14
  const RocketBooster: byte := 0x15
  const BackstepShot: byte := 0x16
  const MobPowerKnockback: byte := 0x17
  const VerticalJump: byte := 0x18
  const CustomImpact: byte := 0x19
  const CombatStep: byte := 0x1A
  const Hit: byte := 0x1B
  const TimeBombAttack: byte := 0x1C
  const SnowballTouch: byte := 0x1D
  const BuffZoneEffect: byte := 0x1E
  const MobLadder: byte := 0x1F
  const MobRightAngle: byte := 0x20
  const MobStopNodeStart: byte := 0x21
  const MobBeforeNode: byte := 0x22
  const MobAttackRush: byte := 0x23
  const MobAttackRushStop: byte := 0x24

  /** The eight record types deriving from `Movement`. */
  datatype Kind =
    | AbsoluteKind
    | AbsoluteFallKind
    | RelativeKind
    | InstantKind
    | FallDownKind
    | FlyingKind
    | UnknownKind
    | StatChangeKind

  /** The decoder's case groups: which record a code is decoded as, or `None`
      for the `default` branch that throws. */
  function KindOf(code: byte): (k: Option<Kind>)
    ensures k.Some? <==> code <= 0x24 && code != 0x0F && code != 0x13
  {
    if code in {Normal, HangOnBack, MobAttackRush, MobAttackRushStop, Wings} then
      Some(AbsoluteKind)
    else if code in {Jump, Impact, StartWings, MobLadder, MobRightAngle, MobStopNodeStart,
                     MobBeforeNode, DashSlide, MobToss} then
      Some(RelativeKind)
    else if code in {Immediate, Teleport, SitDown, Assaulter, Assassinate, Rush} then
      Some(InstantKind)
    else if code == StatChange then Some(StatChangeKind)
    else if code == StartFallDown then Some(FallDownKind)
    else if code == FallDown then Some(AbsoluteFallKind)
    else if code == FlyingBlock then Some(FlyingKind)
    else if code in {FlashJump, RocketBooster, BackstepShot, MobPowerKnockback, VerticalJump,
                     CustomImpact, CombatStep, Hit, TimeBombAttack, SnowballTouch,
                     BuffZoneEffect} then
      Some(UnknownKind)
    else None
  }

  /** The decoder handles exactly the named codes: every byte up to 0x24
      except 0x0F and 0x13. */
  lemma DecodableCodes(code: byte)
    ensures KindOf(code).Some? <==> code <= 0x24 && code != 0x0F && code != 0x13
  {
  }

  // ---------------------------------------------------------------------------
  // MovementFooter
  // ---------------------------------------------------------------------------

  /** The action byte and the duration that end most movements. */
  datatype MovementFooter = MovementFooter(action: byte, duration: DurationMs16)

  function EncodeFooter(f: MovementFooter): (bs: seq<byte>)
    ensures |bs| == 3 && bs[0] == f.action
    ensures DecodeSigned(bs[1..]) == f.duration.dur.Milliseconds()
  {
    var bs := WriteByte(f.action) + EncodeDurationMs16(f.duration);
    assert bs[1..] == EncodeDurationMs16(f.duration);
    bs
  }

  function DecodeFooter(r: Reader): (res: Result<Parsed<MovementFooter>>)
    ensures res.Ok? <==> 3 <= Remaining(r)
    ensures res.Err? ==> res.error == Truncated
    ensures res.Ok? ==> res.value.value.action == r.data[r.pos] && res.value.next == Skip(r, 3)
    ensures res.Ok? ==> res.value.value.duration.dur.totalMilliseconds == DecodeSigned(r.data[r.pos + 1 .. r.pos + 3])
  {
    var a :- ReadByte(r);
    var d :- DecodeDurationMs16(a.next);
    Ok(Parsed(MovementFooter(a.value, d.value), d.next))
  }

  /** What a footer turns into on the wire: the duration keeps only its
      millisecond component. */
  function SettleFooter(f: MovementFooter): (g: MovementFooter)
    ensures g.action == f.action
    ensures g == f <==> SubSecond(f.duration.dur)
  {
    SubSecondMilliseconds(f.duration.dur);
    MovementFooter(f.action, DurationMs16(FromMilliseconds(f.duration.dur.Milliseconds())))
  }

  lemma FooterRoundTrip(r: Reader, f: MovementFooter)
    requires At(r, EncodeFooter(f))
    ensures DecodeFooter(r) == Ok(Parsed(SettleFooter(f), Skip(r, 3)))
  {
    AtSplit(r, WriteByte(f.action), EncodeDurationMs16(f.duration));
    ReadWriteByte(r, f.action);
    DurationMs16RoundTrip(Skip(r, 1), f.duration);
  }

  // ---------------------------------------------------------------------------
  // Fields
  // ---------------------------------------------------------------------------

  datatype FieldType = Vec2Field | FootholdField | FooterField | BoolField

  datatype Field =
    | Vec2Value(vec: Vec2)
    | FootholdValue(foothold: FootholdId)
    | FooterValue(footer: MovementFooter)
    | BoolValue(flag: bool)

  function TypeOf(f: Field): FieldType
  {
    match f
    case Vec2Value(_) => Vec2Field
    case FootholdValue(_) => FootholdField
    case FooterValue(_) => FooterField
    case BoolValue(_) => BoolField
  }

  function Types(fs: seq<Field>): (ts: seq<FieldType>)
    ensures |ts| == |fs| && forall i :: 0 <= i < |fs| ==> ts[i] == TypeOf(fs[i])
  {
    seq(|fs|, i requires 0 <= i < |fs| => TypeOf(fs[i]))
  }

  function FieldSize(t: FieldType): nat
  {
    match t
    case Vec2Field => 4
    case FootholdField => 2
    case FooterField => 3
    case BoolField => 1
  }

  function LayoutSize(ts: seq<FieldType>): nat
  {
    if |ts| == 0 then 0 else FieldSize(ts[0]) + LayoutSize(ts[1..])
  }

  function EncodeField(f: Field): (bs: seq<byte>)
    ensures |bs| == FieldSize(TypeOf(f))
  {
    match f
    case Vec2Value(v) => EncodeVec2(v)
    case FootholdValue(h) => EncodeFoothold(h)
    case FooterValue(ft) => EncodeFooter(ft)
    case BoolValue(b) => WriteBool(b)
  }

  function DecodeField(t: FieldType, r: Reader): (res: Result<Parsed<Field>>)
    ensures res.Ok? <==> FieldSize(t) <= Remaining(r)
    ensures res.Err? ==> res.error == Truncated
    ensures res.Ok? ==> TypeOf(res.value.value) == t && res.value.next == Skip(r, FieldSize(t))
  {
    match t
    case Vec2Field =>
      var v :- DecodeVec2(r);
      Ok(Parsed(Vec2Value(v.value), v.next))
    case FootholdField =>
      var h :- DecodeFoothold(r);
      Ok(Parsed(FootholdValue(h.value), h.next))
    case FooterField =>
      var ft :- DecodeFooter(r);
      Ok(Parsed(FooterValue(ft.value), ft.next))
    case BoolField =>
      var b :- ReadBool(r);
      Ok(Parsed(BoolValue(b.value), b.next))
  }

  function SettleField(f: Field): (g: Field)
    ensures TypeOf(g) == TypeOf(f)
  {
    match f
    case FooterValue(ft) => FooterValue(SettleFooter(ft))
    case _ => f
  }

  lemma FieldRoundTrip(r: Reader, f: Field)
    requires At(r, EncodeField(f))
    ensures DecodeField(TypeOf(f), r) == Ok(Parsed(SettleField(f), Skip(r, FieldSize(TypeOf(f)))))
  {
    match f
    case Vec2Value(v) => ReadWriteVec2(r, v);
    case FootholdValue(h) => FootholdCodecLaws(); assert FootholdCodec().encode(h) == EncodeField(f);
    case FooterValue(ft) => FooterRoundTrip(r, ft);
    case BoolValue(b) => ReadWriteBool(r, b);
  }

  function EncodeFields(fs: seq<Field>): (bs: seq<byte>)
    ensures |bs| == LayoutSize(Types(fs))
  {
    if |fs| == 0 then []
    else
      assert Types(fs)[1..] == Types(fs[1..]);
      EncodeField(fs[0]) + EncodeFields(fs[1..])
  }

  lemma TypesCons(f: Field, rest: seq<Field>, ts: seq<FieldType>)
    requires |ts| > 0 && TypeOf(f) == ts[0] && Types(rest) == ts[1..]
    ensures Types([f] + rest) == ts
  {
    assert Types([f] + rest) == [ts[0]] + ts[1..];
  }

  /** Reads one field per entry of `ts`, in order. */
  function DecodeFields(ts: seq<FieldType>, r: Reader): (res: Result<Parsed<seq<Field>>>)
    ensures res.Ok? <==> LayoutSize(ts) <= Remaining(r)
    ensures res.Err? ==> res.error == Truncated
    ensures res.Ok? ==> Types(res.value.value) == ts && res.value.next == Skip(r, LayoutSize(ts))
  {
    if |ts| == 0 then Ok(Parsed([], r))
    else
      var f :- DecodeField(ts[0], r);
      var rest :- DecodeFields(ts[1..], f.next);
      TypesCons(f.value, rest.value, ts);
      Ok(Parsed([f.value] + rest.value, rest.next))
  }

  function SettleFields(fs: seq<Field>): (gs: seq<Field>)
    ensures |gs| == |fs| && Types(gs) == Types(fs)
  {
    seq(|fs|, i requires 0 <= i < |fs| => SettleField(fs[i]))
  }

  /** Decoding a layout is decoding its first field, then the rest. */
  lemma DecodeFieldsStep(ts: seq<FieldType>, r: Reader, f: Field, r1: Reader, rest: seq<Field>, r2: Reader)
    requires |ts| > 0
    requires DecodeField(ts[0], r) == Ok(Parsed(f, r1))
    requires DecodeFields(ts[1..], r1) == Ok(Parsed(rest, r2))
    ensures DecodeFields(ts, r) == Ok(Parsed([f] + rest, r2))
  {
  }

  lemma {:induction false} FieldsRoundTrip(r: Reader, fs: seq<Field>)
    requires At(r, EncodeFields(fs))
    ensures DecodeFields(Types(fs), r) == Ok(Parsed(SettleFields(fs), Skip(r, |EncodeFields(fs)|)))
    decreases |fs|
  {
    if |fs| > 0 {
      var head := EncodeField(fs[0]);
      var tail := EncodeFields(fs[1..]);
      assert EncodeFields(fs) == head + tail;
      AtSplit(r, head, tail);
      var r1 := Skip(r, |head|);
      FieldRoundTrip(r, fs[0]);
      FieldsRoundTrip(r1, fs[1..]);
      FieldsCons(fs);
      DecodeFieldsStep(Types(fs), r, SettleField(fs[0]), r1, SettleFields(fs[1..]), Skip(r1, |tail|));
    }
  }

  lemma FieldsCons(fs: seq<Field>)
    requires |fs| > 0
    ensures Types(fs)[0] == TypeOf(fs[0]) && Types(fs)[1..] == Types(fs[1..])
    ensures SettleFields(fs) == [SettleField(fs[0])] + SettleFields(fs[1..])
  {
    assert Types(fs)[1..] == Types(fs[1..]);
    assert SettleFields(fs) == [SettleField(fs[0])] + SettleFields(fs[1..]);
  }

  // ---------------------------------------------------------------------------
  // Movement
  // ---------------------------------------------------------------------------

  datatype Movement =
    | AbsoluteMovement(code: byte, pos: Vec2, velocity: Vec2, foothold: FootholdId,
                       footholdFallStart: FootholdId, footer: MovementFooter)
    | AbsoluteFallMovement(code: byte, pos: Vec2, velocity: Vec2, foothold: FootholdId,
                           footholdFallStart: FootholdId, offset: Vec2, footer: MovementFooter)
    | RelativeMovement(code: byte, velocity: Vec2, footer: MovementFooter)
    | InstantMovement(code: byte, pos: Vec2, foothold: FootholdId, footer: MovementFooter)
    | FallDownMovement(code: byte, velocity: Vec2, fhFallStart: FootholdId, footer: MovementFooter)
    | FlyingMovement(code: byte, pos: Vec2, velocity: Vec2, footer: MovementFooter)
    | UnknownMovement(code: byte, footer: MovementFooter)
    | StatChangeMovement(code: byte, movementAffecting: bool)

  function VariantKind(m: Movement): Kind
  {
    match m
    case AbsoluteMovement(_, _, _, _, _, _) => AbsoluteKind
    case AbsoluteFallMovement(_, _, _, _, _, _, _) => AbsoluteFallKind
    case RelativeMovement(_, _, _) => RelativeKind
    case InstantMovement(_, _, _, _) => InstantKind
    case FallDownMovement(_, _, _, _) => FallDownKind
    case FlyingMovement(_, _, _, _) => FlyingKind
    case UnknownMovement(_, _) => UnknownKind
    case StatChangeMovement(_, _) => StatChangeKind
  }

  /** The field types the decoder reads after the code, per case group. */
  function Layout(k: Kind): seq<FieldType>
  {
    match k
    case AbsoluteKind => [Vec2Field, Vec2Field, FootholdField, FootholdField, FooterField]
    case RelativeKind => [Vec2Field, FooterField]
    case InstantKind => [Vec2Field, FootholdField, FooterField]
    case StatChangeKind => [BoolField]
    case FallDownKind => [Vec2Field, FootholdField, FooterField]
    case AbsoluteFallKind => [Vec2Field, Vec2Field, FootholdField, FootholdField, Vec2Field, FooterField]
    case FlyingKind => [Vec2Field, Vec2Field, FooterField]
    case UnknownKind => [FooterField]
  }

  /** A movement's fields in the order its `EncodePacket` writes them; they
      have the types the decoder reads for the same variant. */
  function Fields(m: Movement): (fs: seq<Field>)
    ensures Types(fs) == Layout(VariantKind(m))
  {
    match m
    case AbsoluteMovement(_, p, v, h, s, ft) =>
      [Vec2Value(p), Vec2Value(v), FootholdValue(h), FootholdValue(s), FooterValue(ft)]
    case AbsoluteFallMovement(_, p, v, h, s, o, ft) =>
      [Vec2Value(p), Vec2Value(v), FootholdValue(h), FootholdValue(s), Vec2Value(o), FooterValue(ft)]
    case RelativeMovement(_, v, ft) => [Vec2Value(v), FooterValue(ft)]
    case InstantMovement(_, p, h, ft) => [Vec2Value(p), FootholdValue(h), FooterValue(ft)]
    case FallDownMovement(_, v, s, ft) => [Vec2Value(v), FootholdValue(s), FooterValue(ft)]
    case FlyingMovement(_, p, v, ft) => [Vec2Value(p), Vec2Value(v), FooterValue(ft)]
    case UnknownMovement(_, ft) => [FooterValue(ft)]
    case StatChangeMovement(_, b) => [BoolValue(b)]
  }

  /** The record constructor the decoder calls for a case group. */
  function Build(code: byte, k: Kind, fs: seq<Field>): (m: Movement)
    requires Types(fs) == Layout(k)
    ensures m.code == code && VariantKind(m) == k && Fields(m) == fs
  {
    match k
    case AbsoluteKind =>
      AbsoluteMovement(code, fs[0].vec, fs[1].vec, fs[2].foothold, fs[3].foothold, fs[4].footer)
    case AbsoluteFallKind =>
      AbsoluteFallMovement(code, fs[0].vec, fs[1].vec, fs[2].foothold, fs[3].foothold, fs[4].vec, fs[5].footer)
    case RelativeKind => RelativeMovement(code, fs[0].vec, fs[1].footer)
    case InstantKind => InstantMovement(code, fs[0].vec, fs[1].foothold, fs[2].footer)
    case FallDownKind => FallDownMovement(code, fs[0].vec, fs[1].foothold, fs[2].footer)
    case FlyingKind => FlyingMovement(code, fs[0].vec, fs[1].vec, fs[2].footer)
    case UnknownKind => UnknownMovement(code, fs[0].footer)
    case StatChangeKind => StatChangeMovement(code, fs[0].flag)
  }

  /** A movement is determined by its code, its variant and its fields. */
  lemma FieldsDetermine(m: Movement, n: Movement)
    requires m.code == n.code && VariantKind(m) == VariantKind(n) && Fields(m) == Fields(n)
    ensures m == n
  {
    var fs := Fields(m);
    match m
    case AbsoluteMovement(_, _, _, _, _, _) => assert fs[0] == Fields(n)[0] && fs[1] == Fields(n)[1] && fs[2] == Fields(n)[2] && fs[3] == Fields(n)[3] && fs[4] == Fields(n)[4];
    case AbsoluteFallMovement(_, _, _, _, _, _, _) => assert fs[0] == Fields(n)[0] && fs[1] == Fields(n)[1] && fs[2] == Fields(n)[2] && fs[3] == Fields(n)[3] && fs[4] == Fields(n)[4] && fs[5] == Fields(n)[5];
    case RelativeMovement(_, _, _) => assert fs[0] == Fields(n)[0] && fs[1] == Fields(n)[1];
    case InstantMovement(_, _, _, _) => assert fs[0] == Fields(n)[0] && fs[1] == Fields(n)[1] && fs[2] == Fields(n)[2];
    case FallDownMovement(_, _, _, _) => assert fs[0] == Fields(n)[0] && fs[1] == Fields(n)[1] && fs[2] == Fields(n)[2];
    case FlyingMovement(_, _, _, _) => assert fs[0] == Fields(n)[0] && fs[1] == Fields(n)[1] && fs[2] == Fields(n)[2];
    case UnknownMovement(_, _) => assert fs[0] == Fields(n)[0];
    case StatChangeMovement(_, _) => assert fs[0] == Fields(n)[0];
  }

  /** The encoded size of each variant. */
  function EncodedSize(k: Kind): nat
  {
    match k
    case AbsoluteKind => 16
    case AbsoluteFallKind => 20
    case RelativeKind => 8
    case InstantKind => 10
    case FallDownKind => 10
    case FlyingKind => 12
    case UnknownKind => 4
    case StatChangeKind => 2
  }

  lemma LayoutSizeStep(ts: seq<FieldType>, i: nat)
    requires i < |ts|
    ensures LayoutSize(ts[i..]) == FieldSize(ts[i]) + LayoutSize(ts[i + 1..])
  {
    assert ts[i..][1..] == ts[i + 1..];
  }

  lemma LayoutSizes(k: Kind)
    ensures 1 + LayoutSize(Layout(k)) == EncodedSize(k)
  {
    var ts := Layout(k);
    assert ts[|ts|..] == [];
    if 5 < |ts| { LayoutSizeStep(ts, 5); }
    if 4 < |ts| { LayoutSizeStep(ts, 4); }
    if 3 < |ts| { LayoutSizeStep(ts, 3); }
    if 2 < |ts| { LayoutSizeStep(ts, 2); }
    if 1 < |ts| { LayoutSizeStep(ts, 1); }
    LayoutSizeStep(ts, 0);
    assert ts[0..] == ts;
  }

  /** `Movement.EncodePacket` of the base record: the code byte only. A caller
      whose static type is `Movement` gets this, not the variant's fields. */
  function EncodeBase(m: Movement): (bs: seq<byte>)
    ensures |bs| == 1 && bs[0] == m.code
  {
    WriteByte(m.code)
  }

  /** A variant's `EncodePacket`, reached through `IEncodePacket`: the code
      byte, then the variant's fields. */
  function Encode(m: Movement): (bs: seq<byte>)
    ensures |bs| == EncodedSize(VariantKind(m))
    ensures bs[..1] == EncodeBase(m) && bs[1..] == EncodeFields(Fields(m))
  {
    LayoutSizes(VariantKind(m));
    EncodeBase(m) + EncodeFields(Fields(m))
  }

  /** `Movement.DecodePacket`: the code byte selects the record, then its
      fields are read in order. */
  function Decode(r: Reader): (res: Result<Parsed<Movement>>)
    ensures Remaining(r) == 0 ==> res == Err(Truncated)
    ensures 0 < Remaining(r) && KindOf(r.data[r.pos]).None? ==>
              res == Err(UnknownMovementCode(r.data[r.pos]))
    ensures res.Ok? <==> 0 < Remaining(r) && KindOf(r.data[r.pos]).Some?
                         && EncodedSize(KindOf(r.data[r.pos]).value) <= Remaining(r)
    ensures res.Ok? ==> var m := res.value.value;
              m.code == r.data[r.pos] && KindOf(m.code) == Some(VariantKind(m))
              && res.value.next == Skip(r, EncodedSize(VariantKind(m)))
  {
    var c :- ReadByte(r);
    match KindOf(c.value)
    case None => Err(UnknownMovementCode(c.value))
    case Some(k) =>
      LayoutSizes(k);
      var fs :- DecodeFields(Layout(k), c.next);
      Ok(Parsed(Build(c.value, k, fs.value), fs.next))
  }

  /** What a movement turns into on the wire: its footer's duration keeps
      only the millisecond component. */
  function Settle(m: Movement): (n: Movement)
    ensures n.code == m.code && VariantKind(n) == VariantKind(m)
    ensures Fields(n) == SettleFields(Fields(m))
  {
    if m.StatChangeMovement? then m else m.(footer := SettleFooter(m.footer))
  }

  /** The movement survives the footer's round trip: it has no footer, or the
      footer's duration is below one second. */
  predicate Settled(m: Movement)
  {
    m.StatChangeMovement? || SubSecond(m.footer.duration.dur)
  }

  lemma SettleFixed(m: Movement)
    ensures Settle(m) == m <==> Settled(m)
  {
    if !m.StatChangeMovement? {
      assert Settle(m).footer == SettleFooter(m.footer);
    }
  }

  /** A movement whose code belongs to its variant's case group decodes to
      its settled form and consumes exactly its encoding. */
  lemma MovementRoundTrip(r: Reader, m: Movement)
    requires KindOf(m.code) == Some(VariantKind(m))
    requires At(r, Encode(m))
    ensures Decode(r) == Ok(Parsed(Settle(m), Skip(r, |Encode(m)|)))
  {
    var k := VariantKind(m);
    AtSplit(r, EncodeBase(m), EncodeFields(Fields(m)));
    ReadWriteByte(r, m.code);
    FieldsRoundTrip(Skip(r, 1), Fields(m));
    LayoutSizes(k);
    var n := Build(m.code, k, SettleFields(Fields(m)));
    FieldsDetermine(n, Settle(m));
  }

  /** Decoding the encoding of a movement gives it back exactly when its code
      belongs to its variant's case group and its footer is below a second. */
  lemma MovementRoundTripIff(m: Movement)
    ensures var res := Decode(Start(Encode(m)));
      (res.Ok? && res.value.value == m) <==> KindOf(m.code) == Some(VariantKind(m)) && Settled(m)
  {
    var r := Start(Encode(m));
    SettleFixed(m);
    if KindOf(m.code) == Some(VariantKind(m)) {
      MovementRoundTrip(r, m);
    }
  }

  /** A variant built with a code from another case group never decodes as
      that variant: the code decides the record, not the fields. */
  lemma MisgroupedCode(m: Movement)
    requires KindOf(m.code).Some? && KindOf(m.code) != Some(VariantKind(m))
    ensures var res := Decode(Start(Encode(m)));
      res.Ok? ==> VariantKind(res.value.value) == KindOf(m.code).value != VariantKind(m)
  {
  }

  /** `StatChangeMovement` reads its flag with `ReadBool`: any nonzero byte is
      true, and re-encoding writes 1. */
  lemma StatChangeNormalises(b: byte)
    ensures Decode(Start([StatChange, b])) == Ok(Parsed(StatChangeMovement(StatChange, b != 0), Skip(Start([StatChange, b]), 2)))
    ensures Encode(StatChangeMovement(StatChange, b != 0)) == [StatChange, if b != 0 then 1 else 0]
  {
    var r := Start([StatChange, b]);
    ReadWriteByte(r, StatChange);
    var r1 := Skip(r, 1);
    assert r1.data[r1.pos] == b;
    assert DecodeField(BoolField, r1) == Ok(Parsed(BoolValue(b != 0), Skip(r, 2)));
    assert [BoolField][1..] == [];
    assert DecodeFields([BoolField], r1) == Ok(Parsed([BoolValue(b != 0)] + [], Skip(r, 2)));
    assert EncodeFields([BoolValue(b != 0)]) == WriteBool(b != 0) + [];
  }
}
