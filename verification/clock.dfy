/** Game time (`GameTime` in `Tick/Clock.cs`): an immutable tick count. */
module Clock {
  import opened Bytes

  const TwoTo64: int := 0x1_0000_0000_0000_0000

  datatype GameTime = GameTime(ticks: i64)

  /** The time a room starts at. */
  const Zero: GameTime := GameTime(0)

  /** `Add` returns a new value and leaves the receiver alone. The sum is an
      unchecked `long` addition, so it wraps modulo 2^64. */
  function Add(t: GameTime, n: i64): (u: GameTime)
    ensures (u.ticks - (t.ticks + n)) % TwoTo64 == 0
    ensures -0x8000_0000_0000_0000 <= t.ticks + n < 0x8000_0000_0000_0000 ==> u.ticks == t.ticks + n
  {
    GameTime(Wrap64(t.ticks + n))
  }

  lemma ShiftMod(w: int, k: int)
    ensures (w + k * TwoTo64) % TwoTo64 == w % TwoTo64
  {
    var q := w / TwoTo64;
    var r := w % TwoTo64;
    assert w == q * TwoTo64 + r;
    assert w + k * TwoTo64 == (q + k) * TwoTo64 + r;
  }

  /** Wrapping a summand does not change the sum modulo 2^64. */
  lemma WrapAddMod(z: int, b: int)
    ensures (Wrap64(z) + b) % TwoTo64 == (z + b) % TwoTo64
  {
    var q := z / TwoTo64;
    var r := z % TwoTo64;
    assert z == q * TwoTo64 + r;
    if r < 0x8000_0000_0000_0000 {
      assert z + b == (r + b) + q * TwoTo64;
      ShiftMod(r + b, q);
    } else {
      assert z + b == (r - TwoTo64 + b) + (q + 1) * TwoTo64;
      ShiftMod(r - TwoTo64 + b, q + 1);
    }
  }

  /** Adding zero changes nothing. */
  lemma AddZero(t: GameTime)
    ensures Add(t, 0) == t
  {
  }

  /** Adding twice is adding the (wrapped) sum once. */
  lemma AddAdd(t: GameTime, a: i64, b: i64)
    ensures Add(Add(t, a), b) == Add(t, Wrap64(a + b))
  {
    WrapAddMod(t.ticks + a, b);
    WrapAddMod(a + b, t.ticks);
    WrapCongruent(Wrap64(t.ticks + a) + b, Wrap64(a + b) + t.ticks);
  }

  /** Congruent values wrap to the same i64. */
  lemma WrapCongruent(x: int, y: int)
    requires x % TwoTo64 == y % TwoTo64
    ensures Wrap64(x) == Wrap64(y)
  {
  }
}
