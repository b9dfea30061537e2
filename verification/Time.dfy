/** Timestamps in seconds, and what rescaling does to them. */
module Time {
  import opened Rescale

  /** One tick in seconds. */
  function Tick(tb: Rational): real
    requires Positive(tb)
  {
    tb.num as real / tb.den as real
  }

  function Sec(t: int, tb: Rational): real
    requires Positive(tb)
  {
    t as real * Tick(tb)
  }

  lemma TickPositive(tb: Rational)
    requires Positive(tb)
    ensures Tick(tb) > 0.0 && Tick(tb) * tb.den as real == tb.num as real
  {
  }

  lemma SecSum(a: int, b: int, tb: Rational)
    requires Positive(tb)
    ensures Sec(a + b, tb) == Sec(a, tb) + Sec(b, tb) && Sec(a - b, tb) == Sec(a, tb) - Sec(b, tb)
  {
  }

  lemma SecNotNegative(a: int, tb: Rational)
    requires Positive(tb) && a >= 0
    ensures Sec(a, tb) >= 0.0
  {
    TickPositive(tb);
  }

  /** Two times over a common denominator w. */
  lemma OverOneDenominator(a: int, t: Rational, u: Rational) returns (w: real)
    requires Positive(t) && Positive(u)
    ensures w > 0.0 && w == t.den as real * u.den as real
    ensures Sec(a, t) * w == (a * (t.num * u.den)) as real && Tick(t) * w == (t.num * u.den) as real
  {
    w := t.den as real * u.den as real;
    TickPositive(t);
    assert Tick(t) * w == (Tick(t) * t.den as real) * u.den as real;
    assert (t.num * u.den) as real == t.num as real * u.den as real;
    assert Sec(a, t) * w == a as real * (Tick(t) * w);
    assert (a * (t.num * u.den)) as real == a as real * (t.num * u.den) as real;
  }

  lemma CancelLess(x: real, y: real, w: real)
    requires w > 0.0
    ensures x * w < y * w <==> x < y
    ensures x * w <= y * w <==> x <= y
  {
    assert (y - x) * w == y * w - x * w;
    assert y - x > 0.0 ==> (y - x) * w > 0.0;
    assert y - x < 0.0 ==> (y - x) * w < 0.0;
  }

  lemma NearScaled(x: real, y: real, d: real, w: real)
    requires w > 0.0 && -(d * w) <= 2.0 * (x * w - y * w) <= d * w
    ensures -d <= 2.0 * (x - y) <= d
  {
    var z := 2.0 * (x - y);
    assert z * w == 2.0 * (x * w - y * w);
    assert (-d) * w == -(d * w);
    CancelLess(-d, z, w);
    CancelLess(z, d, w);
  }

  /** Rescaling moves a time by at most half a tick of the new time base. */
  lemma RescaledNear(a: int, t: Rational, u: Rational)
    requires Positive(t) && Positive(u)
    ensures -Tick(u) <= 2.0 * (Sec(RescaleQ(a, t, u, NearInf), u) - Sec(a, t)) <= Tick(u)
  {
    hide Sec, Tick, RescaleRnd;
    var r := RescaleQ(a, t, u, NearInf);
    RescaleNear(a, t.num * u.den, u.num * t.den);
    var w := OverOneDenominator(a, t, u);
    var v := OverOneDenominator(r, u, t);
    NearScaled(Sec(r, u), Sec(a, t), Tick(u), w);
  }

  /** A time not after b is rounded to one not after b. */
  lemma RescaledNotAfter(a: int, t: Rational, b: int, u: Rational)
    requires Positive(t) && Positive(u) && Sec(a, t) <= Sec(b, u)
    ensures RescaleQ(a, t, u, NearInf) <= b
  {
    var r := RescaleQ(a, t, u, NearInf);
    RescaledNear(a, t, u);
    TickPositive(u);
    SecSum(r, b, u);
    var d := r - b;
    var tick := Tick(u);
    assert d as real * tick <= tick / 2.0;
    assert d >= 1 ==> (d as real - 1.0) * tick >= 0.0;
  }

  lemma RescaledNotNegative(a: int, t: Rational, u: Rational)
    requires Positive(t) && Positive(u) && a >= 0
    ensures RescaleQ(a, t, u, NearInf) >= 0
  {
    hide Tick, RescaleQ;
    SecNotNegative(a, t);
    RescaledNear(a, t, u);
    TickPositive(u);
    var r, tick := RescaleQ(a, t, u, NearInf), Tick(u);
    AboveMinusOne(r, tick, Sec(r, u));
  }

  lemma AboveMinusOne(r: int, tick: real, x: real)
    requires tick > 0.0 && x == r as real * tick && 2.0 * x >= -tick
    ensures r >= 0
  {
    assert (2.0 * r as real + 1.0) * tick >= 0.0;
    assert r <= -1 ==> (2.0 * r as real + 1.0) * tick < 0.0;
  }
}
