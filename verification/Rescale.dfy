/** The rational rescaling of libavutil, on unbounded integers. */
module Rescale {
  import opened Wrappers
  import opened BinaryGcd

  datatype Rational = Rational(num: int, den: int)

  /** A timestamp moved by d, if there is one. */
  function Shifted(t: Option<int>, d: int): Option<int> {
    if t.Some? then Some(t.value + d) else None
  }

  datatype Rounding = Down | Up | NearInf

  /** av_rescale_rnd: a * b / c, rounded; negative a is rounded by symmetry. */
  function RescaleRnd(a: int, b: int, c: int, rnd: Rounding): int
    requires b >= 0 && c > 0
  {
    if a < 0 then
      var flipped := match rnd case Down => Up case Up => Down case NearInf => NearInf;
      -(((-a) * b + Slack(c, flipped)) / c)
    else (a * b + Slack(c, rnd)) / c
  }

  function Slack(c: int, rnd: Rounding): int {
    match rnd
    case NearInf => c / 2
    case Up => c - 1
    case Down => 0
  }

  predicate Positive(q: Rational) {
    q.num > 0 && q.den > 0
  }

  /** av_rescale_q_rnd: the timestamp a in units of bq, in units of cq. */
  function RescaleQ(a: int, bq: Rational, cq: Rational, rnd: Rounding): int
    requires Positive(bq) && Positive(cq)
  {
    assert bq.num * cq.den > 0 && cq.num * bq.den > 0;
    RescaleRnd(a, bq.num * cq.den, cq.num * bq.den, rnd)
  }

  lemma DivNear(x: int, c: int)
    requires x >= 0 && c > 0
    ensures -c <= 2 * ((x + c / 2) / c * c - x) <= c
  {
    var q := (x + c / 2) / c;
    assert q * c <= x + c / 2 < q * c + c;
  }

  /** Otherwise it is off by at most half a unit. */
  lemma RescaleNear(a: int, b: int, c: int)
    requires b >= 0 && c > 0
    ensures -c <= 2 * (RescaleRnd(a, b, c, NearInf) * c - a * b) <= c
  {
    if a < 0 {
      var x := (-a) * b;
      DivNear(x, c);
      var q := (x + c / 2) / c;
      assert (-q) * c == -(q * c);
      assert a * b == -x;
    } else {
      DivNear(a * b, c);
    }
  }

  /** Rescaling loses nothing when the result is a whole number. */
  lemma RescaleWhole(a: int, b: int, c: int, q: int)
    requires b >= 0 && c > 0 && a * b == q * c
    ensures RescaleRnd(a, b, c, NearInf) == q
  {
    hide RescaleRnd;
    RescaleNear(a, b, c);
    var r := RescaleRnd(a, b, c, NearInf);
    assert (r - q) * c == r * c - q * c;
    SmallMultiple(r - q, c);
  }

  lemma Quotient(x: int, c: int)
    requires c > 0
    ensures 0 <= x - x / c * c < c
  {
  }

  lemma Ceiling(x: int, c: int)
    requires c > 0
    ensures 0 <= (x + c - 1) / c * c - x < c
  {
    Quotient(x + c - 1, c);
  }

  lemma Negative(a: int, b: int)
    ensures (-a) * b == -(a * b)
  {
  }

  /** Rounding down and up leave less than a unit on the other side. */
  lemma RescaleDownUp(a: int, b: int, c: int)
    requires b >= 0 && c > 0
    ensures var r := RescaleRnd(a, b, c, Down); 0 <= a * b - r * c < c
    ensures var r := RescaleRnd(a, b, c, Up); 0 <= r * c - a * b < c
  {
    var x := (if a < 0 then -a else a) * b;
    Quotient(x, c);
    Ceiling(x, c);
    if a < 0 {
      Negative(a, b);
      Negative(x / c, c);
      Negative((x + c - 1) / c, c);
    }
  }
}
