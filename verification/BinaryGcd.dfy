/** Divisibility and Stein's binary algorithm for the greatest common divisor. */
module BinaryGcd {

  /** The simple form: Euclid's algorithm. */
  function Gcd(a: nat, b: nat): nat
    decreases b
  {
    if b == 0 then a else Gcd(b, a % b)
  }

  /** The only multiple of d strictly between -d and d is 0. */
  lemma SmallMultiple(k: int, d: int)
    requires -d < k * d < d
    ensures k == 0
  {
    assert k >= 1 ==> k * d >= d;
    assert k <= -1 ==> k * d <= -d;
  }

  lemma MultipleMod(q: int, d: int)
    requires d > 0
    ensures (q * d) % d == 0 && (q * d) / d == q
  {
    var x := q * d;
    assert x == x / d * d + x % d;
    assert (q - x / d) * d == x % d;
    SmallMultiple(q - x / d, d);
  }

  lemma DividesSum(g: int, x: int, y: int, k: int)
    requires g > 0 && x % g == 0 && y % g == 0
    ensures (k * x + y) % g == 0
  {
    var p, q := x / g, y / g;
    assert x == p * g && y == q * g;
    assert k * x + y == (k * p + q) * g by {
      assert k * (p * g) == (k * p) * g;
    }
    MultipleMod(k * p + q, g);
  }

  lemma DividesTransitive(a: int, b: int, c: int)
    requires a > 0 && b > 0 && b % a == 0 && c % b == 0
    ensures c % a == 0
  {
    DividesSum(a, b, 0, c / b);
    assert c == c / b * b;
  }

  /** Gcd divides both numbers. */
  lemma {:induction false} GcdDivides(a: nat, b: nat)
    requires a > 0 || b > 0
    ensures Gcd(a, b) > 0 && a % Gcd(a, b) == 0 && b % Gcd(a, b) == 0
    decreases b
  {
    if b == 0 {
      assert a % a == 0;
    } else {
      GcdDivides(b, a % b);
      var g := Gcd(b, a % b);
      DividesSum(g, b, a % b, a / b);
      assert a == a / b * b + a % b;
    }
  }

  /** And every common divisor divides it. */
  lemma {:induction false} GcdGreatest(a: nat, b: nat, d: nat)
    requires d > 0 && a % d == 0 && b % d == 0
    ensures Gcd(a, b) % d == 0
    decreases b
  {
    if b > 0 {
      DividesSum(d, b, a, -(a / b));
      assert -(a / b) * b + a == a % b;
      GcdGreatest(b, a % b, d);
    }
  }

  lemma DivisorAtMost(d: nat, n: nat)
    requires d > 0 && n > 0 && n % d == 0
    ensures d <= n
  {
    var q := n / d;
    assert n == q * d;
    assert q >= 1 ==> q * d >= d;
  }

  lemma MutualDivisors(x: nat, y: nat)
    requires x > 0 && y > 0 && x % y == 0 && y % x == 0
    ensures x == y
  {
    DivisorAtMost(x, y);
    DivisorAtMost(y, x);
  }

  /** Two pairs with the same common divisors have the same gcd. */
  lemma SameGcd(a: nat, b: nat, c: nat, d: nat)
    requires (a > 0 || b > 0) && (c > 0 || d > 0)
    requires forall k: nat | k > 0 :: (a % k == 0 && b % k == 0) <==> (c % k == 0 && d % k == 0)
    ensures Gcd(a, b) == Gcd(c, d)
  {
    var g, h := Gcd(a, b), Gcd(c, d);
    GcdDivides(a, b);
    GcdDivides(c, d);
    GcdGreatest(c, d, g);
    GcdGreatest(a, b, h);
    MutualDivisors(g, h);
  }

  lemma GcdSymmetric(a: nat, b: nat)
    requires a > 0 && b > 0
    ensures Gcd(a, b) == Gcd(b, a)
  {
    SameGcd(a, b, b, a);
  }

  lemma GcdSubtract(u: nat, v: nat)
    requires 0 < u < v
    ensures Gcd(u, v - u) == Gcd(u, v)
  {
    forall k: nat | k > 0 ensures (u % k == 0 && (v - u) % k == 0) <==> (u % k == 0 && v % k == 0) {
      if u % k == 0 && (v - u) % k == 0 {
        DividesSum(k, u, v - u, 1);
        assert 1 * u + (v - u) == v;
      }
      if u % k == 0 && v % k == 0 {
        DividesSum(k, u, v, -1);
        assert -1 * u + v == v - u;
      }
    }
    SameGcd(u, v - u, u, v);
  }

  lemma OddFactor(k: nat, q: int, w: int)
    requires k % 2 == 1 && q * k == 2 * w
    ensures q % 2 == 0
  {
    var b := k / 2;
    assert k == 2 * b + 1;
    assert q * k == 2 * (q * b) + q;
  }

  /** An odd number shares no factor two. */
  lemma GcdHalf(u: nat, w: nat)
    requires u % 2 == 1 && w > 0
    ensures Gcd(u, 2 * w) == Gcd(u, w)
  {
    forall k: nat | k > 0 ensures (u % k == 0 && (2 * w) % k == 0) <==> (u % k == 0 && w % k == 0) {
      if u % k == 0 && w % k == 0 {
        DividesSum(k, w, 0, 2);
      }
      if u % k == 0 && (2 * w) % k == 0 {
        OddDivisor(k, u, w);
      }
    }
    SameGcd(u, 2 * w, u, w);
  }

  lemma OddHasOddDivisors(k: nat, u: nat)
    requires k > 0 && u % 2 == 1 && u % k == 0
    ensures k % 2 == 1
  {
    var q, h := u / k, k / 2;
    assert u == q * k;
    assert q * (2 * h) == 2 * (q * h);
  }

  lemma OddDivisor(k: nat, u: nat, w: nat)
    requires k > 0 && u % 2 == 1 && u % k == 0 && (2 * w) % k == 0
    ensures w % k == 0
  {
    OddHasOddDivisors(k, u);
    var p := 2 * w / k;
    assert p * k == 2 * w;
    OddFactor(k, p, w);
    var h := p / 2;
    assert p == 2 * h;
    assert (2 * h) * k == 2 * (h * k);
    MultipleMod(h, k);
  }

  lemma GcdDouble(a: nat, b: nat)
    requires a > 0 && b > 0
    ensures Gcd(2 * a, 2 * b) == 2 * Gcd(a, b)
  {
    var g, h := Gcd(a, b), Gcd(2 * a, 2 * b);
    GcdDivides(a, b);
    GcdDivides(2 * a, 2 * b);
    DoubleDivides(g, a);
    DoubleDivides(g, b);
    GcdGreatest(2 * a, 2 * b, 2 * g);
    // h is even, and its half divides both
    GcdGreatest(2 * a, 2 * b, 2);
    var k := h / 2;
    assert h == 2 * k;
    HalveDivides(k, a);
    HalveDivides(k, b);
    GcdGreatest(a, b, k);
    DoubleDivides(k, g);
    MutualDivisors(h, 2 * g);
  }

  lemma DoubleDivides(g: nat, a: nat)
    requires g > 0 && a % g == 0
    ensures (2 * a) % (2 * g) == 0
  {
    var q := a / g;
    assert a == q * g;
    assert 2 * (q * g) == q * (2 * g);
    MultipleMod(q, 2 * g);
  }

  lemma HalveDivides(k: nat, a: nat)
    requires k > 0 && (2 * a) % (2 * k) == 0
    ensures a % k == 0
  {
    var x, d := 2 * a, 2 * k;
    var q := x / d;
    assert x == q * d;
    assert q * (2 * k) == 2 * (q * k);
    assert a == q * k;
    MultipleMod(q, k);
  }

  // ---------------------------------------------------------------- the fast form

  function Pow2(k: nat): nat {
    if k == 0 then 1 else 2 * Pow2(k - 1)
  }

  /** Number of trailing zero bits. */
  function Ctz(n: nat): nat
    requires n > 0
  {
    if n % 2 == 1 then 0 else 1 + Ctz(n / 2)
  }

  /** n >> ctz(n). */
  function OddPart(n: nat): (m: nat)
    requires n > 0
    ensures 0 < m <= n && m % 2 == 1
  {
    if n % 2 == 1 then n else OddPart(n / 2)
  }

  lemma {:induction false} OddPartGcd(u: nat, v: nat)
    requires u % 2 == 1 && v > 0
    ensures Gcd(u, OddPart(v)) == Gcd(u, v)
  {
    if v % 2 == 0 {
      OddPartGcd(u, v / 2);
      GcdHalf(u, v / 2);
      assert 2 * (v / 2) == v;
    }
  }

  function Min(a: nat, b: nat): nat { if a <= b then a else b }

  lemma CtzDouble(h: nat)
    requires h > 0
    ensures Ctz(2 * h) == 1 + Ctz(h) && OddPart(2 * h) == OddPart(h)
  {
    var n := 2 * h;
    assert n % 2 == 0 && n / 2 == h;
  }

  lemma DoubleProduct(x: int, g: int, p: int)
    requires x == g * p
    ensures 2 * x == g * (2 * p)
  {
  }

  lemma EvenStep(a: nat, b: nat, g: nat)
    requires a > 0 && b > 0 && Gcd(a, b) == g * Pow2(Min(Ctz(a), Ctz(b)))
    ensures Gcd(2 * a, 2 * b) == g * Pow2(Min(Ctz(2 * a), Ctz(2 * b)))
  {
    hide Gcd, Ctz, Pow2;
    CtzDouble(a);
    CtzDouble(b);
    GcdDouble(a, b);
    var z := Min(Ctz(a), Ctz(b));
    assert Min(Ctz(2 * a), Ctz(2 * b)) == z + 1;
    Pow2Next(z);
    DoubleProduct(Gcd(a, b), g, Pow2(z));
  }

  lemma Pow2Next(k: nat)
    ensures Pow2(k + 1) == 2 * Pow2(k)
  {
  }

  /** Common factors two are taken out first and put back at the end. */
  lemma {:induction false} CommonTwos(a: nat, b: nat)
    requires a > 0 && b > 0
    ensures Gcd(a, b) == Gcd(OddPart(a), OddPart(b)) * Pow2(Min(Ctz(a), Ctz(b)))
  {
    if a % 2 == 0 && b % 2 == 0 {
      var h, k := a / 2, b / 2;
      assert a == 2 * h && b == 2 * k;
      CommonTwos(h, k);
      EvenStep(h, k, Gcd(OddPart(h), OddPart(k)));
    } else if a % 2 == 1 {
      OddPartGcd(a, b);
    } else {
      OddPartGcd(b, a);
      GcdSymmetric(a, b);
      GcdSymmetric(OddPart(a), b);
    }
  }

  lemma GcdSelf(u: nat)
    requires u > 0
    ensures Gcd(u, u) == u
  {
    assert u % u == 0;
  }

  lemma LoopStep(u: nat, v: nat)
    requires u % 2 == 1 && 0 < u < v
    ensures Gcd(u, OddPart(v - u)) == Gcd(u, v)
  {
    GcdSubtract(u, v);
    OddPartGcd(u, v - u);
  }

  function Abs(a: int): nat { if a < 0 then -a else a }

  /** The subtract-and-shift loop on odd numbers. */
  method OddGcd(a: nat, b: nat) returns (u: nat)
    requires a % 2 == 1 && b % 2 == 1
    ensures u == Gcd(a, b)
  {
    var v := b;
    u := a;
    while u != v
      invariant u > 0 && v > 0 && u % 2 == 1 && v % 2 == 1
      invariant Gcd(u, v) == Gcd(a, b)
      decreases u + v
    {
      if u > v {
        GcdSymmetric(u, v);
        u, v := v, u;
      }
      LoopStep(u, v);
      v := v - u;
      v := OddPart(v);
    }
    GcdSelf(u);
  }

  /** av_gcd: the binary algorithm computes Euclid's result; a zero argument returns the
      other one as it is. */
  method AvGcd(a: int, b: int) returns (g: int)
    ensures a == 0 ==> g == b
    ensures a != 0 && b == 0 ==> g == a
    ensures a != 0 && b != 0 ==> g == Gcd(Abs(a), Abs(b))
  {
    if a == 0 {
      return b;
    }
    if b == 0 {
      return a;
    }
    var k := Min(Ctz(Abs(a)), Ctz(Abs(b)));
    var u := OddGcd(OddPart(Abs(a)), OddPart(Abs(b)));
    CommonTwos(Abs(a), Abs(b));
    return u * Pow2(k);
  }
}
