/** Facts about products, quotients and remainders that the solver does not find by itself. */
module Arithmetic {
  ghost function Max(a: int, b: int): int { if a > b then a else b }

  lemma MulGrows(d: int, o: nat)
    ensures d >= 1 ==> d * o >= o
    ensures d <= -1 ==> d * o <= 0 - o
  {
    if d >= 1 {
      assert d * o == (d - 1) * o + o;
    } else {
      assert d * o == (d + 1) * o - o;
      assert d <= -1 ==> (d + 1) * o <= 0;
    }
  }

  lemma {:induction false} MulNonNegative(a: nat, b: nat)
    ensures a * b >= 0
  {
    if b > 0 {
      MulNonNegative(a, b - 1);
      assert a * b == a * (b - 1) + a;
    }
  }

  lemma {:induction false} MulMonotone(c: nat, a: int, b: int)
    requires a <= b
    ensures c * a <= c * b
  {
    assert c * b - c * a == c * (b - a);
    MulNonNegative(c, b - a);
  }

  lemma MulAssociative(a: int, b: int, c: int)
    ensures a * (b * c) == (a * b) * c
  {}

  /** A quotient and a remainder are determined by their sum. */
  lemma QuotientRemainder(q: int, o: nat, r: nat)
    requires r < o
    ensures (q * o + r) % o == r && (q * o + r) / o == q
  {
    var n := q * o + r;
    assert n == (n / o) * o + n % o;
    assert (n / o - q) * o == r - n % o;
    MulGrows(n / o - q, o);
  }

  /** Adding a multiple of the modulus does not change the remainder. */
  lemma AddMultiple(n: int, k: int, o: nat)
    requires o > 0
    ensures (n + k * o) % o == n % o
  {
    assert n == (n / o) * o + n % o;
    assert n + k * o == (n / o + k) * o + n % o;
    QuotientRemainder(n / o + k, o, n % o);
  }

  lemma Regroup(u: int, b: int, v: int, a: int)
    ensures (u * b + v) * a == u * (a * b) + v * a
  {}

  lemma BelowProduct(a: nat, b: nat, v: nat, r: nat)
    requires v < b && r < a
    ensures 0 <= v * a + r < a * b
  {
    MulNonNegative(v, a);
    MulNonNegative(b - 1 - v, a);
    assert (b - 1 - v) * a == b * a - a - v * a;
  }

  /** Dividing twice is dividing by the product. */
  lemma DivideTwice(n: nat, a: nat, b: nat)
    requires a > 0 && b > 0
    ensures a * b > 0 && n / (a * b) == n / a / b
  {
    var q, r := n / a, n % a;
    var u, v := q / b, q % b;
    assert n == q * a + r && q == u * b + v;
    Regroup(u, b, v, a);
    BelowProduct(a, b, v, r);
    QuotientRemainder(u, a * b, v * a + r);
  }

  lemma RealProduct(a: real, b: real)
    requires a >= 0.0 && b >= 0.0
    ensures a * b >= 0.0 && (a > 0.0 && b > 0.0 ==> a * b > 0.0)
  {}

  lemma RealQuotient(a: real, b: real)
    requires a >= 0.0 && b > 0.0
    ensures a / b >= 0.0 && (a > 0.0 ==> a / b > 0.0)
  {}

  /** Of two equal products the one with the smaller divisor has the larger quotient. */
  lemma RealRatio(p: real, q: real, a: real, b: real)
    requires p * a == q * b && q > 0.0 && 0.0 < a < b
    ensures p > q
  {
    RealProduct(q, b - a);
    var gain := q * (b - a);
    assert gain == q * b - q * a && gain > 0.0;
    var loss := (q - p) * a;
    assert loss == q * a - p * a && loss == 0.0 - gain;
    assert q >= p ==> loss >= 0.0 by {
      if q >= p { RealProduct(q - p, a); }
    }
  }

  /** Python's `round` to an integer: ties go to the even neighbour. */
  function RoundHalfEven(x: real): int {
    var below := x.Floor;
    var part := x - below as real;
    if part < 0.5 then below
    else if part > 0.5 then below + 1
    else if below % 2 == 0 then below
    else below + 1
  }

  /** The nearest integer, and halfway between two the even one. */
  lemma RoundIsNearest(x: real)
    ensures -0.5 <= RoundHalfEven(x) as real - x <= 0.5
    ensures RoundHalfEven(x) as real - x == 0.5 || RoundHalfEven(x) as real - x == -0.5 ==> RoundHalfEven(x) % 2 == 0
  {}

  lemma RoundMonotone(x: real, y: real)
    requires x <= y
    ensures RoundHalfEven(x) <= RoundHalfEven(y)
  {
    assert x.Floor <= y.Floor;
  }

  /** `round(x, 2)` */
  function Round2(x: real): real { RoundHalfEven(x * 100.0) as real / 100.0 }

  /** `round(x, 3)` */
  function Round3(x: real): real { RoundHalfEven(x * 1000.0) as real / 1000.0 }

  lemma Round3Monotone(x: real, y: real)
    requires x <= y
    ensures Round3(x) <= Round3(y)
    ensures Round3(Round3(x)) == Round3(x)
  {
    RoundMonotone(x * 1000.0, y * 1000.0);
    var n := RoundHalfEven(x * 1000.0);
    assert Round3(x) * 1000.0 == n as real;
    assert (n as real).Floor == n;
  }

  // ---- Products of reals, kept apart from the solver's own arithmetic ----

  function Times(x: real, y: real): real { x * y }

  lemma TimesSum(x: real, y: real, z: real)
    ensures Times(x, y + z) == Times(x, y) + Times(x, z)
    ensures Times(x, 0.0) == 0.0
  {}

  lemma TimesOpposite(x: real, y: real)
    ensures Times(x, 0.0 - y) == 0.0 - Times(x, y)
  {}

  lemma TimesPositive(x: real, y: real)
    requires x > 0.0 && y > 0.0
    ensures Times(x, y) > 0.0
  {
    RealProduct(x, y);
  }

  /** The sign of a product with a positive factor is that of the other factor. */
  lemma TimesSign(x: real, y: real)
    requires x > 0.0
    ensures Times(x, y) > 0.0 <==> y > 0.0
    ensures Times(x, y) >= 0.0 <==> y >= 0.0
  {
    hide Times;
    TimesSum(x, 0.0, 0.0);
    TimesOpposite(x, y);
    if y > 0.0 { TimesPositive(x, y); }
    if y < 0.0 { TimesPositive(x, 0.0 - y); }
  }

  lemma DivideBack(x: real, n: real)
    requires n != 0.0
    ensures Times(n, x / n) == x
  {}

  lemma TimesLarger(a: real, x: real, y: real)
    requires a > 0.0 && x < y
    ensures Times(a, x) < Times(a, y)
  {
    hide Times;
    TimesSum(a, x, y - x);
    TimesPositive(a, y - x);
    assert x + (y - x) == y;
  }

  lemma TimesCommutes(x: real, y: real)
    ensures Times(x, y) == Times(y, x)
  {}

  /** Of two equal products the one with the smaller factor has the larger other factor. */
  lemma TimesRatio(a: real, x: real, b: real, y: real)
    requires Times(a, x) == Times(b, y) && y > 0.0 && 0.0 < a < b
    ensures x > y
  {
    hide Times;
    TimesLarger(y, a, b);
    TimesCommutes(y, a);
    TimesCommutes(y, b);
    if x < y { TimesLarger(a, x, y); }
  }

  lemma SameFactor(a: real, x: real, y: real)
    requires Times(a, x) == Times(a, y) && a > 0.0
    ensures x == y
  {
    hide Times;
    if x < y { TimesLarger(a, x, y); }
    if y < x { TimesLarger(a, y, x); }
  }

  function Square(x: real): real { Times(x, x) }

  lemma SquarePositive(x: real)
    requires x > 0.0
    ensures Square(x) > 0.0
  {
    hide Times;
    TimesPositive(x, x);
  }

  lemma SquareOfOpposite(x: real)
    ensures Square(0.0 - x) == Square(x)
  {
    assert (0.0 - x) * (0.0 - x) == x * x;
  }

  lemma SquareNonNegative(x: real)
    ensures Square(x) >= 0.0 && (x != 0.0 ==> Square(x) > 0.0) && Square(0.0) == 0.0
  {
    SquareOfOpposite(x);
    if x > 0.0 { SquarePositive(x); }
    if x < 0.0 { SquarePositive(0.0 - x); }
  }
}
