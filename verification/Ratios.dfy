/** Exact nonnegative amounts as reduced fractions of whole numbers. */
module Ratios {
  import opened CentsText

  datatype Ratio = Ratio(n: nat, d: nat)

  type Rational = r: Ratio | r.d > 0 witness Ratio(0, 1)

  function Gcd(a: nat, b: nat): (g: nat)
    ensures g == 0 <==> a == 0 && b == 0
    decreases b
  {
    if b == 0 then a else Gcd(b, a % b)
  }

  /** `fraction(n, d)`: divided through by the greatest common divisor. */
  function Fraction(n: nat, d: nat): Rational
    requires d > 0
  {
    GcdDivides(n, d);
    QuotientPositive(d, Gcd(n, d));
    Ratio(n / Gcd(n, d), d / Gcd(n, d))
  }

  predicate Divides(k: nat, a: nat) {
    k > 0 && a % k == 0
  }

  lemma DividesBy(k: nat, q: nat)
    requires k > 0
    ensures Divides(k, k * q) && (k * q) / k == q
  {
    Quotient(k, q, 0);
  }

  /** Division with remainder is unique. */
  lemma Quotient(k: nat, q: int, r: nat)
    requires r < k
    ensures (k * q + r) / k == q && (k * q + r) % k == r
  {
    var x := k * q + r;
    var p := x / k;
    assert x == k * p + x % k;
    if p > q {
      Steps(k, q, p);
    } else if p < q {
      Steps(k, p, q);
    }
  }

  lemma Steps(k: nat, p: int, q: int)
    requires p < q
    ensures k * p + k <= k * q
  {
    var more: nat := q - p - 1;
    assert k * q == k * p + k + k * more;
  }

  lemma DividesWitness(k: nat, a: nat)
    requires Divides(k, a)
    ensures a == k * (a / k)
  {
  }

  lemma DividesCombination(k: nat, a: nat, b: nat, q: nat)
    requires Divides(k, b)
    ensures Divides(k, a) <==> Divides(k, a + b * q)
  {
    DividesWitness(k, b);
    var m := b / k;
    if Divides(k, a) {
      DividesWitness(k, a);
      assert a + b * q == k * (a / k + m * q);
      DividesBy(k, a / k + m * q);
    }
    if Divides(k, a + b * q) {
      var t := (a + b * q) / k;
      DividesWitness(k, a + b * q);
      assert a == k * (t - m * q) + 0;
      Quotient(k, t - m * q, 0);
    }
  }

  lemma DividesZero(k: nat, a: nat)
    requires Divides(k, a)
    ensures Divides(k, 0)
  {
  }

  lemma DivMod(a: nat, b: nat)
    requires b > 0
    ensures a == a % b + b * (a / b)
  {
  }

  /** The divisors of a and b are exactly the divisors of their greatest common divisor. */
  lemma {:induction false} GcdDivisors(k: nat, a: nat, b: nat)
    ensures Divides(k, a) && Divides(k, b) <==> Divides(k, Gcd(a, b))
    decreases b
  {
    hide Divides;
    if b == 0 {
      if Divides(k, a) {
        DividesZero(k, a);
      }
    } else {
      GcdStep(a, b);
      hide Gcd;
      GcdDivisors(k, b, a % b);
      if Divides(k, b) {
        DividesRemainder(k, a, b);
      }
    }
  }

  lemma GcdStep(a: nat, b: nat)
    requires b > 0
    ensures Gcd(a, b) == Gcd(b, a % b)
  {
  }

  lemma DividesRemainder(k: nat, a: nat, b: nat)
    requires b > 0 && Divides(k, b)
    ensures Divides(k, a % b) <==> Divides(k, a)
  {
    hide Divides;
    DivMod(a, b);
    DividesCombination(k, a % b, b, a / b);
  }

  lemma GcdDivides(a: nat, b: nat)
    requires b > 0
    ensures Gcd(a, b) > 0 && Divides(Gcd(a, b), a) && Divides(Gcd(a, b), b)
  {
    var g := Gcd(a, b);
    DividesBy(g, 1);
    GcdDivisors(g, a, b);
  }

  lemma QuotientPositive(a: nat, k: nat)
    requires Divides(k, a) && a > 0
    ensures a / k > 0
  {
    DividesWitness(k, a);
  }

  /** The Euclidean loop, with the division through at the end. */
  method MakeFraction(n: nat, d: nat) returns (r: Rational)
    requires d > 0
    ensures r == Fraction(n, d)
  {
    var a, b := n, d;
    while b != 0
      invariant Gcd(a, b) == Gcd(n, d)
      decreases b
    {
      a, b := b, a % b;
    }
    GcdDivides(n, d);
    QuotientPositive(d, a);
    r := Ratio(n / a, d / a);
  }

  // ---- Value ----

  function Value(r: Rational): real {
    r.n as real / r.d as real
  }

  lemma ValueIs(r: Rational, v: real)
    ensures Value(r) == v <==> r.n as real == v * r.d as real
  {
    var n, d := r.n as real, r.d as real;
    assert n / d * d == n;
    if n == v * d {
      assert n / d == v;
    }
  }

  lemma RealProduct(a: nat, b: nat)
    ensures (a * b) as real == a as real * b as real
  {
  }

  /** Reducing a fraction does not change its value. */
  lemma ReducedValue(n: nat, d: nat)
    requires d > 0
    ensures Value(Fraction(n, d)) == n as real / d as real
  {
    hide Gcd, Value;
    GcdDivides(n, d);
    var g := Gcd(n, d);
    DividesWitness(g, n);
    DividesWitness(g, d);
    var r := Fraction(n, d);
    RealProduct(g, r.n);
    RealProduct(g, r.d);
    CancelFactor(g as real, r.n as real, r.d as real);
    ValueIs(r, n as real / d as real);
  }

  lemma CancelFactor(g: real, n: real, d: real)
    requires g > 0.0 && d > 0.0
    ensures g * d > 0.0
    ensures n == (g * n) / (g * d) * d
  {
    var q := (g * n) / (g * d);
    assert q * (g * d) == g * n;
    assert g * (q * d) == g * n;
    CancelLeft(g, q * d, n);
  }

  lemma CancelLeft(g: real, a: real, b: real)
    requires g > 0.0 && g * a == g * b
    ensures a == b
  {
    assert g * (a - b) == 0.0;
  }

  // ---- One spelling per amount ----

  predicate Reduced(r: Rational) {
    Gcd(r.n, r.d) == 1
  }

  lemma {:induction false} GcdScales(k: nat, a: nat, b: nat)
    ensures Gcd(k * a, k * b) == k * Gcd(a, b)
    decreases b
  {
    if b == 0 || k == 0 {
    } else {
      GcdScales(k, b, a % b);
      ModScales(k, a, b);
    }
  }

  lemma ModScales(k: nat, a: nat, b: nat)
    requires k > 0 && b > 0
    ensures k * b > 0 && (k * a) % (k * b) == k * (a % b)
  {
    DivMod(a, b);
    var q, r := a / b, a % b;
    assert k * a == (k * b) * q + k * r;
    Steps(k, r, b);
    Quotient(k * b, q, k * r);
  }

  lemma FractionReduced(n: nat, d: nat)
    requires d > 0
    ensures Reduced(Fraction(n, d))
  {
    hide Gcd;
    GcdDivides(n, d);
    var g := Gcd(n, d);
    DividesWitness(g, n);
    DividesWitness(g, d);
    GcdScales(g, n / g, d / g);
    if Gcd(n / g, d / g) != 1 {
      var h := Gcd(n / g, d / g);
      assert g * h == g;
      if h > 1 {
        Steps(g, 1, h);
      }
    }
  }

  lemma DividesEachOther(a: nat, b: nat)
    requires Divides(a, b) && Divides(b, a)
    ensures a == b
  {
    DividesWitness(a, b);
    DividesWitness(b, a);
    var p, q := b / a, a / b;
    if p >= 2 {
      Steps(a, 1, p);
    }
    if q >= 2 {
      Steps(b, 1, q);
    }
  }

  /** A denominator in lowest terms divides every other denominator of the same amount. */
  lemma DenominatorDivides(r: Rational, s: Rational)
    requires Reduced(r) && r.n * s.d == s.n * r.d
    ensures Divides(r.d, s.d)
  {
    hide Gcd;
    GcdScales(s.d, r.n, r.d);
    assert s.d * r.n == r.d * s.n;
    DividesBy(r.d, s.n);
    assert s.d * r.d == r.d * s.d;
    DividesBy(r.d, s.d);
    GcdDivisors(r.d, s.d * r.n, s.d * r.d);
  }

  /** Two reduced amounts are the same pair of numbers exactly when they are the same amount. */
  lemma SameValueSameRatio(r: Rational, s: Rational)
    requires Reduced(r) && Reduced(s)
    ensures r == s <==> Value(r) == Value(s)
  {
    if Value(r) == Value(s) {
      ValueIs(r, Value(s));
      ValueIs(s, Value(r));
      CrossProducts(r, s);
      DenominatorDivides(r, s);
      DenominatorDivides(s, r);
      DividesEachOther(r.d, s.d);
      CancelRight(r.n, s.n, r.d);
    }
  }

  lemma CrossProducts(r: Rational, s: Rational)
    requires Value(r) == Value(s)
    ensures r.n * s.d == s.n * r.d
  {
    hide Value;
    var v := Value(r);
    ValueIs(r, v);
    ValueIs(s, v);
    var rd, sd := r.d as real, s.d as real;
    assert v * rd * sd == v * sd * rd;
    RealProduct(r.n, s.d);
    RealProduct(s.n, r.d);
  }

  lemma CancelRight(a: nat, b: nat, d: nat)
    requires d > 0 && a * d == b * d
    ensures a == b
  {
    if a < b {
      Steps(d, a, b);
    } else if b < a {
      Steps(d, b, a);
    }
  }

  // ---- Arithmetic ----

  function Add(a: Rational, b: Rational): Rational {
    Positive(a.d, b.d);
    Fraction(a.n * b.d + b.n * a.d, a.d * b.d)
  }

  function Multiply(a: Rational, b: Rational): Rational {
    Positive(a.d, b.d);
    Fraction(a.n * b.n, a.d * b.d)
  }

  function Divide(a: Rational, b: Rational): Rational
    requires b.n > 0
  {
    Positive(a.d, b.n);
    Fraction(a.n * b.d, a.d * b.n)
  }

  predicate Less(a: Rational, b: Rational) {
    a.n * b.d < b.n * a.d
  }

  /** The difference of two amounts of which the first is not the smaller. */
  function Subtract(a: Rational, b: Rational): Rational
    requires !Less(a, b)
  {
    Positive(a.d, b.d);
    Fraction(a.n * b.d - b.n * a.d, a.d * b.d)
  }

  lemma Positive(a: nat, b: nat)
    requires a > 0 && b > 0
    ensures a * b > 0
  {
  }

  lemma LessValue(a: Rational, b: Rational)
    ensures Less(a, b) <==> Value(a) < Value(b)
  {
    hide Value;
    ValueIs(a, Value(a));
    ValueIs(b, Value(b));
    var x, y, p, q := Value(a), Value(b), a.d as real, b.d as real;
    RealProduct(a.n, b.d);
    RealProduct(b.n, a.d);
    CompareScaled(x, y, p, q);
  }

  lemma CompareScaled(x: real, y: real, p: real, q: real)
    requires p > 0.0 && q > 0.0
    ensures x * p * q < y * q * p <==> x < y
  {
    var s := p * q;
    assert s > 0.0;
    assert x * p * q == x * s && y * q * p == y * s;
    assert y * s - x * s == (y - x) * s;
    if x < y {
      assert (y - x) * s > 0.0;
    } else {
      assert (x - y) * s >= 0.0;
    }
  }

  lemma QuotientIs(n: real, d: real, v: real)
    requires d > 0.0 && n == v * d
    ensures n / d == v
  {
    assert n / d * d == n;
    assert d * (n / d) == d * v;
    CancelLeft(d, n / d, v);
  }

  lemma AddValue(a: Rational, b: Rational)
    ensures Value(Add(a, b)) == Value(a) + Value(b)
  {
    hide Value, Gcd;
    ValueIs(a, Value(a));
    ValueIs(b, Value(b));
    Positive(a.d, b.d);
    ReducedValue(a.n * b.d + b.n * a.d, a.d * b.d);
    RealProduct(a.n, b.d);
    RealProduct(b.n, a.d);
    RealProduct(a.d, b.d);
    var x, y, p, q := Value(a), Value(b), a.d as real, b.d as real;
    assert x * p * q + y * q * p == (x + y) * (p * q);
    QuotientIs((a.n * b.d + b.n * a.d) as real, p * q, x + y);
  }

  lemma SubtractValue(a: Rational, b: Rational)
    requires !Less(a, b)
    ensures Value(Subtract(a, b)) == Value(a) - Value(b)
  {
    hide Value, Gcd;
    ValueIs(a, Value(a));
    ValueIs(b, Value(b));
    Positive(a.d, b.d);
    ReducedValue(a.n * b.d - b.n * a.d, a.d * b.d);
    RealProduct(a.n, b.d);
    RealProduct(b.n, a.d);
    RealProduct(a.d, b.d);
    var x, y, p, q := Value(a), Value(b), a.d as real, b.d as real;
    assert x * p * q - y * q * p == (x - y) * (p * q);
    QuotientIs((a.n * b.d - b.n * a.d) as real, p * q, x - y);
  }

  lemma MultiplyValue(a: Rational, b: Rational)
    ensures Value(Multiply(a, b)) == Value(a) * Value(b)
  {
    hide Value, Gcd;
    ValueIs(a, Value(a));
    ValueIs(b, Value(b));
    Positive(a.d, b.d);
    ReducedValue(a.n * b.n, a.d * b.d);
    RealProduct(a.n, b.n);
    RealProduct(a.d, b.d);
    var x, y, p, q := Value(a), Value(b), a.d as real, b.d as real;
    assert x * p * (y * q) == x * y * (p * q);
    QuotientIs((a.n * b.n) as real, p * q, x * y);
  }

  lemma DivideValue(a: Rational, b: Rational)
    requires b.n > 0
    ensures Value(b) > 0.0
    ensures Value(Divide(a, b)) == Value(a) / Value(b)
  {
    hide Value, Gcd;
    ValueIs(a, Value(a));
    ValueIs(b, Value(b));
    Positive(a.d, b.n);
    ReducedValue(a.n * b.d, a.d * b.n);
    RealProduct(a.n, b.d);
    RealProduct(a.d, b.n);
    var x, y, p, q := Value(a), Value(b), a.d as real, b.d as real;
    PositiveFactor(y, q, b.n as real);
    var z := x / y;
    assert z * y == x;
    assert x * p * q == z * y * p * q == z * (p * (y * q));
    QuotientIs((a.n * b.d) as real, p * (y * q), z);
  }

  lemma SignOf(x: real, d: real)
    requires d > 0.0
    ensures x > 0.0 ==> x * d > 0.0
    ensures x < 0.0 ==> x * d < 0.0
    ensures x == 0.0 ==> x * d == 0.0
  {
    if x < 0.0 {
      assert (-x) * d > 0.0;
    }
  }

  lemma PositiveFactor(y: real, q: real, n: real)
    requires q > 0.0 && n > 0.0 && n == y * q
    ensures y > 0.0
  {
    SignOf(y, q);
  }

  /** `decimal(text)`: the digits over the power of ten the point stands for. */
  function FromDecimal(text: string): Rational
    requires Readable(text)
  {
    Fraction(ParseNat(Whole(text) + Part(text)), Pow10(|Part(text)|))
  }

  lemma FromDecimalValue(text: string)
    requires Readable(text)
    ensures Value(FromDecimal(text)) == Worth(text)
  {
    hide Value, Gcd, ParseNat, Pow10, Whole, Part, FractionValue, ScaledTo;
    var w, part := Whole(text), Part(text);
    ParseConcat(w, part);
    FractionDigits(part);
    Scaled(ParseNat(w), FractionValue(part), ParseNat(part), Pow10(|part|), 1);
    ReducedValue(ParseNat(w + part), Pow10(|part|));
    ScaledQuotient(Worth(text), Pow10(|part|), ParseNat(w + part));
  }

  lemma ScaledQuotient(f: real, p: nat, r: nat)
    requires ScaledTo(f, p, r) && p > 0
    ensures r as real / p as real == f
  {
    QuotientIs(r as real, p as real, f);
  }

  /** Whole cents in an amount: `n * 100 / d`. */
  function FloorCents(r: Rational): nat {
    r.n * 100 / r.d
  }

  lemma FloorCentsValue(r: Rational)
    ensures FloorCents(r) as real <= 100.0 * Value(r) < FloorCents(r) as real + 1.0
  {
    hide Value, FloorCents;
    ValueIs(r, Value(r));
    FloorBounds(r);
    Between(100.0, Value(r), FloorCents(r) as real, r.d as real, r.n as real);
  }

  lemma FloorBounds(r: Rational)
    ensures FloorCents(r) as real * r.d as real <= 100.0 * r.n as real
    ensures 100.0 * r.n as real < FloorCents(r) as real * r.d as real + r.d as real
  {
    var c := FloorCents(r);
    DivMod(r.n * 100, r.d);
    RealProduct(c, r.d);
    assert r.d * c == c * r.d;
    assert c * r.d <= r.n * 100 < c * r.d + r.d;
  }

  lemma Between(k: real, v: real, c: real, d: real, n: real)
    requires d > 0.0 && n == v * d && c * d <= k * n && k * n < c * d + d
    ensures c <= k * v < c + 1.0
  {
    var x := k * v - c;
    assert x * d == k * n - c * d;
    assert (x - 1.0) * d == x * d - d;
    SignOf(x, d);
    SignOf(x - 1.0, d);
  }
}
