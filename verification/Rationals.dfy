/**
 big.Rat: a fraction kept in lowest terms with a positive denominator, so that the numerator,
 the denominator and IsInt mean what they mean in the source. Its value is a real number.
 */
module Rationals {
  import opened Arithmetic

  function Gcd(a: nat, b: nat): nat
    decreases b
  {
    if b == 0 then a else Gcd(b, a % b)
  }

  function Abs(n: int): nat {
    if n < 0 then -n else n
  }

  /** Lowest terms. */
  predicate Reduced(num: int, den: int) {
    den > 0 && Gcd(Abs(num), den) == 1
  }

  datatype RawRat = Rat(num: int, den: int)

  type Rat = r: RawRat | Reduced(r.num, r.den) witness (assert Gcd(0, 1) == 1; RawRat.Rat(0, 1))

  function Value(r: Rat): real {
    r.num as real / r.den as real
  }

  // ----- reduction -----

  /** The greatest common divisor divides both numbers. */
  lemma {:induction false} GcdFactors(a: nat, b: nat) returns (g: nat, x: nat, y: nat)
    requires a > 0 || b > 0
    ensures g == Gcd(a, b) && g > 0 && a == x * g && b == y * g
    decreases b
  {
    if b == 0 {
      g, x, y := a, 1, 0;
    } else {
      var r := a % b;
      var x', y';
      g, x', y' := GcdFactors(b, r);
      x := FactorSum(a, b, x', y', g);
      y := x';
    }
  }

  lemma FactorSum(a: nat, b: nat, x: nat, y: nat, g: nat) returns (k: nat)
    requires b > 0 && b == x * g && a % b == y * g
    ensures a == k * g
  {
    var q: nat := a / b;
    k := q * x + y;
    Regroup(q, x, y, g);
  }

  lemma Regroup(q: nat, x: nat, y: nat, g: nat)
    ensures (q * x + y) * g == q * (x * g) + y * g
  {
  }

  lemma {:induction false} GcdScale(k: nat, a: nat, b: nat)
    requires k > 0
    ensures Gcd(k * a, k * b) == k * Gcd(a, b)
    decreases b
  {
    if b > 0 {
      ModScale(k, a, b);
      GcdScale(k, b, a % b);
      assert k * b != 0;
    }
  }

  lemma ModScale(k: nat, a: nat, b: nat)
    requires k > 0 && b > 0
    ensures k * b > 0 && (k * a) % (k * b) == k * (a % b)
  {
    var q, r := a / b, a % b;
    assert a == q * b + r;
    assert k * a == q * (k * b) + k * r;
    assert 0 <= k * r < k * b;
    DivModUnique(k * a, k * b, q, k * r);
  }

  /** Any fraction with a positive denominator, in lowest terms. */
  function Norm(n: int, d: int): (r: Rat)
    requires d > 0
    ensures r.num * d == n * r.den
  {
    var g := Gcd(Abs(n), d);
    NormReduced(n, d);
    RawRat.Rat(n / g, d / g)
  }

  lemma NormReduced(n: int, d: int)
    requires d > 0
    ensures var g := Gcd(Abs(n), d);
      g > 0 && Reduced(n / g, d / g) && (n / g) * d == n * (d / g)
  {
    var g, m, e := GcdFactors(Abs(n), d);
    var k := Signed(n, m);
    SignedPart(n, m, g);
    MultipleMod(k, g);
    MultipleMod(e, g);
    assert n / g == k && d / g == e && Abs(k) == m;
    assert e > 0;
    ReducedParts(g, m, e);
    CrossEqual(k, g, e);
  }

  /** m with the sign of n. */
  function Signed(n: int, m: int): int {
    if n < 0 then -m else m
  }

  lemma SignedPart(n: int, m: nat, g: nat)
    requires Abs(n) == m * g
    ensures n == Signed(n, m) * g
  {
  }

  lemma ReducedParts(g: nat, m: nat, e: nat)
    requires g > 0 && Gcd(m * g, e * g) == g
    ensures Gcd(m, e) == 1
  {
    GcdScale(g, m, e);
    var x := Gcd(m, e);
    assert x * g == g;
    MultipleMod(x, g);
    MultipleMod(1, g);
  }

  lemma CrossEqual(k: int, g: int, e: int)
    ensures k * (e * g) == (k * g) * e
  {
  }

  function FromInt(n: int): (r: Rat)
    ensures Value(r) == n as real
  {
    var r := Norm(n, 1);
    ValueOf(r, n, 1);
    r
  }

  function Mul(a: Rat, b: Rat): (r: Rat)
    ensures Value(r) == Value(a) * Value(b)
  {
    MulPositive(a.den, b.den);
    var r := Norm(a.num * b.num, a.den * b.den);
    ValueOf(r, a.num * b.num, a.den * b.den);
    ProductValue(a, b);
    r
  }

  /** Division by a positive rational. */
  function Quo(a: Rat, b: Rat): (r: Rat)
    requires b.num > 0
    ensures Value(b) > 0.0 && Value(r) == Value(a) / Value(b)
  {
    MulPositive(a.den, b.num);
    var r := Norm(a.num * b.den, a.den * b.num);
    ValueOf(r, a.num * b.den, a.den * b.num);
    QuotientValue(a, b);
    r
  }

  lemma MulPositive(x: int, y: int)
    requires x > 0 && y > 0
    ensures x * y > 0
  {
  }

  lemma ValueOf(r: Rat, n: int, d: int)
    requires d > 0 && r.num * d == n * r.den
    ensures Value(r) == n as real / d as real
  {
    var a, b, x, y := r.num as real, r.den as real, n as real, d as real;
    assert a * y == x * b by {
      assert (r.num * d) as real == a * y && (n * r.den) as real == x * b;
    }
    CrossDivide(a, b, x, y);
  }

  lemma CrossDivide(a: real, b: real, x: real, y: real)
    requires b > 0.0 && y > 0.0 && a * y == x * b
    ensures a / b == x / y
  {
    assert a / b == (a * y) / (b * y);
    assert x / y == (x * b) / (y * b);
  }

  lemma ProductValue(a: Rat, b: Rat)
    ensures (a.den * b.den) as real > 0.0
    ensures (a.num * b.num) as real / (a.den * b.den) as real == Value(a) * Value(b)
  {
    var n, d, m, e := a.num as real, a.den as real, b.num as real, b.den as real;
    MulPositive(a.den, b.den);
    assert (a.num * b.num) as real == n * m && (a.den * b.den) as real == d * e;
    DivTimes(n, d, m, e);
  }

  lemma DivTimes(n: real, d: real, m: real, e: real)
    requires d > 0.0 && e > 0.0
    ensures d * e > 0.0 && (n / d) * (m / e) == (n * m) / (d * e)
  {
    var x, y := n / d, m / e;
    assert n == x * d && m == y * e;
    assert n * m == (x * y) * (d * e);
  }

  lemma CrossProduct(y: real, z: real, d: real, e: real)
    ensures z * y * d * e == z * (d * (y * e))
  {
    assert y * d * e == d * (y * e);
    assert z * y * d * e == z * (y * d * e);
  }

  lemma QuotientValue(a: Rat, b: Rat)
    requires b.num > 0
    ensures Value(b) > 0.0 && (a.den * b.num) as real > 0.0
    ensures (a.num * b.den) as real / (a.den * b.num) as real == Value(a) / Value(b)
  {
    var n, d, m, e := a.num as real, a.den as real, b.num as real, b.den as real;
    MulPositive(a.den, b.num);
    var x, y := n / d, m / e;
    assert n == x * d && m == y * e;
    assert y > 0.0;
    var z := x / y;
    assert x == z * y;
    CrossProduct(y, z, d, e);
    assert d * m > 0.0;
  }

  /** r.IsInt(): the denominator is 1, which in lowest terms is the same as having an integral value. */
  predicate IsInt(r: Rat) {
    r.den == 1
  }

  lemma IsIntMeansIntegral(r: Rat)
    ensures IsInt(r) <==> Value(r).Floor as real == Value(r)
  {
    FloorOfQuotient(r);
    if r.num % r.den == 0 {
      assert Abs(r.num) % r.den == 0 by {
        if r.num < 0 {
          assert r.num == r.num / r.den * r.den;
          assert -r.num == -(r.num / r.den) * r.den;
          MultipleMod(-(r.num / r.den), r.den);
        }
      }
      assert Gcd(Abs(r.num), r.den) == Gcd(r.den, 0) == r.den;
    }
  }

  // ----- rounding -----

  /** The least integer not below x. */
  function Ceil(x: real): int {
    if x.Floor as real == x then x.Floor else x.Floor + 1
  }

  /** truncRat: integer division of the parts is the floor of the value. */
  method TruncRat(r: Rat) returns (q: int)
    ensures q == Value(r).Floor
  {
    q := r.num / r.den;
    FloorOfQuotient(r);
  }

  lemma FloorOfQuotient(r: Rat)
    ensures r.num / r.den == Value(r).Floor
    ensures r.num % r.den == 0 <==> Value(r).Floor as real == Value(r)
  {
    var q, m := r.num / r.den, r.num % r.den;
    var n, d := r.num as real, r.den as real;
    assert n == q as real * d + m as real by {
      assert r.num == q * r.den + m;
      assert (q * r.den) as real == q as real * d;
    }
    var v := Value(r);
    assert n == v * d;
    UnitInterval(v - q as real, d, m as real);
  }

  lemma UnitInterval(x: real, d: real, m: real)
    requires d > 0.0 && 0.0 <= m < d && x * d == m
    ensures 0.0 <= x < 1.0 && (m == 0.0 <==> x == 0.0)
  {
    assert x == m / d;
    if x >= 1.0 { RealMulMono(1.0, x, d); }
  }

  lemma RealMulMono(a: real, b: real, c: real)
    requires a <= b && c >= 0.0
    ensures a * c <= b * c
  {
    assert (b - a) * c >= 0.0;
  }

  /** ceilRat: one more than the floor when there is a remainder. */
  method CeilRat(r: Rat) returns (q: int)
    ensures q == Ceil(Value(r))
  {
    var num, den := r.num, r.den;
    q := num / den;
    var rem := num % den;
    if rem > 0 {
      q := q + 1;
    }
    FloorOfQuotient(r);
  }

  /** The greatest multiple of `quantum` not above x. */
  function FloorTo(x: real, quantum: nat): (v: int)
    requires quantum > 0
    ensures v % quantum == 0 && v as real <= x < (v + quantum) as real
  {
    var f := x.Floor;
    DivModBounds(f, quantum);
    f / quantum * quantum
  }

  /** The least multiple of `quantum` not below x. */
  function CeilTo(x: real, quantum: nat): (v: int)
    requires quantum > 0
    ensures v % quantum == 0 && (v - quantum) as real < x <= v as real
  {
    var c := Ceil(x);
    DivModBounds(c, quantum);
    if c % quantum == 0 then c else CeilStep(c, quantum); (c / quantum + 1) * quantum
  }

  lemma DivModBounds(n: int, quantum: nat)
    requires quantum > 0
    ensures n / quantum * quantum <= n < n / quantum * quantum + quantum
    ensures n == n / quantum * quantum + n % quantum
    ensures (n / quantum * quantum) % quantum == 0
  {
    MultipleMod(n / quantum, quantum);
  }

  lemma CeilStep(n: int, quantum: nat)
    requires quantum > 0
    ensures ((n / quantum + 1) * quantum) % quantum == 0
    ensures (n / quantum + 1) * quantum == n / quantum * quantum + quantum
  {
    MultipleMod(n / quantum + 1, quantum);
  }

  /** Being a multiple, not above x, and less than one quantum away determine the rounded value. */
  lemma MultiplesApart(u: int, v: int, quantum: nat)
    requires quantum > 0 && u % quantum == 0 && v % quantum == 0 && v < u
    ensures v + quantum <= u
  {
    DivModBounds(u, quantum);
    DivModBounds(v, quantum);
    MulApart(u / quantum, v / quantum, quantum);
  }

  lemma MulApart(a: int, b: int, d: nat)
    requires d > 0 && b * d < a * d
    ensures b * d + d <= a * d
  {
    assert a > b;
    MulAtLeast(a - b, d);
  }

  /** truncRatToQuantum. */
  method TruncRatToQuantum(r: Rat, quantum: nat) returns (v: int)
    requires quantum > 0
    ensures v == FloorTo(Value(r), quantum)
  {
    v := TruncRat(r);
    v := v / quantum;
    v := v * quantum;
  }

  /** ceilRatToQuantum. */
  method CeilRatToQuantum(r: Rat, quantum: nat) returns (v: int)
    requires quantum > 0
    ensures v == CeilTo(Value(r), quantum)
  {
    v := CeilRat(r);
    var rem := v % quantum;
    if rem == 0 {
      return;
    }
    DivModBounds(v, quantum);
    CeilStep(v, quantum);
    v := v + (quantum - rem);
  }
}
