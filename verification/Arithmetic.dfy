/** Small facts about products and Euclidean division. */
module Arithmetic {
  lemma MulAtLeast(e: int, d: int)
    requires e >= 1 && d >= 0
    ensures e * d >= d
  {
  }

  /** Euclidean division has one result. */
  lemma DivModUnique(n: int, d: nat, q: int, r: nat)
    requires r < d && n == q * d + r
    ensures n / d == q && n % d == r
  {
    var q', r' := n / d, n % d;
    var e := q - q';
    assert e * d == r' - r by { assert n == q' * d + r'; assert e * d == q * d - q' * d; }
    if e >= 1 { MulAtLeast(e, d); }
    if e <= -1 { MulAtLeast(-e, d); }
  }

  lemma MultipleMod(k: int, g: nat)
    requires g > 0
    ensures (k * g) % g == 0 && (k * g) / g == k
  {
    DivModUnique(k * g, g, k, 0);
  }

  lemma DivDiv(n: nat, a: nat, b: nat)
    requires a > 0 && b > 0
    ensures a * b > 0 && n / a / b == n / (a * b)
  {
    var q, r := n / a, n % a;
    var x, y := q / b, q % b;
    Nested(n, a, b, q, r, x, y);
    DivModUnique(n, a * b, x, y * a + r);
  }

  lemma Nested(n: nat, a: nat, b: nat, q: nat, r: nat, x: nat, y: nat)
    requires n == q * a + r && q == x * b + y && r < a && y < b
    ensures n == x * (a * b) + (y * a + r) && y * a + r < a * b
  {
    assert (x * b + y) * a == x * (a * b) + y * a;
    MulAtMost(y + 1, b, a);
    assert (y + 1) * a == y * a + a;
  }

  lemma BelowQuotient(n: nat, p: nat, d: nat)
    requires p > 0 && n < d * p
    ensures n / p < d
  {
    var q := n / p;
    if q >= d { MulAtMost(d, q, p); }
  }

  lemma MulAtMost(d: nat, q: nat, p: nat)
    requires d <= q
    ensures d * p <= q * p
  {
    assert (q - d) * p >= 0;
  }

  lemma Associate(x: nat, y: nat, z: nat)
    ensures x * (y * z) == (x * y) * z
  {
  }

  lemma ShiftLeft(b: nat, x: nat, p: nat)
    ensures x * (b * p) == b * (x * p)
  {
  }
}
