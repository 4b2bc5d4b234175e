/** Powers of ten and the few facts about products and quotients the decimal proofs need. */
module Decimal {
  /** `10.pow(e)` on unbounded integers. */
  function Pow10(e: nat): (p: nat)
    ensures p >= 1
  {
    if e == 0 then 1 else 10 * Pow10(e - 1)
  }

  lemma {:induction false} Pow10Add(a: nat, b: nat)
    ensures Pow10(a + b) == Pow10(a) * Pow10(b)
  {
    if a > 0 {
      Pow10Add(a - 1, b);
      assert Pow10(a + b) == 10 * Pow10(a - 1 + b);
    }
  }

  lemma {:induction false} Pow10Mono(a: nat, b: nat)
    requires a <= b
    ensures Pow10(a) <= Pow10(b)
  {
    if a < b {
      Pow10Mono(a, b - 1);
    }
  }

  lemma MulMono(a: nat, b: nat, c: nat)
    requires a <= b
    ensures a * c <= b * c
  {
  }

  lemma MulSucc(a: nat, p: nat)
    ensures (a + 1) * p == a * p + p
  {
  }

  /** Bounds on a quotient: `lo * p <= x < hi * p` pins `x / p` between `lo` and `hi`. */
  lemma DivBounds(x: nat, p: nat, lo: nat, hi: nat)
    requires p >= 1 && lo * p <= x < hi * p
    ensures lo <= x / p < hi
  {
    var q := x / p;
    assert x == q * p + x % p;
    if q < lo {
      MulMono(q + 1, lo, p);
    }
    if q >= hi {
      MulMono(hi, q, p);
    }
  }

  /** `x / p` for a positive divisor, never negative. */
  function Quotient(x: nat, p: nat): (q: nat)
    requires p >= 1
    ensures q == x / p
  {
    DivBounds(x, p, 0, x + 1);
    x / p
  }

  /** Euclidean division by a positive divisor. */
  lemma DivMod(x: nat, p: nat)
    requires p >= 1
    ensures x == (x / p) * p + x % p && 0 <= x % p < p
  {
  }

  lemma ScaleTen(x: nat, y: nat)
    ensures 10 * (x * y) == x * (10 * y)
  {
  }
}
