/** Integer helpers the converters import from an unseen utility module, and the
    integer replacement of math.log2 used for level counts. */
module Arith {

  function Min(a: int, b: int): int { if a <= b then a else b }
  function Max(a: int, b: int): int { if a >= b then a else b }

  function Pow2(n: nat): (r: nat)
    ensures r >= 1
  {
    if n == 0 then 1 else 2 * Pow2(n - 1)
  }

  /** ceildiv(a, b): the smallest q with a <= q * b. */
  function CeilDiv(a: int, b: int): (q: int)
    requires b > 0
    ensures (q - 1) * b < a <= q * b
  {
    (a + b - 1) / b
  }

  /** floordiv(a, b): the largest q with q * b <= a (Python's //). */
  function FloorDiv(a: int, b: int): (q: int)
    requires b > 0
    ensures q * b <= a < (q + 1) * b
  {
    a / b
  }

  /** numpy's astype of a float quotient back to an integer type truncates toward zero. */
  function TruncDiv(a: int, b: int): (q: int)
    requires b > 0
    ensures a >= 0 ==> q * b <= a < (q + 1) * b
    ensures a < 0 ==> (q - 1) * b < a <= q * b
  {
    if a >= 0 then a / b else -((-a) / b)
  }

  /** The integer ceiling logarithm the level counts use in place of
      int(math.ceil(math.log2(x))): the least k with x <= 2^k. */
  function CeilLog2(x: nat): (k: nat)
    requires x >= 1
    ensures x <= Pow2(k)
    ensures k > 0 ==> Pow2(k - 1) < x
    decreases x
  {
    if x == 1 then 0 else 1 + CeilLog2(CeilDiv(x, 2))
  }

  function RealPow(f: real, n: nat): real
  {
    if n == 0 then 1.0 else f * RealPow(f, n - 1)
  }

  lemma {:induction false} Pow2Monotone(a: nat, b: nat)
    requires a <= b
    ensures Pow2(a) <= Pow2(b)
    decreases b
  {
    if a < b {
      Pow2Monotone(a, b - 1);
    }
  }

  /** A value strictly below 2^k halves to at least one at every level below k. */
  lemma {:induction false} CeilLog2Levels(x: nat, l: nat)
    requires x >= 1
    requires l < CeilLog2(x)
    ensures x / Pow2(l) >= 1
  {
    var k := CeilLog2(x);
    Pow2Monotone(l, k - 1);
    DivAtLeastOne(x, Pow2(l));
  }

  lemma DivAtLeastOne(x: int, p: int)
    requires 0 < p <= x
    ensures x / p >= 1
  {
    var q, r := x / p, x % p;
    assert x == p * q + r && r < p;
  }

  lemma CeilDivMonotone(a: int, b: int, d: int)
    requires d > 0 && a <= b
    ensures CeilDiv(a, d) <= CeilDiv(b, d)
  {
    var qa, qb := CeilDiv(a, d), CeilDiv(b, d);
    assert (qa - 1) * d < qb * d;
    MulLtCancel(qa - 1, qb, d);
  }

  /** The quotient and remainder bounds of x / m. */
  lemma DivBounds(x: int, m: int)
    requires m > 0
    ensures (x / m) * m <= x < (x / m) * m + m
  {
    var q, r := x / m, x % m;
    assert x == q * m + r;
  }

  lemma MulMonotone(a: int, b: int, m: int)
    requires m > 0
    ensures a <= b ==> a * m <= b * m
  {
  }

  lemma MulLeCancel(a: int, b: int, n: int)
    requires n > 0
    requires a * n <= b * n
    ensures a <= b
  {
    assert a * n - b * n == (a - b) * n;
  }

  lemma MulLtCancel(a: int, b: int, n: int)
    requires n > 0
    requires a * n < b * n
    ensures a < b
  {
    assert b * n - a * n == (b - a) * n;
  }

  lemma CeilDivZero(d: int)
    requires d > 0
    ensures CeilDiv(0, d) == 0
  {
    var q := CeilDiv(0, d);
    assert (q - 1) * d < 0 * d && 0 * d <= q * d;
    MulLtCancel(q - 1, 0, d);
    MulLeCancel(0, q, d);
  }

  lemma CeilDivPositive(a: int, d: int)
    requires d > 0 && a >= 1
    ensures CeilDiv(a, d) >= 1
  {
  }

  /** Any x of at least 3 needs at least two halvings: ceil(log2 x) >= 2. */
  lemma CeilLog2AtLeastTwo(x: nat)
    requires x >= 3
    ensures CeilLog2(x) >= 2
  {
    assert Pow2(0) == 1 && Pow2(1) == 2;
  }
}
