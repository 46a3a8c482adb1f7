/** The memory-bounding tile grid shared by every converter: along an axis of
    extent n, tile i with tile size m is the half-open range [i*m, min((i+1)*m, n))
    and there are ceildiv(n, m) tiles. */
module Tiles {
  import opened Arith

  function Count(n: nat, m: nat): (c: nat)
    requires m > 0
    ensures c * m >= n
    ensures n > 0 ==> c >= 1
  {
    CeilDiv(n, m)
  }

  function Lo(i: nat, m: nat): nat { i * m }

  function Hi(i: nat, m: nat, n: nat): nat { Min((i + 1) * m, n) }

  predicate InTile(x: int, i: nat, m: nat, n: nat)
  {
    Lo(i, m) <= x < Hi(i, m, n)
  }

  lemma DivUnique(x: int, m: int, i: int)
    requires m > 0
    requires i * m <= x < (i + 1) * m
    ensures x / m == i
  {
    var q, r := x / m, x % m;
    assert x == q * m + r && 0 <= r < m;
    MulMonotone(q + 1, i, m);
    MulMonotone(i + 1, q, m);
  }

  /** Every index of [0, n) lies in exactly one tile, tile x / m, and that tile is
      one of the ceildiv(n, m) tiles the converters iterate over. */
  lemma {:induction false} Partition(n: nat, m: nat, x: int)
    requires m > 0
    requires 0 <= x < n
    ensures x / m < Count(n, m)
    ensures InTile(x, x / m, m, n)
    ensures forall i: nat :: InTile(x, i, m, n) ==> i == x / m
  {
    var q := x / m;
    DivBounds(x, m);
    assert (q + 1) * m == q * m + m;
    var c := Count(n, m);
    MulLtCancel(q, c, m);
    forall i: nat | InTile(x, i, m, n)
      ensures i == q
    {
      DivUnique(x, m, i);
    }
  }

  /** Each of the ceildiv(n, m) tiles is a non-empty range inside [0, n), and no tile
      reaches outside the axis. */
  lemma {:induction false} TileInside(n: nat, m: nat, i: nat)
    requires m > 0
    requires i < Count(n, m)
    ensures Lo(i, m) < Hi(i, m, n) <= n
    ensures Hi(i, m, n) - Lo(i, m) <= m
  {
    var c := Count(n, m);
    assert (c - 1) * m < n;
    assert i <= c - 1;
    assert i * m <= (c - 1) * m;
  }
}
