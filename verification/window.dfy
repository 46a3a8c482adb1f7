/** The windowed reducer of the pyramid generator: a block is cropped to an even (or
    unit) extent per axis, each output voxel gathers its 2x2x2 window (1 sample wide
    along an axis of extent 1), and the window is collapsed by its mean or median,
    cast back to the integer element type. */
module Window {
  import opened Arith

  type Idx3 = (int, int, int)

  /** A 3-D block of integer samples: its extents, and its value at every index
      (indices outside the extents are never read). */
  datatype Block = Block(d0: nat, d1: nat, d2: nat, at: Idx3 -> int)

  datatype Mode = Mean | Median

  predicate InBlock(b: Block, p: Idx3)
  {
    0 <= p.0 < b.d0 && 0 <= p.1 < b.d1 && 0 <= p.2 < b.d2
  }

  /** The window along one axis: `len` consecutive indices from `start`. */
  datatype Win = Win(start: int, len: nat)

  predicate InWin(x: int, w: Win)
  {
    w.start <= x < w.start + w.len
  }

  // ---------------------------------------------------------------------------
  // Cropping and windows

  /** The extent left after discarding the last sample of an odd axis longer than 1. */
  function CropExtent(n: nat): (m: nat)
    ensures m < n <==> n % 2 == 1 && n > 1
    ensures m == n || m == n - 1
    ensures m == 1 || m % 2 == 0
  {
    if n == 1 then n else n - n % 2
  }

  /** The window of output index a along an axis whose cropped extent is m. */
  function AxisWindow(m: nat, a: int): Win
  {
    if m == 1 then Win(a, 1) else Win(2 * a, Min(m, 2))
  }

  /** Along an axis of extent n >= 1, output index a (below max(n // 2, 1)) reduces the
      inputs {2a, 2a+1}, or {a} when n == 1; the window never reaches the sample
      dropped by the crop. */
  lemma AxisWindowInside(n: nat, a: int)
    requires n >= 1
    requires 0 <= a < Max(n / 2, 1)
    ensures var w := AxisWindow(CropExtent(n), a);
      && (n == 1 ==> w == Win(a, 1))
      && (n >= 2 ==> w == Win(2 * a, 2))
      && 0 <= w.start && w.start + w.len <= CropExtent(n)
  {
  }

  // ---------------------------------------------------------------------------
  // Gathering a window into the trailing patch axis (row-major order)

  function Row(f: Idx3 -> int, x: int, y: int, w2: Win): seq<int>
  {
    seq(w2.len, k => f((x, y, w2.start + k)))
  }

  function Plane(f: Idx3 -> int, x: int, w1: Win, w2: Win, j: nat): seq<int>
    decreases j
  {
    if j == 0 then [] else Plane(f, x, w1, w2, j - 1) + Row(f, x, w1.start + j - 1, w2)
  }

  function Cube(f: Idx3 -> int, w0: Win, w1: Win, w2: Win, i: nat): seq<int>
    decreases i
  {
    if i == 0 then [] else Cube(f, w0, w1, w2, i - 1) + Plane(f, w0.start + i - 1, w1, w2, w1.len)
  }

  function Gather(f: Idx3 -> int, w0: Win, w1: Win, w2: Win): seq<int>
  {
    Cube(f, w0, w1, w2, w0.len)
  }

  /** v is the block's value at some index of the three windows. */
  ghost predicate ValueIn(f: Idx3 -> int, w0: Win, w1: Win, w2: Win, v: int)
  {
    exists p: Idx3 :: InWin(p.0, w0) && InWin(p.1, w1) && InWin(p.2, w2) && v == f(p)
  }

  lemma {:induction false} PlaneFacts(f: Idx3 -> int, x: int, w1: Win, w2: Win, j: nat)
    ensures |Plane(f, x, w1, w2, j)| == j * w2.len
    ensures forall k :: 0 <= k < |Plane(f, x, w1, w2, j)| ==>
      ValueIn(f, Win(x, 1), Win(w1.start, j), w2, Plane(f, x, w1, w2, j)[k])
  {
    if j > 0 {
      PlaneFacts(f, x, w1, w2, j - 1);
      var p := Plane(f, x, w1, w2, j - 1);
      var r := Row(f, x, w1.start + j - 1, w2);
      forall k | 0 <= k < |p + r|
        ensures ValueIn(f, Win(x, 1), Win(w1.start, j), w2, (p + r)[k])
      {
        if k < |p| {
          assert ValueIn(f, Win(x, 1), Win(w1.start, j - 1), w2, p[k]);
          var q: Idx3 :| InWin(q.0, Win(x, 1)) && InWin(q.1, Win(w1.start, j - 1)) && InWin(q.2, w2) && p[k] == f(q);
          assert (p + r)[k] == f(q);
        } else {
          var kk := k - |p|;
          var q: Idx3 := (x, w1.start + j - 1, w2.start + kk);
          assert (p + r)[k] == r[kk] == f(q);
        }
      }
      assert Plane(f, x, w1, w2, j) == p + r;
    }
  }

  lemma {:induction false} CubeFacts(f: Idx3 -> int, w0: Win, w1: Win, w2: Win, i: nat)
    ensures |Cube(f, w0, w1, w2, i)| == i * (w1.len * w2.len)
    ensures forall k :: 0 <= k < |Cube(f, w0, w1, w2, i)| ==>
      ValueIn(f, Win(w0.start, i), w1, w2, Cube(f, w0, w1, w2, i)[k])
  {
    if i > 0 {
      CubeFacts(f, w0, w1, w2, i - 1);
      var x := w0.start + i - 1;
      PlaneFacts(f, x, w1, w2, w1.len);
      var c := Cube(f, w0, w1, w2, i - 1);
      var p := Plane(f, x, w1, w2, w1.len);
      forall k | 0 <= k < |c + p|
        ensures ValueIn(f, Win(w0.start, i), w1, w2, (c + p)[k])
      {
        if k < |c| {
          assert ValueIn(f, Win(w0.start, i - 1), w1, w2, c[k]);
          var q: Idx3 :| InWin(q.0, Win(w0.start, i - 1)) && InWin(q.1, w1) && InWin(q.2, w2) && c[k] == f(q);
          assert (c + p)[k] == f(q);
        } else {
          assert ValueIn(f, Win(x, 1), Win(w1.start, w1.len), w2, p[k - |c|]);
          var q: Idx3 :| InWin(q.0, Win(x, 1)) && InWin(q.1, Win(w1.start, w1.len)) && InWin(q.2, w2) && p[k - |c|] == f(q);
          assert (c + p)[k] == f(q);
        }
      }
      assert Cube(f, w0, w1, w2, i) == c + p;
    }
  }

  /** The patch axis has one entry per window index (the product of the window
      lengths), and every entry is the block's value at an index of the window. */
  lemma GatherFacts(f: Idx3 -> int, w0: Win, w1: Win, w2: Win)
    ensures |Gather(f, w0, w1, w2)| == w0.len * (w1.len * w2.len)
    ensures forall k :: 0 <= k < |Gather(f, w0, w1, w2)| ==> ValueIn(f, w0, w1, w2, Gather(f, w0, w1, w2)[k])
  {
    CubeFacts(f, w0, w1, w2, w0.len);
    assert Win(w0.start, w0.len) == w0;
  }

  function Shift(f: Idx3 -> int, o: Idx3): Idx3 -> int
  {
    (p: Idx3) => f((p.0 + o.0, p.1 + o.1, p.2 + o.2))
  }

  function Move(w: Win, o: int): Win { Win(w.start + o, w.len) }

  lemma {:induction false} PlaneShift(f: Idx3 -> int, o: Idx3, x: int, w1: Win, w2: Win, j: nat)
    ensures Plane(Shift(f, o), x, w1, w2, j) == Plane(f, x + o.0, Move(w1, o.1), Move(w2, o.2), j)
  {
    if j > 0 {
      PlaneShift(f, o, x, w1, w2, j - 1);
      var y := w1.start + j - 1;
      var r1 := Row(Shift(f, o), x, y, w2);
      var r2 := Row(f, x + o.0, Move(w1, o.1).start + j - 1, Move(w2, o.2));
      assert |r1| == |r2|;
      forall k | 0 <= k < |r1|
        ensures r1[k] == r2[k]
      {
        assert r1[k] == f((x + o.0, y + o.1, w2.start + k + o.2));
      }
      assert r1 == r2;
    }
  }

  lemma {:induction false} CubeShift(f: Idx3 -> int, o: Idx3, w0: Win, w1: Win, w2: Win, i: nat)
    ensures Cube(Shift(f, o), w0, w1, w2, i) == Cube(f, Move(w0, o.0), Move(w1, o.1), Move(w2, o.2), i)
  {
    if i > 0 {
      CubeShift(f, o, w0, w1, w2, i - 1);
      PlaneShift(f, o, w0.start + i - 1, w1, w2, w1.len);
    }
  }

  /** Reading a window of a block read at offset o is reading the moved window of
      the whole block. */
  lemma GatherShift(f: Idx3 -> int, o: Idx3, w0: Win, w1: Win, w2: Win)
    ensures Gather(Shift(f, o), w0, w1, w2) == Gather(f, Move(w0, o.0), Move(w1, o.1), Move(w2, o.2))
  {
    CubeShift(f, o, w0, w1, w2, w0.len);
  }

  // ---------------------------------------------------------------------------
  // Mean and median with cast-back

  function Sum(s: seq<int>): int
  {
    if |s| == 0 then 0 else Sum(s[..|s| - 1]) + s[|s| - 1]
  }

  /** np.mean followed by astype to the integer type. */
  function MeanCast(s: seq<int>): int
  {
    if |s| == 0 then 0 else TruncDiv(Sum(s), |s|)
  }

  predicate Sorted(s: seq<int>)
  {
    forall i, j :: 0 <= i < j < |s| ==> s[i] <= s[j]
  }

  function Insert(x: int, s: seq<int>): (r: seq<int>)
    requires Sorted(s)
    ensures Sorted(r)
    ensures multiset(r) == multiset(s) + multiset{x}
  {
    if |s| == 0 then [x]
    else if x <= s[0] then [x] + s
    else
      var t := Insert(x, s[1..]);
      assert s == [s[0]] + s[1..];
      HeadBelow(s[0], x, s[1..], t);
      [s[0]] + t
  }

  /** A value no larger than x and than every element of u is no larger than
      any element of a permutation of u with x added. */
  lemma HeadBelow(h: int, x: int, u: seq<int>, t: seq<int>)
    requires h <= x
    requires forall k :: 0 <= k < |u| ==> h <= u[k]
    requires multiset(t) == multiset(u) + multiset{x}
    ensures forall k :: 0 <= k < |t| ==> h <= t[k]
  {
    forall k | 0 <= k < |t|
      ensures h <= t[k]
    {
      assert t[k] in multiset(t);
      if t[k] != x {
        assert t[k] in multiset(u);
      }
    }
  }

  function Sort(s: seq<int>): (r: seq<int>)
    ensures Sorted(r)
    ensures multiset(r) == multiset(s)
  {
    if |s| == 0 then []
    else
      assert s == s[..|s| - 1] + [s[|s| - 1]];
      Insert(s[|s| - 1], Sort(s[..|s| - 1]))
  }

  /** np.median followed by astype: the middle sorted value, or the truncated mean of
      the two middle values when the count is even. */
  function MedianCast(s: seq<int>): int
  {
    if |s| == 0 then 0
    else
      var t := Sort(s);
      assert |t| == |multiset(t)| == |s|;
      var k := |s| / 2;
      if |s| % 2 == 1 then t[k] else TruncDiv(t[k - 1] + t[k], 2)
  }

  function Aggregate(mode: Mode, s: seq<int>): int
  {
    match mode
    case Mean => MeanCast(s)
    case Median => MedianCast(s)
  }

  predicate AllBetween(s: seq<int>, lo: int, hi: int)
  {
    forall k :: 0 <= k < |s| ==> lo <= s[k] <= hi
  }

  lemma {:induction false} SumBounds(s: seq<int>, lo: int, hi: int)
    requires AllBetween(s, lo, hi)
    ensures |s| * lo <= Sum(s) <= |s| * hi
  {
    if |s| > 0 {
      var t := s[..|s| - 1];
      SumBounds(t, lo, hi);
      assert Sum(s) == Sum(t) + s[|s| - 1];
      assert |s| * lo == |t| * lo + lo && |s| * hi == |t| * hi + hi;
    }
  }

  lemma TruncDivBounds(a: int, n: int, lo: int, hi: int)
    requires n > 0
    requires n * lo <= a <= n * hi
    ensures lo <= TruncDiv(a, n) <= hi
  {
    var q := TruncDiv(a, n);
    if a >= 0 {
      assert q * n <= a < (q + 1) * n;
      MulLeCancel(q, hi, n);
      MulLeCancel(lo, q, n + 0) by {
        assert lo * n < (q + 1) * n;
        MulLeCancel(lo, q + 1, n);
        if lo == q + 1 {
          assert false;
        }
      }
    } else {
      assert (q - 1) * n < a <= q * n;
      MulLeCancel(lo, q, n);
      assert (q - 1) * n < hi * n;
      MulLeCancel(q - 1, hi, n);
      if q - 1 == hi {
        assert false;
      }
    }
  }

  /** Every reduced value lies between the smallest and the largest value of its
      window, so the cast back to the input type never leaves the input's range. */
  lemma AggregateBetween(mode: Mode, s: seq<int>, lo: int, hi: int)
    requires |s| > 0
    requires AllBetween(s, lo, hi)
    ensures lo <= Aggregate(mode, s) <= hi
  {
    match mode
    case Mean =>
      SumBounds(s, lo, hi);
      TruncDivBounds(Sum(s), |s|, lo, hi);
    case Median =>
      var t := Sort(s);
      assert |t| == |multiset(t)| == |s|;
      forall k | 0 <= k < |t|
        ensures lo <= t[k] <= hi
      {
        assert t[k] in multiset(s);
      }
      var m := |s| / 2;
      if |s| % 2 == 0 {
        TruncDivBounds(t[m - 1] + t[m], 2, lo, hi);
      }
  }

  /** A window whose samples all equal v reduces to exactly v, in both modes. */
  lemma AggregateConstant(mode: Mode, s: seq<int>, v: int)
    requires |s| > 0
    requires AllBetween(s, v, v)
    ensures Aggregate(mode, s) == v
  {
    AggregateBetween(mode, s, v, v);
  }

  // ---------------------------------------------------------------------------
  // Downsampling one block

  /** Crop, window and reduce a block: the body of one tile step of the pyramid. */
  function Downsample(b: Block, mode: Mode): (r: Block)
    ensures r.d0 == Max(b.d0 / 2, 1) && r.d1 == Max(b.d1 / 2, 1) && r.d2 == Max(b.d2 / 2, 1)
  {
    var m0, m1, m2 := CropExtent(b.d0), CropExtent(b.d1), CropExtent(b.d2);
    Block(Max(m0 / 2, 1), Max(m1 / 2, 1), Max(m2 / 2, 1),
      (a: Idx3) => Aggregate(mode, Gather(b.at, AxisWindow(m0, a.0), AxisWindow(m1, a.1), AxisWindow(m2, a.2))))
  }

  /** The three windows of output voxel a. */
  function Windows(b: Block, a: Idx3): (Win, Win, Win)
  {
    (AxisWindow(CropExtent(b.d0), a.0), AxisWindow(CropExtent(b.d1), a.1), AxisWindow(CropExtent(b.d2), a.2))
  }

  predicate InWindows(ws: (Win, Win, Win), p: Idx3)
  {
    InWin(p.0, ws.0) && InWin(p.1, ws.1) && InWin(p.2, ws.2)
  }

  /** Each output voxel of a non-empty block has a non-empty window inside the cropped
      block, and its value lies between the smallest and largest input of that window. */
  lemma {:induction false} DownsampleBetween(b: Block, mode: Mode, a: Idx3, lo: int, hi: int)
    requires b.d0 >= 1 && b.d1 >= 1 && b.d2 >= 1
    requires InBlock(Downsample(b, mode), a)
    requires forall p :: InWindows(Windows(b, a), p) ==> lo <= b.at(p) <= hi
    ensures lo <= Downsample(b, mode).at(a) <= hi
  {
    var ws := Windows(b, a);
    AxisWindowInside(b.d0, a.0);
    AxisWindowInside(b.d1, a.1);
    AxisWindowInside(b.d2, a.2);
    var g := Gather(b.at, ws.0, ws.1, ws.2);
    GatherFacts(b.at, ws.0, ws.1, ws.2);
    assert ws.0.len >= 1 && ws.1.len >= 1 && ws.2.len >= 1;
    assert ws.1.len * ws.2.len >= 1;
    forall k | 0 <= k < |g|
      ensures lo <= g[k] <= hi
    {
      assert ValueIn(b.at, ws.0, ws.1, ws.2, g[k]);
      var q: Idx3 :| InWin(q.0, ws.0) && InWin(q.1, ws.1) && InWin(q.2, ws.2) && g[k] == b.at(q);
      assert InWindows(ws, q);
    }
    AggregateBetween(mode, g, lo, hi);
  }

  /** A window of identical samples v reduces to v: no rounding drift in either mode. */
  lemma DownsampleConstant(b: Block, mode: Mode, a: Idx3, v: int)
    requires b.d0 >= 1 && b.d1 >= 1 && b.d2 >= 1
    requires InBlock(Downsample(b, mode), a)
    requires forall p :: InWindows(Windows(b, a), p) ==> b.at(p) == v
    ensures Downsample(b, mode).at(a) == v
  {
    DownsampleBetween(b, mode, a, v, v);
  }
}
