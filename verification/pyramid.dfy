/** The streaming pyramid generator: level shapes, the stop rule, and the
    max_load-bounded tiling that builds each level from the previous one. */
module Pyramid {
  import opened Arith
  import opened Errors
  import Tiles
  import opened Window
  import Store

  type Shape = seq<nat>

  // ---------------------------------------------------------------------------
  // Level-shape schedule and stop rule

  /** Next level's spatial shape: every extent floor-halved, but never below 1. */
  function Halve(s: Shape): (r: Shape)
    ensures |r| == |s|
    ensures forall i :: 0 <= i < |s| ==> r[i] >= 1
    ensures forall i :: 0 <= i < |s| && s[i] >= 2 ==> 2 * r[i] <= s[i] < 2 * r[i] + 2
    ensures forall i :: 0 <= i < |s| && s[i] <= 1 ==> r[i] == 1
  {
    seq(|s|, i requires 0 <= i < |s| => Max(1, s[i] / 2))
  }

  /** A chunk shape as zarr declares it: same rank as the array, no zero extent. */
  predicate ChunkOk(chunk: Shape, s: Shape)
  {
    |chunk| == |s| && forall i :: 0 <= i < |chunk| ==> chunk[i] >= 1
  }

  /** all(x <= c for x, c in zip(shape, chunk)) */
  predicate Fits(s: Shape, chunk: Shape)
  {
    forall i :: 0 <= i < |s| && i < |chunk| ==> s[i] <= chunk[i]
  }

  function Weight(s: Shape): nat
  {
    if |s| == 0 then 0 else Weight(s[..|s| - 1]) + Max(s[|s| - 1], 1)
  }

  lemma {:induction false} HalveWeight(s: Shape)
    ensures Weight(Halve(s)) <= Weight(s)
    ensures (exists i :: 0 <= i < |s| && s[i] >= 2) ==> Weight(Halve(s)) < Weight(s)
  {
    if |s| > 0 {
      var init := s[..|s| - 1];
      assert Halve(s)[..|s| - 1] == Halve(init);
      HalveWeight(init);
      if exists i :: 0 <= i < |s| && s[i] >= 2 {
        var i :| 0 <= i < |s| && s[i] >= 2;
        if i < |s| - 1 {
          assert init[i] >= 2;
        }
      }
    }
  }

  /** Levels added when no level count is given: keep halving while the new shape
      exceeds the chunk shape on some axis; the first halved shape that fits is not
      created. */
  function AutoLevels(prev: Shape, chunk: Shape): seq<Shape>
    requires ChunkOk(chunk, prev)
    decreases Weight(prev)
  {
    var next := Halve(prev);
    if Fits(next, chunk) then []
    else
      HalveShrinks(prev, chunk);
      [next] + AutoLevels(next, chunk)
  }

  /** A halved shape that still exceeds the chunk somewhere came from an extent
      of at least 2, so halving lost weight. */
  lemma HalveShrinks(prev: Shape, chunk: Shape)
    requires ChunkOk(chunk, prev)
    requires !Fits(Halve(prev), chunk)
    ensures Weight(Halve(prev)) < Weight(prev)
  {
    var next := Halve(prev);
    HalveWeight(prev);
    var i :| 0 <= i < |next| && i < |chunk| && next[i] > chunk[i];
    assert prev[i] >= 2;
  }

  /** Prepending x to a chain that starts at Halve(x) gives a chain from x. */
  lemma ShapeChainCons(x: Shape, r: seq<Shape>)
    requires |r| >= 1 && IsChain(r, r[0]) && r[0] == Halve(x)
    ensures IsChain([x] + r, x)
  {
    var c := [x] + r;
    forall k | 0 <= k < |c| - 1
      ensures c[k + 1] == Halve(c[k])
    {
      if k > 0 {
        assert c[k] == r[k - 1] && c[k + 1] == r[k];
      }
    }
  }

  function FixedLevels(prev: Shape, count: nat): seq<Shape>
    decreases count
  {
    if count == 0 then [] else [Halve(prev)] + FixedLevels(Halve(prev), count - 1)
  }

  /** All level shapes generate_pyramid returns, the existing base level first;
      `levels` is the number of additional levels (None: until the chunk fits). */
  function LevelShapes(base: Shape, chunk: Shape, levels: Option<int>): seq<Shape>
    requires ChunkOk(chunk, base)
  {
    [base] + match levels
      case None => AutoLevels(base, chunk)
      case Some(l) => FixedLevels(base, if l < 0 then 0 else l)
  }

  ghost predicate IsChain(r: seq<Shape>, base: Shape)
  {
    && |r| >= 1 && r[0] == base
    && (forall k :: 0 <= k < |r| - 1 ==> r[k + 1] == Halve(r[k]))
  }

  lemma {:induction false} FixedLevelsChain(prev: Shape, count: nat)
    decreases count
    ensures |FixedLevels(prev, count)| == count
    ensures IsChain([prev] + FixedLevels(prev, count), prev)
  {
    if count > 0 {
      var rest := FixedLevels(Halve(prev), count - 1);
      FixedLevelsChain(Halve(prev), count - 1);
      var r := [prev] + ([Halve(prev)] + rest);
      forall k | 0 <= k < |r| - 1
        ensures r[k + 1] == Halve(r[k])
      {
        if k > 0 {
          assert r[k] == ([Halve(prev)] + rest)[k - 1];
        }
      }
    }
  }

  lemma {:induction false} AutoLevelsChain(prev: Shape, chunk: Shape)
    requires ChunkOk(chunk, prev)
    ensures IsChain([prev] + AutoLevels(prev, chunk), prev)
    ensures forall k :: 0 <= k < |AutoLevels(prev, chunk)| ==>
      |AutoLevels(prev, chunk)[k]| == |prev| && !Fits(AutoLevels(prev, chunk)[k], chunk)
    ensures var r := [prev] + AutoLevels(prev, chunk); Fits(Halve(r[|r| - 1]), chunk)
    decreases Weight(prev)
  {
    var next := Halve(prev);
    if !Fits(next, chunk) {
      HalveShrinks(prev, chunk);
      AutoLevelsChain(next, chunk);
      var rest := AutoLevels(next, chunk);
      var tail := [next] + rest;
      assert AutoLevels(prev, chunk) == tail;
      ShapeChainCons(prev, tail);
      forall k | 0 <= k < |tail|
        ensures |tail[k]| == |prev| && !Fits(tail[k], chunk)
      {
        if k > 0 {
          assert tail[k] == rest[k - 1];
        }
      }
      assert ([prev] + tail)[|tail|] == tail[|tail| - 1];
    }
  }

  /** The shape schedule of generate_pyramid: the base shape first, each next shape
      the clamped halving of the previous one, no extent ever 0 after the base. With
      an explicit count L exactly max(L, 0) levels are added; without one every added
      level exceeds the chunk on some axis and halving the last one would fit. */
  lemma LevelShapesSchedule(base: Shape, chunk: Shape, levels: Option<int>)
    requires ChunkOk(chunk, base)
    ensures var r := LevelShapes(base, chunk, levels);
      && r[0] == base
      && (forall k :: 0 <= k < |r| - 1 ==> r[k + 1] == Halve(r[k]))
      && (forall k, i :: 1 <= k < |r| && 0 <= i < |r[k]| ==> r[k][i] >= 1)
      && (levels.Some? ==> |r| == Max(levels.value, 0) + 1)
      && (levels.None? ==> (forall k :: 1 <= k < |r| ==> !Fits(r[k], chunk)) && Fits(Halve(r[|r| - 1]), chunk))
  {
    var r := LevelShapes(base, chunk, levels);
    match levels {
      case None =>
        AutoLevelsChain(base, chunk);
        var a := AutoLevels(base, chunk);
        forall k | 1 <= k < |r|
          ensures !Fits(r[k], chunk)
        {
          assert r[k] == a[k - 1];
        }
      case Some(l) =>
        FixedLevelsChain(base, if l < 0 then 0 else l);
    }
    forall k, i | 1 <= k < |r| && 0 <= i < |r[k]|
      ensures r[k][i] >= 1
    {
      assert r[k] == Halve(r[k - 1]);
    }
  }

  // ---------------------------------------------------------------------------
  // One level, built tile by tile

  /** Index of a max_load tile of the previous level. */
  datatype Tile = Tile(i0: nat, i1: nat, i2: nat)

  function Line(i0: nat, i1: nat, c2: nat): seq<Tile>
  {
    seq(c2, k requires 0 <= k < c2 => Tile(i0, i1, k))
  }

  function Sheet(i0: nat, c2: nat, j: nat): seq<Tile>
  {
    if j == 0 then [] else Sheet(i0, c2, j - 1) + Line(i0, j - 1, c2)
  }

  /** itertools.product over the three tile ranges, last axis fastest. */
  function Grid(c0: nat, c1: nat, c2: nat): seq<Tile>
  {
    if c0 == 0 then [] else Grid(c0 - 1, c1, c2) + Sheet(c0 - 1, c2, c1)
  }

  lemma {:induction false} SheetMembers(i0: nat, c2: nat, j: nat, t: Tile)
    ensures t in Sheet(i0, c2, j) <==> t.i0 == i0 && t.i1 < j && t.i2 < c2
  {
    if j > 0 {
      SheetMembers(i0, c2, j - 1, t);
      if t.i0 == i0 && t.i1 == j - 1 && t.i2 < c2 {
        assert Line(i0, j - 1, c2)[t.i2] == t;
      }
    }
  }

  lemma {:induction false} GridMembers(c0: nat, c1: nat, c2: nat, t: Tile)
    ensures t in Grid(c0, c1, c2) <==> t.i0 < c0 && t.i1 < c1 && t.i2 < c2
  {
    if c0 > 0 {
      var g, sh := Grid(c0 - 1, c1, c2), Sheet(c0 - 1, c2, c1);
      assert Grid(c0, c1, c2) == g + sh;
      assert t in g + sh <==> t in g || t in sh;
      GridMembers(c0 - 1, c1, c2, t);
      SheetMembers(c0 - 1, c2, c1, t);
    }
  }

  /** What one tile does along one axis of extent n (new extent n2): it reads
      [lo, hi) of the previous level and writes [wlo, whi) of the new one. */
  datatype AxisTile = AxisTile(lo: int, hi: int, wlo: int, whi: int)

  function AxisPlan(i: nat, m: nat, n: nat, n2: nat): AxisTile
  {
    AxisTile(i * m, Min((i + 1) * m, n), (i * m) / 2, Min(((i + 1) * m) / 2, n2))
  }

  function Span(lo: int, hi: int): nat { if hi <= lo then 0 else hi - lo }

  /** Extent of the reduced block of a tile whose read extent is t. */
  function ReducedExtent(t: nat): nat { Max(CropExtent(t) / 2, 1) }

  /** An axis of extent n longer than the tile size m whose extent is one more
      than a multiple of m: its last tile reads a single voxel, which the halving
      drops. */
  predicate StrayAxis(n: nat, m: nat) { m > 0 && n > m && n % m == 1 }

  /** Index into a tile's reduced block for output index x of its region starting
      at wlo. */
  function Local(x: int, wlo: int): int { x - wlo }

  type Idx = Window.Idx3

  function Plans(t: Tile, m: nat, prev: Block, out: (nat, nat, nat)): (AxisTile, AxisTile, AxisTile)
  {
    (AxisPlan(t.i0, m, prev.d0, out.0), AxisPlan(t.i1, m, prev.d1, out.1), AxisPlan(t.i2, m, prev.d2, out.2))
  }

  /** The block a tile reads from the previous level. */
  function ReadBlock(prev: Block, ps: (AxisTile, AxisTile, AxisTile)): Block
  {
    Block(Span(ps.0.lo, ps.0.hi), Span(ps.1.lo, ps.1.hi), Span(ps.2.lo, ps.2.hi),
      Shift(prev.at, (ps.0.lo, ps.1.lo, ps.2.lo)))
  }

  /** zarr stores a block into a selected region only when the two shapes are
      equal; any other block makes it raise ValueError (it does not broadcast). */
  predicate TileFits(prev: Block, t: Tile, m: nat, out: (nat, nat, nat))
  {
    var ps := Plans(t, m, prev, out);
    && ReducedExtent(Span(ps.0.lo, ps.0.hi)) == Span(ps.0.wlo, ps.0.whi)
    && ReducedExtent(Span(ps.1.lo, ps.1.hi)) == Span(ps.1.wlo, ps.1.whi)
    && ReducedExtent(Span(ps.2.lo, ps.2.hi)) == Span(ps.2.wlo, ps.2.whi)
  }

  /** The tile's write region is empty on some axis. */
  predicate RegionEmpty(ps: (AxisTile, AxisTile, AxisTile))
  {
    ps.0.whi <= ps.0.wlo || ps.1.whi <= ps.1.wlo || ps.2.whi <= ps.2.wlo
  }

  /** p lies in the halved write region of a tile's plans. */
  predicate InRegion(ps: (AxisTile, AxisTile, AxisTile), p: Idx)
  {
    ps.0.wlo <= p.0 < ps.0.whi && ps.1.wlo <= p.1 < ps.1.whi && ps.2.wlo <= p.2 < ps.2.whi
  }

  /** The region write performed for one tile: read, crop, window, reduce, and store
      into the halved region. */
  function TileWrite(prev: Block, t: Tile, m: nat, mode: Mode, out: (nat, nat, nat)): Store.Write<Idx>
  {
    var ps := Plans(t, m, prev, out);
    var red := Downsample(ReadBlock(prev, ps), mode);
    Store.Write(
      (p: Idx) => InRegion(ps, p),
      (p: Idx) => red.at((Local(p.0, ps.0.wlo), Local(p.1, ps.1.wlo), Local(p.2, ps.2.wlo))))
  }

  /** The new level after every tile of the previous level is written, in
      itertools.product order, over the halved shape filled with `fill`. */
  function Assembled(prev: Block, m: nat, mode: Mode, fill: int): Block
    requires m > 0
  {
    Block(Max(1, prev.d0 / 2), Max(1, prev.d1 / 2), Max(1, prev.d2 / 2),
      Store.Apply((p: Idx) => fill, LevelWrites(prev, m, mode)))
  }

  function Halved(prev: Block): (nat, nat, nat)
  {
    (Max(1, prev.d0 / 2), Max(1, prev.d1 / 2), Max(1, prev.d2 / 2))
  }

  function LevelGrid(prev: Block, m: nat): seq<Tile>
    requires m > 0
  {
    Grid(Tiles.Count(prev.d0, m), Tiles.Count(prev.d1, m), Tiles.Count(prev.d2, m))
  }

  /** One new level as the source writes it: every tile's reduced block is stored
      into its halved region, and a block whose shape differs from its region's
      makes zarr raise, leaving the level unfinished. */
  function BuildLevelAsWritten(prev: Block, m: nat, mode: Mode, fill: int): Result<Block>
    requires m > 0
  {
    var grid := LevelGrid(prev, m);
    if exists k :: 0 <= k < |grid| && !TileFits(prev, grid[k], m, Halved(prev)) then Err(ShapeMismatch)
    else Ok(Assembled(prev, m, mode, fill))
  }

  /** One new level as evidently intended: a tile whose write region is empty on
      some axis holds only voxels the halving drops and is skipped; any other tile
      is stored as written. */
  function BuildLevel(prev: Block, m: nat, mode: Mode, fill: int): Result<Block>
    requires m > 0
  {
    var grid := LevelGrid(prev, m);
    if exists k :: 0 <= k < |grid| && !RegionEmpty(Plans(grid[k], m, prev, Halved(prev)))
                   && !TileFits(prev, grid[k], m, Halved(prev)) then Err(ShapeMismatch)
    else Ok(Assembled(prev, m, mode, fill))
  }

  // ---------------------------------------------------------------------------
  // Tiling is invisible for an even max_load

  /** For an even tile size m every tile of the ceildiv(n, m) read tiles reads a
      non-empty range, and its halved write region has exactly the reduced block's
      extent, except a read of extent 1 on an axis longer than 1, whose region is
      empty. */
  lemma {:induction false} AxisTileShape(n: nat, m: nat, j: nat)
    requires m >= 2 && m % 2 == 0
    requires n >= 1
    requires j < Tiles.Count(n, m)
    ensures var p := AxisPlan(j, m, n, Max(1, n / 2));
      && 0 <= p.lo < p.hi <= n
      && p.lo == 2 * p.wlo
      && p.wlo == j * (m / 2)
      && p.whi == Min((j + 1) * (m / 2), Max(1, n / 2))
      && (p.hi - p.lo >= 2 || n == 1 ==> Span(p.wlo, p.whi) == ReducedExtent(p.hi - p.lo))
      && (p.hi - p.lo == 1 && n >= 2 ==> p.whi <= p.wlo)
  {
    var h := m / 2;
    assert m == 2 * h;
    var n2 := Max(1, n / 2);
    var p := AxisPlan(j, m, n, n2);
    Tiles.TileInside(n, m, j);
    TileArith(j, h);
    AxisLinear(n, h, j * h, p.lo, p.hi, p.wlo, p.whi);
  }

  /** The products a tile's ranges are made of, with m = 2h. */
  lemma TileArith(j: nat, h: nat)
    requires h >= 1
    ensures j * (2 * h) == 2 * (j * h)
    ensures (j + 1) * (2 * h) == 2 * (j * h) + 2 * h
    ensures (j + 1) * h == j * h + h
    ensures j * h == 0 ==> j == 0
  {
    if j > 0 {
      MulMonotone(1, j, h);
    }
  }

  lemma AxisLinear(n: int, h: int, x: int, lo: int, hi: int, wlo: int, whi: int)
    requires h >= 1 && n >= 1 && x >= 0
    requires lo == 2 * x && hi == Min(2 * x + 2 * h, n) && lo < hi
    requires wlo == (2 * x) / 2 && whi == Min((2 * x + 2 * h) / 2, Max(1, n / 2))
    ensures wlo == x && whi == Min(x + h, Max(1, n / 2))
    ensures hi - lo >= 2 || n == 1 ==> Span(wlo, whi) == ReducedExtent(hi - lo)
    ensures hi - lo == 1 && n >= 2 ==> whi <= wlo
  {
  }

  /** Along one axis, output index a of the new level lies in the write region of
      tile a / (m/2), one of the ceildiv(n, m) tiles. */
  lemma {:induction false} AxisOwner(n: nat, m: nat, a: int)
    requires m >= 2 && m % 2 == 0
    requires n >= 1
    requires 0 <= a < Max(1, n / 2)
    ensures var i := a / (m / 2);
      var p := AxisPlan(i, m, n, Max(1, n / 2));
      i < Tiles.Count(n, m) && p.wlo <= a < p.whi
  {
    var h := m / 2;
    var n2 := Max(1, n / 2);
    var i := a / h;
    Tiles.Partition(n2, h, a);
    assert i * h <= a;
    assert m == 2 * h;
    TileArith(i, h);
    assert i * m == 2 * (i * h);
    assert i * m < n;
    Tiles.DivUnique(i * m, m, i);
    Tiles.Partition(n, m, i * m);
    AxisTileShape(n, m, i);
  }

  /** No other tile's write region contains a: the regions are disjoint. */
  lemma {:induction false} AxisUnique(n: nat, m: nat, a: int, j: nat)
    requires m >= 2 && m % 2 == 0
    requires n >= 1
    requires j < Tiles.Count(n, m)
    requires AxisPlan(j, m, n, Max(1, n / 2)).wlo <= a < AxisPlan(j, m, n, Max(1, n / 2)).whi
    ensures j == a / (m / 2)
  {
    AxisTileShape(n, m, j);
    assert Tiles.InTile(a, j, m / 2, Max(1, n / 2));
    Tiles.DivUnique(a, m / 2, j);
  }

  /** The window the owner tile reduces for a, moved back to the previous level's
      coordinates, is the one-shot window of a: {2a, 2a+1}, or {a} on an axis of
      extent 1. */
  lemma {:induction false} AxisWindowMatch(n: nat, m: nat, a: int, i: nat)
    requires m >= 2 && m % 2 == 0
    requires n >= 1
    requires 0 <= a < Max(1, n / 2)
    requires i < Tiles.Count(n, m)
    requires AxisPlan(i, m, n, Max(1, n / 2)).wlo <= a < AxisPlan(i, m, n, Max(1, n / 2)).whi
    ensures var p := AxisPlan(i, m, n, Max(1, n / 2));
      var d := ReducedExtent(Span(p.lo, p.hi));
      && 0 <= Local(a, p.wlo) < d
      && Move(AxisWindow(CropExtent(Span(p.lo, p.hi)), Local(a, p.wlo)), p.lo) == AxisWindow(CropExtent(n), a)
  {
    AxisTileShape(n, m, i);
    var p := AxisPlan(i, m, n, Max(1, n / 2));
    var t := Span(p.lo, p.hi);
    if t >= 2 {
      WindowShift(n, t, p.lo, p.wlo, p.whi, a);
    } else {
      if n >= 2 {
        assert false;
      }
      assert p.lo == 0 && p.wlo == 0 && a == 0;
    }
  }

  /** A tile reading t >= 2 voxels from lo = 2 wlo, whose region [wlo, whi) has the
      reduced extent, reduces for output a the inputs {2a, 2a+1} of the axis. */
  lemma WindowShift(n: nat, t: nat, lo: int, wlo: int, whi: int, a: int)
    requires 2 <= t <= n
    requires lo == 2 * wlo && wlo <= a < whi && Span(wlo, whi) == ReducedExtent(t)
    ensures 0 <= Local(a, wlo) < ReducedExtent(t)
    ensures Move(AxisWindow(CropExtent(t), Local(a, wlo)), lo) == AxisWindow(CropExtent(n), a)
  {
    assert CropExtent(t) >= 2 && CropExtent(n) >= 2;
  }

  ghost predicate SameBlock(x: Block, y: Block)
  {
    && x.d0 == y.d0 && x.d1 == y.d1 && x.d2 == y.d2
    && forall a :: InBlock(x, a) ==> x.at(a) == y.at(a)
  }

  function OwnerTile(a: Idx, m: nat): Tile
    requires m >= 2
  {
    var h := m / 2;
    Tile(if a.0 < 0 then 0 else a.0 / h, if a.1 < 0 then 0 else a.1 / h, if a.2 < 0 then 0 else a.2 / h)
  }

  /** Reducing the block a tile reads, at local index l, gives the one-shot value at
      a whenever the moved local windows are the one-shot windows. */
  lemma ReadThenReduce(prev: Block, ps: (AxisTile, AxisTile, AxisTile), mode: Mode, l: Idx, a: Idx)
    requires Move(AxisWindow(CropExtent(Span(ps.0.lo, ps.0.hi)), l.0), ps.0.lo) == AxisWindow(CropExtent(prev.d0), a.0)
    requires Move(AxisWindow(CropExtent(Span(ps.1.lo, ps.1.hi)), l.1), ps.1.lo) == AxisWindow(CropExtent(prev.d1), a.1)
    requires Move(AxisWindow(CropExtent(Span(ps.2.lo, ps.2.hi)), l.2), ps.2.lo) == AxisWindow(CropExtent(prev.d2), a.2)
    ensures Downsample(ReadBlock(prev, ps), mode).at(l) == Downsample(prev, mode).at(a)
  {
    var rb := ReadBlock(prev, ps);
    var ws := Windows(rb, l);
    GatherShift(prev.at, (ps.0.lo, ps.1.lo, ps.2.lo), ws.0, ws.1, ws.2);
  }

  /** The tile a / (m/2) on each axis writes output voxel a, with the value of the
      one-shot reduction of the whole previous level there. */
  lemma {:induction false} OwnerWrites(prev: Block, m: nat, mode: Mode, a: Idx)
    requires m >= 2 && m % 2 == 0
    requires prev.d0 >= 1 && prev.d1 >= 1 && prev.d2 >= 1
    requires InBlock(Downsample(prev, mode), a)
    ensures var out := (Max(1, prev.d0 / 2), Max(1, prev.d1 / 2), Max(1, prev.d2 / 2));
      var t := OwnerTile(a, m);
      var w := TileWrite(prev, t, m, mode, out);
      && t.i0 < Tiles.Count(prev.d0, m) && t.i1 < Tiles.Count(prev.d1, m) && t.i2 < Tiles.Count(prev.d2, m)
      && w.covers(a) && w.value(a) == Downsample(prev, mode).at(a)
  {
    var out := (Max(1, prev.d0 / 2), Max(1, prev.d1 / 2), Max(1, prev.d2 / 2));
    var t := OwnerTile(a, m);
    var ps := Plans(t, m, prev, out);
    AxisOwnerWindow(prev.d0, m, a.0, t.i0);
    AxisOwnerWindow(prev.d1, m, a.1, t.i1);
    AxisOwnerWindow(prev.d2, m, a.2, t.i2);
    var red := Downsample(ReadBlock(prev, ps), mode);
    var l := (Local(a.0, ps.0.wlo), Local(a.1, ps.1.wlo), Local(a.2, ps.2.wlo));
    ReadThenReduce(prev, ps, mode, l, a);
    assert TileWrite(prev, t, m, mode, out).value(a) == red.at(l);
  }


  /** Along one axis, the owner tile i = a / (m/2) holds a in its write region, and
      its reduced window for a is the one-shot window of a. */
  lemma AxisOwnerWindow(n: nat, m: nat, a: int, i: nat)
    requires m >= 2 && m % 2 == 0
    requires n >= 1
    requires 0 <= a < Max(1, n / 2)
    requires i == a / (m / 2)
    ensures var p := AxisPlan(i, m, n, Max(1, n / 2));
      && i < Tiles.Count(n, m) && p.wlo <= a < p.whi
      && Move(AxisWindow(CropExtent(Span(p.lo, p.hi)), Local(a, p.wlo)), p.lo) == AxisWindow(CropExtent(n), a)
  {
    AxisOwner(n, m, a);
    assert i < Tiles.Count(n, m);
    assert AxisPlan(i, m, n, Max(1, n / 2)).wlo <= a < AxisPlan(i, m, n, Max(1, n / 2)).whi;
    AxisWindowMatch(n, m, a, i);
  }

  /** Every tile of the grid either has an empty write region or a reduced block of
      exactly its region's shape, so the level as evidently intended never raises. */
  lemma {:induction false} TilesFit(prev: Block, m: nat, t: Tile)
    requires m >= 2 && m % 2 == 0
    requires prev.d0 >= 1 && prev.d1 >= 1 && prev.d2 >= 1
    requires t.i0 < Tiles.Count(prev.d0, m) && t.i1 < Tiles.Count(prev.d1, m) && t.i2 < Tiles.Count(prev.d2, m)
    ensures RegionEmpty(Plans(t, m, prev, Halved(prev))) || TileFits(prev, t, m, Halved(prev))
  {
    AxisTileShape(prev.d0, m, t.i0);
    AxisTileShape(prev.d1, m, t.i1);
    AxisTileShape(prev.d2, m, t.i2);
  }

  /** On an axis that is not stray every tile's reduced extent is its region's. */
  lemma {:induction false} AxisNoStray(n: nat, m: nat, j: nat)
    requires m >= 2 && m % 2 == 0
    requires n >= 1
    requires j < Tiles.Count(n, m)
    requires !StrayAxis(n, m)
    ensures var p := AxisPlan(j, m, n, Max(1, n / 2));
      Span(p.wlo, p.whi) == ReducedExtent(Span(p.lo, p.hi))
  {
    AxisTileShape(n, m, j);
    UnitReadIsStray(n, m, j);
  }

  /** A tile that reads a single voxel on an axis longer than 1 is the last tile
      of a stray axis. */
  lemma UnitReadIsStray(n: nat, m: nat, j: nat)
    requires m >= 2 && m % 2 == 0
    requires n >= 1
    requires j < Tiles.Count(n, m)
    ensures var p := AxisPlan(j, m, n, Max(1, n / 2));
      p.hi - p.lo == 1 && n >= 2 ==> StrayAxis(n, m)
  {
    var p := AxisPlan(j, m, n, Max(1, n / 2));
    if p.hi - p.lo == 1 && n >= 2 {
      TileArith(j, m / 2);
      assert p.lo == j * m && p.hi == n;
      assert j >= 1;
      MulMonotone(1, j, m);
      Tiles.DivUnique(n, m, j);
    }
  }

  /** On a stray axis the last tile reads one voxel into an empty region. */
  lemma {:induction false} AxisStray(n: nat, m: nat)
    requires m >= 2 && m % 2 == 0
    requires StrayAxis(n, m)
    ensures var j := Tiles.Count(n, m) - 1;
      var p := AxisPlan(j, m, n, Max(1, n / 2));
      && 0 <= j < Tiles.Count(n, m)
      && Span(p.lo, p.hi) == 1 && Span(p.wlo, p.whi) == 0
  {
    var q := n / m;
    assert n == q * m + 1;
    assert (q + 1) * m == q * m + m;
    Tiles.DivUnique(n + m - 1, m, q + 1);
    assert Tiles.Count(n, m) == q + 1;
    MulMonotone(1, q, m);
    AxisTileShape(n, m, q);
  }

  /** The level as written raises exactly when one of the three axes is stray, and
      otherwise it is the level as evidently intended. */
  lemma {:induction false} AsWrittenLevel(prev: Block, m: nat, mode: Mode, fill: int)
    requires m >= 2 && m % 2 == 0
    requires prev.d0 >= 1 && prev.d1 >= 1 && prev.d2 >= 1
    ensures BuildLevelAsWritten(prev, m, mode, fill).Err? <==>
      StrayAxis(prev.d0, m) || StrayAxis(prev.d1, m) || StrayAxis(prev.d2, m)
    ensures !(StrayAxis(prev.d0, m) || StrayAxis(prev.d1, m) || StrayAxis(prev.d2, m)) ==>
      BuildLevelAsWritten(prev, m, mode, fill) == BuildLevel(prev, m, mode, fill)
  {
    if StrayAxis(prev.d0, m) || StrayAxis(prev.d1, m) || StrayAxis(prev.d2, m) {
      StrayTileMisfits(prev, m);
    } else {
      forall k | 0 <= k < |LevelGrid(prev, m)|
        ensures TileFits(prev, LevelGrid(prev, m)[k], m, Halved(prev))
      {
        GridTileFits(prev, m, LevelGrid(prev, m)[k]);
      }
    }
  }

  /** Some tile of the grid of a level with a stray axis does not fit its region. */
  lemma StrayTileMisfits(prev: Block, m: nat)
    requires m >= 2 && m % 2 == 0
    requires prev.d0 >= 1 && prev.d1 >= 1 && prev.d2 >= 1
    requires StrayAxis(prev.d0, m) || StrayAxis(prev.d1, m) || StrayAxis(prev.d2, m)
    ensures exists k :: 0 <= k < |LevelGrid(prev, m)| && !TileFits(prev, LevelGrid(prev, m)[k], m, Halved(prev))
  {
    var t := StrayTile(prev, m);
    var g := LevelGrid(prev, m);
    var k :| 0 <= k < |g| && g[k] == t;
  }

  /** The last tile along a stray axis (the first along the others) is in the
      grid and does not fit its region. */
  lemma StrayTile(prev: Block, m: nat) returns (t: Tile)
    requires m >= 2 && m % 2 == 0
    requires prev.d0 >= 1 && prev.d1 >= 1 && prev.d2 >= 1
    requires StrayAxis(prev.d0, m) || StrayAxis(prev.d1, m) || StrayAxis(prev.d2, m)
    ensures t in LevelGrid(prev, m)
    ensures !TileFits(prev, t, m, Halved(prev))
  {
    var c0, c1, c2 := Tiles.Count(prev.d0, m), Tiles.Count(prev.d1, m), Tiles.Count(prev.d2, m);
    if StrayAxis(prev.d0, m) {
      AxisStray(prev.d0, m);
      t := Tile(c0 - 1, 0, 0);
    } else if StrayAxis(prev.d1, m) {
      AxisStray(prev.d1, m);
      t := Tile(0, c1 - 1, 0);
    } else {
      AxisStray(prev.d2, m);
      t := Tile(0, 0, c2 - 1);
    }
    GridMembers(c0, c1, c2, t);
  }

  /** On a level with no stray axis every tile of the grid fits its region. */
  lemma GridTileFits(prev: Block, m: nat, t: Tile)
    requires m >= 2 && m % 2 == 0
    requires prev.d0 >= 1 && prev.d1 >= 1 && prev.d2 >= 1
    requires !(StrayAxis(prev.d0, m) || StrayAxis(prev.d1, m) || StrayAxis(prev.d2, m))
    requires t in LevelGrid(prev, m)
    ensures TileFits(prev, t, m, Halved(prev))
  {
    GridMembers(Tiles.Count(prev.d0, m), Tiles.Count(prev.d1, m), Tiles.Count(prev.d2, m), t);
    AxisNoStray(prev.d0, m, t.i0);
    AxisNoStray(prev.d1, m, t.i1);
    AxisNoStray(prev.d2, m, t.i2);
  }

  /** A (513, 64, 64) level with generate_pyramid's default max_load 512: tile
      (1, 0, 0) reads the single voxel 512 along the first axis, its region
      [256, 256) is empty, and the level as written raises. */
  lemma StrayTileRaises(prev: Block, mode: Mode, fill: int)
    requires prev.d0 == 513 && prev.d1 == 64 && prev.d2 == 64
    ensures BuildLevelAsWritten(prev, 512, mode, fill) == Err(ShapeMismatch)
    ensures BuildLevel(prev, 512, mode, fill).Ok?
  {
    AsWrittenLevel(prev, 512, mode, fill);
    TiledLevelIsOneShot(prev, 512, mode, fill);
  }

  function LevelWrites(prev: Block, m: nat, mode: Mode): seq<Store.Write<Idx>>
    requires m > 0
  {
    var grid := LevelGrid(prev, m);
    seq(|grid|, k requires 0 <= k < |grid| => TileWrite(prev, grid[k], m, mode, Halved(prev)))
  }

  /** Output voxel a of the new level ends up holding the one-shot reduced value. */
  lemma {:induction false} LevelVoxel(prev: Block, m: nat, mode: Mode, fill: int, a: Idx)
    requires m >= 2 && m % 2 == 0
    requires prev.d0 >= 1 && prev.d1 >= 1 && prev.d2 >= 1
    requires InBlock(Downsample(prev, mode), a)
    ensures Store.Apply((p: Idx) => fill, LevelWrites(prev, m, mode))(a) == Downsample(prev, mode).at(a)
  {
    var out := (Max(1, prev.d0 / 2), Max(1, prev.d1 / 2), Max(1, prev.d2 / 2));
    var c0, c1, c2 := Tiles.Count(prev.d0, m), Tiles.Count(prev.d1, m), Tiles.Count(prev.d2, m);
    var grid := Grid(c0, c1, c2);
    var ws := LevelWrites(prev, m, mode);
    var v := Downsample(prev, mode).at(a);
    OwnerWrites(prev, m, mode, a);
    var t := OwnerTile(a, m);
    GridMembers(c0, c1, c2, t);
    var k0 :| 0 <= k0 < |grid| && grid[k0] == t;
    assert ws[k0] == TileWrite(prev, t, m, mode, out);
    assert Store.Covered(ws, a);
    forall k | 0 <= k < |ws| && ws[k].covers(a)
      ensures ws[k].value(a) == v
    {
      var u := grid[k];
      GridMembers(c0, c1, c2, u);
      assert ws[k] == TileWrite(prev, u, m, mode, out);
      OnlyOwnerCovers(prev, m, a, u);
    }
    Store.ApplyAgreed((p: Idx) => fill, ws, a, v);
  }

  /** A tile of the grid whose write region holds a is the owner tile of a. */
  lemma OnlyOwnerCovers(prev: Block, m: nat, a: Idx, u: Tile)
    requires m >= 2 && m % 2 == 0
    requires prev.d0 >= 1 && prev.d1 >= 1 && prev.d2 >= 1
    requires 0 <= a.0 && 0 <= a.1 && 0 <= a.2
    requires u.i0 < Tiles.Count(prev.d0, m) && u.i1 < Tiles.Count(prev.d1, m) && u.i2 < Tiles.Count(prev.d2, m)
    requires InRegion(Plans(u, m, prev, (Max(1, prev.d0 / 2), Max(1, prev.d1 / 2), Max(1, prev.d2 / 2))), a)
    ensures u == OwnerTile(a, m)
  {
    AxisUnique(prev.d0, m, a.0, u.i0);
    AxisUnique(prev.d1, m, a.1, u.i1);
    AxisUnique(prev.d2, m, a.2, u.i2);
  }

  /** The central theorem: for an even max_load the tiling is invisible. The level
      assembled from the tile writes has the clamped halved shape and equals, voxel
      for voxel, the reduction of the whole previous level at once, in which output
      index A on each axis reduces inputs {2A, 2A+1} (or {A} on an axis of extent 1). */
  lemma {:induction false} TiledLevelIsOneShot(prev: Block, m: nat, mode: Mode, fill: int)
    requires m >= 2 && m % 2 == 0
    requires prev.d0 >= 1 && prev.d1 >= 1 && prev.d2 >= 1
    ensures BuildLevel(prev, m, mode, fill).Ok?
    ensures SameBlock(BuildLevel(prev, m, mode, fill).value, Downsample(prev, mode))
  {
    var out := (Max(1, prev.d0 / 2), Max(1, prev.d1 / 2), Max(1, prev.d2 / 2));
    var c0, c1, c2 := Tiles.Count(prev.d0, m), Tiles.Count(prev.d1, m), Tiles.Count(prev.d2, m);
    var grid := Grid(c0, c1, c2);
    forall k | 0 <= k < |grid|
      ensures RegionEmpty(Plans(grid[k], m, prev, out)) || TileFits(prev, grid[k], m, out)
    {
      GridMembers(c0, c1, c2, grid[k]);
      TilesFit(prev, m, grid[k]);
    }
    var ws := LevelWrites(prev, m, mode);
    var r := BuildLevel(prev, m, mode, fill);
    assert r == Ok(Block(out.0, out.1, out.2, Store.Apply((p: Idx) => fill, ws)));
    forall a | InBlock(r.value, a)
      ensures r.value.at(a) == Downsample(prev, mode).at(a)
    {
      LevelVoxel(prev, m, mode, fill, a);
    }
  }

  // ---------------------------------------------------------------------------
  // The whole generator

  function ShapeOf(b: Block): Shape { [b.d0, b.d1, b.d2] }

  function BuildLevels(prev: Block, count: nat, m: nat, mode: Mode, fill: int): Result<seq<Block>>
    requires m > 0
    decreases count
  {
    if count == 0 then Ok([])
    else
      match BuildLevel(prev, m, mode, fill)
      case Err(e) => Err(e)
      case Ok(next) =>
        match BuildLevels(next, count - 1, m, mode, fill)
        case Err(e) => Err(e)
        case Ok(rest) => Ok([next] + rest)
  }

  /** generate_pyramid: the shapes of all levels, finest first, and the levels
      themselves, level 0 being the existing base array; each level is built as
      BuildLevel does, skipping empty-region tiles. */
  function GeneratePyramid(base: Block, chunk: Shape, levels: Option<int>, m: nat, mode: Mode, fill: int)
    : Result<(seq<Shape>, seq<Block>)>
    requires m > 0
    requires ChunkOk(chunk, ShapeOf(base))
  {
    var shapes := LevelShapes(ShapeOf(base), chunk, levels);
    var added :- BuildLevels(base, |shapes| - 1, m, mode, fill);
    Ok((shapes, [base] + added))
  }

  /** y is the level that follows x: halved shape, one-shot reduced contents. */
  ghost predicate Step(x: Block, y: Block, mode: Mode)
  {
    ShapeOf(y) == Halve(ShapeOf(x)) && SameBlock(y, Downsample(x, mode))
  }

  ghost predicate StepChain(r: seq<Block>, mode: Mode)
  {
    forall k :: 0 <= k < |r| - 1 ==> Step(r[k], r[k + 1], mode)
  }

  lemma LevelStep(prev: Block, m: nat, mode: Mode, fill: int)
    requires m >= 2 && m % 2 == 0
    requires prev.d0 >= 1 && prev.d1 >= 1 && prev.d2 >= 1
    ensures BuildLevel(prev, m, mode, fill).Ok?
    ensures Step(prev, BuildLevel(prev, m, mode, fill).value, mode)
  {
    TiledLevelIsOneShot(prev, m, mode, fill);
    var next := BuildLevel(prev, m, mode, fill).value;
    ShapeHalves(prev, Downsample(prev, mode));
  }

  lemma ShapeHalves(x: Block, y: Block)
    requires y.d0 == Max(x.d0 / 2, 1) && y.d1 == Max(x.d1 / 2, 1) && y.d2 == Max(x.d2 / 2, 1)
    ensures ShapeOf(y) == Halve(ShapeOf(x))
  {
    var h := Halve(ShapeOf(x));
    assert h[0] == y.d0 && h[1] == y.d1 && h[2] == y.d2;
  }

  lemma {:induction false} BuildLevelsOneShot(prev: Block, count: nat, m: nat, mode: Mode, fill: int)
    requires m >= 2 && m % 2 == 0
    requires prev.d0 >= 1 && prev.d1 >= 1 && prev.d2 >= 1
    ensures BuildLevels(prev, count, m, mode, fill).Ok?
    ensures |BuildLevels(prev, count, m, mode, fill).value| == count
    ensures StepChain([prev] + BuildLevels(prev, count, m, mode, fill).value, mode)
    decreases count
  {
    if count > 0 {
      LevelStep(prev, m, mode, fill);
      var next := BuildLevel(prev, m, mode, fill).value;
      StepPositive(prev, next, mode);
      BuildLevelsOneShot(next, count - 1, m, mode, fill);
      var rest := BuildLevels(next, count - 1, m, mode, fill).value;
      BuildLevelsCons(prev, count, m, mode, fill);
      ChainCons(prev, [next] + rest, mode);
    }
  }

  /** A level that follows another has every extent at least 1. */
  lemma StepPositive(x: Block, y: Block, mode: Mode)
    requires Step(x, y, mode)
    ensures y.d0 >= 1 && y.d1 >= 1 && y.d2 >= 1
  {
    var h := Halve(ShapeOf(x));
    assert h[0] == y.d0 && h[1] == y.d1 && h[2] == y.d2;
  }

  lemma BuildLevelsCons(prev: Block, count: nat, m: nat, mode: Mode, fill: int)
    requires m > 0 && count > 0
    requires BuildLevel(prev, m, mode, fill).Ok?
    requires BuildLevels(BuildLevel(prev, m, mode, fill).value, count - 1, m, mode, fill).Ok?
    ensures var next := BuildLevel(prev, m, mode, fill).value;
      BuildLevels(prev, count, m, mode, fill) == Ok([next] + BuildLevels(next, count - 1, m, mode, fill).value)
  {
  }

  /** Prepending a level that x steps to keeps a chain a chain. */
  lemma ChainCons(x: Block, r: seq<Block>, mode: Mode)
    requires |r| >= 1 && Step(x, r[0], mode) && StepChain(r, mode)
    ensures StepChain([x] + r, mode)
  {
    var c := [x] + r;
    forall k | 0 <= k < |c| - 1
      ensures Step(c[k], c[k + 1], mode)
    {
      if k > 0 {
        assert c[k] == r[k - 1] && c[k + 1] == r[k];
      }
    }
  }

  /** For an even max_load the generator succeeds, returns one array per listed
      shape with exactly that shape, and every level equals the one-shot reduction
      of the level before it. */
  lemma PyramidIsOneShot(base: Block, chunk: Shape, levels: Option<int>, m: nat, mode: Mode, fill: int)
    requires m >= 2 && m % 2 == 0
    requires base.d0 >= 1 && base.d1 >= 1 && base.d2 >= 1
    requires ChunkOk(chunk, ShapeOf(base))
    ensures GeneratePyramid(base, chunk, levels, m, mode, fill).Ok?
    ensures var (shapes, blocks) := GeneratePyramid(base, chunk, levels, m, mode, fill).value;
      && |blocks| == |shapes|
      && blocks[0] == base
      && (forall k :: 0 <= k < |blocks| ==> ShapeOf(blocks[k]) == shapes[k])
      && (forall k :: 0 <= k < |blocks| - 1 ==> SameBlock(blocks[k + 1], Downsample(blocks[k], mode)))
  {
    var shapes := LevelShapes(ShapeOf(base), chunk, levels);
    LevelShapesSchedule(ShapeOf(base), chunk, levels);
    BuildLevelsOneShot(base, |shapes| - 1, m, mode, fill);
    var blocks := [base] + BuildLevels(base, |shapes| - 1, m, mode, fill).value;
    assert GeneratePyramid(base, chunk, levels, m, mode, fill) == Ok((shapes, blocks));
    ShapesAgree(blocks, shapes, mode, |blocks|);
    forall k | 0 <= k < |blocks| - 1
      ensures SameBlock(blocks[k + 1], Downsample(blocks[k], mode))
    {
      assert Step(blocks[k], blocks[k + 1], mode);
    }
  }

  lemma {:induction false} ShapesAgree(blocks: seq<Block>, shapes: seq<Shape>, mode: Mode, n: nat)
    requires |blocks| == |shapes| >= 1 && n <= |blocks|
    requires ShapeOf(blocks[0]) == shapes[0]
    requires StepChain(blocks, mode)
    requires forall k :: 0 <= k < |shapes| - 1 ==> shapes[k + 1] == Halve(shapes[k])
    ensures forall k :: 0 <= k < n ==> ShapeOf(blocks[k]) == shapes[k]
    decreases n
  {
    if n > 1 {
      ShapesAgree(blocks, shapes, mode, n - 1);
      assert Step(blocks[n - 2], blocks[n - 1], mode);
    }
  }
}
