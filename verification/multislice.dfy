/** The multi-slice JPEG2000 compositor: slices of different sizes are centred on a
    common canvas, one stack index per slice, and the JPEG2000 resolution levels
    become the pyramid levels. */
module MultiSlice {
  import opened Arith
  import opened Errors
  import Store
  import Tiles
  import Multiscale
  import Nifti

  /** An index of a level array: (channel, slice, row, column). */
  type Idx4 = (int, int, int, int)

  /** One JPEG2000 slice: its level-0 height and width, whether it has a channel
      axis (ndim 3), its number of resolutions, its pixel size, and the pixel of
      channel c at (row, column) of resolution level l. */
  datatype Slice = Slice(h: nat, w: nat, color: bool, numRes: int, vxw: real, vxh: real,
                         pixel: (int, int, int, int) -> int)

  // ---------------------------------------------------------------------------
  // The canvas

  /** The largest value of f over the slices, 0 for none (the loop's start value). */
  function MaxOf(inp: seq<Slice>, f: Slice -> nat): (r: nat)
    ensures forall k :: 0 <= k < |inp| ==> f(inp[k]) <= r
    ensures |inp| > 0 ==> exists k :: 0 <= k < |inp| && f(inp[k]) == r
    ensures |inp| == 0 ==> r == 0
  {
    if |inp| == 0 then 0
    else
      var m := MaxOf(inp[..|inp| - 1], f);
      var v := f(inp[|inp| - 1]);
      assert forall k :: 0 <= k < |inp| - 1 ==> inp[..|inp| - 1][k] == inp[k];
      if v > m then v else m
  }

  /** The smallest resolution count over the slices. */
  function MinRes(inp: seq<Slice>): (r: int)
    requires |inp| >= 1
    ensures forall k :: 0 <= k < |inp| ==> r <= inp[k].numRes
    ensures exists k :: 0 <= k < |inp| && inp[k].numRes == r
  {
    if |inp| == 1 then inp[0].numRes
    else
      var m := MinRes(inp[..|inp| - 1]);
      assert forall k :: 0 <= k < |inp| - 1 ==> inp[..|inp| - 1][k] == inp[k];
      Min(m, inp[|inp| - 1].numRes)
  }

  /** The common canvas: the largest height and width, the smallest number of
      resolutions, and whether every slice has a channel axis. */
  datatype Canvas = Canvas(height: nat, width: nat, nbLevel: int, hasChannel: bool)

  function Height(s: Slice): nat { s.h }
  function Width(s: Slice): nat { s.w }

  function CanvasOf(inp: seq<Slice>): Canvas
    requires |inp| >= 1
  {
    Canvas(MaxOf(inp, Height), MaxOf(inp, Width), MinRes(inp), forall k :: 0 <= k < |inp| ==> inp[k].color)
  }

  /** Every slice fits on the canvas, and the canvas is no larger than needed: some
      slice is as high and some slice is as wide; no level is created beyond the
      coarsest resolution every slice has. */
  lemma CanvasIsTight(inp: seq<Slice>)
    requires |inp| >= 1
    ensures var cv := CanvasOf(inp);
      && (forall k :: 0 <= k < |inp| ==> inp[k].h <= cv.height && inp[k].w <= cv.width && cv.nbLevel <= inp[k].numRes)
      && (exists k :: 0 <= k < |inp| && inp[k].h == cv.height)
      && (exists k :: 0 <= k < |inp| && inp[k].w == cv.width)
      && (exists k :: 0 <= k < |inp| && inp[k].numRes == cv.nbLevel)
  {
    var mh := MaxOf(inp, Height);
    var mw := MaxOf(inp, Width);
    var kh :| 0 <= kh < |inp| && Height(inp[kh]) == mh;
    var kw :| 0 <= kw < |inp| && Width(inp[kw]) == mw;
    assert forall k :: 0 <= k < |inp| ==> Height(inp[k]) <= mh && Width(inp[k]) <= mw;
  }

  // ---------------------------------------------------------------------------
  // Level shapes and offsets

  /** An extent at resolution level l: ceildiv(n, 2^l). The JPEG2000 levels of a
      slice are taken to have these extents too. */
  function Extent(n: nat, l: nat): (r: nat)
    ensures r * Pow2(l) >= n && (r - 1) * Pow2(l) < n
  {
    var q := CeilDiv(n, Pow2(l));
    assert q == (n + Pow2(l) - 1) / Pow2(l);
    q
  }

  /** The shape of level l: (3, number of slices, ceildiv(H, 2^l), ceildiv(W, 2^l)). */
  function LevelShape(cv: Canvas, n: nat, l: nat): seq<int>
  {
    [3, n, Extent(cv.height, l), Extent(cv.width, l)]
  }

  /** `floordiv(S - s, 2)`: the offset that centres an extent s in an extent S. */
  function Offset(big: nat, small: nat): int
  {
    FloorDiv(big - small, 2)
  }

  /** A smaller extent is centred: it starts at or after 0, ends at or before S, and
      the margin after it is the margin before it or one more. A 10 x 20 slice on a
      14 x 20 canvas, for instance, starts at row 2, column 0 (OffsetExample). */
  lemma OffsetCentres(big: nat, small: nat)
    requires small <= big
    ensures var x := Offset(big, small);
      && 0 <= x && x + small <= big
      && ((big - (x + small)) - x == 0 || (big - (x + small)) - x == 1)
  {
  }

  /** A 10 x 20 slice on a 14 x 20 canvas starts at row 2, column 0. */
  lemma OffsetExample()
    ensures Offset(14, 10) == 2 && Offset(20, 20) == 0
  {
  }

  /** Where slice k starts on level l: (row, column). */
  function Origin(inp: seq<Slice>, cv: Canvas, l: nat, k: nat): (int, int)
    requires k < |inp|
  {
    (Offset(Extent(cv.height, l), Extent(inp[k].h, l)), Offset(Extent(cv.width, l), Extent(inp[k].w, l)))
  }

  /** p lies in the copy of a slice: a channel plane below 3, the slice's own stack
      index, and the slice's rows and columns shifted by its origin. */
  predicate InFootprint(inp: seq<Slice>, cv: Canvas, l: nat, p: Idx4)
  {
    && 0 <= p.0 < 3 && 0 <= p.1 < |inp|
    && var o := Origin(inp, cv, l, p.1);
       o.0 <= p.2 < o.0 + Extent(inp[p.1].h, l) && o.1 <= p.3 < o.1 + Extent(inp[p.1].w, l)
  }

  /** The value the slice puts at p: its level-l pixel, shifted back by its origin. */
  function Expected(inp: seq<Slice>, cv: Canvas, l: nat, p: Idx4): int
    requires 0 <= p.1 < |inp|
  {
    var o := Origin(inp, cv, l, p.1);
    inp[p.1].pixel(l, p.0, p.2 - o.0, p.3 - o.1)
  }

  /** On the canvas every slice's footprint lies inside the level's shape. */
  lemma FootprintInside(inp: seq<Slice>, l: nat, p: Idx4)
    requires |inp| >= 1
    requires InFootprint(inp, CanvasOf(inp), l, p)
    ensures var s := LevelShape(CanvasOf(inp), |inp|, l);
      0 <= p.0 < s[0] && 0 <= p.1 < s[1] && 0 <= p.2 < s[2] && 0 <= p.3 < s[3]
  {
    var cv := CanvasOf(inp);
    CanvasIsTight(inp);
    var s := inp[p.1];
    CeilDivMonotone(s.h, cv.height, Pow2(l));
    CeilDivMonotone(s.w, cv.width, Pow2(l));
    OffsetCentres(Extent(cv.height, l), Extent(s.h, l));
    OffsetCentres(Extent(cv.width, l), Extent(s.w, l));
  }

  // ---------------------------------------------------------------------------
  // The writes of one level

  /** `array[c, k, x+lo0 : x+hi0, y+lo1 : y+hi1] = subdat[c, lo0:hi0, lo1:hi1]`,
      (x, y) being slice k's origin. */
  function RegionWrite(inp: seq<Slice>, cv: Canvas, l: nat, k: nat, c: int, lo0: int, hi0: int, lo1: int, hi1: int)
    : Store.Write<Idx4>
    requires k < |inp|
  {
    var o := Origin(inp, cv, l, k);
    var s := inp[k];
    Store.Write((p: Idx4) => p.0 == c && p.1 == k && o.0 + lo0 <= p.2 < o.0 + hi0 && o.1 + lo1 <= p.3 < o.1 + hi1,
                (p: Idx4) => s.pixel(l, c, p.2 - o.0, p.3 - o.1))
  }

  /** The one assignment of the whole slice plane c. */
  function WholeWrite(inp: seq<Slice>, cv: Canvas, l: nat, k: nat, c: int): Store.Write<Idx4>
    requires k < |inp|
  {
    RegionWrite(inp, cv, l, k, c, 0, Extent(inp[k].h, l), 0, Extent(inp[k].w, l))
  }

  /** The max_load x max_load sub-tiles of slice plane c, row-major as the two
      nested loops visit them. */
  function TileWrites(inp: seq<Slice>, cv: Canvas, l: nat, k: nat, c: int, m: nat): seq<Store.Write<Idx4>>
    requires k < |inp| && m > 0
  {
    var h := Extent(inp[k].h, l);
    var w := Extent(inp[k].w, l);
    var ni := Tiles.Count(h, m);
    var nj := Tiles.Count(w, m);
    if nj == 0 then []
    else
      seq(Cells(ni, nj), t requires 0 <= t < Cells(ni, nj) =>
        RegionWrite(inp, cv, l, k, c, Tiles.Lo(Row(t, nj), m), Tiles.Hi(Row(t, nj), m, h), Tiles.Lo(t % nj, m), Tiles.Hi(t % nj, m, w)))
  }

  /** The number of sub-tiles of an ni x nj grid. */
  function Cells(ni: nat, nj: nat): nat { ni * nj }

  /** The row of sub-tile t in a grid of nj columns. */
  function Row(t: nat, nj: nat): nat
    requires nj > 0
  {
    t / nj
  }

  /** The slice is written in one assignment when there is no max_load or both of
      its extents are below it. */
  predicate Whole(h: nat, w: nat, maxLoad: Option<int>)
  {
    maxLoad.None? || (h < maxLoad.value && w < maxLoad.value)
  }

  /** The writes of channel c of slice k: one assignment, or the sub-tiles; a zero
      max_load divides by zero in ceildiv and a negative one gives no sub-tiles. */
  function ChannelWrites(inp: seq<Slice>, cv: Canvas, l: nat, k: nat, c: int, maxLoad: Option<int>)
    : Result<seq<Store.Write<Idx4>>>
    requires k < |inp|
  {
    if Whole(Extent(inp[k].h, l), Extent(inp[k].w, l), maxLoad) then Ok([WholeWrite(inp, cv, l, k, c)])
    else if maxLoad.value == 0 then Err(DivisionByZero)
    else if maxLoad.value < 0 then Ok([])
    else Ok(TileWrites(inp, cv, l, k, c, maxLoad.value))
  }

  lemma RowMajor(i: nat, j: nat, ni: nat, nj: nat)
    requires i < ni && j < nj
    ensures i * nj + j < ni * nj
    ensures (i * nj + j) / nj == i && (i * nj + j) % nj == j
  {
    MulMonotone(i + 1, ni, nj);
    Tiles.DivUnique(i * nj + j, nj, i);
  }

  /** Every index the one assignment covers lies in some sub-tile. */
  lemma TilesCover(inp: seq<Slice>, cv: Canvas, l: nat, k: nat, c: int, m: nat, p: Idx4)
    requires k < |inp| && m > 0
    requires WholeWrite(inp, cv, l, k, c).covers(p)
    ensures Store.Covered(TileWrites(inp, cv, l, k, c, m), p)
  {
    var tw := TileWrites(inp, cv, l, k, c, m);
    var h := Extent(inp[k].h, l);
    var w := Extent(inp[k].w, l);
    var ni := Tiles.Count(h, m);
    var nj := Tiles.Count(w, m);
    var o := Origin(inp, cv, l, k);
    var a, b := p.2 - o.0, p.3 - o.1;
    Tiles.Partition(h, m, a);
    Tiles.Partition(w, m, b);
    RowMajor(a / m, b / m, ni, nj);
    var t := (a / m) * nj + b / m;
    assert tw[t].covers(p);
  }

  /** A sub-tile covers only indices of the one assignment, with its value. */
  lemma TileInsideWhole(inp: seq<Slice>, cv: Canvas, l: nat, k: nat, c: int, m: nat, t: nat, p: Idx4)
    requires k < |inp| && m > 0
    requires t < |TileWrites(inp, cv, l, k, c, m)| && TileWrites(inp, cv, l, k, c, m)[t].covers(p)
    ensures WholeWrite(inp, cv, l, k, c).covers(p)
    ensures TileWrites(inp, cv, l, k, c, m)[t].value(p) == WholeWrite(inp, cv, l, k, c).value(p)
  {
  }

  /** The sub-tiles of a plane cover exactly the indices the one assignment covers
      and store the same value there, so the tiled branch leaves the array as the
      one assignment would. */
  lemma TiledIsWhole(inp: seq<Slice>, cv: Canvas, l: nat, k: nat, c: int, m: nat, base: Idx4 -> int)
    requires k < |inp| && m > 0
    ensures var tw := TileWrites(inp, cv, l, k, c, m);
      var whole := WholeWrite(inp, cv, l, k, c);
      && (forall p :: Store.Covered(tw, p) <==> whole.covers(p))
      && (forall t, p :: 0 <= t < |tw| && tw[t].covers(p) ==> tw[t].value(p) == whole.value(p))
      && (forall p :: Store.Apply(base, tw)(p) == Store.Overlay(base, whole)(p))
  {
    var tw := TileWrites(inp, cv, l, k, c, m);
    var whole := WholeWrite(inp, cv, l, k, c);
    forall t, p | 0 <= t < |tw| && tw[t].covers(p)
      ensures whole.covers(p) && tw[t].value(p) == whole.value(p)
    {
      TileInsideWhole(inp, cv, l, k, c, m, t, p);
    }
    forall p
      ensures Store.Covered(tw, p) <==> whole.covers(p)
      ensures Store.Apply(base, tw)(p) == Store.Overlay(base, whole)(p)
    {
      if whole.covers(p) {
        TilesCover(inp, cv, l, k, c, m, p);
        Store.ApplyAgreed(base, tw, p, whole.value(p));
      } else {
        Store.ApplyUntouched(base, tw, p);
      }
    }
  }

  /** The three channel planes of slice k, in channel order. */
  function SliceWrites(inp: seq<Slice>, cv: Canvas, l: nat, k: nat, maxLoad: Option<int>)
    : Result<seq<Store.Write<Idx4>>>
    requires k < |inp|
  {
    var w0 :- ChannelWrites(inp, cv, l, k, 0, maxLoad);
    var w1 :- ChannelWrites(inp, cv, l, k, 1, maxLoad);
    var w2 :- ChannelWrites(inp, cv, l, k, 2, maxLoad);
    Ok(w0 + w1 + w2)
  }

  /** The writes of slices 0 .. n-1, slice by slice. */
  function LevelWrites(inp: seq<Slice>, cv: Canvas, l: nat, maxLoad: Option<int>, n: nat)
    : Result<seq<Store.Write<Idx4>>>
    requires n <= |inp|
  {
    if n == 0 then Ok([])
    else
      match LevelWrites(inp, cv, l, maxLoad, n - 1)
      case Err(e) => Err(e)
      case Ok(prev) =>
        match SliceWrites(inp, cv, l, n - 1, maxLoad)
        case Err(e) => Err(e)
        case Ok(cur) => Ok(prev + cur)
  }

  /** Every write stays inside the slices' footprints and stores the slice's pixel. */
  ghost predicate Faithful(ws: seq<Store.Write<Idx4>>, inp: seq<Slice>, cv: Canvas, l: nat)
  {
    forall t, p :: 0 <= t < |ws| && ws[t].covers(p) ==> InFootprint(inp, cv, l, p) && ws[t].value(p) == Expected(inp, cv, l, p)
  }

  /** max_load lets the slices through: absent or positive. */
  predicate Loads(maxLoad: Option<int>) { maxLoad.None? || maxLoad.value >= 1 }

  lemma FaithfulConcat(xs: seq<Store.Write<Idx4>>, ys: seq<Store.Write<Idx4>>, inp: seq<Slice>, cv: Canvas, l: nat)
    requires Faithful(xs, inp, cv, l) && Faithful(ys, inp, cv, l)
    ensures Faithful(xs + ys, inp, cv, l)
  {
    var zs := xs + ys;
    forall t, p | 0 <= t < |zs| && zs[t].covers(p)
      ensures InFootprint(inp, cv, l, p) && zs[t].value(p) == Expected(inp, cv, l, p)
    {
      if t >= |xs| {
        assert zs[t] == ys[t - |xs|];
      }
    }
  }

  lemma CoveredLeft(xs: seq<Store.Write<Idx4>>, ys: seq<Store.Write<Idx4>>, p: Idx4)
    requires Store.Covered(xs, p)
    ensures Store.Covered(xs + ys, p)
  {
    var t :| 0 <= t < |xs| && xs[t].covers(p);
    assert (xs + ys)[t] == xs[t];
  }

  lemma CoveredRight(xs: seq<Store.Write<Idx4>>, ys: seq<Store.Write<Idx4>>, p: Idx4)
    requires Store.Covered(ys, p)
    ensures Store.Covered(xs + ys, p)
  {
    var t :| 0 <= t < |ys| && ys[t].covers(p);
    assert (xs + ys)[|xs| + t] == ys[t];
  }

  /** The one assignment of plane c is faithful and covers the plane's footprint. */
  lemma WholeWriteSpec(inp: seq<Slice>, cv: Canvas, l: nat, k: nat, c: int)
    requires k < |inp| && 0 <= c < 3
    ensures Faithful([WholeWrite(inp, cv, l, k, c)], inp, cv, l)
    ensures forall p: Idx4 :: p.0 == c && p.1 == k && InFootprint(inp, cv, l, p) ==>
      Store.Covered([WholeWrite(inp, cv, l, k, c)], p)
  {
    var ws := [WholeWrite(inp, cv, l, k, c)];
    forall p: Idx4 | p.0 == c && p.1 == k && InFootprint(inp, cv, l, p)
      ensures Store.Covered(ws, p)
    {
      assert ws[0].covers(p);
    }
  }

  /** The writes of plane c of slice k are faithful, succeed unless max_load is 0
      and, when max_load lets slices through, cover the whole plane; a negative
      max_load writes nothing. */
  lemma ChannelWritesSpec(inp: seq<Slice>, cv: Canvas, l: nat, k: nat, c: int, maxLoad: Option<int>)
    requires k < |inp| && 0 <= c < 3
    ensures var r := ChannelWrites(inp, cv, l, k, c, maxLoad);
      && (r.Ok? <==> maxLoad != Some(0))
      && (r.Ok? ==> Faithful(r.value, inp, cv, l))
      && (r.Ok? && Loads(maxLoad) ==>
            forall p: Idx4 :: p.0 == c && p.1 == k && InFootprint(inp, cv, l, p) ==> Store.Covered(r.value, p))
      && (r.Ok? && !Loads(maxLoad) ==> r.value == [])
  {
    if Whole(Extent(inp[k].h, l), Extent(inp[k].w, l), maxLoad) {
      assert ChannelWrites(inp, cv, l, k, c, maxLoad) == Ok([WholeWrite(inp, cv, l, k, c)]);
      WholeWriteSpec(inp, cv, l, k, c);
    } else if maxLoad.value > 0 {
      assert ChannelWrites(inp, cv, l, k, c, maxLoad) == Ok(TileWrites(inp, cv, l, k, c, maxLoad.value));
      TileWritesSpec(inp, cv, l, k, c, maxLoad.value);
    }
  }

  /** The sub-tiles of plane c of slice k are faithful and cover the whole plane. */
  lemma TileWritesSpec(inp: seq<Slice>, cv: Canvas, l: nat, k: nat, c: int, m: nat)
    requires k < |inp| && 0 <= c < 3 && m > 0
    ensures Faithful(TileWrites(inp, cv, l, k, c, m), inp, cv, l)
    ensures forall p: Idx4 :: p.0 == c && p.1 == k && InFootprint(inp, cv, l, p) ==>
      Store.Covered(TileWrites(inp, cv, l, k, c, m), p)
  {
    WholeWriteSpec(inp, cv, l, k, c);
    TiledIsWhole(inp, cv, l, k, c, m, (p: Idx4) => 0);
    var tw := TileWrites(inp, cv, l, k, c, m);
    var whole := WholeWrite(inp, cv, l, k, c);
    forall p: Idx4 | p.0 == c && p.1 == k && InFootprint(inp, cv, l, p)
      ensures Store.Covered(tw, p)
    {
      assert Store.Covered([whole], p);
      assert [whole][0].covers(p);
    }
    forall t, p | 0 <= t < |tw| && tw[t].covers(p)
      ensures InFootprint(inp, cv, l, p) && tw[t].value(p) == Expected(inp, cv, l, p)
    {
      assert [whole][0].covers(p);
    }
  }

  /** Slice k's three planes: faithful, and covering its whole footprint when
      max_load lets slices through. */
  lemma SliceWritesSpec(inp: seq<Slice>, cv: Canvas, l: nat, k: nat, maxLoad: Option<int>)
    requires k < |inp|
    ensures var r := SliceWrites(inp, cv, l, k, maxLoad);
      && (r.Ok? <==> maxLoad != Some(0))
      && (r.Ok? ==> Faithful(r.value, inp, cv, l))
      && (r.Ok? && Loads(maxLoad) ==>
            forall p: Idx4 :: p.1 == k && InFootprint(inp, cv, l, p) ==> Store.Covered(r.value, p))
      && (r.Ok? && !Loads(maxLoad) ==> r.value == [])
  {
    ChannelWritesSpec(inp, cv, l, k, 0, maxLoad);
    ChannelWritesSpec(inp, cv, l, k, 1, maxLoad);
    ChannelWritesSpec(inp, cv, l, k, 2, maxLoad);
    var r := SliceWrites(inp, cv, l, k, maxLoad);
    if r.Ok? {
      var w0 := ChannelWrites(inp, cv, l, k, 0, maxLoad).value;
      var w1 := ChannelWrites(inp, cv, l, k, 1, maxLoad).value;
      var w2 := ChannelWrites(inp, cv, l, k, 2, maxLoad).value;
      assert r.value == w0 + w1 + w2;
      FaithfulConcat(w0, w1, inp, cv, l);
      FaithfulConcat(w0 + w1, w2, inp, cv, l);
      if Loads(maxLoad) {
        forall p: Idx4 | p.1 == k && InFootprint(inp, cv, l, p)
          ensures Store.Covered(r.value, p)
        {
          if p.0 == 0 {
            CoveredLeft(w0, w1, p);
            CoveredLeft(w0 + w1, w2, p);
          } else if p.0 == 1 {
            CoveredRight(w0, w1, p);
            CoveredLeft(w0 + w1, w2, p);
          } else {
            CoveredRight(w0 + w1, w2, p);
          }
        }
      }
    }
  }

  lemma {:induction false} LevelWritesSpec(inp: seq<Slice>, cv: Canvas, l: nat, maxLoad: Option<int>, n: nat)
    requires n <= |inp|
    ensures var r := LevelWrites(inp, cv, l, maxLoad, n);
      && (r.Ok? <==> n == 0 || maxLoad != Some(0))
      && (r.Ok? ==> Faithful(r.value, inp, cv, l))
      && (r.Ok? && Loads(maxLoad) ==>
            forall p: Idx4 :: p.1 < n && InFootprint(inp, cv, l, p) ==> Store.Covered(r.value, p))
      && (r.Ok? && !Loads(maxLoad) ==> r.value == [])
    decreases n
  {
    if n > 0 {
      LevelWritesSpec(inp, cv, l, maxLoad, n - 1);
      SliceWritesSpec(inp, cv, l, n - 1, maxLoad);
      LevelWritesStep(inp, cv, l, maxLoad, n);
      ResultsJoin(LevelWrites(inp, cv, l, maxLoad, n - 1), SliceWrites(inp, cv, l, n - 1, maxLoad),
                  LevelWrites(inp, cv, l, maxLoad, n), inp, cv, l, maxLoad, n);
    }
  }

  /** The inductive step of LevelWritesSpec, over the results themselves: xr holds
      the writes of the first n - 1 slices, yr those of slice n - 1, and zr their
      concatenation when both succeed. */
  lemma ResultsJoin(xr: Result<seq<Store.Write<Idx4>>>, yr: Result<seq<Store.Write<Idx4>>>,
                    zr: Result<seq<Store.Write<Idx4>>>, inp: seq<Slice>, cv: Canvas, l: nat, maxLoad: Option<int>, n: nat)
    requires n >= 1
    requires zr.Ok? <==> xr.Ok? && yr.Ok?
    requires zr.Ok? ==> zr.value == xr.value + yr.value
    requires && (xr.Ok? <==> n - 1 == 0 || maxLoad != Some(0))
             && (xr.Ok? ==> Faithful(xr.value, inp, cv, l))
             && (xr.Ok? && Loads(maxLoad) ==>
                   forall p: Idx4 :: p.1 < n - 1 && InFootprint(inp, cv, l, p) ==> Store.Covered(xr.value, p))
             && (xr.Ok? && !Loads(maxLoad) ==> xr.value == [])
    requires && (yr.Ok? <==> maxLoad != Some(0))
             && (yr.Ok? ==> Faithful(yr.value, inp, cv, l))
             && (yr.Ok? && Loads(maxLoad) ==>
                   forall p: Idx4 :: p.1 == n - 1 && InFootprint(inp, cv, l, p) ==> Store.Covered(yr.value, p))
             && (yr.Ok? && !Loads(maxLoad) ==> yr.value == [])
    ensures && (zr.Ok? <==> n == 0 || maxLoad != Some(0))
            && (zr.Ok? ==> Faithful(zr.value, inp, cv, l))
            && (zr.Ok? && Loads(maxLoad) ==>
                  forall p: Idx4 :: p.1 < n && InFootprint(inp, cv, l, p) ==> Store.Covered(zr.value, p))
            && (zr.Ok? && !Loads(maxLoad) ==> zr.value == [])
  {
    if zr.Ok? {
      WritesJoin(xr.value, yr.value, inp, cv, l, maxLoad, n);
    }
  }

  /** Faithful writes for the first n - 1 slices followed by faithful writes for
      slice n - 1 are faithful and, when the slices load, cover the first n
      slices' footprints; when they do not, both parts and so the whole are empty. */
  lemma WritesJoin(xs: seq<Store.Write<Idx4>>, ys: seq<Store.Write<Idx4>>, inp: seq<Slice>, cv: Canvas, l: nat,
                   maxLoad: Option<int>, n: nat)
    requires n >= 1
    requires Faithful(xs, inp, cv, l) && Faithful(ys, inp, cv, l)
    requires Loads(maxLoad) ==> forall p: Idx4 :: p.1 < n - 1 && InFootprint(inp, cv, l, p) ==> Store.Covered(xs, p)
    requires Loads(maxLoad) ==> forall p: Idx4 :: p.1 == n - 1 && InFootprint(inp, cv, l, p) ==> Store.Covered(ys, p)
    requires !Loads(maxLoad) ==> xs == [] && ys == []
    ensures Faithful(xs + ys, inp, cv, l)
    ensures Loads(maxLoad) ==> forall p: Idx4 :: p.1 < n && InFootprint(inp, cv, l, p) ==> Store.Covered(xs + ys, p)
    ensures !Loads(maxLoad) ==> xs + ys == []
  {
    FaithfulConcat(xs, ys, inp, cv, l);
    if Loads(maxLoad) {
      CoveredUpTo(xs, ys, inp, cv, l, n);
    } else {
      assert xs + ys == [];
    }
  }

  /** The writes of the first n slices are those of the first n - 1 followed by
      slice n - 1's, and exist exactly when both do. */
  lemma LevelWritesStep(inp: seq<Slice>, cv: Canvas, l: nat, maxLoad: Option<int>, n: nat)
    requires 1 <= n <= |inp|
    ensures LevelWrites(inp, cv, l, maxLoad, n).Ok? <==>
      LevelWrites(inp, cv, l, maxLoad, n - 1).Ok? && SliceWrites(inp, cv, l, n - 1, maxLoad).Ok?
    ensures LevelWrites(inp, cv, l, maxLoad, n).Ok? ==>
      LevelWrites(inp, cv, l, maxLoad, n).value ==
        LevelWrites(inp, cv, l, maxLoad, n - 1).value + SliceWrites(inp, cv, l, n - 1, maxLoad).value
  {
  }

  /** The writes of the first n - 1 slices followed by those of slice n - 1 cover
      the footprints of the first n slices. */
  lemma CoveredUpTo(xs: seq<Store.Write<Idx4>>, ys: seq<Store.Write<Idx4>>, inp: seq<Slice>, cv: Canvas, l: nat, n: nat)
    requires n >= 1
    requires forall p: Idx4 :: p.1 < n - 1 && InFootprint(inp, cv, l, p) ==> Store.Covered(xs, p)
    requires forall p: Idx4 :: p.1 == n - 1 && InFootprint(inp, cv, l, p) ==> Store.Covered(ys, p)
    ensures forall p: Idx4 :: p.1 < n && InFootprint(inp, cv, l, p) ==> Store.Covered(xs + ys, p)
  {
    forall p: Idx4 | p.1 < n && InFootprint(inp, cv, l, p)
      ensures Store.Covered(xs + ys, p)
    {
      if p.1 < n - 1 {
        CoveredLeft(xs, ys, p);
      } else {
        CoveredRight(xs, ys, p);
      }
    }
  }

  // ---------------------------------------------------------------------------
  // A level of the composite

  /** A level array: its shape and the value at every index. */
  datatype Array4 = Array4(shape: seq<int>, at: Idx4 -> int)

  /** Level l after all slices are written, starting from the fill value 0. */
  function LevelArray(inp: seq<Slice>, l: nat, maxLoad: Option<int>): Result<Array4>
    requires |inp| >= 1
  {
    var cv := CanvasOf(inp);
    var ws :- LevelWrites(inp, cv, l, maxLoad, |inp|);
    Ok(Array4(LevelShape(cv, |inp|, l), Store.Apply((p: Idx4) => 0, ws)))
  }

  /** The composite: level l succeeds unless max_load is 0; inside slice k's
      footprint it holds slice k's level-l pixel shifted by k's origin, and
      everywhere else it holds the fill value 0. A negative max_load leaves the
      level all fill. */
  lemma LevelContents(inp: seq<Slice>, l: nat, maxLoad: Option<int>, p: Idx4)
    requires |inp| >= 1
    ensures var r := LevelArray(inp, l, maxLoad);
      && (r.Ok? <==> maxLoad != Some(0))
      && (r.Ok? && Loads(maxLoad) ==>
            r.value.at(p) == if InFootprint(inp, CanvasOf(inp), l, p) then Expected(inp, CanvasOf(inp), l, p) else 0)
      && (r.Ok? && !Loads(maxLoad) ==> r.value.at(p) == 0)
  {
    var cv := CanvasOf(inp);
    LevelWritesSpec(inp, cv, l, maxLoad, |inp|);
    var r := LevelArray(inp, l, maxLoad);
    if r.Ok? {
      var ws := LevelWrites(inp, cv, l, maxLoad, |inp|).value;
      assert r.value.at == Store.Apply((p: Idx4) => 0, ws);
      StoredPixel(inp, cv, l, maxLoad, ws, p);
    }
  }

  /** Faithful writes that cover every footprint (none when max_load blocks the
      slices) leave the slice's pixel inside a footprint and 0 elsewhere. */
  lemma StoredPixel(inp: seq<Slice>, cv: Canvas, l: nat, maxLoad: Option<int>, ws: seq<Store.Write<Idx4>>, p: Idx4)
    requires Faithful(ws, inp, cv, l)
    requires Loads(maxLoad) ==> forall p: Idx4 :: p.1 < |inp| && InFootprint(inp, cv, l, p) ==> Store.Covered(ws, p)
    requires !Loads(maxLoad) ==> ws == []
    ensures Store.Apply((p: Idx4) => 0, ws)(p) ==
      if Loads(maxLoad) && InFootprint(inp, cv, l, p) then Expected(inp, cv, l, p) else 0
  {
    if InFootprint(inp, cv, l, p) && Loads(maxLoad) {
      Store.ApplyAgreed((p: Idx4) => 0, ws, p, Expected(inp, cv, l, p));
    } else {
      assert !Store.Covered(ws, p);
      Store.ApplyUntouched((p: Idx4) => 0, ws, p);
    }
  }

  // ---------------------------------------------------------------------------
  // The multiscale metadata

  /** Level n's transform as written: the in-plane scale is the height ratio
      H / ceildiv(H, 2^n) times the pixel size, on the width axis as well as the
      height axis; translation is half of (scale - pixel size); the channel and
      stack axes keep (1, 0). A run reaching the metadata always has a channel axis. */
  function LevelTransformAsWritten(cv: Canvas, n: nat, vxw: real, vxh: real): Result<Multiscale.Transform>
  {
    var hn := Extent(cv.height, n);
    if hn == 0 then Err(DivisionByZero)
    else
      var r := cv.height as real / hn as real;
      Ok(Multiscale.Transform([1.0, 1.0, r * vxh, r * vxw], [0.0, 0.0, (r - 1.0) * vxh * 0.5, (r - 1.0) * vxw * 0.5]))
  }

  /** Level n's transform with each in-plane axis scaled by its own shape ratio. */
  function LevelTransform(cv: Canvas, n: nat, vxw: real, vxh: real): Result<Multiscale.Transform>
  {
    var hn := Extent(cv.height, n);
    var wn := Extent(cv.width, n);
    if hn == 0 || wn == 0 then Err(DivisionByZero)
    else
      var ry := cv.height as real / hn as real;
      var rx := cv.width as real / wn as real;
      Ok(Multiscale.Transform([1.0, 1.0, ry * vxh, rx * vxw], [0.0, 0.0, (ry - 1.0) * vxh * 0.5, (rx - 1.0) * vxw * 0.5]))
  }

  /** `extent` pixels of size `scale` cover the same length as `extent0` pixels of
      size `vx`: the level spans level 0's field of view on that axis. */
  predicate FieldOfView(scale: real, extent: nat, extent0: nat, vx: real)
  {
    scale * extent as real == extent0 as real * vx
  }

  /** On one axis, scale times the level extent gives back the level-0 extent times
      the pixel size, and the translation is half of scale minus pixel size. */
  lemma AxisEdge(a: nat, b: nat, v: real, scale: real, translation: real)
    requires b >= 1
    requires scale == (a as real / b as real) * v
    requires translation == (a as real / b as real - 1.0) * v * 0.5
    ensures FieldOfView(scale, b, a, v)
    ensures translation == (scale - v) / 2.0
  {
    var r := a as real / b as real;
    assert r * b as real == a as real;
    assert (r * v) * b as real == (r * b as real) * v;
  }

  /** An extent is non-zero at level l exactly when it is non-zero at level 0. */
  lemma ExtentPositive(n: nat, l: nat)
    ensures Extent(n, l) >= 1 <==> n >= 1
  {
    if n >= 1 {
      CeilDivPositive(n, Pow2(l));
    } else {
      CeilDivZero(Pow2(l));
    }
  }

  /** The intended alignment: level n spans the same field of view as level 0 on
      both in-plane axes (scale times extent is the level-0 extent times the pixel
      size), and its first voxel's centre sits half a scale minus half a pixel in.
      It fails only on an empty canvas. */
  lemma LevelTransformEdges(cv: Canvas, n: nat, vxw: real, vxh: real)
    ensures var r := LevelTransform(cv, n, vxw, vxh);
      && (r.Ok? <==> cv.height >= 1 && cv.width >= 1)
      && (r.Ok? ==>
            var t := r.value;
            && |t.scale| == 4 && |t.translation| == 4
            && t.scale[0] == 1.0 && t.scale[1] == 1.0 && t.translation[0] == 0.0 && t.translation[1] == 0.0
            && FieldOfView(t.scale[2], Extent(cv.height, n), cv.height, vxh)
            && FieldOfView(t.scale[3], Extent(cv.width, n), cv.width, vxw)
            && t.translation[2] == (t.scale[2] - vxh) / 2.0
            && t.translation[3] == (t.scale[3] - vxw) / 2.0)
  {
    var hn := Extent(cv.height, n);
    var wn := Extent(cv.width, n);
    ExtentPositive(cv.height, n);
    ExtentPositive(cv.width, n);
    if hn >= 1 && wn >= 1 {
      AxisEdge(cv.height, Extent(cv.height, n), vxh,
               LevelTransform(cv, n, vxw, vxh).value.scale[2], LevelTransform(cv, n, vxw, vxh).value.translation[2]);
      AxisEdge(cv.width, Extent(cv.width, n), vxw,
               LevelTransform(cv, n, vxw, vxh).value.scale[3], LevelTransform(cv, n, vxw, vxh).value.translation[3]);
    }
  }

  /** With a positive denominator h, (H / h) * v * w equals W * v exactly when
      H * w == W * h (v non-zero). */
  lemma CrossRatio(bigH: nat, h: nat, bigW: nat, w: nat, v: real)
    requires h >= 1 && v != 0.0
    ensures (bigH as real / h as real) * v * w as real == bigW as real * v <==> bigH * w == bigW * h
  {
    var r := bigH as real / h as real;
    assert r * h as real == bigH as real;
    assert (r * v) * w as real == (r * w as real) * v;
    assert (r * w as real) * v == bigW as real * v <==> r * w as real == bigW as real;
    assert r * w as real == bigW as real <==> (r * w as real) * h as real == bigW as real * h as real;
    assert (r * w as real) * h as real == (r * h as real) * w as real;
    assert (bigH * w) as real == bigH as real * w as real;
    assert (bigW * h) as real == bigW as real * h as real;
  }

  /** As written, the width axis spans level 0's field of view only when the two
      in-plane shape ratios coincide. */
  lemma AsWrittenWidthEdge(cv: Canvas, n: nat, vxw: real, vxh: real)
    requires cv.height >= 1 && vxw != 0.0
    ensures var r := LevelTransformAsWritten(cv, n, vxw, vxh);
      && r.Ok?
      && (FieldOfView(r.value.scale[3], Extent(cv.width, n), cv.width, vxw) <==>
          cv.height * Extent(cv.width, n) == cv.width * Extent(cv.height, n))
  {
    var hn := Extent(cv.height, n);
    var wn := Extent(cv.width, n);
    CeilDivPositive(cv.height, Pow2(n));
    var ry := cv.height as real / hn as real;
    var t := LevelTransformAsWritten(cv, n, vxw, vxh).value;
    assert t.scale[3] == ry * vxw;
    CrossRatio(cv.height, hn, cv.width, wn, vxw);
  }

  /** A 4 x 5 canvas at level 1 is 2 x 3: as written the width scale is 2 pixels,
      so the 3 columns span 6 pixel widths instead of 5; per axis it is 5/3. */
  lemma AsWrittenWidthCounterexample()
    ensures var cv := Canvas(4, 5, 2, true);
      && Extent(4, 1) == 2 && Extent(5, 1) == 3
      && LevelTransformAsWritten(cv, 1, 1.0, 1.0).value.scale[3] == 2.0
      && LevelTransformAsWritten(cv, 1, 1.0, 1.0).value.scale[3] * 3.0 != 5.0
      && LevelTransform(cv, 1, 1.0, 1.0).value.scale[3] == 5.0 / 3.0
  {
    assert Pow2(1) == 2;
  }

  /** The corrected transform also divides by the level width: a canvas of width 0
      and height at least 1 fails with it, where as written only the height divides
      and the transform exists. */
  lemma AsWrittenZeroWidth(cv: Canvas, n: nat, vxw: real, vxh: real)
    requires cv.height >= 1 && cv.width == 0
    ensures LevelTransformAsWritten(cv, n, vxw, vxh).Ok?
    ensures LevelTransform(cv, n, vxw, vxh) == Err(DivisionByZero)
  {
    ExtentPositive(cv.height, n);
    ExtentPositive(cv.width, n);
  }

  // ---------------------------------------------------------------------------
  // The converter

  /** What the converter writes: the levels, the datasets of the metadata, the
      top-level scale, and the NIfTI shape. */
  datatype Output = Output(levels: seq<Array4>, datasets: seq<Multiscale.Transform>, topScale: seq<real>,
                           niftiShape: seq<int>)

  /** Levels 0 .. count-1. */
  function LevelsUpTo(inp: seq<Slice>, count: nat, maxLoad: Option<int>): (r: Result<seq<Array4>>)
    requires |inp| >= 1
    ensures r.Ok? ==> |r.value| == count
  {
    if count == 0 then Ok([])
    else
      match LevelsUpTo(inp, count - 1, maxLoad)
      case Err(e) => Err(e)
      case Ok(prev) =>
        match LevelArray(inp, count - 1, maxLoad)
        case Err(e) => Err(e)
        case Ok(a) => Ok(prev + [a])
  }

  /** The written levels are the level arrays 0 .. count-1, in order. */
  lemma {:induction false} LevelsUpToSpec(inp: seq<Slice>, count: nat, maxLoad: Option<int>)
    requires |inp| >= 1
    ensures var r := LevelsUpTo(inp, count, maxLoad);
      r.Ok? ==> forall l :: 0 <= l < count ==> LevelArray(inp, l, maxLoad) == Ok(r.value[l])
  {
    if count > 0 {
      match LevelsUpTo(inp, count - 1, maxLoad)
      case Err(_) =>
      case Ok(prev) =>
        match LevelArray(inp, count - 1, maxLoad)
        case Err(_) =>
        case Ok(a) =>
          LevelsUpToSpec(inp, count - 1, maxLoad);
          var rs := prev + [a];
          assert LevelsUpTo(inp, count, maxLoad) == Ok(rs);
          forall l | 0 <= l < count
            ensures LevelArray(inp, l, maxLoad) == Ok(rs[l])
          {
            if l < count - 1 {
              assert rs[l] == prev[l];
            }
          }
    }
  }

  /** The datasets 0 .. count-1 with the last slice's pixel size. */
  function TransformsUpTo(cv: Canvas, count: nat, vxw: real, vxh: real): (r: Result<seq<Multiscale.Transform>>)
    ensures r.Ok? ==> |r.value| == count
  {
    if count == 0 then Ok([])
    else
      match TransformsUpTo(cv, count - 1, vxw, vxh)
      case Err(e) => Err(e)
      case Ok(prev) =>
        match LevelTransform(cv, count - 1, vxw, vxh)
        case Err(e) => Err(e)
        case Ok(t) => Ok(prev + [t])
  }

  /** The listed datasets are the level transforms 0 .. count-1, in order. */
  lemma {:induction false} TransformsUpToSpec(cv: Canvas, count: nat, vxw: real, vxh: real)
    ensures var r := TransformsUpTo(cv, count, vxw, vxh);
      r.Ok? ==> forall n :: 0 <= n < count ==> LevelTransform(cv, n, vxw, vxh) == Ok(r.value[n])
  {
    if count > 0 {
      TransformsUpToSpec(cv, count - 1, vxw, vxh);
    }
  }

  /** The whole run. No input leaves nothing to stack; a level to write without a
      channel axis fails on `new_size[2]`; without any level the NIfTI step fails to
      find array "0". */
  function Convert(inp: seq<Slice>, maxLoad: Option<int>): Result<Output>
  {
    if |inp| == 0 then Err(NoInput)
    else
      var cv := CanvasOf(inp);
      if cv.nbLevel >= 1 && !cv.hasChannel then Err(Index)
      else
        match LevelsUpTo(inp, if cv.nbLevel <= 0 then 0 else cv.nbLevel, maxLoad)
        case Err(e) => Err(e)
        case Ok(levels) =>
          if cv.nbLevel <= 0 then Err(MissingLevel)
          else
            var last := inp[|inp| - 1];
            match TransformsUpTo(cv, cv.nbLevel, last.vxw, last.vxh)
            case Err(e) => Err(e)
            case Ok(datasets) =>
              Ok(Output(levels, datasets, Multiscale.Repeat(1.0, 4), Nifti.SliceNiftiShape(LevelShape(cv, |inp|, 0), true)))
  }

  lemma {:induction false} LevelsUpToOk(inp: seq<Slice>, count: nat, maxLoad: Option<int>)
    requires |inp| >= 1
    ensures LevelsUpTo(inp, count, maxLoad).Ok? <==> count == 0 || maxLoad != Some(0)
  {
    if count > 0 {
      LevelsUpToOk(inp, count - 1, maxLoad);
      LevelArrayOk(inp, count - 1, maxLoad);
      match LevelsUpTo(inp, count - 1, maxLoad)
      case Err(_) =>
      case Ok(prev) =>
        match LevelArray(inp, count - 1, maxLoad)
        case Err(_) =>
        case Ok(a) => assert LevelsUpTo(inp, count, maxLoad) == Ok(prev + [a]);
    }
  }

  /** A level array exists exactly when max_load is not 0. */
  lemma LevelArrayOk(inp: seq<Slice>, l: nat, maxLoad: Option<int>)
    requires |inp| >= 1
    ensures LevelArray(inp, l, maxLoad).Ok? <==> maxLoad != Some(0)
  {
    LevelContents(inp, l, maxLoad, (0, 0, 0, 0));
  }

  lemma {:induction false} TransformsUpToOk(cv: Canvas, count: nat, vxw: real, vxh: real)
    ensures TransformsUpTo(cv, count, vxw, vxh).Ok? <==> count == 0 || (cv.height >= 1 && cv.width >= 1)
  {
    if count > 0 {
      TransformsUpToOk(cv, count - 1, vxw, vxh);
      LevelTransformEdges(cv, count - 1, vxw, vxh);
    }
  }

  /** A successful run is made of the LevelsUpTo and TransformsUpTo results for the
      canvas's nbLevel, with unit top scale and the reversed level-0 shape. */
  lemma ConvertParts(inp: seq<Slice>, maxLoad: Option<int>)
    requires Convert(inp, maxLoad).Ok?
    ensures |inp| >= 1 && CanvasOf(inp).hasChannel && CanvasOf(inp).nbLevel >= 1
    ensures var cv := CanvasOf(inp);
      var last := inp[|inp| - 1];
      var r := Convert(inp, maxLoad).value;
      && LevelsUpTo(inp, cv.nbLevel, maxLoad) == Ok(r.levels)
      && TransformsUpTo(cv, cv.nbLevel, last.vxw, last.vxh) == Ok(r.datasets)
      && r.topScale == Multiscale.Repeat(1.0, 4)
      && r.niftiShape == Nifti.SliceNiftiShape(LevelShape(cv, |inp|, 0), true)
  {
  }

  /** The run succeeds exactly when there are slices, every slice has channels, the
      coarsest common resolution count is at least 1, max_load is not 0, and the
      canvas is not empty. */
  lemma ConvertOk(inp: seq<Slice>, maxLoad: Option<int>)
    ensures Convert(inp, maxLoad).Ok? <==>
      |inp| >= 1 && CanvasOf(inp).hasChannel && CanvasOf(inp).nbLevel >= 1 && maxLoad != Some(0)
      && CanvasOf(inp).height >= 1 && CanvasOf(inp).width >= 1
  {
    if |inp| >= 1 {
      var cv := CanvasOf(inp);
      var count := if cv.nbLevel <= 0 then 0 else cv.nbLevel;
      LevelsUpToOk(inp, count, maxLoad);
      var last := inp[|inp| - 1];
      TransformsUpToOk(cv, count, last.vxw, last.vxh);
    }
  }

  /** The run succeeds exactly when there are slices, every slice has channels, the
      coarsest common resolution count is at least 1, max_load is not 0, and the
      canvas is not empty. Then there is one level and one dataset per resolution
      level, level l is the composite of the slices at resolution l with shape
      (3, N, ceildiv(H, 2^l), ceildiv(W, 2^l)), each dataset keeps level 0's field
      of view, and the NIfTI shape is (W, H, N, 1, 3). */
  lemma ConvertSpec(inp: seq<Slice>, maxLoad: Option<int>)
    ensures var r := Convert(inp, maxLoad);
      && (r.Ok? <==>
            |inp| >= 1 && CanvasOf(inp).hasChannel && CanvasOf(inp).nbLevel >= 1 && maxLoad != Some(0)
            && CanvasOf(inp).height >= 1 && CanvasOf(inp).width >= 1)
      && (r.Ok? ==>
            var cv := CanvasOf(inp);
            var last := inp[|inp| - 1];
            && |r.value.levels| == cv.nbLevel && |r.value.datasets| == cv.nbLevel
            && (forall l :: 0 <= l < cv.nbLevel ==>
                  LevelArray(inp, l, maxLoad) == Ok(r.value.levels[l])
                  && r.value.levels[l].shape == [3, |inp|, Extent(cv.height, l), Extent(cv.width, l)])
            && (forall n :: 0 <= n < cv.nbLevel ==> LevelTransform(cv, n, last.vxw, last.vxh) == Ok(r.value.datasets[n]))
            && r.value.topScale == [1.0, 1.0, 1.0, 1.0]
            && r.value.niftiShape == [Extent(cv.width, 0), Extent(cv.height, 0), |inp|, 1, 3])
  {
    ConvertOk(inp, maxLoad);
    var r := Convert(inp, maxLoad);
    if r.Ok? {
      ConvertParts(inp, maxLoad);
      var cv := CanvasOf(inp);
      var last := inp[|inp| - 1];
      LevelsUpToSpec(inp, cv.nbLevel, maxLoad);
      TransformsUpToSpec(cv, cv.nbLevel, last.vxw, last.vxh);
      forall l | 0 <= l < cv.nbLevel
        ensures r.value.levels[l].shape == [3, |inp|, Extent(cv.height, l), Extent(cv.width, l)]
      {
        LevelContents(inp, l, maxLoad, (0, 0, 0, 0));
      }
      Nifti.SliceNiftiShapeOrder(3, |inp|, Extent(cv.height, 0), Extent(cv.width, 0));
      assert Multiscale.Repeat(1.0, 4) == [1.0, 1.0, 1.0, 1.0];
    }
  }
}
