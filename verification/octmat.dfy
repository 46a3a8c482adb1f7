/** The OCT .mat converter script: the arrays it creates level by level (floor
    halving on every axis but no_pool), the tiled copy into level 0, the inline
    multiscale metadata, and the choice of the array inside a .mat file. */
module OctMat {
  import opened Arith
  import opened Errors
  import opened Window
  import Store
  import Pyramid
  import Levels
  import Multiscale
  import Stacking
  import Tiles

  // ---------------------------------------------------------------------------
  // The level schedule

  /** One step of the level loop: every extent floor-halved except the no_pool one. */
  function PoolShape(s: seq<nat>, noPool: Option<int>): (r: seq<nat>)
    ensures |r| == |s|
  {
    seq(|s|, i requires 0 <= i < |s| => if Levels.Pooled(noPool, i) then s[i] / 2 else s[i])
  }

  /** The chunk shape of a level: `[min(x, chunk) for x in shape_level]`. */
  function ChunksOf(s: seq<nat>, chunk: int): (r: seq<int>)
    ensures |r| == |s|
  {
    seq(|s|, i requires 0 <= i < |s| => Min(s[i], chunk))
  }

  /** The shape and chunk shape a created array is given. */
  datatype LevelSpec = LevelSpec(shape: seq<nat>, chunks: seq<int>)

  /** The arrays created by `count` passes of the level loop, starting from shape s. */
  function LevelSpecsFrom(s: seq<nat>, count: nat, noPool: Option<int>, chunk: int): (r: seq<LevelSpec>)
    ensures |r| == count
    ensures forall l :: 0 <= l < count ==> |r[l].shape| == |s|
    decreases count
  {
    if count == 0 then []
    else [LevelSpec(s, ChunksOf(s, chunk))] + LevelSpecsFrom(PoolShape(s, noPool), count - 1, noPool, chunk)
  }

  /** The arrays "0" .. "nblevels-1": none when nblevels <= 0. */
  function LevelSpecs(shape: seq<nat>, nb: int, noPool: Option<int>, chunk: int): seq<LevelSpec>
  {
    LevelSpecsFrom(shape, if nb <= 0 then 0 else nb, noPool, chunk)
  }

  /** The extent of axis i at level l in closed form: x // 2^l on a pooled axis, x
      itself on the no_pool axis. */
  function ExtentAt(shape: seq<nat>, noPool: Option<int>, l: nat, i: nat): int
    requires i < |shape|
  {
    if Levels.Pooled(noPool, i) then shape[i] / Pow2(l) else shape[i]
  }

  /** The array of level l has the closed-form extents and chunk sizes. */
  ghost predicate SpecAt(spec: LevelSpec, shape: seq<nat>, noPool: Option<int>, chunk: int, l: nat)
  {
    && |spec.shape| == |shape| && |spec.chunks| == |shape|
    && (forall i :: 0 <= i < |shape| ==> spec.shape[i] == ExtentAt(shape, noPool, l, i))
    && (forall i :: 0 <= i < |shape| ==> spec.chunks[i] == Min(spec.shape[i], chunk))
  }

  /** Halving x // 2^k once more is x // 2^(k+1). */
  lemma HalveAgain(x: nat, k: nat)
    ensures x / 2 / Pow2(k) == x / Pow2(k + 1)
  {
    var p := Pow2(k);
    var q := x / 2;
    var a := q / p;
    var b := q % p;
    assert x == 2 * q + x % 2;
    assert q == p * a + b;
    assert x == (2 * p) * a + (2 * b + x % 2);
    assert a * (2 * p) <= x < (a + 1) * (2 * p);
    Tiles.DivUnique(x, 2 * p, a);
  }

  lemma {:induction false} LevelSpecsFromClosed(s: seq<nat>, count: nat, noPool: Option<int>, chunk: int, l: nat)
    requires l < count
    ensures SpecAt(LevelSpecsFrom(s, count, noPool, chunk)[l], s, noPool, chunk, l)
    decreases count
  {
    var r := LevelSpecsFrom(s, count, noPool, chunk);
    if l > 0 {
      var s' := PoolShape(s, noPool);
      LevelSpecsFromClosed(s', count - 1, noPool, chunk, l - 1);
      assert r[l] == LevelSpecsFrom(s', count - 1, noPool, chunk)[l - 1];
      forall i | 0 <= i < |s|
        ensures r[l].shape[i] == ExtentAt(s, noPool, l, i)
      {
        if Levels.Pooled(noPool, i) {
          HalveAgain(s[i], l - 1);
        }
      }
    }
  }

  /** The arrays the level loop creates: nblevels of them; at level l every pooled
      extent is x // 2^l and is at least 1, the no_pool extent is unchanged, and the
      chunk size is min(extent, chunk), so never larger than the array. */
  lemma LevelSchedule(shape: seq<nat>, maxLoad: int, maxLevels: int, noPool: Option<int>, chunk: int)
    requires |shape| == 3
    requires Levels.NbLevels(shape, maxLoad, maxLevels, noPool).Ok?
    ensures var nb := Levels.NbLevels(shape, maxLoad, maxLevels, noPool).value;
      var specs := LevelSpecs(shape, nb, noPool, chunk);
      && |specs| == Max(nb, 0)
      && (forall l :: 0 <= l < |specs| ==> SpecAt(specs[l], shape, noPool, chunk, l))
      && (forall l, i :: 0 <= l < |specs| && 0 <= i < 3 && Levels.Pooled(noPool, i) ==> specs[l].shape[i] >= 1)
      && (forall l, i :: 0 <= l < |specs| && 0 <= i < 3 ==> specs[l].chunks[i] <= specs[l].shape[i])
  {
    var nb := Levels.NbLevels(shape, maxLoad, maxLevels, noPool).value;
    var count := if nb <= 0 then 0 else nb;
    var specs := LevelSpecs(shape, nb, noPool, chunk);
    forall l | 0 <= l < |specs|
      ensures SpecAt(specs[l], shape, noPool, chunk, l)
    {
      LevelSpecsFromClosed(shape, count, noPool, chunk, l);
    }
    forall l, i | 0 <= l < |specs| && 0 <= i < 3 && Levels.Pooled(noPool, i)
      ensures specs[l].shape[i] >= 1
    {
      Levels.PooledLevelsNonEmpty(shape, maxLoad, maxLevels, noPool, l, i);
    }
  }

  // ---------------------------------------------------------------------------
  // The inline metadata

  /** The multiscale metadata: one dataset per created level under the fixed rule,
      and a unit top-level scale. */
  function Metadata(nb: int, vx: seq<real>, noPool: Option<int>): Multiscale.Ome
    requires |vx| >= 3
  {
    Multiscale.Ome(Multiscale.FixedTransforms(nb, vx, noPool), [1.0, 1.0, 1.0])
  }

  lemma FloorBounds(x: nat, p: nat)
    requires p >= 1
    ensures p * (x / p) <= x < p * (x / p + 1)
  {
  }

  /** The metadata places every level on the input's field of view: on axis i level
      l's voxel is F = 2^l input voxels wide (F = 1 on no_pool), its F * extent voxels
      fit inside the input and miss fewer than F of its voxels, and its first voxel's
      centre sits at the centre of the first F input voxels. The metadata is also
      write_ome_metadata's numeric policy on these levels' shapes. */
  lemma MetadataFieldOfView(shape: seq<nat>, maxLoad: int, maxLevels: int, noPool: Option<int>, chunk: int,
                            vx: seq<real>, l: nat, i: nat)
    requires |shape| == 3 && |vx| == 3 && i < 3
    requires Levels.NbLevels(shape, maxLoad, maxLevels, noPool).Ok?
    requires l < Levels.NbLevels(shape, maxLoad, maxLevels, noPool).value
    ensures var nb := Levels.NbLevels(shape, maxLoad, maxLevels, noPool).value;
      var s := LevelSpecs(shape, nb, noPool, chunk)[l].shape[i];
      var t := Metadata(nb, vx, noPool).datasets[l];
      var f := Multiscale.FixedFactor(l, noPool, i);
      && t.scale[i] == f as real * vx[i]
      && t.translation[i] == (t.scale[i] - vx[i]) / 2.0
      && Spans(f, s, shape[i])
  {
    LevelSchedule(shape, maxLoad, maxLevels, noPool, chunk);
    assert SpecAt(LevelSpecs(shape, Levels.NbLevels(shape, maxLoad, maxLevels, noPool).value, noPool, chunk)[l],
                  shape, noPool, chunk, l);
    FixedHalfVoxel(l, vx, noPool, i);
    ExtentBracket(shape, noPool, l, i);
  }

  /** s voxels of F input voxels each cover x to within one voxel: F * s <= x < F * (s + 1). */
  predicate Spans(f: int, s: int, x: int)
  {
    f * s <= x < f * (s + 1)
  }

  /** A level's extent, F voxels each, spans the input's extent to within one voxel. */
  lemma ExtentBracket(shape: seq<nat>, noPool: Option<int>, l: nat, i: nat)
    requires i < |shape| == 3
    ensures Spans(Multiscale.FixedFactor(l, noPool, i), ExtentAt(shape, noPool, l, i), shape[i])
  {
    FloorBounds(shape[i], Pow2(l));
  }

  /** The fixed rule's translation is half of the scale minus the voxel size. */
  lemma FixedHalfVoxel(l: nat, vx: seq<real>, noPool: Option<int>, i: nat)
    requires |vx| == 3 && i < 3
    ensures var t := Multiscale.FixedTransform(l, vx, noPool);
      && t.scale[i] == Multiscale.FixedFactor(l, noPool, i) as real * vx[i]
      && t.translation[i] == (t.scale[i] - vx[i]) / 2.0
  {
    Multiscale.FixedEntry(l, vx, noPool, i);
    var f := Multiscale.FixedFactor(l, noPool, i) as real;
    assert (f - 1.0) * vx[i] * 0.5 == (f * vx[i] - vx[i]) / 2.0;
  }

  /** For created levels the metadata is exactly what write_ome_metadata would write
      for their shapes with factor 2 on pooled axes and 1 on no_pool. */
  lemma MetadataIsNumericPolicy(shape: seq<nat>, maxLoad: int, maxLevels: int, noPool: Option<int>, chunk: int,
                                vx: seq<real>)
    requires |shape| == 3 && |vx| == 3
    requires Levels.NbLevels(shape, maxLoad, maxLevels, noPool).Ok?
    requires Levels.NbLevels(shape, maxLoad, maxLevels, noPool).value >= 1
    ensures var nb := Levels.NbLevels(shape, maxLoad, maxLevels, noPool).value;
      var specs := LevelSpecs(shape, nb, noPool, chunk);
      var shapes := seq(|specs|, l requires 0 <= l < |specs| => specs[l].shape);
      Multiscale.WriteOmeMetadata(shapes, ["z", "y", "x"], vx, 1.0, Multiscale.FixedAligns(noPool))
        == Ok(Metadata(nb, vx, noPool))
  {
    var nb := Levels.NbLevels(shape, maxLoad, maxLevels, noPool).value;
    var specs := LevelSpecs(shape, nb, noPool, chunk);
    var shapes: seq<seq<int>> := seq(|specs|, l requires 0 <= l < |specs| => specs[l].shape);
    Multiscale.FixedIsNumericPolicy(shapes, vx, noPool);
    var r := Multiscale.WriteOmeMetadata(shapes, ["z", "y", "x"], vx, 1.0, Multiscale.FixedAligns(noPool));
    assert r.value == Metadata(nb, vx, noPool);
  }

  // ---------------------------------------------------------------------------
  // The run: tile sizes, level count, and what reaches level 0

  /** What a run leaves behind: array "0" if it was created, and the exception that
      ended the run, if any. */
  datatype Outcome = Outcome(level0: Option<Block>, raised: Option<Error>)

  /** The level count, preceded by the tile counts `ceildiv(x, min(x, max_load))`,
      which divide by zero when an extent or max_load is 0. */
  function Start(inp: Block, maxLoad: int, maxLevels: int, noPool: Option<int>): Result<int>
  {
    if Min(inp.d0, maxLoad) == 0 || Min(inp.d1, maxLoad) == 0 || Min(inp.d2, maxLoad) == 0 then Err(DivisionByZero)
    else Levels.NbLevels([inp.d0, inp.d1, inp.d2], maxLoad, maxLevels, noPool)
  }

  /** The script as written: after the first tile is stored into level 0, the loop
      reads `level_chunk.shape` although level_chunk is a list, and the run ends in
      an AttributeError with only that tile copied. */
  function RunAsWritten(inp: Block, maxLoad: int, maxLevels: int, noPool: Option<int>, fill: int): Outcome
  {
    match Start(inp, maxLoad, maxLevels, noPool)
    case Err(e) => Outcome(None, Some(e))
    case Ok(nb) =>
      if nb <= 0 then Outcome(None, None)
      else
        var c := (Stacking.CopyChunk(inp.d0, maxLoad), Stacking.CopyChunk(inp.d1, maxLoad), Stacking.CopyChunk(inp.d2, maxLoad));
        var first := Store.Overlay((p: Idx3) => fill, Stacking.CopyWrite(inp, c, Pyramid.Tile(0, 0, 0)));
        Outcome(Some(Block(inp.d0, inp.d1, inp.d2, first)), Some(Attribute))
  }

  /** The script with its two evident fixes, `loaded_chunk.shape` in the crop and
      `loaded_chunk` instead of the list `inp_chunk` in the 2x2x2 mean for no_pool
      None: every tile is copied into level 0. Only level 0 is modelled; the pooled
      levels the loop goes on to write are not. */
  function Run(inp: Block, maxLoad: int, maxLevels: int, noPool: Option<int>, fill: int): Outcome
  {
    match Start(inp, maxLoad, maxLevels, noPool)
    case Err(e) => Outcome(None, Some(e))
    case Ok(nb) =>
      if nb <= 0 then Outcome(None, None)
      else
        assert maxLoad >= 1 && inp.d0 >= 1 && inp.d1 >= 1 && inp.d2 >= 1;
        Outcome(Some(Stacking.CopyLevel0(inp, maxLoad, fill)), None)
  }

  /** The fixed run fails exactly on a zero extent or max_load (division by zero)
      or a negative max_load (log2 domain error); otherwise it creates level 0
      exactly when nblevels >= 1, and level 0 then holds the input voxel for voxel. */
  lemma RunSpec(inp: Block, maxLoad: int, maxLevels: int, noPool: Option<int>, fill: int)
    ensures var o := Run(inp, maxLoad, maxLevels, noPool, fill);
      && (o.raised == Some(DivisionByZero) <==>
           maxLoad == 0 || (maxLoad > 0 && (inp.d0 == 0 || inp.d1 == 0 || inp.d2 == 0)))
      && (o.raised.None? <==> maxLoad >= 1 && inp.d0 >= 1 && inp.d1 >= 1 && inp.d2 >= 1)
      && (o.raised.None? ==>
           (o.level0.Some? <==> Levels.NbLevels([inp.d0, inp.d1, inp.d2], maxLoad, maxLevels, noPool).value >= 1))
      && (o.level0.Some? ==> Pyramid.SameBlock(o.level0.value, inp))
  {
    var o := Run(inp, maxLoad, maxLevels, noPool, fill);
    var shape: seq<nat> := [inp.d0, inp.d1, inp.d2];
    Levels.NbLevelsIsMin(shape, maxLoad, maxLevels, noPool);
    if maxLoad < 0 {
      assert Levels.NbLevels(shape, maxLoad, maxLevels, noPool) == Err(MathDomain);
    }
    if o.level0.Some? {
      Stacking.Level0Copy(inp, maxLoad, fill);
    }
  }

  /** As written the script never finishes once a level exists: a 4x4x4 volume of
      ones with max_load 2 gets one level, the run raises AttributeError, and voxel
      (3, 3, 3) of level 0 still holds the fill value 0. */
  lemma RunAsWrittenStops()
    ensures var inp := Block(4, 4, 4, (p: Idx3) => 1);
      var o := RunAsWritten(inp, 2, 5, None, 0);
      && Levels.NbLevels([4, 4, 4], 2, 5, None) == Ok(1)
      && o.raised == Some(Attribute)
      && o.level0.Some? && o.level0.value.at((3, 3, 3)) == 0 != inp.at((3, 3, 3))
      && Run(inp, 2, 5, None, 0).raised.None?
  {
    var shape: seq<nat> := [4, 4, 4];
    Levels.NbLevelsIsMin(shape, 2, 5, None);
    assert CeilLog2(2) == 1 by {
      assert CeilLog2(1) == 0;
    }
    assert CeilLog2(4) == 2 by {
      assert CeilLog2(2) == 1 by { assert CeilLog2(1) == 0; }
    }
    var nb := Levels.NbLevels(shape, 2, 5, None).value;
    assert nb <= 1;
    assert nb == 1;
    var inp := Block(4, 4, 4, (p: Idx3) => 1);
    assert Start(inp, 2, 5, None) == Ok(1);
    RunAsWrittenFirstTile(inp, 2, 5, None, 0, (3, 3, 3));
  }

  /** The first tile alone is what reaches level 0 as written: it agrees with the
      intended level 0 inside tile (0, 0, 0) and holds the fill value elsewhere. */
  lemma RunAsWrittenFirstTile(inp: Block, maxLoad: int, maxLevels: int, noPool: Option<int>, fill: int, a: Idx3)
    requires RunAsWritten(inp, maxLoad, maxLevels, noPool, fill).level0.Some?
    requires InBlock(inp, a)
    ensures var o := RunAsWritten(inp, maxLoad, maxLevels, noPool, fill);
      && o.raised == Some(Attribute)
      && Run(inp, maxLoad, maxLevels, noPool, fill).raised.None?
      && o.level0.value.at(a) == (if a.0 < Min(inp.d0, maxLoad) && a.1 < Min(inp.d1, maxLoad) && a.2 < Min(inp.d2, maxLoad)
                                  then inp.at(a) else fill)
  {
    RunSpec(inp, maxLoad, maxLevels, noPool, fill);
    FirstTileCovers(inp, maxLoad, a);
  }

  /** The first copy tile covers exactly the voxels below min(extent, max_load) on
      every axis, and stores the input there. */
  lemma FirstTileCovers(inp: Block, maxLoad: int, a: Idx3)
    requires maxLoad >= 0
    ensures var w := Stacking.CopyWrite(inp, (Stacking.CopyChunk(inp.d0, maxLoad), Stacking.CopyChunk(inp.d1, maxLoad),
                                              Stacking.CopyChunk(inp.d2, maxLoad)), Pyramid.Tile(0, 0, 0));
      && (w.covers(a) <==> 0 <= a.0 < Min(inp.d0, maxLoad) && 0 <= a.1 < Min(inp.d1, maxLoad) && 0 <= a.2 < Min(inp.d2, maxLoad))
      && w.value(a) == inp.at(a)
  {
  }

  // ---------------------------------------------------------------------------
  // The .mat array

  /** `mapmat`: the first key of the file, with a warning when there are several;
      a file without keys fails on `keys[0]`. */
  function MapMatKey(keys: seq<string>): (r: Result<Stacking.KeyChoice>)
    ensures r.Ok? <==> |keys| >= 1
    ensures r.Ok? ==> r.value.key == keys[0] && (r.value.warned <==> |keys| > 1)
    ensures r.Ok? && (forall i, j :: 0 <= i < j < |keys| ==> keys[i] != keys[j]) ==>
      (r.value.warned <==> exists k :: k in keys && k != r.value.key)
  {
    if |keys| == 0 then Err(Index)
    else if |keys| == 1 then Ok(Stacking.KeyChoice(keys[0], false))
    else
      assert keys[1] in keys;
      Ok(Stacking.KeyChoice(keys[0], true))
  }
}
