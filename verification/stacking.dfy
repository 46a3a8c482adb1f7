/** The PS-OCT stacking converter: the tiled copy of the input into level 0, the
    level count, the pyramid call, the inline multiscale metadata, and the choice of
    the array key in the input .mat files. */
module Stacking {
  import opened Arith
  import opened Errors
  import Tiles
  import opened Window
  import Store
  import Pyramid
  import Levels
  import Multiscale

  // ---------------------------------------------------------------------------
  // Level 0: the input copied tile by tile

  /** The copy tile size on one axis: min(extent, max_load). */
  function CopyChunk(n: nat, maxLoad: int): int { Min(n, maxLoad) }

  /** The write of copy tile (i, j, k), i running along the last axis and k along the
      first: the loaded block `inp[k*c0:(k+1)*c0, ...]`, clipped at the array end,
      stored at the same offsets. */
  function CopyWrite(inp: Block, c: (nat, nat, nat), t: Pyramid.Tile): Store.Write<Idx3>
  {
    Store.Write(
      (p: Idx3) => Tiles.InTile(p.0, t.i2, c.0, inp.d0) && Tiles.InTile(p.1, t.i1, c.1, inp.d1)
                   && Tiles.InTile(p.2, t.i0, c.2, inp.d2),
      inp.at)
  }

  /** The tiles in the order the copy loop visits them: `product(range(ni),
      range(nj), range(nk))`. */
  function CopyTiles(inp: Block, c: (nat, nat, nat)): seq<Pyramid.Tile>
    requires c.0 > 0 && c.1 > 0 && c.2 > 0
  {
    Pyramid.Grid(Tiles.Count(inp.d2, c.2), Tiles.Count(inp.d1, c.1), Tiles.Count(inp.d0, c.0))
  }

  /** Dataset "0" after the copy loop, starting from the fill value. */
  function CopyLevel0(inp: Block, maxLoad: int, fill: int): Block
    requires maxLoad >= 1 && inp.d0 >= 1 && inp.d1 >= 1 && inp.d2 >= 1
  {
    var c := (CopyChunk(inp.d0, maxLoad), CopyChunk(inp.d1, maxLoad), CopyChunk(inp.d2, maxLoad));
    var grid := CopyTiles(inp, c);
    Block(inp.d0, inp.d1, inp.d2,
      Store.Apply((p: Idx3) => fill, seq(|grid|, k requires 0 <= k < |grid| => CopyWrite(inp, c, grid[k]))))
  }

  /** The tiled copy is exact: level 0 has the input's shape and every voxel holds
      the input's value, whatever max_load is. */
  lemma Level0Copy(inp: Block, maxLoad: int, fill: int)
    requires maxLoad >= 1 && inp.d0 >= 1 && inp.d1 >= 1 && inp.d2 >= 1
    ensures Pyramid.SameBlock(CopyLevel0(inp, maxLoad, fill), inp)
  {
    var c := (CopyChunk(inp.d0, maxLoad), CopyChunk(inp.d1, maxLoad), CopyChunk(inp.d2, maxLoad));
    var grid := CopyTiles(inp, c);
    var ws := seq(|grid|, k requires 0 <= k < |grid| => CopyWrite(inp, c, grid[k]));
    var out := CopyLevel0(inp, maxLoad, fill);
    assert out.at == Store.Apply((p: Idx3) => fill, ws);
    forall a | InBlock(out, a)
      ensures out.at(a) == inp.at(a)
    {
      Tiles.Partition(inp.d0, c.0, a.0);
      Tiles.Partition(inp.d1, c.1, a.1);
      Tiles.Partition(inp.d2, c.2, a.2);
      var t := Pyramid.Tile(a.2 / c.2, a.1 / c.1, a.0 / c.0);
      Pyramid.GridMembers(Tiles.Count(inp.d2, c.2), Tiles.Count(inp.d1, c.1), Tiles.Count(inp.d0, c.0), t);
      var k :| 0 <= k < |grid| && grid[k] == t;
      assert ws[k].covers(a);
      Store.ApplyAgreed((p: Idx3) => fill, ws, a, inp.at(a));
    }
  }

  // ---------------------------------------------------------------------------
  // The converter

  /** What the converter leaves in the group: the levels, their shapes, and the
      datasets listed in the multiscale metadata. */
  datatype Converted = Converted(levels: seq<Block>, shapes: seq<Pyramid.Shape>, datasets: seq<Multiscale.Transform>)

  /** The pyramid is generated with generate_pyramid's own default max_load. */
  const PyramidMaxLoad: nat := 512

  /** convert on an in-memory 3-D input with voxel size vx: ceildiv by a zero copy
      tile fails first, then the level count; level 0 is the tiled copy, the
      nblevels - 1 further levels are mean pyramids, and the metadata lists one
      dataset per created level. The source lists `range(nblevels)` datasets, which
      is empty when nblevels <= 0 although level 0 always exists; this definition
      lists max(nblevels, 1). Its pyramid skips a tile whose write region is empty,
      where the source raises (ConvertAsWrittenRaises). */
  function Convert(inp: Block, maxLoad: int, maxLevels: int, noPool: Option<int>, chunk: nat, vx: seq<real>, fill: int)
    : Result<Converted>
    requires chunk >= 1 && |vx| >= 3
  {
    var shape := [inp.d0, inp.d1, inp.d2];
    if CopyChunk(inp.d0, maxLoad) == 0 || CopyChunk(inp.d1, maxLoad) == 0 || CopyChunk(inp.d2, maxLoad) == 0 then
      Err(DivisionByZero)
    else
      var nb :- Levels.NbLevels(shape, maxLoad, maxLevels, noPool);
      Levels.NbLevelsIsMin(shape, maxLoad, maxLevels, noPool);
      var pyr :- Levels0To(inp, maxLoad, nb, chunk, fill);
      Ok(Converted(pyr.1, pyr.0, Multiscale.FixedTransforms(Max(nb, 1), vx, noPool)))
  }

  /** Level 0 by the tiled copy, then `generate_pyramid(omz, nblevels - 1,
      mode="mean")`. */
  function Levels0To(inp: Block, maxLoad: int, nb: int, chunk: nat, fill: int)
    : Result<(seq<Pyramid.Shape>, seq<Block>)>
    requires maxLoad >= 1 && inp.d0 >= 1 && inp.d1 >= 1 && inp.d2 >= 1 && chunk >= 1
  {
    var level0 := CopyLevel0(inp, maxLoad, fill);
    var chunk0 := [Min(inp.d0, chunk), Min(inp.d1, chunk), Min(inp.d2, chunk)];
    Pyramid.GeneratePyramid(level0, chunk0, Some(nb - 1), PyramidMaxLoad, Mean, fill)
  }

  /** The pyramid call, with empty-region tiles skipped, never fails on a copied
      level 0: it returns max(nb, 1) shapes
      and levels, level 0 being the input and each further level the one-shot mean
      of the one before. */
  lemma Levels0ToSpec(inp: Block, maxLoad: int, nb: int, chunk: nat, fill: int)
    requires maxLoad >= 1 && inp.d0 >= 1 && inp.d1 >= 1 && inp.d2 >= 1 && chunk >= 1
    ensures Levels0To(inp, maxLoad, nb, chunk, fill).Ok?
    ensures var (shapes, levels) := Levels0To(inp, maxLoad, nb, chunk, fill).value;
      && |levels| == |shapes| == Max(nb, 1)
      && Pyramid.SameBlock(levels[0], inp)
      && shapes[0] == [inp.d0, inp.d1, inp.d2]
      && (forall k :: 0 <= k < |levels| ==> Pyramid.ShapeOf(levels[k]) == shapes[k])
      && (forall k :: 0 <= k < |levels| - 1 ==>
            shapes[k + 1] == Pyramid.Halve(shapes[k]) &&
            Pyramid.SameBlock(levels[k + 1], Downsample(levels[k], Mean)))
  {
    var shape := [inp.d0, inp.d1, inp.d2];
    var level0 := CopyLevel0(inp, maxLoad, fill);
    var chunk0 := [Min(inp.d0, chunk), Min(inp.d1, chunk), Min(inp.d2, chunk)];
    assert Pyramid.ShapeOf(level0) == shape;
    Pyramid.PyramidIsOneShot(level0, chunk0, Some(nb - 1), PyramidMaxLoad, Mean, fill);
    Pyramid.LevelShapesSchedule(shape, chunk0, Some(nb - 1));
    Level0Copy(inp, maxLoad, fill);
  }

  /** convert fails exactly when a copy tile is empty (a zero extent or a zero
      max_load: ZeroDivisionError) or max_load is negative (math domain error); the
      division error comes first. */
  lemma ConvertErrors(inp: Block, maxLoad: int, maxLevels: int, noPool: Option<int>, chunk: nat, vx: seq<real>, fill: int)
    requires chunk >= 1 && |vx| >= 3
    ensures var r := Convert(inp, maxLoad, maxLevels, noPool, chunk, vx, fill);
      && (r.Ok? <==> inp.d0 >= 1 && inp.d1 >= 1 && inp.d2 >= 1 && maxLoad >= 1)
      && (r == Err(DivisionByZero) <==> maxLoad == 0 || (maxLoad > 0 && (inp.d0 == 0 || inp.d1 == 0 || inp.d2 == 0)))
      && (r.Err? ==> r.error == DivisionByZero || r.error == MathDomain)
  {
    var shape := [inp.d0, inp.d1, inp.d2];
    Levels.NbLevelsIsMin(shape, maxLoad, maxLevels, noPool);
    if inp.d0 >= 1 && inp.d1 >= 1 && inp.d2 >= 1 && maxLoad >= 1 {
      var nb := Levels.NbLevels(shape, maxLoad, maxLevels, noPool).value;
      Levels0ToSpec(inp, maxLoad, nb, chunk, fill);
    } else if maxLoad < 0 {
      assert Levels.Pooled(noPool, 0) || Levels.Pooled(noPool, 1);
    }
  }

  /** A successful convert leaves level 0 equal to the input, every further level the
      one-shot 2x2x2 mean of the one before (shapes halved with a floor of 1),
      max(nblevels, 1) levels in all, and one listed dataset per level: dataset n
      scales by 2^n (1 on the no_pool axis) and is shifted by (scale - voxel) / 2. */
  lemma ConvertSpec(inp: Block, maxLoad: int, maxLevels: int, noPool: Option<int>, chunk: nat, vx: seq<real>, fill: int)
    requires chunk >= 1 && |vx| >= 3
    requires Convert(inp, maxLoad, maxLevels, noPool, chunk, vx, fill).Ok?
    ensures Levels.NbLevels([inp.d0, inp.d1, inp.d2], maxLoad, maxLevels, noPool).Ok?
    ensures var nb := Levels.NbLevels([inp.d0, inp.d1, inp.d2], maxLoad, maxLevels, noPool).value;
      var c := Convert(inp, maxLoad, maxLevels, noPool, chunk, vx, fill).value;
      && |c.levels| == |c.shapes| == |c.datasets| == Max(nb, 1)
      && Pyramid.SameBlock(c.levels[0], inp)
      && c.shapes[0] == [inp.d0, inp.d1, inp.d2]
      && (forall k :: 0 <= k < |c.levels| ==> Pyramid.ShapeOf(c.levels[k]) == c.shapes[k])
      && (forall k :: 0 <= k < |c.levels| - 1 ==>
            c.shapes[k + 1] == Pyramid.Halve(c.shapes[k]) &&
            Pyramid.SameBlock(c.levels[k + 1], Downsample(c.levels[k], Mean)))
      && (forall n :: 0 <= n < |c.datasets| ==> c.datasets[n] == Multiscale.FixedTransform(n, vx, noPool))
  {
    var shape := [inp.d0, inp.d1, inp.d2];
    ConvertErrors(inp, maxLoad, maxLevels, noPool, chunk, vx, fill);
    Levels.NbLevelsIsMin(shape, maxLoad, maxLevels, noPool);
    var nb := Levels.NbLevels(shape, maxLoad, maxLevels, noPool).value;
    Levels0ToSpec(inp, maxLoad, nb, chunk, fill);
  }

  /** As written, convert raises while building level 1 whenever some axis of the
      input is stray for generate_pyramid's max_load (one more than a multiple of
      512, above 512) and nblevels asks for a level beyond the copy: an input of
      shape (513, 64, 64) with the default max_load 128 and max_levels 5 is one.
      The convert defined above, whose pyramid skips the empty region, succeeds. */
  lemma ConvertAsWrittenRaises(inp: Block, maxLoad: int, maxLevels: int, chunk: nat, vx: seq<real>, fill: int)
    requires inp.d0 >= 3 && inp.d1 >= 3 && inp.d2 >= 3 && maxLoad >= 3 && maxLevels >= 2
    requires Pyramid.StrayAxis(inp.d0, PyramidMaxLoad) || Pyramid.StrayAxis(inp.d1, PyramidMaxLoad)
             || Pyramid.StrayAxis(inp.d2, PyramidMaxLoad)
    requires chunk >= 1 && |vx| >= 3
    ensures Levels.NbLevels([inp.d0, inp.d1, inp.d2], maxLoad, maxLevels, None).Ok?
    ensures Levels.NbLevels([inp.d0, inp.d1, inp.d2], maxLoad, maxLevels, None).value >= 2
    ensures Pyramid.BuildLevelAsWritten(CopyLevel0(inp, maxLoad, fill), PyramidMaxLoad, Mean, fill) == Err(ShapeMismatch)
    ensures Convert(inp, maxLoad, maxLevels, None, chunk, vx, fill).Ok?
  {
    Levels.NbLevelsAtLeastTwo([inp.d0, inp.d1, inp.d2], maxLoad, maxLevels, None);
    Pyramid.AsWrittenLevel(CopyLevel0(inp, maxLoad, fill), PyramidMaxLoad, Mean, fill);
    ConvertErrors(inp, maxLoad, maxLevels, None, chunk, vx, fill);
  }

  // ---------------------------------------------------------------------------
  // Metadata as written

  /** The datasets the source lists, `range(nblevels)`, against the levels it
      creates, level 0 plus `nblevels - 1` pyramid levels: a single slice of shape
      (1, 64, 64) gets nblevels = 0 and an empty dataset list for its one level. */
  lemma ListedAsWrittenMissesLevel0()
    ensures Levels.NbLevels([1, 64, 64], 512, 5, None) == Ok(0)
    ensures |Multiscale.FixedTransforms(0, [1.0, 1.0, 1.0], None)| == 0
    ensures |Pyramid.LevelShapes([1, 64, 64], [1, 64, 64], Some(0 - 1))| == 1
  {
    Levels.NbLevelsUnitAxis([1, 64, 64], 512, 5, None);
    Pyramid.LevelShapesSchedule([1, 64, 64], [1, 64, 64], Some(-1));
  }

  /** When nblevels >= 1 the as-written dataset list already has one entry per level. */
  lemma ListedAsWrittenAgrees(nb: int, vx: seq<real>, noPool: Option<int>, base: Pyramid.Shape, chunk: Pyramid.Shape)
    requires nb >= 1 && |vx| >= 3 && Pyramid.ChunkOk(chunk, base)
    ensures |Multiscale.FixedTransforms(nb, vx, noPool)| == |Pyramid.LevelShapes(base, chunk, Some(nb - 1))|
  {
    Pyramid.LevelShapesSchedule(base, chunk, Some(nb - 1));
  }

  // ---------------------------------------------------------------------------
  // Key choice across the input .mat files

  /** The key used for every file, and whether a warning was issued. */
  datatype KeyChoice = KeyChoice(key: string, warned: bool)

  /** The first file (by index) from i on that lacks the key, if any. */
  function MissingFrom(files: seq<seq<string>>, key: string, i: nat): (r: Option<nat>)
    decreases |files| - i
    ensures r.Some? ==> i <= r.value < |files| && key !in files[r.value]
    ensures r.Some? ==> forall j :: i <= j < r.value ==> key in files[j]
    ensures r.None? ==> forall j :: i <= j < |files| ==> key in files[j]
  {
    if i >= |files| then None
    else if key !in files[i] then Some(i)
    else MissingFrom(files, key, i + 1)
  }

  /** mapmat's key decision over the key lists of the input files, in order. With no
      key given, the first key of the first file is taken (a warning if it has more
      than one) and reused for the later files; every file must contain the key.
      With no file at all the final np.stack has nothing to stack. */
  function ChooseKey(files: seq<seq<string>>, key: Option<string>): Result<KeyChoice>
  {
    if |files| == 0 then Err(NoInput)
    else if key.None? && |files[0]| == 0 then Err(EmptyFile(0))
    else
      var k := if key.Some? then key.value else files[0][0];
      var w := key.None? && |files[0]| > 1;
      match MissingFrom(files, k, 0)
      case Some(i) => Err(KeyNotFound(i))
      case None => Ok(KeyChoice(k, w))
  }

  /** The choice succeeds exactly when there is a file, the first file has a key if
      none was given, and the chosen key is in every file; the chosen key is the
      given one, or else the first file's first key; the warning is issued exactly
      when no key was given and the first file has several. */
  lemma ChooseKeySpec(files: seq<seq<string>>, key: Option<string>)
    ensures var r := ChooseKey(files, key);
      && (r.Ok? <==>
            |files| >= 1 && (key.None? ==> |files[0]| >= 1) &&
            var k := if key.Some? then key.value else files[0][0];
            forall i :: 0 <= i < |files| ==> k in files[i])
      && (r.Ok? ==> r.value.key == (if key.Some? then key.value else files[0][0]))
      && (r.Ok? ==> (r.value.warned <==> key.None? && |files[0]| > 1))
      && (r.Ok? ==> forall i :: 0 <= i < |files| ==> r.value.key in files[i])
  {
    if |files| >= 1 && (key.None? ==> |files[0]| >= 1) {
      var k := if key.Some? then key.value else files[0][0];
      var m := MissingFrom(files, k, 0);
    }
  }

  /** A KeyNotFound error names the first file lacking the key. */
  lemma ChooseKeyNotFound(files: seq<seq<string>>, key: Option<string>, i: nat)
    requires ChooseKey(files, key) == Err(KeyNotFound(i))
    ensures i < |files| && (key.None? ==> |files[0]| >= 1)
    ensures var k := if key.Some? then key.value else files[0][0];
      k !in files[i] && forall j :: 0 <= j < i ==> k in files[j]
  {
  }
}
