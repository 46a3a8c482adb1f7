/** The OME-NGFF 0.4 "multiscales" coordinate transforms: the general builder
    `write_ome_metadata`, with its numeric, edge and center alignment policies, and
    the fixed power-of-two rule the stacking and OCT converters write inline. Scales
    are exact reals. */
module Multiscale {
  import opened Arith
  import opened Errors

  /** One dataset's transforms, one entry per axis in array order. */
  datatype Transform = Transform(scale: seq<real>, translation: seq<real>)

  /** What the metadata builder returns: the per-level transforms and the top-level
      scale. */
  datatype Ome = Ome(datasets: seq<Transform>, topScale: seq<real>)

  // ---------------------------------------------------------------------------
  // Axes

  datatype Kind = Space | Time | Channel

  /** The axis-name to axis-type table; any other name is a KeyError. */
  function KindOf(axis: string): Option<Kind>
  {
    if |axis| != 1 then None
    else if axis[0] == 'x' || axis[0] == 'y' || axis[0] == 'z' then Some(Space)
    else if axis[0] == 't' then Some(Time)
    else if axis[0] == 'c' then Some(Channel)
    else None
  }

  /** The type of every axis, or the KeyError of the first unknown name. */
  function Kinds(axes: seq<string>): Result<seq<Kind>>
  {
    if forall i :: 0 <= i < |axes| ==> KindOf(axes[i]).Some?
    then Ok(seq(|axes|, i requires 0 <= i < |axes| => KindOf(axes[i]).value))
    else Err(UnknownAxis)
  }

  function SpaceCount(ks: seq<Kind>): (r: nat)
    ensures r <= |ks|
  {
    if |ks| == 0 then 0 else (if ks[0] == Space then 1 else 0) + SpaceCount(ks[1..])
  }

  function Repeat<T>(x: T, k: nat): (r: seq<T>)
    ensures |r| == k && forall i :: 0 <= i < k ==> r[i] == x
  {
    seq(k, _ => x)
  }

  /** Left-pad a list with copies of its first element up to k entries, then keep the
      last k. Python's `xs[-0:]` is the whole list, and an empty list stays empty. */
  function PadLeft<T>(xs: seq<T>, k: nat): seq<T>
  {
    var padded := if 0 < |xs| < k then Repeat(xs[0], k - |xs|) + xs else xs;
    if k == 0 || |padded| < k then padded else padded[|padded| - k..]
  }

  /** A non-empty list padded to k >= 1 entries has exactly k: the first element
      repeated in front, then the list's last entries, in order. */
  lemma PadLeftSpec<T>(xs: seq<T>, k: nat)
    requires |xs| >= 1 && k >= 1
    ensures |PadLeft(xs, k)| == k
    ensures forall i :: 0 <= i < k ==>
      PadLeft(xs, k)[i] == (if i < k - |xs| then xs[0] else xs[|xs| - k + i])
  {
  }

  // ---------------------------------------------------------------------------
  // Alignment policies

  /** An entry of pyramid_aligns: a number, or a string whose first letter selects
      "edge" (e or E) and otherwise "center". */
  datatype Align = Factor(f: real) | Named(name: string)

  predicate IsEdge(a: Align)
  {
    a.Named? && |a.name| >= 1 && (a.name[0] == 'e' || a.name[0] == 'E')
  }

  predicate IsCenter(a: Align)
  {
    a.Named? && |a.name| >= 1 && !IsEdge(a)
  }

  /** The scale and translation of one axis. */
  datatype Entry = Entry(scale: real, translation: real)

  /** The factor between level n's voxel size and the level-0 one on spatial axis i,
      whose extent sits at index j of the shapes: f^n for a number, shape0/shape for
      edge, (shape0 - 1)/(shape - 1) for center. An empty string, a shape too short,
      and a zero denominator raise. */
  function AxisRatio(a: Align, n: nat, shape0: seq<int>, shape: seq<int>, j: nat): Result<real>
  {
    match a
    case Factor(f) => Ok(RealPow(f, n))
    case Named(s) =>
      if |s| == 0 || j >= |shape0| || j >= |shape| then Err(Index)
      else if IsEdge(a) then
        (if shape[j] == 0 then Err(DivisionByZero) else Ok(shape0[j] as real / shape[j] as real))
      else
        (if shape[j] - 1 == 0 then Err(DivisionByZero) else Ok((shape0[j] - 1) as real / (shape[j] - 1) as real))
  }

  /** Scale and translation of spatial axis i at level n, or the error Python raises
      while computing them; a missing alignment or voxel size is an IndexError. */
  function AxisTransform(al: seq<Align>, vxs: seq<real>, shape0: seq<int>, shape: seq<int>, bdim: nat, i: nat, n: nat)
    : Result<Entry>
  {
    if i >= |al| then Err(Index)
    else
      match AxisRatio(al[i], n, shape0, shape, bdim + i)
      case Err(e) => Err(e)
      case Ok(ratio) =>
        if i >= |vxs| then Err(Index)
        else Ok(Entry(ratio * vxs[i], if IsCenter(al[i]) then 0.0 else (ratio - 1.0) * 0.5 * vxs[i]))
  }

  /** The spatial axes 0 .. k-1 of one level, the first failing axis deciding the
      error. */
  function SpatialTransforms(al: seq<Align>, vxs: seq<real>, shape0: seq<int>, shape: seq<int>, bdim: nat, n: nat, k: nat)
    : (r: Result<seq<Entry>>)
    ensures r.Ok? ==> |r.value| == k
  {
    if k == 0 then Ok([])
    else
      match SpatialTransforms(al, vxs, shape0, shape, bdim, n, k - 1)
      case Err(e) => Err(e)
      case Ok(init) =>
        match AxisTransform(al, vxs, shape0, shape, bdim, k - 1, n)
        case Err(e) => Err(e)
        case Ok(last) => Ok(init + [last])
  }

  /** A level's spatial entries are the per-axis entries, and an error is the error
      of some axis. */
  lemma {:induction false} SpatialTransformsSpec(al: seq<Align>, vxs: seq<real>, shape0: seq<int>, shape: seq<int>, bdim: nat, n: nat, k: nat)
    ensures var r := SpatialTransforms(al, vxs, shape0, shape, bdim, n, k);
      r.Ok? ==> forall i :: 0 <= i < k ==> AxisTransform(al, vxs, shape0, shape, bdim, i, n) == Ok(r.value[i])
    ensures var r := SpatialTransforms(al, vxs, shape0, shape, bdim, n, k);
      r.Err? ==> exists i :: 0 <= i < k && AxisTransform(al, vxs, shape0, shape, bdim, i, n) == Err(r.error)
  {
    if k > 0 {
      SpatialTransformsSpec(al, vxs, shape0, shape, bdim, n, k - 1);
    }
  }

  /** Level n: ones and zeros on the leading batch axes, then the spatial axes. */
  function LevelTransform(al: seq<Align>, vxs: seq<real>, shape0: seq<int>, shape: seq<int>, bdim: nat, sdim: nat, n: nat)
    : Result<Transform>
  {
    match SpatialTransforms(al, vxs, shape0, shape, bdim, n, sdim)
    case Err(e) => Err(e)
    case Ok(sp) =>
      Ok(Transform(Repeat(1.0, bdim) + seq(sdim, i requires 0 <= i < sdim => sp[i].scale),
                   Repeat(0.0, bdim) + seq(sdim, i requires 0 <= i < sdim => sp[i].translation)))
  }

  /** Levels 0 .. count-1, in order. */
  function Datasets(shapes: seq<seq<int>>, al: seq<Align>, vxs: seq<real>, bdim: nat, sdim: nat, count: nat)
    : (r: Result<seq<Transform>>)
    requires 1 <= |shapes| && count <= |shapes|
    ensures r.Ok? ==> |r.value| == count
  {
    if count == 0 then Ok([])
    else
      match Datasets(shapes, al, vxs, bdim, sdim, count - 1)
      case Err(e) => Err(e)
      case Ok(init) =>
        match LevelTransform(al, vxs, shapes[0], shapes[count - 1], bdim, sdim, count - 1)
        case Err(e) => Err(e)
        case Ok(last) => Ok(init + [last])
  }

  /** One transform per level in order, or the error of some level. */
  lemma {:induction false} DatasetsSpec(shapes: seq<seq<int>>, al: seq<Align>, vxs: seq<real>, bdim: nat, sdim: nat, count: nat)
    requires 1 <= |shapes| && count <= |shapes|
    ensures var r := Datasets(shapes, al, vxs, bdim, sdim, count);
      r.Ok? ==> forall n :: 0 <= n < count ==> LevelTransform(al, vxs, shapes[0], shapes[n], bdim, sdim, n) == Ok(r.value[n])
    ensures var r := Datasets(shapes, al, vxs, bdim, sdim, count);
      r.Err? ==> exists n :: 0 <= n < count && LevelTransform(al, vxs, shapes[0], shapes[n], bdim, sdim, n) == Err(r.error)
  {
    if count > 0 {
      DatasetsSpec(shapes, al, vxs, bdim, sdim, count - 1);
    }
  }

  function IndexOf(axes: seq<string>, name: string): (r: nat)
    requires name in axes
    ensures r < |axes| && axes[r] == name && forall i :: 0 <= i < r ==> axes[i] != name
  {
    if axes[0] == name then 0 else 1 + IndexOf(axes[1..], name)
  }

  /** The top-level scale: one per axis, time_scale on the first "t" axis. */
  function TopScale(axes: seq<string>, timeScale: real): seq<real>
  {
    var s := Repeat(1.0, |axes|);
    if "t" in axes then s[IndexOf(axes, "t") := timeScale] else s
  }

  /** write_ome_metadata on the level shapes already read from the store. A single
      alignment or voxel size is passed as a one-element list. */
  function WriteOmeMetadata(shapes: seq<seq<int>>, axes: seq<string>, spaceScale: seq<real>, timeScale: real,
                            aligns: seq<Align>): Result<Ome>
  {
    match Kinds(axes)
    case Err(e) => Err(e)
    case Ok(ks) =>
      var sdim := SpaceCount(ks);
      if |shapes| == 0 then Err(Index)
      else
        match Datasets(shapes, PadLeft(aligns, sdim), PadLeft(spaceScale, sdim), |axes| - sdim, sdim, |shapes|)
        case Err(e) => Err(e)
        case Ok(ds) => Ok(Ome(ds, TopScale(axes, timeScale)))
  }

  // ---------------------------------------------------------------------------
  // Properties of the builder

  /** The number of spatial axes, as the builder counts them. */
  function SpatialRank(axes: seq<string>): nat
    requires forall i :: 0 <= i < |axes| ==> KindOf(axes[i]).Some?
  {
    SpaceCount(Kinds(axes).value)
  }

  /** What one spatial axis of one level promises: level 0 is the voxel size with no
      shift; a numeric factor f gives f^n times the voxel size; an edge axis keeps
      scale times extent equal to the level-0 field of view; a center axis keeps the
      span between the first and last voxel centers; and the translation is
      (scale - voxel) / 2, except for center, where it is zero. */
  ghost predicate AxisPromise(a: Align, vx: real, shape0: seq<int>, shape: seq<int>, j: nat, n: nat,
                              scale: real, translation: real)
  {
    && (n == 0 ==> scale == vx && translation == 0.0)
    && (a.Factor? ==> scale == RealPow(a.f, n) * vx)
    && (a.Named? ==> j < |shape0| && j < |shape|)
    && (IsEdge(a) && j < |shape0| && j < |shape| ==> scale * shape[j] as real == shape0[j] as real * vx)
    && (IsCenter(a) && j < |shape0| && j < |shape| ==> scale * (shape[j] - 1) as real == (shape0[j] - 1) as real * vx)
    && translation == (if IsCenter(a) then 0.0 else (scale - vx) / 2.0)
  }

  lemma {:induction false} AxisTransformPromise(al: seq<Align>, vxs: seq<real>, shape0: seq<int>, shape: seq<int>, bdim: nat, i: nat, n: nat)
    requires n == 0 ==> shape == shape0
    requires AxisTransform(al, vxs, shape0, shape, bdim, i, n).Ok?
    ensures i < |al| && i < |vxs|
    ensures var e := AxisTransform(al, vxs, shape0, shape, bdim, i, n).value;
      AxisPromise(al[i], vxs[i], shape0, shape, bdim + i, n, e.scale, e.translation)
  {
    var a := al[i];
    var s := AxisTransform(al, vxs, shape0, shape, bdim, i, n).value.scale;
    var vx := vxs[i];
    if a.Named? {
      var e0, e := shape0[bdim + i] as real, shape[bdim + i] as real;
      if IsEdge(a) {
        assert s == e0 / e * vx;
      } else {
        assert s == (e0 - 1.0) / (e - 1.0) * vx;
      }
    }
  }

  /** One dataset keeps its promises: one scale and one translation per axis, (1, 0)
      on the batch axes, and AxisPromise on every spatial axis with its padded
      alignment and voxel size. */
  ghost predicate LevelPromise(al: seq<Align>, vxs: seq<real>, shape0: seq<int>, shape: seq<int>, bdim: nat, sdim: nat,
                               n: nat, t: Transform)
  {
    && |t.scale| == bdim + sdim && |t.translation| == bdim + sdim
    && (forall j :: 0 <= j < bdim ==> t.scale[j] == 1.0 && t.translation[j] == 0.0)
    && (forall i :: 0 <= i < sdim ==>
          i < |al| && i < |vxs| &&
          AxisPromise(al[i], vxs[i], shape0, shape, bdim + i, n, t.scale[bdim + i], t.translation[bdim + i]))
  }

  lemma {:induction false} LevelTransformPromise(al: seq<Align>, vxs: seq<real>, shape0: seq<int>, shape: seq<int>, bdim: nat, sdim: nat, n: nat)
    requires n == 0 ==> shape == shape0
    requires LevelTransform(al, vxs, shape0, shape, bdim, sdim, n).Ok?
    ensures LevelPromise(al, vxs, shape0, shape, bdim, sdim, n, LevelTransform(al, vxs, shape0, shape, bdim, sdim, n).value)
  {
    LevelTransformSlots(al, vxs, shape0, shape, bdim, sdim, n);
    SpatialPromises(al, vxs, shape0, shape, bdim, n, sdim);
  }

  /** Every spatial entry of a successful level keeps the axis promise. */
  lemma SpatialPromises(al: seq<Align>, vxs: seq<real>, shape0: seq<int>, shape: seq<int>, bdim: nat, n: nat, sdim: nat)
    requires n == 0 ==> shape == shape0
    requires SpatialTransforms(al, vxs, shape0, shape, bdim, n, sdim).Ok?
    ensures var sp := SpatialTransforms(al, vxs, shape0, shape, bdim, n, sdim).value;
      forall i :: 0 <= i < sdim ==>
        i < |al| && i < |vxs| && AxisPromise(al[i], vxs[i], shape0, shape, bdim + i, n, sp[i].scale, sp[i].translation)
  {
    var sp := SpatialTransforms(al, vxs, shape0, shape, bdim, n, sdim).value;
    SpatialTransformsSpec(al, vxs, shape0, shape, bdim, n, sdim);
    forall i | 0 <= i < sdim
      ensures i < |al| && i < |vxs| && AxisPromise(al[i], vxs[i], shape0, shape, bdim + i, n, sp[i].scale, sp[i].translation)
    {
      AxisEntryPromise(al, vxs, shape0, shape, bdim, i, n, sp[i]);
    }
  }

  /** Where each entry of a level's transform comes from: (1, 0) on the batch
      axes, then the spatial entries in order. */
  lemma LevelTransformSlots(al: seq<Align>, vxs: seq<real>, shape0: seq<int>, shape: seq<int>, bdim: nat, sdim: nat, n: nat)
    requires LevelTransform(al, vxs, shape0, shape, bdim, sdim, n).Ok?
    ensures SpatialTransforms(al, vxs, shape0, shape, bdim, n, sdim).Ok?
    ensures var t := LevelTransform(al, vxs, shape0, shape, bdim, sdim, n).value;
      var sp := SpatialTransforms(al, vxs, shape0, shape, bdim, n, sdim).value;
      && |t.scale| == bdim + sdim && |t.translation| == bdim + sdim
      && (forall j :: 0 <= j < bdim ==> t.scale[j] == 1.0 && t.translation[j] == 0.0)
      && (forall i :: 0 <= i < sdim ==> t.scale[bdim + i] == sp[i].scale && t.translation[bdim + i] == sp[i].translation)
  {
  }

  lemma AxisEntryPromise(al: seq<Align>, vxs: seq<real>, shape0: seq<int>, shape: seq<int>, bdim: nat, i: nat, n: nat, e: Entry)
    requires n == 0 ==> shape == shape0
    requires AxisTransform(al, vxs, shape0, shape, bdim, i, n) == Ok(e)
    ensures i < |al| && i < |vxs| && AxisPromise(al[i], vxs[i], shape0, shape, bdim + i, n, e.scale, e.translation)
  {
    AxisTransformPromise(al, vxs, shape0, shape, bdim, i, n);
  }

  lemma {:induction false} SpaceCountLength(ks: seq<Kind>)
    ensures SpaceCount(ks) <= |ks|
  {
  }

  /** Past the axis table and the empty-shapes check, write_ome_metadata is the
      Datasets call on the padded lists: its result or its error. */
  lemma WriteOmeParts(shapes: seq<seq<int>>, axes: seq<string>, spaceScale: seq<real>, timeScale: real,
                      aligns: seq<Align>)
    requires WriteOmeMetadata(shapes, axes, spaceScale, timeScale, aligns).Ok? ||
             WriteOmeMetadata(shapes, axes, spaceScale, timeScale, aligns) == Err(DivisionByZero)
    ensures forall i :: 0 <= i < |axes| ==> KindOf(axes[i]).Some?
    ensures |shapes| >= 1 && SpatialRank(axes) <= |axes|
    ensures var sdim := SpatialRank(axes);
      var r := WriteOmeMetadata(shapes, axes, spaceScale, timeScale, aligns);
      var ds := Datasets(shapes, PadLeft(aligns, sdim), PadLeft(spaceScale, sdim), |axes| - sdim, sdim, |shapes|);
      && (r.Ok? ==> ds == Ok(r.value.datasets))
      && (r.Err? ==> ds == Err(DivisionByZero))
  {
    WriteOmeChecks(shapes, axes, spaceScale, timeScale, aligns);
    KindsKnown(axes);
    WriteOmeUnfold(shapes, axes, spaceScale, timeScale, aligns);
  }

  /** Succeeding, or failing only on a division, means the axis table and the
      shapes list were accepted. */
  lemma WriteOmeChecks(shapes: seq<seq<int>>, axes: seq<string>, spaceScale: seq<real>, timeScale: real,
                       aligns: seq<Align>)
    requires WriteOmeMetadata(shapes, axes, spaceScale, timeScale, aligns).Ok? ||
             WriteOmeMetadata(shapes, axes, spaceScale, timeScale, aligns) == Err(DivisionByZero)
    ensures Kinds(axes).Ok? && |shapes| >= 1
  {
  }

  lemma KindsKnown(axes: seq<string>)
    requires Kinds(axes).Ok?
    ensures forall i :: 0 <= i < |axes| ==> KindOf(axes[i]).Some?
  {
  }

  /** With known axes and some shapes, the builder is the Datasets call. */
  lemma WriteOmeUnfold(shapes: seq<seq<int>>, axes: seq<string>, spaceScale: seq<real>, timeScale: real,
                       aligns: seq<Align>)
    requires Kinds(axes).Ok? && |shapes| >= 1
    requires forall i :: 0 <= i < |axes| ==> KindOf(axes[i]).Some?
    ensures WriteOmeMetadata(shapes, axes, spaceScale, timeScale, aligns) ==
      match Datasets(shapes, PadLeft(aligns, SpatialRank(axes)), PadLeft(spaceScale, SpatialRank(axes)),
                     |axes| - SpatialRank(axes), SpatialRank(axes), |shapes|)
      case Err(e) => Err(e)
      case Ok(ds) => Ok(Ome(ds, TopScale(axes, timeScale)))
  {
  }

  /** One dataset per level, each keeping LevelPromise against level 0. */
  ghost predicate AllPromised(al: seq<Align>, vxs: seq<real>, shapes: seq<seq<int>>, bdim: nat, sdim: nat,
                              ds: seq<Transform>)
    requires 1 <= |shapes|
  {
    |ds| == |shapes| && forall n :: 0 <= n < |ds| ==> LevelPromise(al, vxs, shapes[0], shapes[n], bdim, sdim, n, ds[n])
  }

  /** Every level Datasets lists keeps LevelPromise. */
  lemma {:induction false} DatasetsPromise(shapes: seq<seq<int>>, al: seq<Align>, vxs: seq<real>, bdim: nat, sdim: nat,
                                          ds: seq<Transform>)
    requires 1 <= |shapes| && Datasets(shapes, al, vxs, bdim, sdim, |shapes|) == Ok(ds)
    ensures AllPromised(al, vxs, shapes, bdim, sdim, ds)
  {
    DatasetsSpec(shapes, al, vxs, bdim, sdim, |shapes|);
    forall n | 0 <= n < |ds|
      ensures LevelPromise(al, vxs, shapes[0], shapes[n], bdim, sdim, n, ds[n])
    {
      LevelTransformPromise(al, vxs, shapes[0], shapes[n], bdim, sdim, n);
    }
  }

  /** A successful call lists one dataset per level shape, and every dataset keeps
      LevelPromise, the batch axes being the |axes| - sdim leading ones. */
  lemma {:induction false} OmeTransforms(shapes: seq<seq<int>>, axes: seq<string>, spaceScale: seq<real>, timeScale: real,
                      aligns: seq<Align>)
    requires WriteOmeMetadata(shapes, axes, spaceScale, timeScale, aligns).Ok?
    ensures forall i :: 0 <= i < |axes| ==> KindOf(axes[i]).Some?
    ensures SpatialRank(axes) <= |axes|
    ensures var ds := WriteOmeMetadata(shapes, axes, spaceScale, timeScale, aligns).value.datasets;
      var sdim := SpatialRank(axes);
      && |shapes| >= 1
      && AllPromised(PadLeft(aligns, sdim), PadLeft(spaceScale, sdim), shapes, |axes| - sdim, sdim, ds)
  {
    WriteOmeParts(shapes, axes, spaceScale, timeScale, aligns);
    OmePromise(shapes, axes, spaceScale, timeScale, aligns);
  }

  lemma OmePromise(shapes: seq<seq<int>>, axes: seq<string>, spaceScale: seq<real>, timeScale: real, aligns: seq<Align>)
    requires WriteOmeMetadata(shapes, axes, spaceScale, timeScale, aligns).Ok?
    ensures var ds := WriteOmeMetadata(shapes, axes, spaceScale, timeScale, aligns).value.datasets;
      var sdim := SpatialRank(axes);
      && |shapes| >= 1
      && AllPromised(PadLeft(aligns, sdim), PadLeft(spaceScale, sdim), shapes, |axes| - sdim, sdim, ds)
  {
    OmeDatasets(shapes, axes, spaceScale, timeScale, aligns);
    DatasetsPromise(shapes, PadLeft(aligns, SpatialRank(axes)), PadLeft(spaceScale, SpatialRank(axes)),
                    |axes| - SpatialRank(axes), SpatialRank(axes), WriteOmeMetadata(shapes, axes, spaceScale, timeScale, aligns).value.datasets);
  }

  /** A successful call's datasets are those Datasets lists for the padded inputs. */
  lemma OmeDatasets(shapes: seq<seq<int>>, axes: seq<string>, spaceScale: seq<real>, timeScale: real, aligns: seq<Align>)
    requires WriteOmeMetadata(shapes, axes, spaceScale, timeScale, aligns).Ok?
    ensures 1 <= |shapes|
    ensures Datasets(shapes, PadLeft(aligns, SpatialRank(axes)), PadLeft(spaceScale, SpatialRank(axes)),
                     |axes| - SpatialRank(axes), SpatialRank(axes), |shapes|)
            == Ok(WriteOmeMetadata(shapes, axes, spaceScale, timeScale, aligns).value.datasets)
  {
    WriteOmeParts(shapes, axes, spaceScale, timeScale, aligns);
  }

  lemma {:induction false} AxisDivisionByZero(al: seq<Align>, vxs: seq<real>, shape0: seq<int>, shape: seq<int>, bdim: nat, i: nat, n: nat)
    requires AxisTransform(al, vxs, shape0, shape, bdim, i, n) == Err(DivisionByZero)
    ensures i < |al| && bdim + i < |shape|
    ensures (IsEdge(al[i]) && shape[bdim + i] == 0) || (IsCenter(al[i]) && shape[bdim + i] == 1)
  {
  }

  /** Some level has an edge axis of extent 0 or a center axis of extent 1, spatial
      axis i being array axis bdim + i. */
  ghost predicate ZeroDivisor(shapes: seq<seq<int>>, al: seq<Align>, bdim: nat)
  {
    exists n, i :: 0 <= n < |shapes| && 0 <= i < |al| && bdim + i < |shapes[n]| &&
      ((IsEdge(al[i]) && shapes[n][bdim + i] == 0) || (IsCenter(al[i]) && shapes[n][bdim + i] == 1))
  }

  /** Datasets divides by zero only on an edge axis of extent 0 or a center axis of
      extent 1 at some level. */
  lemma {:induction false} DatasetsDivisionByZero(shapes: seq<seq<int>>, al: seq<Align>, vxs: seq<real>, bdim: nat, sdim: nat)
    requires 1 <= |shapes| && Datasets(shapes, al, vxs, bdim, sdim, |shapes|) == Err(DivisionByZero)
    ensures ZeroDivisor(shapes, al, bdim)
  {
    DatasetsSpec(shapes, al, vxs, bdim, sdim, |shapes|);
    var n :| 0 <= n < |shapes| && LevelTransform(al, vxs, shapes[0], shapes[n], bdim, sdim, n) == Err(DivisionByZero);
    assert SpatialTransforms(al, vxs, shapes[0], shapes[n], bdim, n, sdim) == Err(DivisionByZero);
    SpatialTransformsSpec(al, vxs, shapes[0], shapes[n], bdim, n, sdim);
    var i :| 0 <= i < sdim && AxisTransform(al, vxs, shapes[0], shapes[n], bdim, i, n) == Err(DivisionByZero);
    AxisDivisionByZero(al, vxs, shapes[0], shapes[n], bdim, i, n);
  }

  /** A division by zero happens only on an edge axis of extent 0 or a center axis of
      extent 1 at some level. */
  lemma {:induction false} OmeDivisionByZero(shapes: seq<seq<int>>, axes: seq<string>, spaceScale: seq<real>, timeScale: real,
                          aligns: seq<Align>)
    requires WriteOmeMetadata(shapes, axes, spaceScale, timeScale, aligns) == Err(DivisionByZero)
    ensures forall i :: 0 <= i < |axes| ==> KindOf(axes[i]).Some?
    ensures var sdim := SpatialRank(axes);
      ZeroDivisor(shapes, PadLeft(aligns, sdim), |axes| - sdim)
  {
    WriteOmeParts(shapes, axes, spaceScale, timeScale, aligns);
    var sdim := SpatialRank(axes);
    DatasetsDivisionByZero(shapes, PadLeft(aligns, sdim), PadLeft(spaceScale, sdim), |axes| - sdim, sdim);
  }

  /** The top-level scale is 1 on every axis except the first "t", which gets
      time_scale. */
  lemma {:induction false} TopScaleSpec(axes: seq<string>, timeScale: real)
    ensures |TopScale(axes, timeScale)| == |axes|
    ensures forall i :: 0 <= i < |axes| ==>
      TopScale(axes, timeScale)[i] == (if axes[i] == "t" && "t" !in axes[..i] then timeScale else 1.0)
  {
    forall i | 0 <= i < |axes|
      ensures TopScale(axes, timeScale)[i] == (if axes[i] == "t" && "t" !in axes[..i] then timeScale else 1.0)
    {
      if "t" in axes {
        var k := IndexOf(axes, "t");
        if i < k {
          assert "t" !in axes[..k];
        } else if i > k {
          assert axes[..i][k] == "t";
        } else {
          assert "t" !in axes[..i];
        }
      }
    }
  }

  // ---------------------------------------------------------------------------
  // The fixed rule of the stacking and OCT converters

  /** The inline factor of axis a at level n: 2^n, or 1 on the no_pool axis. */
  function FixedFactor(n: nat, noPool: Option<int>, a: int): nat
  {
    if noPool == Some(a) then 1 else Pow2(n)
  }

  /** Level n of the inline metadata: 2^n times the voxel size (the voxel size itself
      on the no_pool axis), translated by (2^n - 1) half-voxels (0 on no_pool). */
  function FixedTransform(n: nat, vx: seq<real>, noPool: Option<int>): Transform
    requires |vx| >= 3
  {
    Transform(seq(3, i requires 0 <= i < 3 => FixedFactor(n, noPool, i) as real * vx[i]),
              seq(3, i requires 0 <= i < 3 => (FixedFactor(n, noPool, i) - 1) as real * vx[i] * 0.5))
  }

  /** The datasets listed for `range(count)`: none when count <= 0. */
  function FixedTransforms(count: int, vx: seq<real>, noPool: Option<int>): (r: seq<Transform>)
    requires |vx| >= 3
    ensures |r| == Max(count, 0)
  {
    seq(Max(count, 0), n requires 0 <= n < Max(count, 0) => FixedTransform(n, vx, noPool))
  }

  /** The alignment list equivalent to the fixed rule. */
  function FixedAligns(noPool: Option<int>): seq<Align>
  {
    [Factor(if noPool == Some(0) then 1.0 else 2.0), Factor(if noPool == Some(1) then 1.0 else 2.0),
     Factor(if noPool == Some(2) then 1.0 else 2.0)]
  }

  lemma {:induction false} RealPowTwo(n: nat)
    ensures RealPow(2.0, n) == Pow2(n) as real
  {
    if n > 0 {
      RealPowTwo(n - 1);
    }
  }

  lemma {:induction false} RealPowOne(n: nat)
    ensures RealPow(1.0, n) == 1.0
  {
    if n > 0 {
      RealPowOne(n - 1);
    }
  }

  lemma FactorAxis(al: seq<Align>, vxs: seq<real>, s0: seq<int>, s: seq<int>, bdim: nat, i: nat, n: nat)
    requires i < |al| && i < |vxs| && al[i].Factor?
    ensures AxisTransform(al, vxs, s0, s, bdim, i, n).Ok?
    ensures AxisTransform(al, vxs, s0, s, bdim, i, n).value ==
      Entry(RealPow(al[i].f, n) * vxs[i], (RealPow(al[i].f, n) - 1.0) * 0.5 * vxs[i])
  {
    var r := AxisTransform(al, vxs, s0, s, bdim, i, n);
    var ratio := RealPow(al[i].f, n);
    assert r.Ok? && r.value.scale == ratio * vxs[i] && r.value.translation == (ratio - 1.0) * 0.5 * vxs[i];
  }

  lemma FixedFactorReal(n: nat, noPool: Option<int>, i: nat)
    requires i < 3
    ensures FixedAligns(noPool)[i].Factor?
    ensures RealPow(FixedAligns(noPool)[i].f, n) == FixedFactor(n, noPool, i) as real
  {
    RealPowTwo(n);
    RealPowOne(n);
    assert i == 0 || i == 1 || i == 2;
  }

  lemma FixedEntry(n: nat, vx: seq<real>, noPool: Option<int>, i: nat)
    requires |vx| == 3 && i < 3
    ensures FixedTransform(n, vx, noPool).scale[i] == FixedFactor(n, noPool, i) as real * vx[i]
    ensures FixedTransform(n, vx, noPool).translation[i] == (FixedFactor(n, noPool, i) - 1) as real * vx[i] * 0.5
  {
  }

  /** Axis i from one dataset t to the next one u: the no_pool axis is unchanged;
      any other axis doubles its scale, and its first voxel centre moves by half of
      t's voxel, to the midpoint of t's first two centres. */
  predicate AxisStep(t: Transform, u: Transform, noPool: Option<int>, i: nat)
  {
    && i < |t.scale| && i < |t.translation| && i < |u.scale| && i < |u.translation|
    && if noPool == Some(i) then u.scale[i] == t.scale[i] && u.translation[i] == t.translation[i]
       else u.scale[i] == 2.0 * t.scale[i] && u.translation[i] == t.translation[i] + t.scale[i] / 2.0
  }

  /** Datasets n and n + 1 of a listing take that step on axis i. */
  predicate StepAt(r: seq<Transform>, n: nat, noPool: Option<int>, i: nat)
  {
    n + 1 < |r| && AxisStep(r[n], r[n + 1], noPool, i)
  }

  /** From level n to level n + 1 of the fixed rule, axis i either is the no_pool
      axis, which keeps the voxel size and translation 0 at every level, or doubles
      its scale while the first voxel's centre moves by half a level-n voxel, to the
      midpoint of the first two level-n centres. Every level's translation is half
      its scale minus the voxel size, so level 0 is the input's own grid. */
  lemma FixedLevelStep(n: nat, vx: seq<real>, noPool: Option<int>, i: nat)
    requires |vx| == 3 && i < 3
    ensures var t := FixedTransform(n, vx, noPool);
      var u := FixedTransform(n + 1, vx, noPool);
      && t.translation[i] == (t.scale[i] - vx[i]) / 2.0
      && (n == 0 ==> t.scale[i] == vx[i] && t.translation[i] == 0.0)
      && (noPool == Some(i) ==> t.scale[i] == vx[i] && t.translation[i] == 0.0)
      && AxisStep(t, u, noPool, i)
  {
    FixedEntry(n, vx, noPool, i);
    FixedEntry(n + 1, vx, noPool, i);
    FixedFactorStep(n, noPool, i);
    FactorAlgebra(FixedFactor(n, noPool, i), FixedFactor(n + 1, noPool, i), vx[i],
                  FixedTransform(n, vx, noPool).scale[i], FixedTransform(n, vx, noPool).translation[i],
                  FixedTransform(n + 1, vx, noPool).scale[i], FixedTransform(n + 1, vx, noPool).translation[i]);
  }

  /** The factor starts at 1, stays 1 on the no_pool axis and doubles elsewhere. */
  lemma FixedFactorStep(n: nat, noPool: Option<int>, i: nat)
    ensures FixedFactor(n, noPool, i) >= 1
    ensures n == 0 || noPool == Some(i) ==> FixedFactor(n, noPool, i) == 1
    ensures noPool == Some(i) ==> FixedFactor(n + 1, noPool, i) == FixedFactor(n, noPool, i)
    ensures noPool != Some(i) ==> FixedFactor(n + 1, noPool, i) == 2 * FixedFactor(n, noPool, i)
  {
  }

  /** The real arithmetic of one fixed-rule axis: factor F gives scale s and
      translation tr, and factor G (the next level's) gives s2 and tr2. */
  lemma FactorAlgebra(F: nat, G: nat, v: real, s: real, tr: real, s2: real, tr2: real)
    requires F >= 1
    requires s == F as real * v && tr == (F - 1) as real * v * 0.5
    requires s2 == G as real * v && tr2 == (G - 1) as real * v * 0.5
    ensures tr == (s - v) / 2.0
    ensures F == 1 ==> s == v && tr == 0.0
    ensures G == F ==> s2 == s && tr2 == tr
    ensures G == 2 * F ==> s2 == 2.0 * s && tr2 == tr + s / 2.0
  {
  }

  /** The datasets listed for `range(count)` follow the step rule: the first is the
      input grid (scale vx, translation 0), and each next one keeps the no_pool axis
      and doubles every other axis, its first voxel centred between the first two of
      the level before. */
  lemma FixedListing(count: int, vx: seq<real>, noPool: Option<int>)
    requires |vx| == 3
    ensures var r := FixedTransforms(count, vx, noPool);
      && |r| == Max(count, 0)
      && (forall n :: 0 <= n < |r| ==> |r[n].scale| == 3 && |r[n].translation| == 3)
      && (|r| >= 1 ==> forall i :: 0 <= i < 3 ==> r[0].scale[i] == vx[i] && r[0].translation[i] == 0.0)
      && (forall n: nat, i :: n < |r| - 1 && 0 <= i < 3 ==> StepAt(r, n, noPool, i))
  {
    var r := FixedTransforms(count, vx, noPool);
    if |r| >= 1 {
      forall i | 0 <= i < 3
        ensures r[0].scale[i] == vx[i] && r[0].translation[i] == 0.0
      {
        FixedLevelStep(0, vx, noPool, i);
      }
    }
    forall n: nat, i | n < |r| - 1 && 0 <= i < 3
      ensures StepAt(r, n, noPool, i)
    {
      FixedLevelStep(n, vx, noPool, i);
    }
  }

  lemma {:induction false} FixedAxis(n: nat, vx: seq<real>, noPool: Option<int>, s0: seq<int>, s: seq<int>, i: nat)
    requires |vx| == 3 && i < 3
    ensures AxisTransform(FixedAligns(noPool), vx, s0, s, 0, i, n) ==
      Ok(Entry(FixedTransform(n, vx, noPool).scale[i], FixedTransform(n, vx, noPool).translation[i]))
  {
    var al := FixedAligns(noPool);
    FixedFactorReal(n, noPool, i);
    FactorAxis(al, vx, s0, s, 0, i, n);
    FixedEntry(n, vx, noPool, i);
    var f := FixedFactor(n, noPool, i) as real;
    assert (f - 1.0) * 0.5 * vx[i] == (FixedFactor(n, noPool, i) - 1) as real * vx[i] * 0.5;
    var t := FixedTransform(n, vx, noPool);
    var r := AxisTransform(al, vx, s0, s, 0, i, n);
    assert r.value == Entry(t.scale[i], t.translation[i]);
    assert r == Ok(r.value);
  }

  lemma {:induction false} FixedLevel(n: nat, vx: seq<real>, noPool: Option<int>, s0: seq<int>, s: seq<int>)
    requires |vx| == 3
    ensures LevelTransform(FixedAligns(noPool), vx, s0, s, 0, 3, n) == Ok(FixedTransform(n, vx, noPool))
  {
    var al := FixedAligns(noPool);
    var t := FixedTransform(n, vx, noPool);
    FixedAxis(n, vx, noPool, s0, s, 0);
    FixedAxis(n, vx, noPool, s0, s, 1);
    FixedAxis(n, vx, noPool, s0, s, 2);
    var p0, p1, p2 := Entry(t.scale[0], t.translation[0]), Entry(t.scale[1], t.translation[1]), Entry(t.scale[2], t.translation[2]);
    assert SpatialTransforms(al, vx, s0, s, 0, n, 0) == Ok([]);
    var sp1 := SpatialTransforms(al, vx, s0, s, 0, n, 1);
    assert sp1.Ok? && sp1.value == [] + [p0];
    var sp2 := SpatialTransforms(al, vx, s0, s, 0, n, 2);
    assert sp2.Ok? && sp2.value == [p0] + [p1];
    var sp := SpatialTransforms(al, vx, s0, s, 0, n, 3);
    assert sp.Ok? && sp.value == [p0, p1] + [p2];
    var r := LevelTransform(al, vx, s0, s, 0, 3, n);
    assert r.value.scale == t.scale;
    assert r.value.translation == t.translation;
  }

  lemma {:induction false} FixedDatasets(shapes: seq<seq<int>>, vx: seq<real>, noPool: Option<int>, count: nat)
    requires 1 <= |shapes| && count <= |shapes| && |vx| == 3
    ensures Datasets(shapes, FixedAligns(noPool), vx, 0, 3, count) == Ok(FixedTransforms(count, vx, noPool))
    decreases count
  {
    if count > 0 {
      FixedDatasets(shapes, vx, noPool, count - 1);
      FixedLevel(count - 1, vx, noPool, shapes[0], shapes[count - 1]);
      assert FixedTransforms(count, vx, noPool) == FixedTransforms(count - 1, vx, noPool) + [FixedTransform(count - 1, vx, noPool)];
    }
  }

  lemma ZyxLayout()
    ensures Kinds(["z", "y", "x"]) == Ok([Space, Space, Space])
    ensures SpaceCount([Space, Space, Space]) == 3
  {
    var axes := ["z", "y", "x"];
    var ks := seq(3, i requires 0 <= i < 3 => KindOf(axes[i]).value);
    assert forall i :: 0 <= i < 3 ==> KindOf(axes[i]) == Some(Space);
    assert ks == [Space, Space, Space];
    assert [Space, Space, Space][1..] == [Space, Space];
    assert [Space, Space][1..] == [Space];
  }

  lemma ZyxTopScale()
    ensures TopScale(["z", "y", "x"], 1.0) == [1.0, 1.0, 1.0]
  {
    var axes := ["z", "y", "x"];
    assert axes[0] != "t" && axes[1] != "t" && axes[2] != "t";
    assert "t" !in axes;
  }

  lemma PadLeftFull<T>(xs: seq<T>, k: nat)
    requires |xs| == k
    ensures PadLeft(xs, k) == xs
  {
  }

  /** The fixed rule is write_ome_metadata's numeric policy on axes (z, y, x) with
      factor 2 on pooled axes and factor 1 on the no_pool axis, so its translation is
      (scale - voxel) / 2 on every axis and level 0 is (voxel, 0). */
  lemma {:induction false} FixedIsNumericPolicy(shapes: seq<seq<int>>, vx: seq<real>, noPool: Option<int>)
    requires |shapes| >= 1 && |vx| == 3
    ensures var r := WriteOmeMetadata(shapes, ["z", "y", "x"], vx, 1.0, FixedAligns(noPool));
      && r.Ok?
      && r.value.datasets == FixedTransforms(|shapes|, vx, noPool)
      && r.value.topScale == [1.0, 1.0, 1.0]
  {
    var axes := ["z", "y", "x"];
    ZyxLayout();
    PadLeftFull(FixedAligns(noPool), 3);
    PadLeftFull(vx, 3);
    FixedDatasets(shapes, vx, noPool, |shapes|);
    ZyxTopScale();
  }
}
