/** The level-count rule shared by the stacking converter and the OCT .mat script:
    nblevels is the least of ceil(log2 x) over the pooled extents, ceil(log2 max_load)
    and max_levels. */
module Levels {
  import opened Arith
  import opened Errors

  /** Axis i is pooled unless it is the no_pool axis (`i != no_pool`, where no_pool
      may be None). */
  predicate Pooled(noPool: Option<int>, i: int) { noPool != Some(i) }

  /** The minimum of int(ceil(log2(shape[i]))) over the pooled axes i < n, None
      when no axis below n is pooled (the comprehension is then empty). */
  function PooledMinLog2(shape: seq<nat>, noPool: Option<int>, n: nat): (r: Option<nat>)
    requires n <= |shape|
    requires forall i :: 0 <= i < n && Pooled(noPool, i) ==> shape[i] >= 1
    ensures r.None? <==> forall i :: 0 <= i < n ==> !Pooled(noPool, i)
    ensures r.Some? ==> forall i :: 0 <= i < n && Pooled(noPool, i) ==> r.value <= CeilLog2(shape[i])
    ensures r.Some? ==> exists i :: 0 <= i < n && Pooled(noPool, i) && r.value == CeilLog2(shape[i])
  {
    if n == 0 then None
    else
      var rest := PooledMinLog2(shape, noPool, n - 1);
      if !Pooled(noPool, n - 1) then rest
      else if rest.None? then Some(CeilLog2(shape[n - 1]))
      else Some(Min(rest.value, CeilLog2(shape[n - 1])))
  }

  /** nblevels as both converters compute it. math.log2 of zero or of a negative
      max_load raises ValueError. */
  function NbLevels(shape: seq<nat>, maxLoad: int, maxLevels: int, noPool: Option<int>): Result<int>
    requires |shape| >= 3
  {
    if (exists i :: 0 <= i < |shape| && Pooled(noPool, i) && shape[i] == 0) || maxLoad <= 0 then Err(MathDomain)
    else
      var pooled := PooledMinLog2(shape, noPool, |shape|);
      assert Pooled(noPool, 0) || Pooled(noPool, 1);
      Ok(Min(Min(pooled.value, CeilLog2(maxLoad)), maxLevels))
  }

  /** NbLevels succeeds exactly when every pooled extent and max_load are positive,
      and then it is the minimum of the three bounds: below each, and equal to one. */
  lemma NbLevelsIsMin(shape: seq<nat>, maxLoad: int, maxLevels: int, noPool: Option<int>)
    requires |shape| >= 3
    ensures NbLevels(shape, maxLoad, maxLevels, noPool).Ok? <==>
      (forall i :: 0 <= i < |shape| && Pooled(noPool, i) ==> shape[i] >= 1) && maxLoad >= 1
    ensures NbLevels(shape, maxLoad, maxLevels, noPool).Ok? ==>
      var n := NbLevels(shape, maxLoad, maxLevels, noPool).value;
      && n <= maxLevels
      && n <= CeilLog2(maxLoad)
      && (forall i :: 0 <= i < |shape| && Pooled(noPool, i) ==> n <= CeilLog2(shape[i]))
      && (n == maxLevels || n == CeilLog2(maxLoad) ||
          exists i :: 0 <= i < |shape| && Pooled(noPool, i) && n == CeilLog2(shape[i]))
  {
    if (forall i :: 0 <= i < |shape| && Pooled(noPool, i) ==> shape[i] >= 1) && maxLoad >= 1 {
      assert Pooled(noPool, 0) || Pooled(noPool, 1);
      var m := PooledMinLog2(shape, noPool, |shape|);
      var n := Min(Min(m.value, CeilLog2(maxLoad)), maxLevels);
      assert NbLevels(shape, maxLoad, maxLevels, noPool) == Ok(n);
      if n != maxLevels && n != CeilLog2(maxLoad) {
        var i :| 0 <= i < |shape| && Pooled(noPool, i) && m.value == CeilLog2(shape[i]);
        assert n == CeilLog2(shape[i]);
      }
    } else {
      assert NbLevels(shape, maxLoad, maxLevels, noPool).Err?;
    }
  }

  /** A pooled axis of extent 1 makes nblevels 0 whenever the count is defined and
      max_levels is not negative. */
  lemma NbLevelsUnitAxis(shape: seq<nat>, maxLoad: int, maxLevels: int, noPool: Option<int>)
    requires |shape| >= 3 && shape[0] == 1 && Pooled(noPool, 0)
    requires forall i :: 0 <= i < |shape| ==> shape[i] >= 1
    requires maxLoad >= 1 && maxLevels >= 0
    ensures NbLevels(shape, maxLoad, maxLevels, noPool) == Ok(0)
  {
    NbLevelsIsMin(shape, maxLoad, maxLevels, noPool);
    assert CeilLog2(shape[0]) == 0;
  }

  /** Below nblevels every pooled extent halved l times is still at least 1, so no
      created level has an empty pooled axis. */
  lemma PooledLevelsNonEmpty(shape: seq<nat>, maxLoad: int, maxLevels: int, noPool: Option<int>, l: nat, i: nat)
    requires |shape| >= 3
    requires NbLevels(shape, maxLoad, maxLevels, noPool).Ok?
    requires l < NbLevels(shape, maxLoad, maxLevels, noPool).value
    requires i < |shape| && Pooled(noPool, i)
    ensures shape[i] / Pow2(l) >= 1
  {
    NbLevelsIsMin(shape, maxLoad, maxLevels, noPool);
    CeilLog2Levels(shape[i], l);
  }

  /** Extents and max_load of at least 3 and max_levels of at least 2 give at least
      two levels. */
  lemma NbLevelsAtLeastTwo(shape: seq<nat>, maxLoad: int, maxLevels: int, noPool: Option<int>)
    requires |shape| >= 3 && (forall i :: 0 <= i < |shape| ==> shape[i] >= 3)
    requires maxLoad >= 3 && maxLevels >= 2
    ensures NbLevels(shape, maxLoad, maxLevels, noPool).Ok?
    ensures NbLevels(shape, maxLoad, maxLevels, noPool).value >= 2
  {
    NbLevelsIsMin(shape, maxLoad, maxLevels, noPool);
    CeilLog2AtLeastTwo(maxLoad);
    forall i | 0 <= i < |shape|
      ensures CeilLog2(shape[i]) >= 2
    {
      CeilLog2AtLeastTwo(shape[i]);
    }
  }
}
