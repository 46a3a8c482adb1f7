/** The two NIfTI-Zarr decisions the converters make before handing the header to
    nibabel: which header version, and the dimension order. */
module Nifti {
  import Arith

  /** The largest extent a NIfTI-1 header holds: its dim field is a signed 16-bit
      short. */
  const ShortLimit: int := 32768

  predicate FitsShort(shape: seq<int>)
  {
    forall i :: 0 <= i < |shape| ==> shape[i] < ShortLimit
  }

  /** NIfTI-1 when every extent fits in a short or version 1 is requested, NIfTI-2
      otherwise. */
  function HeaderVersion(shape: seq<int>, requested: int): (v: int)
    ensures v == 1 || v == 2
  {
    if FitsShort(shape) || requested == 1 then 1 else 2
  }

  /** The version is 2 exactly when some extent reaches 32768 and version 1 was not
      forced; in particular the stacking converter, which asks for version 2, gets
      NIfTI-1 whenever every extent fits. */
  lemma HeaderVersionSpec(shape: seq<int>, requested: int)
    ensures HeaderVersion(shape, requested) == 2 <==>
      requested != 1 && exists i :: 0 <= i < |shape| && shape[i] >= ShortLimit
    ensures HeaderVersion(shape, requested) == 1 && requested != 1 ==>
      forall i :: 0 <= i < |shape| ==> shape[i] < ShortLimit
  {
  }

  /** The largest extent a header's dim field can store: a signed 16-bit short in
      NIfTI-1 and a signed 64-bit integer in NIfTI-2. */
  function DimCapacity(version: int): int
  {
    if version == 1 then Arith.Pow2(15) - 1 else Arith.Pow2(63) - 1
  }

  /** Every extent of the shape fits in that version's dim field. */
  predicate Holds(shape: seq<int>, version: int)
  {
    forall i :: 0 <= i < |shape| ==> shape[i] <= DimCapacity(version)
  }

  /** Against the headers' capacities: a forced version 1 is kept; otherwise the
      chosen header stores every extent NIfTI-2 can, NIfTI-1 is chosen exactly when
      it holds the shape, and NIfTI-2 only when some extent exceeds NIfTI-1's short. */
  lemma HeaderVersionChoice(shape: seq<int>, requested: int)
    ensures requested == 1 ==> HeaderVersion(shape, requested) == 1
    ensures requested != 1 && Holds(shape, 2) ==> Holds(shape, HeaderVersion(shape, requested))
    ensures requested != 1 ==> (HeaderVersion(shape, requested) == 1 <==> Holds(shape, 1))
    ensures HeaderVersion(shape, requested) == 2 ==> exists i :: 0 <= i < |shape| && shape[i] > DimCapacity(1)
  {
    ShortCapacity();
    if !FitsShort(shape) {
      var i :| 0 <= i < |shape| && shape[i] >= ShortLimit;
      assert shape[i] > DimCapacity(1);
    }
  }

  /** The source's bound 32768 is one more than the largest signed short. */
  lemma ShortCapacity()
    ensures DimCapacity(1) == ShortLimit - 1
  {
    assert Arith.Pow2(15) == 32768;
  }

  function Reverse<T>(s: seq<T>): (r: seq<T>)
    ensures |r| == |s|
    ensures forall i :: 0 <= i < |s| ==> r[i] == s[|s| - 1 - i]
  {
    if |s| == 0 then [] else Reverse(s[1..]) + [s[0]]
  }

  /** The stacking converter's NIfTI shape: the zarr shape (z, y, x) reversed to
      (x, y, z). Reversing twice gives the zarr shape back. */
  lemma ReverseInvolution<T>(s: seq<T>)
    ensures Reverse(Reverse(s)) == s
  {
  }

  /** The multi-slice NIfTI shape: the zarr shape (c, z, y, x) reversed, with a unit
      time axis inserted at index 3 when there are channels. */
  function SliceNiftiShape(zarrShape: seq<int>, hasChannel: bool): seq<int>
  {
    var r := Reverse(zarrShape);
    if hasChannel then r[..Min3(|r|)] + [1] + r[Min3(|r|)..] else r
  }

  function Min3(n: nat): nat { if n < 3 then n else 3 }

  /** For the four-axis channel-first zarr shape (c, z, y, x) the NIfTI shape is
      (x, y, z, 1, c), and dropping the unit axis and reversing again recovers the
      zarr shape. */
  lemma SliceNiftiShapeOrder(c: int, z: int, y: int, x: int)
    ensures SliceNiftiShape([c, z, y, x], true) == [x, y, z, 1, c]
    ensures var s := SliceNiftiShape([c, z, y, x], true);
      Reverse(s[..3] + s[4..]) == [c, z, y, x]
  {
    var r := Reverse([c, z, y, x]);
    assert r == [x, y, z, c];
    var s := SliceNiftiShape([c, z, y, x], true);
    assert s == [x, y, z, 1, c];
    assert s[..3] + s[4..] == [x, y, z, c];
    ReverseInvolution([c, z, y, x]);
  }
}
