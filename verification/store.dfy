/** The chunked array store as the converters use it: an array is a value at every
    index, and a level is produced by a sequence of rectangular region writes applied
    in order to the fill value, a later write overwriting an earlier one. */
module Store {

  /** One region assignment `array[region] = block`: which indices it covers and the
      value it stores at each of them. */
  datatype Write<!I> = Write(covers: I -> bool, value: I -> int)

  function Overlay<I>(base: I -> int, w: Write<I>): I -> int
  {
    p => if w.covers(p) then w.value(p) else base(p)
  }

  /** The array after performing the writes ws, first to last, on base. */
  function Apply<I>(base: I -> int, ws: seq<Write<I>>): I -> int
    decreases |ws|
  {
    if |ws| == 0 then base else Apply(Overlay(base, ws[0]), ws[1..])
  }

  predicate Covered<I>(ws: seq<Write<I>>, p: I)
  {
    exists k :: 0 <= k < |ws| && ws[k].covers(p)
  }

  /** An index no write covers keeps the value it had before the writes. */
  lemma {:induction false} ApplyUntouched<I>(base: I -> int, ws: seq<Write<I>>, p: I)
    requires !Covered(ws, p)
    ensures Apply(base, ws)(p) == base(p)
    decreases |ws|
  {
    if |ws| > 0 {
      assert !ws[0].covers(p);
      assert !Covered(ws[1..], p) by {
        forall k | 0 <= k < |ws[1..]|
          ensures !ws[1..][k].covers(p)
        {
          assert ws[1..][k] == ws[k + 1];
        }
      }
      ApplyUntouched(Overlay(base, ws[0]), ws[1..], p);
    }
  }

  /** If some write covers p and every write that covers p stores v there, then p
      holds v afterwards, whatever the order of the writes. */
  lemma {:induction false} ApplyAgreed<I>(base: I -> int, ws: seq<Write<I>>, p: I, v: int)
    requires Covered(ws, p)
    requires forall k :: 0 <= k < |ws| && ws[k].covers(p) ==> ws[k].value(p) == v
    ensures Apply(base, ws)(p) == v
    decreases |ws|
  {
    var rest := ws[1..];
    var b := Overlay(base, ws[0]);
    assert forall k :: 0 <= k < |rest| ==> rest[k] == ws[k + 1];
    if Covered(rest, p) {
      ApplyAgreed(b, rest, p, v);
    } else {
      ApplyUntouched(b, rest, p);
      var k :| 0 <= k < |ws| && ws[k].covers(p);
      assert k == 0;
    }
  }

  /** Apply over a concatenation is Apply of the second part after the first. */
  lemma {:induction false} ApplyConcat<I>(base: I -> int, xs: seq<Write<I>>, ys: seq<Write<I>>)
    ensures Apply(base, xs + ys) == Apply(Apply(base, xs), ys)
    decreases |xs|
  {
    if |xs| > 0 {
      assert (xs + ys)[1..] == xs[1..] + ys;
      ApplyConcat(Overlay(base, xs[0]), xs[1..], ys);
    } else {
      assert xs + ys == ys;
    }
  }
}
