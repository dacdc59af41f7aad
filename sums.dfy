/** Batches as sequences: exact summation (the model of the compensated
    `sumfun`), element-wise maps and numpy-style boolean-mask selection
    (`a[..., mask]`). */
module Sums {

  /** Exact sum of a sequence of reals. */
  function Sum(xs: seq<real>): real
  {
    if xs == [] then 0.0 else Sum(xs[..|xs| - 1]) + xs[|xs| - 1]
  }

  lemma {:induction false} SumConcat(xs: seq<real>, ys: seq<real>)
    ensures Sum(xs + ys) == Sum(xs) + Sum(ys)
    decreases |ys|
  {
    if ys == [] {
      assert xs + ys == xs;
    } else {
      var last := |ys| - 1;
      assert (xs + ys)[..|xs + ys| - 1] == xs + ys[..last];
      SumConcat(xs, ys[..last]);
    }
  }

  /** A sum of non-negative terms is at least each of its terms. */
  lemma {:induction false} SumBoundsElement(xs: seq<real>, i: nat)
    requires i < |xs|
    requires forall j :: 0 <= j < |xs| ==> xs[j] >= 0.0
    ensures xs[i] <= Sum(xs)
    ensures Sum(xs) >= 0.0
    decreases |xs|
  {
    var last := |xs| - 1;
    if i < last {
      SumBoundsElement(xs[..last], i);
    } else if last > 0 {
      SumBoundsElement(xs[..last], 0);
    }
  }

  lemma {:induction false} SumNonNegative(xs: seq<real>)
    requires forall j :: 0 <= j < |xs| ==> xs[j] >= 0.0
    ensures Sum(xs) >= 0.0
  {
    if xs != [] {
      SumBoundsElement(xs, 0);
    }
  }

  /** Element-wise image of a batch (a vectorised numpy expression). */
  function MapReal<T>(ts: seq<T>, F: T -> real): (r: seq<real>)
    ensures |r| == |ts|
    ensures forall j :: 0 <= j < |ts| ==> r[j] == F(ts[j])
  {
    seq(|ts|, j requires 0 <= j < |ts| => F(ts[j]))
  }

  /** numpy boolean indexing `a[..., mask]`: the elements whose mask entry is
      true, in their original order. */
  function Select<T>(ts: seq<T>, mask: seq<bool>): (r: seq<T>)
    requires |mask| == |ts|
    ensures |r| <= |ts|
    ensures forall x :: x in r ==> exists j :: 0 <= j < |ts| && mask[j] && ts[j] == x
  {
    if ts == [] then []
    else
      var n := |ts| - 1;
      Select(ts[..n], mask[..n]) + (if mask[n] then [ts[n]] else [])
  }

  /** Element-wise negation, numpy's `logical_not`. */
  function Not(mask: seq<bool>): (r: seq<bool>)
    ensures |r| == |mask|
    ensures forall j :: 0 <= j < |mask| ==> r[j] == !mask[j]
  {
    seq(|mask|, j requires 0 <= j < |mask| => !mask[j])
  }

  /** Python's `any`. */
  predicate Any(mask: seq<bool>)
  {
    exists j :: 0 <= j < |mask| && mask[j]
  }

  /** Selecting by a mask commutes with an element-wise map. */
  lemma {:induction false} SelectMap<T>(ts: seq<T>, mask: seq<bool>, F: T -> real)
    requires |mask| == |ts|
    ensures Select(MapReal(ts, F), mask) == MapReal(Select(ts, mask), F)
    decreases |ts|
  {
    if ts != [] {
      var n := |ts| - 1;
      assert MapReal(ts, F)[..n] == MapReal(ts[..n], F);
      SelectMap(ts[..n], mask[..n], F);
    }
  }

  /** Whatever a mask selects and whatever it rejects add up to the whole
      batch: the accept/split partition loses and duplicates nothing. */
  lemma {:induction false} SelectPartition<T>(ts: seq<T>, mask: seq<bool>, F: T -> real)
    requires |mask| == |ts|
    ensures Sum(MapReal(Select(ts, mask), F)) + Sum(MapReal(Select(ts, Not(mask)), F))
            == Sum(MapReal(ts, F))
    decreases |ts|
  {
    if ts != [] {
      var n := |ts| - 1;
      var keep, drop := Select(ts[..n], mask[..n]), Select(ts[..n], Not(mask)[..n]);
      assert Not(mask)[..n] == Not(mask[..n]);
      SelectPartition(ts[..n], mask[..n], F);
      assert MapReal(ts, F) == MapReal(ts[..n], F) + [F(ts[n])];
      SumConcat(MapReal(ts[..n], F), [F(ts[n])]);
      if mask[n] {
        assert Select(ts, mask) == keep + [ts[n]];
        assert Select(ts, Not(mask)) == drop;
        assert MapReal(keep + [ts[n]], F) == MapReal(keep, F) + [F(ts[n])];
        SumConcat(MapReal(keep, F), [F(ts[n])]);
      } else {
        assert Select(ts, mask) == keep;
        assert Select(ts, Not(mask)) == drop + [ts[n]];
        assert MapReal(drop + [ts[n]], F) == MapReal(drop, F) + [F(ts[n])];
        SumConcat(MapReal(drop, F), [F(ts[n])]);
      }
    }
  }

  /** A mask with no true entry selects nothing. */
  lemma {:induction false} SelectNone<T>(ts: seq<T>, mask: seq<bool>)
    requires |mask| == |ts|
    requires !Any(mask)
    ensures Select(ts, mask) == []
    decreases |ts|
  {
    if ts != [] {
      var n := |ts| - 1;
      assert !Any(mask[..n]) by {
        forall j | 0 <= j < n ensures !mask[..n][j] {
          assert mask[..n][j] == mask[j];
        }
      }
      SelectNone(ts[..n], mask[..n]);
    }
  }

  /** A mask with a true entry selects something. */
  lemma {:induction false} SelectSome<T>(ts: seq<T>, mask: seq<bool>)
    requires |mask| == |ts|
    requires Any(mask)
    ensures |Select(ts, mask)| > 0
    decreases |ts|
  {
    var n := |ts| - 1;
    if !mask[n] {
      var j :| 0 <= j < |mask| && mask[j];
      assert mask[..n][j];
      SelectSome(ts[..n], mask[..n]);
    }
  }

  /** A mask with no false entry selects everything. */
  lemma {:induction false} SelectAll<T>(ts: seq<T>, mask: seq<bool>)
    requires |mask| == |ts|
    requires forall j :: 0 <= j < |mask| ==> mask[j]
    ensures Select(ts, mask) == ts
    decreases |ts|
  {
    if ts != [] {
      var n := |ts| - 1;
      SelectAll(ts[..n], mask[..n]);
      assert ts[..n] + [ts[n]] == ts;
    }
  }

  /** Element-wise sum of two vectors of the same length (numpy `+=`). */
  function VecAdd(a: seq<real>, b: seq<real>): (r: seq<real>)
    requires |a| == |b|
    ensures |r| == |a|
    ensures forall c :: 0 <= c < |a| ==> r[c] == a[c] + b[c]
  {
    seq(|a|, c requires 0 <= c < |a| => a[c] + b[c])
  }
}
