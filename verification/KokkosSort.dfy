/**
 `Kokkos::sort` on the binning path, with `BinOp1D` and `BinOp3D`. Keys are reals, so that the bin
 arithmetic is exact.
 */
module KokkosSort {
  import opened Counting
  import opened BinSort
  import opened BinPlacement
  import opened BinSorter
  import BinBubble

  // ---------------------------------------------------------------- permuted contents

  /** `s` read through the order. */
  ghost predicate ReadThrough<V>(s: seq<V>, order: seq<nat>, first: nat, t: seq<V>) {
    && |s| == |order| == |t| && Permutation(order, first)
    && forall p: nat :: p < |t| ==> t[p] == s[order[p] - first]
  }

  /** A sequence read through a permutation has the same elements, each as often. */
  lemma {:induction false} PermutedContents<V>(s: seq<V>, order: seq<nat>, first: nat, t: seq<V>)
    requires ReadThrough(s, order, first, t)
    ensures multiset(t) == multiset(s)
  {
    hide Permutation;
    if s != [] {
      var n := |s| - 1;
      var p := PositionOf(order, first, n);
      LastRead(s, order, first, t, p);
      var s', t' := s[..n], t[..p] + t[p + 1..];
      PermutedContents(s', order[..p] + order[p + 1..], first, t');
      assert s == s' + [s[n]];
      TakenOut(t, p);
    }
  }

  lemma TakenOut<V>(t: seq<V>, p: nat)
    requires p < |t|
    ensures multiset(t) == multiset(t[..p] + t[p + 1..]) + multiset{t[p]}
  {
    assert t == t[..p] + [t[p]] + t[p + 1..];
  }

  lemma LastRead<V>(s: seq<V>, order: seq<nat>, first: nat, t: seq<V>, p: nat)
    requires ReadThrough(s, order, first, t) && p < |order| && order[p] == first + |s| - 1
    ensures t[p] == s[|s| - 1]
    ensures ReadThrough(s[..|s| - 1], order[..p] + order[p + 1..], first, t[..p] + t[p + 1..])
  {
    RemoveLast(order, first, p);
  }

  lemma RemoveLast(order: seq<nat>, first: nat, p: nat)
    requires Permutation(order, first) && p < |order| && order[p] == first + |order| - 1
    ensures Permutation(order[..p] + order[p + 1..], first)
  {
    var order' := order[..p] + order[p + 1..];
    forall q: nat | q < |order'|
      ensures first <= order'[q] < first + |order'|
    {
      var r := if q < p then q else q + 1;
      assert order'[q] == order[r] && order[r] != order[p];
    }
    forall q: nat, r: nat | q < r < |order'|
      ensures order'[q] != order'[r]
    {
      assert order'[q] == order[if q < p then q else q + 1];
      assert order'[r] == order[if r < p then r else r + 1];
    }
  }

  /** Every index of the range has a position in the order. */
  lemma PositionOf(order: seq<nat>, first: nat, i: nat) returns (p: nat)
    requires Permutation(order, first) && i < |order|
    ensures p < |order| && order[p] == first + i
  {
    var xs: seq<nat> := seq(|order|, q requires 0 <= q < |order| => if order[q] >= first then order[q] - first else 0);
    Pigeonhole(xs);
    assert i in xs;
    p :| p < |xs| && xs[p] == i;
  }

  /** The slice of a bin holds exactly the indices of that bin. */
  lemma SliceIsExact(order: seq<nat>, bins: seq<nat>, first: nat, i: nat) returns (p: nat)
    requires Permutation(order, first) && Grouped(order, bins, first) && i < |bins|
    ensures p < |order| && order[p] == first + i && InSlice(bins, bins[i], p)
    ensures forall q: nat :: q < |order| && order[q] == first + i ==> q == p
    ensures forall q: nat :: q < |order| && InSlice(bins, bins[i], q) ==> bins[order[q] - first] == bins[i]
  {
    p := PositionOf(order, first, i);
    LastOffset(bins, TopBin(bins));
    var b := SliceOf(bins, TopBin(bins), p);
    assert InSlice(bins, b, p);
  }

  function TopBin(bins: seq<nat>): (n: nat)
    ensures forall i: nat :: i < |bins| ==> bins[i] < n
  {
    if bins == [] then 0
    else
      var n := TopBin(bins[..|bins| - 1]);
      if bins[|bins| - 1] < n then n else bins[|bins| - 1] + 1
  }

  // ---------------------------------------------------------------- sorted by bin, then by key

  /** Positions of the order come in the order of their bins. */
  lemma BinsAscend(order: seq<nat>, bins: seq<nat>, first: nat, p: nat, q: nat)
    requires Permutation(order, first) && Grouped(order, bins, first) && p < q < |order|
    ensures bins[order[p] - first] <= bins[order[q] - first]
  {
    var p' := SliceIsExact(order, bins, first, order[p] - first);
    var q' := SliceIsExact(order, bins, first, order[q] - first);
    assert p' == p && q' == q;
    var b, c := bins[order[p] - first], bins[order[q] - first];
    if c < b {
      OffsetsGrow(bins, c, b);
    }
  }

  /** Inside a bin, a sorted slice has no key that compares before one to its left. */
  lemma InBinSorted(order: seq<nat>, bins: seq<nat>, first: nat, less: (nat, nat) -> bool, n: nat, p: nat, q: nat)
    requires Permutation(order, first) && Grouped(order, bins, first) && SlicesSorted(order, bins, less, Range(n))
    requires p < q < |order| && bins[order[p] - first] == bins[order[q] - first] < n
    ensures !less(order[q], order[p])
  {
    var p' := SliceIsExact(order, bins, first, order[p] - first);
    var q' := SliceIsExact(order, bins, first, order[q] - first);
    assert p' == p && q' == q;
    var b := bins[order[p] - first];
    assert b in Range(n);
    assert BinBubble.Sorted(order, less, Slice(bins, b).0, Slice(bins, b).1);
  }

  // ---------------------------------------------------------------- BinOp1D

  /** Conversion of a floating point number to an integer. */
  function Trunc(x: real): int {
    if x >= 0.0 then x.Floor else -(-x).Floor
  }

  lemma TruncMonotone(x: real, y: real)
    requires x <= y
    ensures Trunc(x) <= Trunc(y)
  {
  }

  /** The strip of width `1 / mul` above `min` that a key falls into. */
  function Strip(mul: real, min: real, key: real): int {
    Trunc(mul * (key - min))
  }

  function Slope(bins: nat, min: real, max: real): real
    requires min != max
  {
    bins as real / (max - min)
  }

  /** `BinOp1D(bins, min, max)`: one bin more than asked for, so that the maximum has one. */
  datatype BinOp1D = BinOp1D(maxBins: nat, mul: real, min: real) {
    function Bin(key: real): int {
      Strip(mul, min, key)
    }

    function Op(): BinOp<real> {
      BinOp(maxBins, key => Bin(key), (x: real, y: real) => x < y)
    }
  }

  function MakeOp1D(bins: nat, min: real, max: real): BinOp1D
    requires min != max
  {
    BinOp1D(bins + 1, Slope(bins, min, max), min)
  }

  lemma Scaled(n: nat, min: real, max: real, key: real)
    requires min < max && min <= key <= max
    ensures 0.0 <= n as real / (max - min) * (key - min) <= n as real
    ensures 0 < n && key < max ==> n as real / (max - min) * (key - min) < n as real
  {
    var r, d, x := n as real, max - min, key - min;
    Ratio(r, d);
    var m := r / d;
    assert m >= 0.0 && m * d == r;
    assert m * x >= 0.0;
    assert m * (d - x) >= 0.0;
    assert m * (d - x) == m * d - m * x;
    if 0 < n && key < max {
      assert m > 0.0;
      assert m * (d - x) > 0.0;
    }
  }

  lemma Ratio(r: real, d: real)
    requires r >= 0.0 && d > 0.0
    ensures r / d >= 0.0 && (r / d) * d == r && (r > 0.0 ==> r / d > 0.0)
  {
  }

  lemma ProductMonotone(m: real, x: real, y: real)
    requires m >= 0.0 && x <= y
    ensures m * x <= m * y
  {
    assert m * (y - x) >= 0.0;
  }

  lemma StripInRange(bins: nat, min: real, max: real, key: real)
    requires min < max && min <= key <= max
    ensures 0 <= Strip(Slope(bins, min, max), min, key) <= bins
  {
    Scaled(bins, min, max, key);
  }

  lemma StripMonotone(bins: nat, min: real, max: real, x: real, y: real)
    requires min < max && x <= y
    ensures Strip(Slope(bins, min, max), min, x) <= Strip(Slope(bins, min, max), min, y)
  {
    var m := Slope(bins, min, max);
    Ratio(bins as real, max - min);
    hide Slope, Trunc;
    ProductMonotone(m, x - min, y - min);
    TruncMonotone(m * (x - min), m * (y - min));
  }

  /** Keys between minimum and maximum fall into a bin, and larger keys never into an earlier one. */
  lemma Bins1D(bins: nat, min: real, max: real, x: real, y: real)
    requires min < max && min <= x <= y <= max
    ensures 0 <= MakeOp1D(bins, min, max).Bin(x) <= MakeOp1D(bins, min, max).Bin(y)
    ensures MakeOp1D(bins, min, max).Bin(y) < MakeOp1D(bins, min, max).maxBins
  {
    hide Strip, Slope;
    StripInRange(bins, min, max, x);
    StripInRange(bins, min, max, y);
    StripMonotone(bins, min, max, x, y);
  }

  /** Conversion drops the fraction: downwards for positive numbers, upwards for negative ones. */
  lemma TruncLaw(x: real)
    ensures x >= 0.0 ==> Trunc(x) as real <= x < Trunc(x) as real + 1.0
    ensures x < 0.0 ==> Trunc(x) as real - 1.0 < x <= Trunc(x) as real
  {
  }

  /** Where the `c`-th of `n` equal intervals between `min` and `max` begins. */
  function Edge(n: nat, min: real, max: real, c: int): real
    requires n > 0
  {
    min + c as real * (max - min) / n as real
  }

  lemma Reciprocal(r: real, d: real)
    requires r > 0.0 && d > 0.0
    ensures r / d > 0.0 && d / r > 0.0 && (r / d) * (d / r) == 1.0
  {
    var m, e := r / d, d / r;
    assert m * d == r && e * r == d;
    assert m * e * r == m * d;
    assert (m * e - 1.0) * r == 0.0;
  }

  /** Scaling by `m` and by `1 / m` compare alike. */
  lemma ScaleCompares(m: real, e: real, x: real, c: real)
    requires m > 0.0 && e > 0.0 && m * e == 1.0
    ensures m * x >= c <==> x >= c * e
  {
    assert e * (m * x) == (m * e) * x;
    if m * x >= c {
      ProductMonotone(e, c, m * x);
    }
    if x >= c * e {
      ProductMonotone(m, c * e, x);
      assert m * (c * e) == c * (m * e);
    }
  }

  lemma EdgeOffset(n: nat, min: real, max: real, c: int)
    requires n > 0 && min < max
    ensures Edge(n, min, max, c) == min + c as real * ((max - min) / n as real)
  {
    var d, r, x := max - min, n as real, c as real;
    assert (x * d) / r == x * (d / r);
  }

  /** A key at or above the minimum falls into strip `c` exactly if it lies in the `c`-th interval. */
  lemma StripIsInterval(n: nat, min: real, max: real, key: real, c: int)
    requires 0 < n && min < max && min <= key
    ensures Strip(Slope(n, min, max), min, key) == c <==> Edge(n, min, max, c) <= key < Edge(n, min, max, c + 1)
  {
    var m, e, x := Slope(n, min, max), (max - min) / n as real, key - min;
    Reciprocal(n as real, max - min);
    EdgeOffset(n, min, max, c);
    EdgeOffset(n, min, max, c + 1);
    ScaleCompares(m, e, x, c as real);
    ScaleCompares(m, e, x, (c + 1) as real);
    hide Slope, Edge;
    ProductMonotone(m, 0.0, x);
    TruncLaw(m * x);
    FloorUnique(m * x, c);
  }

  lemma FloorUnique(y: real, c: int)
    requires y >= 0.0
    ensures Trunc(y) == c <==> c as real <= y < (c + 1) as real
  {
  }

  /** The bin of a key, as an interval; the last of the `bins + 1` bins holds the maximum. */
  lemma Bin1DIsInterval(bins: nat, min: real, max: real, key: real, c: int)
    requires min < max && min <= key
    ensures MakeOp1D(bins, min, max).maxBins == bins + 1
    ensures bins == 0 ==> MakeOp1D(bins, min, max).Bin(key) == 0
    ensures bins > 0 ==>
              (MakeOp1D(bins, min, max).Bin(key) == c <==> Edge(bins, min, max, c) <= key < Edge(bins, min, max, c + 1))
  {
    if bins > 0 {
      StripIsInterval(bins, min, max, key, c);
    } else {
      assert 0.0 / (max - min) == 0.0;
    }
  }

  // ---------------------------------------------------------------- Kokkos::sort

  /** The extent of `s`: its minimum and maximum, or the identity of the reduction when `s` is empty. */
  ghost predicate Extent(s: seq<real>, lowest: real, highest: real, lo: real, hi: real) {
    && (forall i: nat :: i < |s| ==> lo <= s[i] <= hi)
    && (lo == highest || lo in s) && (hi == lowest || hi in s)
  }

  lemma ExtentJoins(a: seq<real>, b: seq<real>, lowest: real, highest: real,
                    lo: real, hi: real, lo': real, hi': real)
    requires Extent(a, lowest, highest, lo, hi) && Extent(b, lowest, highest, lo', hi')
    ensures Extent(a + b, lowest, highest, if lo' < lo then lo' else lo, if hi' > hi then hi' else hi)
  {
  }

  /** The min-max reduction, for every way of cutting the range into chunks that are joined. */
  method FindExtent(view: seq<real>, cuts: seq<nat>, lowest: real, highest: real) returns (lo: real, hi: real)
    requires Cuts(cuts, |view|)
    ensures Extent(view, lowest, highest, lo, hi)
  {
    lo, hi := highest, lowest;
    for c := 0 to |cuts| - 1
      invariant Extent(view[..cuts[c]], lowest, highest, lo, hi)
    {
      var min, max := highest, lowest;
      for i := cuts[c] to cuts[c + 1]
        invariant Extent(view[cuts[c]..i], lowest, highest, min, max)
      {
        assert view[cuts[c]..i + 1] == view[cuts[c]..i] + [view[i]];
        min := if view[i] < min then view[i] else min;
        max := if view[i] > max then view[i] else max;
      }
      assert view[..cuts[c + 1]] == view[..cuts[c]] + view[cuts[c]..cuts[c + 1]];
      ExtentJoins(view[..cuts[c]], view[cuts[c]..cuts[c + 1]], lowest, highest, lo, hi, min, max);
      lo := if min < lo then min else lo;
      hi := if max > hi then max else hi;
    }
    assert view[..|view|] == view;
  }

  ghost predicate Ascends(s: seq<real>) {
    forall p: nat, q: nat :: p < q < |s| ==> s[p] <= s[q]
  }

  lemma ByKeyLess(keys: seq<real>, op: BinOp1D, i: nat, j: nat)
    requires i < |keys| && j < |keys| && !ByKey(keys, op.Op().before)(i, j)
    ensures keys[j] <= keys[i]
  {
  }

  /** Grouped by a monotone bin and sorted inside the bins is sorted. */
  lemma SortedByBins(keys: seq<real>, begin: nat, end: nat, op: BinOp1D, order: seq<nat>, after: seq<real>)
    requires begin <= end <= |keys| && InRange(op.Op(), keys[begin..end])
    requires ReadThrough(keys[begin..end], order, begin, after)
    requires forall i: nat, j: nat :: begin <= i < end && begin <= j < end && keys[i] < keys[j] ==> op.Bin(keys[i]) <= op.Bin(keys[j])
    requires Grouped(order, BinsOf(op.Op(), keys[begin..end]), begin)
    requires SlicesSorted(order, BinsOf(op.Op(), keys[begin..end]), ByKey(keys, op.Op().before), Range(op.maxBins))
    ensures Ascends(after)
  {
    hide Grouped, SlicesSorted, Range, ByKey, BinOp1D.Bin;
    var bins := BinsOf(op.Op(), keys[begin..end]);
    forall p: nat, q: nat | p < q < |after|
      ensures after[p] <= after[q]
    {
      BinsAscend(order, bins, begin, p, q);
      assert after[p] == keys[order[p]] && after[q] == keys[order[q]];
      assert bins[order[p] - begin] == op.Bin(keys[order[p]]) && bins[order[q] - begin] == op.Bin(keys[order[q]]);
      if bins[order[p] - begin] == bins[order[q] - begin] {
        InBinSorted(order, bins, begin, ByKey(keys, op.Op().before), op.maxBins, p, q);
        ByKeyLess(keys, op, order[q], order[p]);
      }
    }
  }

  /**
   `sort(view, begin, end)`, for every interleaving: the range is sorted, holds the values it held, and
   nothing outside changes. `lowest` and `highest` are the identity of the reduction.
   */
  method SortRange(view: array<real>, begin: nat, end: nat, lowest: real, highest: real, cuts: seq<nat>, w: Schedules)
    requires begin <= end <= view.Length
    requires Cuts(cuts, end - begin) && Complete(w, end - begin, (end - begin) / 2 + 1)
    modifies view
    ensures Ascends(view[begin..end])
    ensures multiset(view[begin..end]) == multiset(old(view[begin..end]))
    ensures view[..begin] == old(view[..begin]) && view[end..] == old(view[end..])
  {
    hide Permutation, Grouped, SlicesSorted, Strict, Ascends, Complete, Cuts, InRange, MakeOp1D, BinsOf, ByKey;
    var lo, hi := FindExtent(view[begin..end], cuts, lowest, highest);
    if lo == hi {
      AllEqual(view[begin..end], lo);
      return;
    }
    var op := MakeOp1D((end - begin) / 2, lo, hi);
    ghost var keys := view[..];
    ExtentBins(keys, begin, end, lowest, highest, lo, hi, op);
    Strict1D(op);
    var sorter := new Sorter(view, begin, end, op.Op(), true);
    sorter.CreatePermuteVector(w);
    assert view[..] == keys;
    var ok := sorter.Sort(view, begin, end);
    Finished(keys, view[..], begin, end, op, sorter.sortOrder[..]);
  }

  lemma AllEqual(s: seq<real>, x: real)
    requires forall i: nat :: i < |s| ==> x <= s[i] <= x
    ensures Ascends(s)
  {
  }

  lemma Strict1D(op: BinOp1D)
    ensures Strict(op.Op().before)
  {
  }

  lemma ExtentBins(keys: seq<real>, begin: nat, end: nat, lowest: real, highest: real, lo: real, hi: real, op: BinOp1D)
    requires begin <= end <= |keys| && lo != hi && op == MakeOp1D((end - begin) / 2, lo, hi)
    requires Extent(keys[begin..end], lowest, highest, lo, hi)
    ensures InRange(op.Op(), keys[begin..end]) && op.maxBins == (end - begin) / 2 + 1
    ensures forall i: nat, j: nat :: begin <= i < end && begin <= j < end && keys[i] < keys[j] ==> op.Bin(keys[i]) <= op.Bin(keys[j])
  {
    forall i: nat | i < end - begin
      ensures 0 <= op.Bin(keys[begin..end][i]) < op.maxBins
    {
      Bins1D((end - begin) / 2, lo, hi, keys[begin..end][i], keys[begin..end][i]);
    }
    forall i: nat, j: nat | begin <= i < end && begin <= j < end && keys[i] < keys[j]
      ensures op.Bin(keys[i]) <= op.Bin(keys[j])
    {
      assert keys[begin..end][i - begin] == keys[i] && keys[begin..end][j - begin] == keys[j];
      Bins1D((end - begin) / 2, lo, hi, keys[i], keys[j]);
    }
  }

  lemma ReadsThrough<V>(before: seq<V>, after: seq<V>, order: seq<nat>, begin: nat, end: nat, source: nat)
    requires begin <= end <= |after| && |order| == end - begin && Permutation(order, begin)
    requires source + |order| <= |before|
    requires forall p: nat :: p < |order| ==> after[begin + p] == before[source + (order[p] - begin)]
    ensures ReadThrough(before[source..source + |order|], order, begin, after[begin..end])
  {
  }

  lemma Finished(keys: seq<real>, after: seq<real>, begin: nat, end: nat, op: BinOp1D, order: seq<nat>)
    requires begin <= end <= |keys| == |after| && |order| == end - begin && InRange(op.Op(), keys[begin..end])
    requires forall i: nat, j: nat :: begin <= i < end && begin <= j < end && keys[i] < keys[j] ==> op.Bin(keys[i]) <= op.Bin(keys[j])
    requires Permutation(order, begin) && Grouped(order, BinsOf(op.Op(), keys[begin..end]), begin)
    requires SlicesSorted(order, BinsOf(op.Op(), keys[begin..end]), ByKey(keys, op.Op().before), Range(op.maxBins))
    requires forall p: nat :: p < |order| ==> after[begin + p] == keys[begin + (order[p] - begin)]
    requires forall p: nat :: p < |keys| && !(begin <= p < end) ==> after[p] == keys[p]
    ensures Ascends(after[begin..end])
    ensures multiset(after[begin..end]) == multiset(keys[begin..end])
    ensures after[..begin] == keys[..begin] && after[end..] == keys[end..]
  {
    hide Grouped, SlicesSorted, Range, BinsOf, ByKey, BinOp1D.Bin, BinOp1D.Op;
    ReadsThrough(keys, after, order, begin, end, begin);
    hide Permutation;
    PermutedContents(keys[begin..end], order, begin, after[begin..end]);
    SortedByBins(keys, begin, end, op, order, after[begin..end]);
  }
}
