/** The `BinSort` object: `create_permute_vector` and `sort`, for every interleaving of their passes. */
module BinSorter {
  import opened Counting
  import opened BinSort
  import opened BinPlacement
  import BinBubble
  import BinInterleave

  /** A binning operator: how many bins, the bin of a key, and the comparison inside a bin. */
  datatype BinOp<!K> = BinOp(maxBins: nat, bin: K -> int, before: (K, K) -> bool)

  ghost predicate InRange<K>(op: BinOp<K>, keys: seq<K>) {
    forall i: nat :: i < |keys| ==> 0 <= op.bin(keys[i]) < op.maxBins
  }

  function BinsOf<K>(op: BinOp<K>, keys: seq<K>): (bins: seq<nat>)
    requires InRange(op, keys)
    ensures |bins| == |keys|
    ensures forall i: nat :: i < |keys| ==> bins[i] == op.bin(keys[i])
  {
    seq(|keys|, i requires 0 <= i < |keys| => op.bin(keys[i]) as nat)
  }

  ghost predicate Strict<K(!new)>(before: (K, K) -> bool) {
    && (forall x :: !before(x, x))
    && (forall x, y, z :: before(x, y) && before(y, z) ==> before(x, z))
  }

  /** The comparison of two indices by their keys. */
  function ByKey<K>(keys: seq<K>, before: (K, K) -> bool): (nat, nat) -> bool {
    (i: nat, j: nat) => i < |keys| && j < |keys| && before(keys[i], keys[j])
  }

  lemma ByKeyIsStrict<K(!new)>(keys: seq<K>, before: (K, K) -> bool)
    requires Strict(before)
    ensures BinBubble.StrictOrder(ByKey(keys, before))
  {
  }

  /** The interleavings of the four passes; `bins` names the bin that takes each step of the last one. */
  datatype Schedules = Schedules(count: seq<nat>, cuts: seq<nat>, place: seq<nat>, bins: nat -> nat)

  ghost predicate Complete(w: Schedules, items: nat, maxBins: nat) {
    && EachOnce(w.count, items) && Cuts(w.cuts, maxBins)
    && EachTwice(w.place, items)
  }

  /** Every slice of `order` is sorted by key. */
  ghost predicate SlicesSorted(order: seq<nat>, bins: seq<nat>, less: (nat, nat) -> bool, done: set<nat>) {
    forall b: nat :: b in done ==> Slice(bins, b).1 <= |order| && BinBubble.Sorted(order, less, Slice(bins, b).0, Slice(bins, b).1)
  }

  ghost function Slice(bins: seq<nat>, b: nat): (r: (nat, nat))
    ensures r.0 <= r.1
  {
    (Offset(bins, b), Offset(bins, b) + Size(bins, b))
  }

  lemma DistinctCount(s: seq<nat>, x: nat)
    requires forall p: nat, q: nat :: p < q < |s| ==> s[p] != s[q]
    ensures multiset(s)[x] <= 1
  {
    if s != [] {
      var front, last := s[..|s| - 1], s[|s| - 1];
      assert s == front + [last];
      DistinctCount(front, x);
      assert last !in front;
    }
  }

  lemma RepeatCount(s: seq<nat>, p: nat, q: nat)
    requires p < q < |s| && s[p] == s[q]
    ensures multiset(s)[s[p]] >= 2
  {
    assert s == s[..q] + [s[q]] + s[q + 1..];
    assert s[p] in s[..q];
  }

  /** Rearranging keeps the order a permutation. */
  lemma PermutationKept(before: seq<nat>, after: seq<nat>, first: nat)
    requires Permutation(before, first) && multiset(after) == multiset(before)
    ensures Permutation(after, first)
  {
    assert |after| == |before| by {
      assert |multiset(after)| == |after| && |multiset(before)| == |before|;
    }
    forall p: nat | p < |after|
      ensures first <= after[p] < first + |after|
    {
      assert after[p] in multiset(after);
      assert after[p] in before;
    }
    forall p: nat, q: nat | p < q < |after|
      ensures after[p] != after[q]
    {
      DistinctCount(before, after[p]);
      if after[p] == after[q] {
        RepeatCount(after, p, q);
      }
    }
  }

  // ---------------------------------------------------------------- the passes of all bins

  /** The pass of bin `b`, somewhere between `start` and its end. */
  ghost predicate BinAt(start: seq<nat>, s: seq<nat>, bins: seq<nat>, less: (nat, nat) -> bool, b: nat, pc: BinInterleave.Pc) {
    BinInterleave.BinInv(start, s, less, Slice(bins, b).0, Slice(bins, b).1, pc)
  }

  ghost predicate AllBins(start: seq<nat>, s: seq<nat>, bins: seq<nat>, less: (nat, nat) -> bool, pcs: seq<BinInterleave.Pc>) {
    && |start| == |s| == |bins|
    && forall b: nat :: b < |pcs| ==> BinAt(start, s, bins, less, b, pcs[b])
  }

  ghost function WorkOf(bins: seq<nat>, b: nat, pc: BinInterleave.Pc): nat {
    if BinInterleave.InBounds(pc, Slice(bins, b).0, Slice(bins, b).1)
    then BinInterleave.Work(pc, Slice(bins, b).0, Slice(bins, b).1) else 0
  }

  ghost function TotalWork(bins: seq<nat>, pcs: seq<BinInterleave.Pc>): nat {
    Sum(seq(|pcs|, b requires 0 <= b < |pcs| => WorkOf(bins, b, pcs[b])))
  }

  lemma AllBegin(start: seq<nat>, bins: seq<nat>, less: (nat, nat) -> bool, pcs: seq<BinInterleave.Pc>)
    requires |start| == |bins| && forall b: nat :: b < |pcs| ==> pcs[b].Begin?
    ensures AllBins(start, start, bins, less, pcs)
  {
    forall b: nat | b < |pcs|
      ensures BinAt(start, start, bins, less, b, pcs[b])
    {
      SliceFits(bins, b);
    }
  }

  /** A step of one bin leaves the passes of the others where they are: slices do not overlap. */
  lemma OneBinSteps(start: seq<nat>, s: seq<nat>, bins: seq<nat>, less: (nat, nat) -> bool, pcs: seq<BinInterleave.Pc>, b: nat)
    requires BinBubble.StrictOrder(less) && AllBins(start, s, bins, less, pcs) && b < |pcs|
    requires BinInterleave.InBounds(pcs[b], Slice(bins, b).0, Slice(bins, b).1) && Slice(bins, b).1 <= |s|
    ensures var (s', pc') := BinInterleave.Step(s, less, Slice(bins, b).0, Slice(bins, b).1, pcs[b]);
            AllBins(start, s', bins, less, pcs[b := pc'])
  {
    hide BinInterleave.BinInv, BinInterleave.Step, BinBubble.StrictOrder, Offset, Size;
    var (lo, hi) := Slice(bins, b);
    var (s', pc') := BinInterleave.Step(s, less, lo, hi, pcs[b]);
    assert BinAt(start, s, bins, less, b, pcs[b]);
    BinInterleave.StepKeeps(start, s, less, lo, hi, pcs[b]);
    var pcs' := pcs[b := pc'];
    forall c: nat | c < |pcs'|
      ensures BinAt(start, s', bins, less, c, pcs'[c])
    {
      if c != b {
        assert BinAt(start, s, bins, less, c, pcs[c]);
        SlicesApart(s, s', bins, b, c);
        BinInterleave.OnlyOwnSlice(start, s, s', less, Slice(bins, c).0, Slice(bins, c).1, pcs[c]);
      }
    }
  }

  lemma SlicesApart(s: seq<nat>, s': seq<nat>, bins: seq<nat>, b: nat, c: nat)
    requires b != c && |s| == |s'| == |bins|
    requires forall p: nat :: p < |s| && !(Slice(bins, b).0 <= p < Slice(bins, b).1) ==> s'[p] == s[p]
    ensures BinInterleave.Agree(s, s', Slice(bins, c).0, Slice(bins, c).1)
  {
    SliceFits(bins, c);
    forall p: nat | Slice(bins, c).0 <= p < Slice(bins, c).1
      ensures s'[p] == s[p]
    {
      if Slice(bins, b).0 <= p < Slice(bins, b).1 {
        SliceUnique(bins, b, c, p);
      }
    }
  }

  lemma StepUsesWork(start: seq<nat>, s: seq<nat>, bins: seq<nat>, less: (nat, nat) -> bool, pcs: seq<BinInterleave.Pc>, b: nat)
    requires BinBubble.StrictOrder(less) && AllBins(start, s, bins, less, pcs) && b < |pcs| && !pcs[b].Done?
    ensures BinInterleave.InBounds(pcs[b], Slice(bins, b).0, Slice(bins, b).1) && Slice(bins, b).1 <= |s|
    ensures var pc' := BinInterleave.Step(s, less, Slice(bins, b).0, Slice(bins, b).1, pcs[b]).1;
            TotalWork(bins, pcs[b := pc']) < TotalWork(bins, pcs)
  {
    assert BinAt(start, s, bins, less, b, pcs[b]);
    var (lo, hi) := Slice(bins, b);
    BinInterleave.StepWorks(start, s, less, lo, hi, pcs[b]);
    var pc' := BinInterleave.Step(s, less, lo, hi, pcs[b]).1;
    hide BinInterleave.BinInv, BinInterleave.Step, BinInterleave.Work, Slice, BinBubble.StrictOrder;
    var work := seq(|pcs|, c requires 0 <= c < |pcs| => WorkOf(bins, c, pcs[c]));
    var pcs' := pcs[b := pc'];
    var work' := seq(|pcs'|, c requires 0 <= c < |pcs'| => WorkOf(bins, c, pcs'[c]));
    assert work' == work[b := WorkOf(bins, b, pc')];
    SumUpdate(work, b, WorkOf(bins, b, pc'));
  }

  /** All slices have the items they had, so the whole order has. */
  lemma {:induction false} SameBelow(start: seq<nat>, s: seq<nat>, bins: seq<nat>, n: nat)
    requires |start| == |s| == |bins|
    requires forall b: nat :: b < n ==> BinInterleave.SameSlice(start, s, Slice(bins, b).0, Slice(bins, b).1)
    ensures Offset(bins, n) <= |bins| && multiset(s[..Offset(bins, n)]) == multiset(start[..Offset(bins, n)])
  {
    if n == 0 {
      FirstOffset(bins);
    } else {
      SameBelow(start, s, bins, n - 1);
      NextOffset(bins, n - 1);
      SliceFits(bins, n - 1);
      var (lo, hi) := Slice(bins, n - 1);
      assert BinInterleave.SameSlice(start, s, lo, hi);
      assert s[..hi] == s[..lo] + s[lo..hi] && start[..hi] == start[..lo] + start[lo..hi];
    }
  }

  lemma SameGroups(start: seq<nat>, s: seq<nat>, bins: seq<nat>, first: nat, n: nat)
    requires Permutation(start, first) && Grouped(start, bins, first) && |s| == |bins|
    requires forall i: nat :: i < |bins| ==> bins[i] < n
    requires forall b: nat :: b < n ==> BinInterleave.SameSlice(start, s, Slice(bins, b).0, Slice(bins, b).1)
    ensures Permutation(s, first) && Grouped(s, bins, first)
  {
    SameBelow(start, s, bins, n);
    LastOffset(bins, n);
    assert s[..|s|] == s && start[..|s|] == start;
    PermutationKept(start, s, first);
    forall p: nat, b: nat | p < |s| && InSlice(bins, b, p)
      ensures bins[s[p] - first] == b
    {
      SliceItem(start, s, bins, first, n, b, p);
    }
  }

  lemma SliceItem(start: seq<nat>, s: seq<nat>, bins: seq<nat>, first: nat, n: nat, b: nat, p: nat)
    requires Grouped(start, bins, first) && |s| == |bins| && p < |s| && InSlice(bins, b, p)
    requires forall i: nat :: i < |bins| ==> bins[i] < n
    requires forall c: nat :: c < n ==> BinInterleave.SameSlice(start, s, Slice(bins, c).0, Slice(bins, c).1)
    ensures first <= s[p] < first + |bins| && bins[s[p] - first] == b
  {
    LastOffset(bins, n);
    var c := SliceOf(bins, n, p);
    SliceUnique(bins, b, c, p);
    var (lo, hi) := Slice(bins, b);
    assert BinInterleave.SameSlice(start, s, lo, hi);
    assert s[lo..hi][p - lo] in multiset(s[lo..hi]);
    assert s[p] in multiset(start[lo..hi]);
    var r: nat :| r < hi - lo && start[lo..hi][r] == s[p];
    assert start[lo + r] == s[p] && InSlice(bins, b, lo + r);
  }

  /** When all passes have ended, every slice is sorted and the order is as grouped as it was. */
  lemma PassesEnded(start: seq<nat>, s: seq<nat>, bins: seq<nat>, less: (nat, nat) -> bool, pcs: seq<BinInterleave.Pc>, first: nat)
    requires AllBins(start, s, bins, less, pcs) && !BinInterleave.Unfinished(pcs)
    requires Permutation(start, first) && Grouped(start, bins, first)
    requires forall i: nat :: i < |bins| ==> bins[i] < |pcs|
    ensures Permutation(s, first) && Grouped(s, bins, first)
    ensures SlicesSorted(s, bins, less, Range(|pcs|))
  {
    hide Permutation, Grouped, Offset, Size;
    forall b: nat | b < |pcs|
      ensures BinInterleave.SameSlice(start, s, Slice(bins, b).0, Slice(bins, b).1)
      ensures Slice(bins, b).1 <= |s| && BinBubble.Sorted(s, less, Slice(bins, b).0, Slice(bins, b).1)
    {
      assert pcs[b].Done? && BinAt(start, s, bins, less, b, pcs[b]);
    }
    SameGroups(start, s, bins, first, |pcs|);
  }

  // ---------------------------------------------------------------- what sorting values does

  /** What `sort` does: it reads the values range through the order and writes to the key range, which starts at `first`. */
  ghost predicate Moved<V>(before: seq<V>, after: seq<V>, order: seq<nat>, first: nat, source: nat) {
    && |after| == |before| && first + |order| <= |before| && source + |order| <= |before| && Permutation(order, first)
    && (forall p: nat :: p < |order| ==> after[first + p] == before[source + (order[p] - first)])
    && (forall q: nat :: q < |before| && !(first <= q < first + |order|) ==> after[q] == before[q])
  }

  /** What its name says: the values range, which starts at `source`, is reordered, and nothing else changes. */
  ghost predicate Reordered<V>(before: seq<V>, after: seq<V>, order: seq<nat>, first: nat, source: nat) {
    && |after| == |before| && source + |order| <= |before| && Permutation(order, first)
    && (forall p: nat :: p < |order| ==> after[source + p] == before[source + (order[p] - first)])
    && (forall q: nat :: q < |before| && !(source <= q < source + |order|) ==> after[q] == before[q])
  }

  /** Over all arrays, the two are the same exactly if the ranges start at the same place or are empty. */
  lemma RangesMustAgree(order: seq<nat>, first: nat, source: nat, length: nat)
    requires Permutation(order, first) && first + |order| <= length && source + |order| <= length
    ensures (forall before: seq<int>, after: seq<int> ::
               |before| == length && Moved(before, after, order, first, source) ==> Reordered(before, after, order, first, source))
            <==> source == first || order == []
  {
    if source != first && order != [] {
      var before, after := WrongPlace(order, first, source, length);
      assert Moved(before, after, order, first, source) && !Reordered(before, after, order, first, source);
    }
  }

  /** Any array of different values shows it: a place of the key range outside the values range is overwritten. */
  lemma WrongPlace(order: seq<nat>, first: nat, source: nat, length: nat) returns (before: seq<int>, after: seq<int>)
    requires Permutation(order, first) && first + |order| <= length && source + |order| <= length
    requires source != first && order != []
    ensures |before| == length && Moved(before, after, order, first, source) && !Reordered(before, after, order, first, source)
  {
    before := seq(length, i => i);
    after := seq(length, q requires 0 <= q < length =>
                           if first <= q < first + |order| then source + (order[q - first] - first) else q);
    var q := if first < source then first else first + |order| - 1;
    assert after[q] != before[q];
  }

  /** One value at place 1, sorted by an object for place 0: place 0 is overwritten. */
  lemma WrongPlaceExample()
    ensures Permutation([0], 0) && Moved([7, 8], [8, 8], [0], 0, 1) && !Reordered([7, 8], [8, 8], [0], 0, 1)
  {
    assert [7, 8][0] != [8, 8][0];
  }

  class Sorter<K(!new)> {
    const keys: array<K>
    const op: BinOp<K>
    const binOffsets: array<nat>
    const binCount: array<nat>
    const sortOrder: array<nat>
    const rangeBegin: nat
    const rangeEnd: nat
    const sortWithinBins: bool

    ghost predicate Valid() {
      && rangeBegin <= rangeEnd <= keys.Length
      && binCount.Length == binOffsets.Length == op.maxBins && sortOrder.Length == rangeEnd - rangeBegin
      && binCount != binOffsets && binOffsets != sortOrder && binCount != sortOrder
      && {keys as object} !! {binCount, binOffsets, sortOrder}
    }

    ghost function Keys(): (ks: seq<K>)
      requires Valid()
      reads keys
      ensures |ks| == rangeEnd - rangeBegin
    {
      keys[rangeBegin..rangeEnd]
    }

    /** The counters are zero; offsets and order are allocated but not initialized. */
    constructor (keys: array<K>, rangeBegin: nat, rangeEnd: nat, op: BinOp<K>, sortWithinBins: bool)
      requires rangeBegin <= rangeEnd <= keys.Length
      ensures Valid() && fresh(binOffsets) && fresh(binCount) && fresh(sortOrder)
      ensures this.keys == keys && this.rangeBegin == rangeBegin && this.rangeEnd == rangeEnd
      ensures this.op == op && this.sortWithinBins == sortWithinBins
      ensures forall b: nat :: b < binCount.Length ==> binCount[b] == 0
    {
      this.keys := keys;
      this.rangeBegin := rangeBegin;
      this.rangeEnd := rangeEnd;
      this.op := op;
      this.sortWithinBins := sortWithinBins;
      this.binCount := new nat[op.maxBins](i => 0);
      this.binOffsets := new nat[op.maxBins];
      this.sortOrder := new nat[rangeEnd - rangeBegin];
    }

    /**
     On a new object, for every interleaving of the passes: `bin_offsets` are the exclusive prefix sums of
     the histogram, `sort_order` is a permutation of the key range grouped by bin, and, when asked for,
     every slice is sorted by key.
     */
    method CreatePermuteVector(w: Schedules)
      requires Valid() && InRange(op, Keys()) && Complete(w, rangeEnd - rangeBegin, op.maxBins)
      requires forall b: nat :: b < binCount.Length ==> binCount[b] == 0
      requires sortWithinBins ==> Strict(op.before)
      modifies binOffsets, binCount, sortOrder
      ensures forall b: nat :: b < op.maxBins ==> binCount[b] == Size(BinsOf(op, old(Keys())), b)
      ensures forall b: nat :: b < op.maxBins ==> binOffsets[b] == Offset(BinsOf(op, old(Keys())), b)
      ensures Permutation(sortOrder[..], rangeBegin)
      ensures Grouped(sortOrder[..], BinsOf(op, old(Keys())), rangeBegin)
      ensures sortWithinBins ==>
                SlicesSorted(sortOrder[..], BinsOf(op, old(Keys())), ByKey(old(keys[..]), op.before), Range(op.maxBins))
    {
      var bins := BinsOf(op, keys[rangeBegin..rangeEnd]);
      CountPass(bins, binCount, w.count);
      OffsetScan(binCount[..], binOffsets, w.cuts);
      OffsetsAreExact(bins, binCount[..], binOffsets[..]);
      ghost var offsets := binOffsets[..];
      for b := 0 to binCount.Length
        invariant binOffsets[..] == offsets && forall c: nat :: c < b ==> binCount[c] == 0
      {
        binCount[b] := 0;
      }
      BinningPass(bins, binOffsets[..], binCount, sortOrder, rangeBegin, w.place);
      if sortWithinBins {
        SortBins(bins, w.bins);
      }
    }

    /** The in-bin passes of all bins; `turns` names the bin that takes the next step, in any order. */
    method SortBins(ghost bins: seq<nat>, turns: nat -> nat)
      requires Valid() && Strict(op.before) && |bins| == sortOrder.Length
      requires forall i: nat :: i < |bins| ==> bins[i] < op.maxBins
      requires forall b: nat :: b < op.maxBins ==> binCount[b] == Size(bins, b) && binOffsets[b] == Offset(bins, b)
      requires Permutation(sortOrder[..], rangeBegin) && Grouped(sortOrder[..], bins, rangeBegin)
      modifies sortOrder
      ensures Permutation(sortOrder[..], rangeBegin) && Grouped(sortOrder[..], bins, rangeBegin)
      ensures SlicesSorted(sortOrder[..], bins, ByKey(keys[..], op.before), Range(op.maxBins))
    {
      hide Permutation, Grouped, SlicesSorted, Offset, Size, Strict, AllBins, TotalWork;
      hide BinBubble.StrictOrder, BinInterleave.Step;
      var less := ByKey(keys[..], op.before);
      ByKeyIsStrict(keys[..], op.before);
      var pcs := seq(op.maxBins, b => BinInterleave.Begin);
      ghost var start := sortOrder[..];
      AllBegin(start, bins, less, pcs);
      var n := 0;
      while BinInterleave.Unfinished(pcs)
        invariant |pcs| == op.maxBins && AllBins(start, sortOrder[..], bins, less, pcs)
        decreases TotalWork(bins, pcs)
      {
        var b := BinInterleave.Turn(pcs, turns(n));
        SliceFits(bins, b);
        StepUsesWork(start, sortOrder[..], bins, less, pcs, b);
        OneBinSteps(start, sortOrder[..], bins, less, pcs, b);
        var pc := BinInterleave.Perform(sortOrder, less, binOffsets[b], binOffsets[b] + binCount[b], pcs[b]);
        pcs := pcs[b := pc];
        n := n + 1;
      }
      PassesEnded(start, sortOrder[..], bins, less, pcs, rangeBegin);
    }

    /**
     Reorders `[valuesBegin, valuesEnd)` through a scratch copy. It refuses a range of another length; it
     reads at the start of the values range but writes back at the start of the key range.
     */
    method Sort<V(0)>(values: array<V>, valuesBegin: nat, valuesEnd: nat) returns (ok: bool)
      requires Valid() && valuesBegin <= valuesEnd <= values.Length && rangeEnd <= values.Length
      requires Permutation(sortOrder[..], rangeBegin) && values as object != sortOrder
      modifies values
      ensures ok <==> valuesEnd - valuesBegin == rangeEnd - rangeBegin
      ensures !ok ==> values[..] == old(values[..])
      ensures ok ==> Moved(old(values[..]), values[..], sortOrder[..], rangeBegin, valuesBegin)
      ensures ok ==> forall p: nat :: p < sortOrder.Length ==>
                       values[rangeBegin + p] == old(values[valuesBegin + (sortOrder[p] - rangeBegin)])
      ensures forall p: nat :: p < values.Length && !(rangeBegin <= p < rangeEnd) ==> values[p] == old(values[p])
    {
      var len := rangeEnd - rangeBegin;
      ok := len == valuesEnd - valuesBegin;
      if !ok {
        return;
      }
      var offset: int := valuesBegin - rangeBegin;
      var sorted := new V[len];
      for i := 0 to len
        invariant values[..] == old(values[..])
        invariant forall p: nat :: p < i ==> sorted[p] == old(values[offset + sortOrder[p]])
      {
        sorted[i] := values[offset + sortOrder[i]];
      }
      for i := 0 to len
        invariant forall p: nat :: p < i ==> values[rangeBegin + p] == sorted[p]
        invariant forall p: nat :: p < len ==> sorted[p] == old(values[offset + sortOrder[p]])
        invariant forall p: nat :: p < values.Length && !(rangeBegin <= p < rangeEnd) ==> values[p] == old(values[p])
      {
        values[rangeBegin + i] := sorted[i];
      }
    }
  }

  lemma OffsetsAreExact(bins: seq<nat>, counts: seq<nat>, offsets: seq<nat>)
    requires |counts| == |offsets| && forall b: nat :: b < |counts| ==> counts[b] == Size(bins, b)
    requires forall b: nat :: b < |counts| ==> offsets[b] == Prefix(counts, b)
    ensures forall b: nat :: b < |counts| ==> offsets[b] == Offset(bins, b)
  {
    forall b: nat | b < |counts|
      ensures offsets[b] == Offset(bins, b)
    {
      PrefixIsOffset(bins, counts, b);
    }
  }

  lemma SliceFits(bins: seq<nat>, b: nat)
    ensures Slice(bins, b) == (Offset(bins, b), Offset(bins, b) + Size(bins, b))
    ensures Offset(bins, b) + Size(bins, b) <= |bins|
  {
    OffsetsGrow(bins, b, b + 1);
  }
}
