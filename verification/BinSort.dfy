/**
 `Kokkos::BinSort`: counting, offset scan, binning and the in-bin bubble pass. The parallel passes run
 under a schedule that names which work item takes its next atomic step, so that a contract that
 holds for every schedule holds for every interleaving.
 */
module BinSort {
  import opened Counting

  // ---------------------------------------------------------------- histograms and offsets

  /** The work items whose key falls into bin `b`. */
  ghost function InBin(bins: seq<nat>, b: nat): set<nat> {
    set i: nat | i < |bins| && bins[i] == b
  }

  /** The work items whose key falls into a bin before `b`. */
  ghost function Below(bins: seq<nat>, b: nat): set<nat> {
    set i: nat | i < |bins| && bins[i] < b
  }

  ghost function Size(bins: seq<nat>, b: nat): nat {
    |InBin(bins, b)|
  }

  /** Where the slice of bin `b` starts. */
  ghost function Offset(bins: seq<nat>, b: nat): nat {
    |Below(bins, b)|
  }

  lemma FirstOffset(bins: seq<nat>)
    ensures Offset(bins, 0) == 0
  {
    assert Below(bins, 0) == {};
  }

  lemma NextOffset(bins: seq<nat>, b: nat)
    ensures Offset(bins, b + 1) == Offset(bins, b) + Size(bins, b)
  {
    assert Below(bins, b + 1) == Below(bins, b) + InBin(bins, b);
  }

  lemma LastOffset(bins: seq<nat>, n: nat)
    requires forall i: nat :: i < |bins| ==> bins[i] < n
    ensures Offset(bins, n) == |bins|
  {
    assert Below(bins, n) == Range(|bins|);
  }

  lemma {:induction false} OffsetsGrow(bins: seq<nat>, b: nat, b': nat)
    requires b < b'
    ensures Offset(bins, b) + Size(bins, b) <= Offset(bins, b') <= |bins|
    decreases b' - b
  {
    NextOffset(bins, b);
    if b + 1 < b' {
      OffsetsGrow(bins, b + 1, b');
    } else {
      SubsetSize(Below(bins, b'), Range(|bins|));
    }
  }

  /** Slices of different bins do not overlap. */
  lemma SliceUnique(bins: seq<nat>, b: nat, b': nat, p: nat)
    requires Offset(bins, b) <= p < Offset(bins, b) + Size(bins, b)
    requires Offset(bins, b') <= p < Offset(bins, b') + Size(bins, b')
    ensures b == b'
  {
    if b < b' {
      OffsetsGrow(bins, b, b');
    } else if b' < b {
      OffsetsGrow(bins, b', b);
    }
  }

  /** Every position lies in the slice of some bin. */
  lemma {:induction false} SliceOf(bins: seq<nat>, n: nat, p: nat) returns (b: nat)
    requires p < Offset(bins, n)
    ensures b < n && Offset(bins, b) <= p < Offset(bins, b) + Size(bins, b)
  {
    FirstOffset(bins);
    NextOffset(bins, n - 1);
    if p < Offset(bins, n - 1) {
      b := SliceOf(bins, n - 1, p);
    } else {
      b := n - 1;
    }
  }

  // ---------------------------------------------------------------- the count pass

  /** Each work item exactly once, in any order. */
  ghost predicate EachOnce(schedule: seq<nat>, n: nat) {
    && |schedule| == n
    && (forall s: nat :: s < |schedule| ==> schedule[s] < n)
    && (forall s: nat, s': nat :: s < s' < |schedule| ==> schedule[s] != schedule[s'])
  }

  /** The items of bin `b` that have been counted by the first `m` steps. */
  ghost function Counted(bins: seq<nat>, schedule: seq<nat>, m: nat, b: nat): set<nat>
    requires m <= |schedule|
  {
    set i | i in InBin(bins, b) && i in schedule[..m]
  }

  /**
   The atomic increments of `bin_count_tag`, in any order, add the histogram to the counters. On a new
   object the counters are zero, so they end up as the histogram.
   */
  method CountPass(bins: seq<nat>, counts: array<nat>, schedule: seq<nat>)
    requires EachOnce(schedule, |bins|) && forall i: nat :: i < |bins| ==> bins[i] < counts.Length
    modifies counts
    ensures forall b: nat :: b < counts.Length ==> counts[b] == old(counts[b]) + Size(bins, b)
  {
    for m := 0 to |schedule|
      invariant forall b: nat :: b < counts.Length ==> counts[b] == old(counts[b]) + |Counted(bins, schedule, m, b)|
    {
      var i := schedule[m];
      forall b: nat | b < counts.Length
        ensures |Counted(bins, schedule, m + 1, b)| == |Counted(bins, schedule, m, b)| + if b == bins[i] then 1 else 0
      {
        CountedOneMore(bins, schedule, m, b);
      }
      counts[bins[i]] := counts[bins[i]] + 1;
    }
    forall b: nat | b < counts.Length
      ensures counts[b] == old(counts[b]) + Size(bins, b)
    {
      AllCounted(bins, schedule, b);
    }
  }

  lemma CountedOneMore(bins: seq<nat>, schedule: seq<nat>, m: nat, b: nat)
    requires EachOnce(schedule, |bins|) && m < |schedule|
    ensures |Counted(bins, schedule, m + 1, b)| ==
            |Counted(bins, schedule, m, b)| + if b == bins[schedule[m]] then 1 else 0
  {
    NextIsNew(schedule, |bins|, m);
    hide EachOnce, InBin;
    var i, before, after := schedule[m], Counted(bins, schedule, m, b), Counted(bins, schedule, m + 1, b);
    assert schedule[..m + 1] == schedule[..m] + [i];
    ItemInBin(bins, i, b);
    if b == bins[i] {
      assert after == before + {i};
    } else {
      assert after == before;
    }
  }

  lemma ItemInBin(bins: seq<nat>, i: nat, b: nat)
    requires i < |bins|
    ensures i in InBin(bins, b) <==> bins[i] == b
  {
  }

  lemma NextIsNew(schedule: seq<nat>, n: nat, m: nat)
    requires EachOnce(schedule, n) && m < |schedule|
    ensures schedule[m] < n && schedule[m] !in schedule[..m]
  {
  }

  lemma AllCounted(bins: seq<nat>, schedule: seq<nat>, b: nat)
    requires EachOnce(schedule, |bins|)
    ensures Counted(bins, schedule, |schedule|, b) == InBin(bins, b)
  {
    Pigeonhole(schedule);
    forall i: nat | i in InBin(bins, b)
      ensures i in Counted(bins, schedule, |schedule|, b)
    {
      assert i in schedule;
    }
  }

  // ---------------------------------------------------------------- the offset scan

  function Prefix(counts: seq<nat>, b: nat): nat
    requires b <= |counts|
  {
    if b == 0 then 0 else Prefix(counts, b - 1) + counts[b - 1]
  }

  /** The range is cut into consecutive chunks. */
  ghost predicate Cuts(cuts: seq<nat>, n: nat) {
    && |cuts| > 0 && cuts[0] == 0 && cuts[|cuts| - 1] == n
    && forall c: nat, d: nat :: c <= d < |cuts| ==> cuts[c] <= cuts[d]
  }

  /** The first sweep of a scan adds up every chunk. */
  method ChunkTotals(counts: seq<nat>, cuts: seq<nat>) returns (totals: seq<nat>)
    requires Cuts(cuts, |counts|)
    ensures |totals| == |cuts| - 1
    ensures forall c: nat :: c < |totals| ==> Prefix(counts, cuts[c]) + totals[c] == Prefix(counts, cuts[c + 1])
  {
    totals := [];
    for c := 0 to |cuts| - 1
      invariant |totals| == c
      invariant forall d: nat :: d < c ==> Prefix(counts, cuts[d]) + totals[d] == Prefix(counts, cuts[d + 1])
    {
      var total := 0;
      for b := cuts[c] to cuts[c + 1]
        invariant Prefix(counts, cuts[c]) + total == Prefix(counts, b)
      {
        total := total + counts[b];
      }
      totals := totals + [total];
    }
  }

  /** The final sweep over one chunk writes its offsets, from what the chunks before it add up to. */
  method ChunkOffsets(counts: seq<nat>, offsets: array<nat>, from: nat, to: nat, start: nat)
    requires from <= to <= |counts| == offsets.Length && start == Prefix(counts, from)
    modifies offsets
    ensures forall b: nat :: b < |counts| ==> offsets[b] == if from <= b < to then Prefix(counts, b) else old(offsets[b])
  {
    var offset := start;
    for b := from to to
      invariant offset == Prefix(counts, b)
      invariant forall c: nat :: c < |counts| ==> offsets[c] == if from <= c < b then Prefix(counts, c) else old(offsets[c])
    {
      offsets[b] := offset;
      offset := offset + counts[b];
    }
  }

  /**
   `parallel_scan` over `bin_offset_tag`: a first sweep adds up every chunk, a second one writes the
   offsets of a chunk from the total of the chunks before it. For every way of cutting the range,
   the offsets are the exclusive prefix sums of the counts.
   */
  method OffsetScan(counts: seq<nat>, offsets: array<nat>, cuts: seq<nat>)
    requires offsets.Length == |counts| && Cuts(cuts, |counts|)
    modifies offsets
    ensures forall b: nat :: b < |counts| ==> offsets[b] == Prefix(counts, b)
  {
    var totals := ChunkTotals(counts, cuts);
    var start := 0;
    for c := 0 to |cuts| - 1
      invariant start == Prefix(counts, cuts[c])
      invariant forall b: nat :: b < cuts[c] ==> offsets[b] == Prefix(counts, b)
    {
      ChunkOffsets(counts, offsets, cuts[c], cuts[c + 1], start);
      start := start + totals[c];
    }
  }

  lemma {:induction false} PrefixIsOffset(bins: seq<nat>, counts: seq<nat>, b: nat)
    requires b <= |counts| && forall k: nat :: k < |counts| ==> counts[k] == Size(bins, k)
    ensures Prefix(counts, b) == Offset(bins, b)
  {
    if b == 0 {
      FirstOffset(bins);
    } else {
      PrefixIsOffset(bins, counts, b - 1);
      NextOffset(bins, b - 1);
    }
  }

  // ---------------------------------------------------------------- a second call

  /**
   `create_permute_vector` does not clear the counters before it counts. On a second call they still hold
   the histogram of the first, so that an offset is the sum of both; all stores of the second call then stay
   inside the order array exactly if none of its keys falls into a later bin than any key of the first. The
   offsets of the bins in use are then right.
   */
  lemma SecondCallInBounds(first: seq<nat>, second: seq<nat>, counts: seq<nat>)
    requires |first| == |second| && forall i: nat :: i < |first| ==> first[i] < |counts| && second[i] < |counts|
    requires forall b: nat :: b < |counts| ==> counts[b] == Size(first, b) + Size(second, b)
    ensures forall b: nat :: b < |counts| ==> Prefix(counts, b) == Offset(first, b) + Offset(second, b)
    ensures (forall b: nat :: b < |counts| && Size(second, b) > 0 ==> Prefix(counts, b) + Size(second, b) <= |second|)
            <==> (forall i: nat, j: nat :: i < |first| && j < |second| ==> second[j] <= first[i])
    ensures (forall i: nat, j: nat :: i < |first| && j < |second| ==> second[j] <= first[i]) ==>
              forall b: nat :: b < |counts| && Size(second, b) > 0 ==> Prefix(counts, b) == Offset(second, b)
  {
    forall b: nat | b < |counts|
      ensures Prefix(counts, b) == Offset(first, b) + Offset(second, b)
    {
      SummedOffsets(first, second, counts, b);
    }
    if i: nat, j: nat :| i < |first| && j < |second| && second[j] > first[i] {
      var top := LastUsed(second, |counts|, j);
      assert i in Below(first, top);
      assert Offset(first, top) > 0;
    } else {
      forall b: nat | b < |counts| && Size(second, b) > 0
        ensures Prefix(counts, b) == Offset(second, b) && Prefix(counts, b) + Size(second, b) <= |second|
      {
        var j :| j in InBin(second, b);
        assert Below(first, b) == {};
        OffsetsGrow(second, b, b + 1);
      }
    }
  }

  /** With unchanged keys, that is: exactly if all keys share one bin. */
  lemma RepeatedCallInBounds(bins: seq<nat>, counts: seq<nat>)
    requires forall i: nat :: i < |bins| ==> bins[i] < |counts|
    requires forall b: nat :: b < |counts| ==> counts[b] == Size(bins, b) + Size(bins, b)
    ensures (forall b: nat :: b < |counts| && Size(bins, b) > 0 ==> Prefix(counts, b) + Size(bins, b) <= |bins|)
            <==> (forall i: nat, j: nat :: i < j < |bins| ==> bins[i] == bins[j])
  {
    SecondCallInBounds(bins, bins, counts);
  }

  /** One key that moves from bin 0 to bin 1 is stored behind the end of the order. */
  lemma SecondCallStrays(counts: seq<nat>)
    requires counts == [Size([0], 0) + Size([1], 0), Size([0], 1) + Size([1], 1)]
    ensures Size([1], 1) == 1 && Prefix(counts, 1) == 1 == |[1]|
  {
    assert InBin([0], 0) == {0} && InBin([1], 0) == {} && InBin([1], 1) == {0};
    assert Prefix(counts, 0) == 0;
  }

  lemma {:induction false} SummedOffsets(first: seq<nat>, second: seq<nat>, counts: seq<nat>, b: nat)
    requires b <= |counts| && forall k: nat :: k < |counts| ==> counts[k] == Size(first, k) + Size(second, k)
    ensures Prefix(counts, b) == Offset(first, b) + Offset(second, b)
  {
    if b == 0 {
      FirstOffset(first);
      FirstOffset(second);
    } else {
      SummedOffsets(first, second, counts, b - 1);
      NextOffset(first, b - 1);
      NextOffset(second, b - 1);
    }
  }

  /** The last bin that is used, at or after the bin of `i`: its slice ends the order. */
  lemma {:induction false} LastUsed(bins: seq<nat>, n: nat, i: nat) returns (b: nat)
    requires i < |bins| && forall j: nat :: j < |bins| ==> bins[j] < n
    ensures bins[i] <= b < n && Size(bins, b) > 0 && Offset(bins, b) + Size(bins, b) == |bins|
  {
    assert bins[i] < n;
    if k: nat :| k < |bins| && bins[k] == n - 1 {
      b := n - 1;
      assert k in InBin(bins, b);
      NextOffset(bins, b);
      LastOffset(bins, n);
    } else {
      b := LastUsed(bins, n - 1, i);
    }
  }
}
