/**
 The in-bin pass of `BinSort` (`bin_sort_bins_tag`): a bubble sort of one slice of the order array that
 exchanges neighbours unless the left one compares strictly before the right one. Equal keys are
 exchanged too, so only the shrinking upper bound ends it.
 */
module BinBubble {

  /** All that the pass needs of the comparison. */
  ghost predicate StrictOrder(less: (nat, nat) -> bool) {
    && (forall x :: !less(x, x))
    && (forall x, y, z :: less(x, y) && less(y, z) ==> less(x, z))
  }

  /** `after` is `before` with the elements of `[lo, hi)` rearranged among themselves. */
  ghost predicate Rearranged(before: seq<nat>, after: seq<nat>, lo: nat, hi: nat) {
    && lo <= hi <= |before| == |after|
    && multiset(before[lo..hi]) == multiset(after[lo..hi])
    && (forall p: nat :: p < |before| && !(lo <= p < hi) ==> after[p] == before[p])
  }

  lemma ExchangeRearranges(before: seq<nat>, mid: seq<nat>, after: seq<nat>, lo: nat, hi: nat, k: nat)
    requires Rearranged(before, mid, lo, hi) && lo < k < hi
    requires after == mid[k - 1 := mid[k]][k := mid[k - 1]]
    ensures Rearranged(before, after, lo, hi)
  {
    var left, right := mid[lo..k - 1], mid[k + 1..hi];
    assert mid[lo..hi] == left + [mid[k - 1], mid[k]] + right;
    assert after[lo..hi] == left + [mid[k], mid[k - 1]] + right;
    assert multiset([mid[k], mid[k - 1]]) == multiset([mid[k - 1], mid[k]]);
  }

  /** No element of `[lo, hi)` compares before one to its left. */
  ghost predicate Sorted(s: seq<nat>, less: (nat, nat) -> bool, lo: nat, hi: nat)
    requires lo <= hi <= |s|
  {
    forall p: nat, q: nat :: lo <= p < q < hi ==> !less(s[q], s[p])
  }

  /** No element of `[mid, hi)` compares before one of `[lo, mid)`. */
  ghost predicate Split(s: seq<nat>, less: (nat, nat) -> bool, lo: nat, mid: nat, hi: nat)
    requires lo <= mid <= hi <= |s|
  {
    forall p: nat, q: nat :: lo <= p < mid <= q < hi ==> !less(s[q], s[p])
  }

  ghost predicate Carries(s: seq<nat>, less: (nat, nat) -> bool, lo: nat, k: nat)
    requires lo < k <= |s|
  {
    forall p: nat :: lo <= p < k ==> !less(s[k - 1], s[p])
  }

  ghost predicate Ascending(s: seq<nat>, less: (nat, nat) -> bool, lo: nat, k: nat)
    requires k <= |s|
  {
    forall p: nat, q: nat :: lo <= p < q < k ==> less(s[p], s[q])
  }

  lemma CarryOn(s: seq<nat>, s': seq<nat>, less: (nat, nat) -> bool, lo: nat, k: nat)
    requires StrictOrder(less) && lo < k < |s| && Carries(s, less, lo, k)
    requires s' == if less(s[k - 1], s[k]) then s else s[k - 1 := s[k]][k := s[k - 1]]
    ensures Carries(s', less, lo, k + 1)
  {
  }

  lemma AscendOn(s: seq<nat>, less: (nat, nat) -> bool, lo: nat, k: nat)
    requires StrictOrder(less) && lo < k < |s| && Ascending(s, less, lo, k) && less(s[k - 1], s[k])
    ensures Ascending(s, less, lo, k + 1)
  {
    forall p: nat, q: nat | lo <= p < q < k + 1
      ensures less(s[p], s[q])
    {
      if q == k && p < k - 1 {
        assert less(s[p], s[k - 1]);
      }
    }
  }

  /** The part beyond the bound stays beyond it when the part below is rearranged. */
  lemma SplitKept(s: seq<nat>, s': seq<nat>, less: (nat, nat) -> bool, lo: nat, mid: nat, hi: nat)
    requires lo <= mid <= hi <= |s| && Split(s, less, lo, mid, hi) && Rearranged(s, s', lo, mid)
    ensures Split(s', less, lo, mid, hi)
  {
    forall p: nat, q: nat | lo <= p < mid <= q < hi
      ensures !less(s'[q], s'[p])
    {
      assert s'[p] in multiset(s'[lo..mid]) by {
        assert s'[lo..mid][p - lo] == s'[p];
      }
      assert s'[p] in multiset(s[lo..mid]);
      var r: nat :| r < mid - lo && s[lo..mid][r] == s'[p];
      assert s[lo + r] == s'[p];
    }
  }

  /** One sweep up to `bound`: the last element of the range is one no other is after. */
  method Sweep(order: array<nat>, less: (nat, nat) -> bool, lo: nat, bound: nat) returns (sorted: bool)
    requires StrictOrder(less) && lo < bound <= order.Length
    modifies order
    ensures Rearranged(old(order[..]), order[..], lo, bound)
    ensures Carries(order[..], less, lo, bound)
    ensures sorted ==> Ascending(order[..], less, lo, bound)
    ensures !sorted ==> lo + 1 < bound
  {
    sorted := true;
    var oldItem := order[lo];
    for k := lo + 1 to bound
      invariant oldItem == order[k - 1]
      invariant Rearranged(old(order[..]), order[..], lo, bound)
      invariant Carries(order[..], less, lo, k)
      invariant sorted ==> Ascending(order[..], less, lo, k)
      invariant !sorted ==> lo + 1 < k
    {
      ghost var before := order[..];
      var newItem := order[k];
      if !less(oldItem, newItem) {
        order[k - 1] := newItem;
        order[k] := oldItem;
        sorted := false;
        ExchangeRearranges(old(order[..]), before, order[..], lo, bound, k);
      } else {
        oldItem := newItem;
        if sorted {
          AscendOn(before, less, lo, k);
        }
      }
      CarryOn(before, order[..], less, lo, k);
    }
  }

  lemma Widen(a: seq<nat>, b: seq<nat>, c: seq<nat>, lo: nat, mid: nat, hi: nat)
    requires Rearranged(a, b, lo, hi) && lo <= mid <= hi && Rearranged(b, c, lo, mid)
    ensures Rearranged(a, c, lo, hi)
  {
    assert b[lo..hi] == b[lo..mid] + b[mid..hi];
    assert c[lo..hi] == c[lo..mid] + c[mid..hi];
    assert b[mid..hi] == c[mid..hi];
  }

  lemma BoundDown(s: seq<nat>, less: (nat, nat) -> bool, lo: nat, mid: nat, hi: nat)
    requires lo < mid <= hi <= |s| && Split(s, less, lo, mid, hi) && Sorted(s, less, mid, hi)
    requires Carries(s, less, lo, mid)
    ensures Split(s, less, lo, mid - 1, hi) && Sorted(s, less, mid - 1, hi)
  {
  }

  lemma AscendingIsSorted(s: seq<nat>, less: (nat, nat) -> bool, lo: nat, mid: nat, hi: nat)
    requires StrictOrder(less) && lo <= mid <= hi <= |s|
    requires Ascending(s, less, lo, mid) && Split(s, less, lo, mid, hi) && Sorted(s, less, mid, hi)
    ensures Sorted(s, less, lo, hi)
  {
    forall p: nat, q: nat | lo <= p < q < hi
      ensures !less(s[q], s[p])
    {
      if q < mid {
        assert less(s[p], s[q]);
      }
    }
  }

  lemma SuffixKept(s: seq<nat>, s': seq<nat>, less: (nat, nat) -> bool, lo: nat, mid: nat, hi: nat)
    requires lo <= mid <= hi <= |s| && Sorted(s, less, mid, hi) && Rearranged(s, s', lo, mid)
    ensures Sorted(s', less, mid, hi)
  {
  }

  /** The slice `[lo, lo + size)` ends up sorted and rearranged; the rest is untouched. */
  method SortSlice(order: array<nat>, less: (nat, nat) -> bool, lo: nat, size: nat)
    requires StrictOrder(less) && lo + size <= order.Length
    modifies order
    ensures Rearranged(old(order[..]), order[..], lo, lo + size)
    ensures Sorted(order[..], less, lo, lo + size)
  {
    if size <= 1 {
      return;
    }
    ghost var hi := lo + size;
    var bound := lo + size;
    var sorted := false;
    while !sorted
      invariant lo <= bound <= hi && (!sorted ==> lo < bound)
      invariant Rearranged(old(order[..]), order[..], lo, hi)
      invariant Split(order[..], less, lo, bound, hi) && Sorted(order[..], less, bound, hi)
      invariant sorted ==> Sorted(order[..], less, lo, hi)
      decreases !sorted, bound
    {
      ghost var before := order[..];
      sorted := Sweep(order, less, lo, bound);
      Widen(old(order[..]), before, order[..], lo, bound, hi);
      SplitKept(before, order[..], less, lo, bound, hi);
      SuffixKept(before, order[..], less, lo, bound, hi);
      if sorted {
        AscendingIsSorted(order[..], less, lo, bound, hi);
      }
      BoundDown(order[..], less, lo, bound, hi);
      bound := bound - 1;
    }
  }
}
