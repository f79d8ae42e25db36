/**
 The in-bin passes of all bins at once. The body of `bin_sort_bins_tag` is cut at its accesses to the order
 array, and the steps of different bins interleave in any order.
 */
module BinInterleave {
  import opened BinBubble

  /** Where the pass of one bin stands: `carried` is `old_idx`, `item` is `new_idx`. */
  datatype Pc =
    | Begin
    | NewSweep(bound: nat)                                            // load the first item of the slice
    | Next(bound: nat, sorted: bool, carried: nat, k: nat)            // load item k, or end the sweep
    | Compare(bound: nat, sorted: bool, carried: nat, k: nat, item: nat)
    | StoreLeft(bound: nat, carried: nat, k: nat, item: nat)
    | StoreRight(bound: nat, carried: nat, k: nat)
    | Done

  predicate InBounds(pc: Pc, lo: nat, hi: nat) {
    match pc
    case Begin => true
    case NewSweep(bound) => lo < bound <= hi
    case Next(bound, _, _, k) => lo < k <= bound <= hi
    case Compare(bound, _, _, k, _) => lo < k < bound <= hi
    case StoreLeft(bound, _, k, _) => lo < k < bound <= hi
    case StoreRight(bound, _, k) => lo < k < bound <= hi
    case Done => true
  }

  /** One step of the pass over `[lo, hi)`. */
  function Step(order: seq<nat>, less: (nat, nat) -> bool, lo: nat, hi: nat, pc: Pc): (seq<nat>, Pc)
    requires lo <= hi <= |order| && InBounds(pc, lo, hi)
  {
    match pc
    case Begin => (order, if hi - lo <= 1 then Done else NewSweep(hi))
    case NewSweep(bound) => (order, Next(bound, true, order[lo], lo + 1))
    case Next(bound, sorted, carried, k) =>
      (order, if k < bound then Compare(bound, sorted, carried, k, order[k])
              else if sorted then Done else NewSweep(bound - 1))
    case Compare(bound, sorted, carried, k, item) =>
      (order, if !less(carried, item) then StoreLeft(bound, carried, k, item) else Next(bound, sorted, item, k + 1))
    case StoreLeft(bound, carried, k, item) => (order[k - 1 := item], StoreRight(bound, carried, k))
    case StoreRight(bound, carried, k) => (order[k := carried], Next(bound, false, carried, k + 1))
    case Done => (order, Done)
  }

  // ---------------------------------------------------------------- what one pass keeps

  /** The slice holds what it held. */
  ghost predicate SameSlice(start: seq<nat>, s: seq<nat>, lo: nat, hi: nat) {
    lo <= hi <= |s| == |start| && multiset(s[lo..hi]) == multiset(start[lo..hi])
  }

  /** The part beyond the bound is done. */
  ghost predicate Beyond(start: seq<nat>, s: seq<nat>, less: (nat, nat) -> bool, lo: nat, bound: nat, hi: nat) {
    && lo < bound <= hi && SameSlice(start, s, lo, hi)
    && Split(s, less, lo, bound, hi) && Sorted(s, less, bound, hi)
  }

  /** The sweep has reached `k` and carries an item that no item before it is after. */
  ghost predicate Carrying(start: seq<nat>, s: seq<nat>, less: (nat, nat) -> bool, lo: nat, hi: nat,
                           bound: nat, carried: nat, k: nat) {
    && lo < k <= bound && Beyond(start, s, less, lo, bound, hi)
    && carried == s[k - 1] && Carries(s, less, lo, k)
  }

  ghost predicate Flagged(s: seq<nat>, less: (nat, nat) -> bool, lo: nat, k: nat, sorted: bool)
    requires k <= |s|
  {
    if sorted then Ascending(s, less, lo, k) else lo + 1 < k
  }

  ghost predicate BinInv(start: seq<nat>, s: seq<nat>, less: (nat, nat) -> bool, lo: nat, hi: nat, pc: Pc) {
    && lo <= hi <= |s| == |start| && InBounds(pc, lo, hi)
    && match pc
       case Begin => SameSlice(start, s, lo, hi)
       case NewSweep(bound) => Beyond(start, s, less, lo, bound, hi)
       case Next(bound, sorted, carried, k) =>
         Carrying(start, s, less, lo, hi, bound, carried, k) && Flagged(s, less, lo, k, sorted)
       case Compare(bound, sorted, carried, k, item) =>
         Carrying(start, s, less, lo, hi, bound, carried, k) && Flagged(s, less, lo, k, sorted) && item == s[k]
       case StoreLeft(bound, carried, k, item) =>
         Carrying(start, s, less, lo, hi, bound, carried, k) && item == s[k] && !less(carried, item)
       case StoreRight(bound, carried, k) =>
         // between the two stores the carried item is in no place of the slice
         && Carrying(start, s[k - 1 := carried], less, lo, hi, bound, carried, k)
         && s[k - 1] == s[k] && !less(carried, s[k])
       case Done => SameSlice(start, s, lo, hi) && Sorted(s, less, lo, hi)
  }

  ghost predicate Agree(s: seq<nat>, s': seq<nat>, lo: nat, hi: nat) {
    hi <= |s| == |s'| && forall p: nat :: lo <= p < hi ==> s'[p] == s[p]
  }

  lemma BeyondAgrees(start: seq<nat>, s: seq<nat>, s': seq<nat>, less: (nat, nat) -> bool, lo: nat, bound: nat, hi: nat)
    requires Beyond(start, s, less, lo, bound, hi) && Agree(s, s', lo, hi)
    ensures Beyond(start, s', less, lo, bound, hi)
  {
    assert s'[lo..hi] == s[lo..hi];
  }

  lemma CarryingAgrees(start: seq<nat>, s: seq<nat>, s': seq<nat>, less: (nat, nat) -> bool, lo: nat, hi: nat,
                       bound: nat, carried: nat, k: nat)
    requires Carrying(start, s, less, lo, hi, bound, carried, k) && Agree(s, s', lo, hi)
    ensures Carrying(start, s', less, lo, hi, bound, carried, k)
  {
    BeyondAgrees(start, s, s', less, lo, bound, hi);
    hide Beyond;
  }

  /** The pass of a bin only depends on its slice. */
  lemma OnlyOwnSlice(start: seq<nat>, s: seq<nat>, s': seq<nat>, less: (nat, nat) -> bool, lo: nat, hi: nat, pc: Pc)
    requires BinInv(start, s, less, lo, hi, pc) && Agree(s, s', lo, hi)
    ensures BinInv(start, s', less, lo, hi, pc)
  {
    hide Carrying, Beyond;
    match pc {
      case NewSweep(bound) => BeyondAgrees(start, s, s', less, lo, bound, hi);
      case Next(bound, _, carried, k) => CarryingAgrees(start, s, s', less, lo, hi, bound, carried, k);
      case Compare(bound, _, carried, k, _) => CarryingAgrees(start, s, s', less, lo, hi, bound, carried, k);
      case StoreLeft(bound, carried, k, _) => CarryingAgrees(start, s, s', less, lo, hi, bound, carried, k);
      case StoreRight(bound, carried, k) =>
        CarryingAgrees(start, s[k - 1 := carried], s'[k - 1 := carried], less, lo, hi, bound, carried, k);
      case _ => assert s'[lo..hi] == s[lo..hi];
    }
  }

  lemma SweepStarts(start: seq<nat>, s: seq<nat>, less: (nat, nat) -> bool, lo: nat, hi: nat, pc: Pc)
    requires StrictOrder(less) && BinInv(start, s, less, lo, hi, pc) && (pc.Begin? || pc.NewSweep?)
    ensures BinInv(start, s, less, lo, hi, Step(s, less, lo, hi, pc).1)
  {
  }

  lemma SweepEnds(start: seq<nat>, s: seq<nat>, less: (nat, nat) -> bool, lo: nat, hi: nat, pc: Pc)
    requires StrictOrder(less) && BinInv(start, s, less, lo, hi, pc) && pc.Next?
    ensures BinInv(start, s, less, lo, hi, Step(s, less, lo, hi, pc).1)
  {
    if pc.k == pc.bound {
      if pc.sorted {
        AscendingIsSorted(s, less, lo, pc.bound, hi);
      } else {
        BoundDown(s, less, lo, pc.bound, hi);
      }
    }
  }

  lemma ItemCompared(start: seq<nat>, s: seq<nat>, less: (nat, nat) -> bool, lo: nat, hi: nat, pc: Pc)
    requires StrictOrder(less) && BinInv(start, s, less, lo, hi, pc) && pc.Compare?
    ensures BinInv(start, s, less, lo, hi, Step(s, less, lo, hi, pc).1)
  {
    if less(pc.carried, pc.item) {
      CarryOn(s, s, less, lo, pc.k);
      if pc.sorted {
        AscendOn(s, less, lo, pc.k);
      }
    }
  }

  lemma LeftStored(start: seq<nat>, s: seq<nat>, less: (nat, nat) -> bool, lo: nat, hi: nat, pc: Pc)
    requires StrictOrder(less) && BinInv(start, s, less, lo, hi, pc) && pc.StoreLeft?
    ensures BinInv(start, Step(s, less, lo, hi, pc).0, less, lo, hi, Step(s, less, lo, hi, pc).1)
  {
    assert s[pc.k - 1 := pc.item][pc.k - 1 := pc.carried] == s;
  }

  lemma RightStored(start: seq<nat>, s: seq<nat>, less: (nat, nat) -> bool, lo: nat, hi: nat, pc: Pc)
    requires StrictOrder(less) && BinInv(start, s, less, lo, hi, pc) && pc.StoreRight?
    ensures BinInv(start, Step(s, less, lo, hi, pc).0, less, lo, hi, Step(s, less, lo, hi, pc).1)
  {
    var u, r, k := s[pc.k - 1 := pc.carried], Step(s, less, lo, hi, pc).0, pc.k;
    assert r == u[k - 1 := u[k]][k := u[k - 1]];
    ExchangeRearranges(u, u, r, lo, hi, k);
    ExchangeRearranges(u, u, r, lo, pc.bound, k);
    SplitKept(u, r, less, lo, pc.bound, hi);
    SuffixKept(u, r, less, lo, pc.bound, hi);
    CarryOn(u, r, less, lo, k);
  }

  /** A step of the pass keeps its invariant and touches nothing outside its slice. */
  lemma StepKeeps(start: seq<nat>, s: seq<nat>, less: (nat, nat) -> bool, lo: nat, hi: nat, pc: Pc)
    requires StrictOrder(less) && BinInv(start, s, less, lo, hi, pc)
    ensures var (s', pc') := Step(s, less, lo, hi, pc);
            && BinInv(start, s', less, lo, hi, pc')
            && |s'| == |s| && (forall p: nat :: p < |s| && !(lo <= p < hi) ==> s'[p] == s[p])
  {
    hide Carrying, Beyond, SameSlice, Sorted, Flagged, StrictOrder;
    match pc {
      case Begin => SweepStarts(start, s, less, lo, hi, pc);
      case NewSweep(_) => SweepStarts(start, s, less, lo, hi, pc);
      case Next(_, _, _, _) => SweepEnds(start, s, less, lo, hi, pc);
      case Compare(_, _, _, _, _) => ItemCompared(start, s, less, lo, hi, pc);
      case StoreLeft(_, _, _, _) => LeftStored(start, s, less, lo, hi, pc);
      case StoreRight(_, _, _) => RightStored(start, s, less, lo, hi, pc);
      case Done =>
    }
  }

  // ---------------------------------------------------------------- termination

  /** What the sweeps over `n` items and fewer can take. */
  function Sweeps(n: nat): nat {
    if n == 0 then 0 else Sweeps(n - 1) + 4 * n + 4
  }

  /** How many steps a pass has left at most. */
  function Work(pc: Pc, lo: nat, hi: nat): nat
    requires lo <= hi && InBounds(pc, lo, hi)
  {
    match pc
    case Begin => Sweeps(hi - lo) + 1
    case NewSweep(bound) => Sweeps(bound - lo)
    case Next(bound, _, _, k) => Sweeps(bound - lo - 1) + 4 * (bound - k) + 1
    case Compare(bound, _, _, k, _) => Sweeps(bound - lo - 1) + 4 * (bound - k)
    case StoreLeft(bound, _, k, _) => Sweeps(bound - lo - 1) + 4 * (bound - k) - 1
    case StoreRight(bound, _, k) => Sweeps(bound - lo - 1) + 4 * (bound - k) - 2
    case Done => 0
  }

  /** Every step of an unfinished pass uses up work; equal keys are exchanged, but the bound shrinks. */
  lemma StepWorks(start: seq<nat>, s: seq<nat>, less: (nat, nat) -> bool, lo: nat, hi: nat, pc: Pc)
    requires StrictOrder(less) && BinInv(start, s, less, lo, hi, pc) && !pc.Done?
    ensures InBounds(Step(s, less, lo, hi, pc).1, lo, hi)
    ensures Work(Step(s, less, lo, hi, pc).1, lo, hi) < Work(pc, lo, hi)
  {
    StepKeeps(start, s, less, lo, hi, pc);
  }

  /** The step, on the array. */
  method Perform(order: array<nat>, less: (nat, nat) -> bool, lo: nat, hi: nat, pc: Pc) returns (pc': Pc)
    requires lo <= hi <= order.Length && InBounds(pc, lo, hi)
    modifies order
    ensures (order[..], pc') == Step(old(order[..]), less, lo, hi, pc)
  {
    match pc
    case Begin =>
      pc' := if hi - lo <= 1 then Done else NewSweep(hi);
    case NewSweep(bound) =>
      pc' := Next(bound, true, order[lo], lo + 1);
    case Next(bound, sorted, carried, k) =>
      if k < bound {
        pc' := Compare(bound, sorted, carried, k, order[k]);
      } else {
        pc' := if sorted then Done else NewSweep(bound - 1);
      }
    case Compare(bound, sorted, carried, k, item) =>
      pc' := if !less(carried, item) then StoreLeft(bound, carried, k, item) else Next(bound, sorted, item, k + 1);
    case StoreLeft(bound, carried, k, item) =>
      order[k - 1] := item;
      pc' := StoreRight(bound, carried, k);
    case StoreRight(bound, carried, k) =>
      order[k] := carried;
      pc' := Next(bound, false, carried, k + 1);
    case Done =>
      pc' := Done;
  }

  predicate Unfinished(pcs: seq<Pc>) {
    exists b: nat :: b < |pcs| && !pcs[b].Done?
  }

  /** The bin whose turn it is: the one the schedule names, or the first unfinished one if that has nothing left to do. */
  function Turn(pcs: seq<Pc>, named: nat): (b: nat)
    requires Unfinished(pcs)
    ensures b < |pcs| && !pcs[b].Done?
  {
    if named < |pcs| && !pcs[named].Done? then named else FirstUnfinished(pcs)
  }

  function FirstUnfinished(pcs: seq<Pc>): (b: nat)
    requires Unfinished(pcs)
    ensures b < |pcs| && !pcs[b].Done?
  {
    if !pcs[0].Done? then 0
    else
      assert Unfinished(pcs[1..]) by {
        var b: nat :| b < |pcs| && !pcs[b].Done?;
        assert !pcs[1..][b - 1].Done?;
      }
      FirstUnfinished(pcs[1..]) + 1
  }
}
