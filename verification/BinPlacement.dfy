/**
 The binning pass of `BinSort`: every work item takes a ticket from the counter of its bin by an atomic
 increment and then stores its index at the offset of the bin plus the ticket. The two steps of
 different items interleave in any order.
 */
module BinPlacement {
  import opened Counting
  import opened BinSort

  /** How far a work item is: nothing done, ticket drawn but not yet stored, stored. */
  datatype Stage = Waiting | Drawn(ticket: nat) | Stored(ticket: nat)

  function StepsDone(g: Stage): nat {
    match g
    case Waiting => 0
    case Drawn(_) => 1
    case Stored(_) => 2
  }

  /** The items of bin `b` that hold a ticket. */
  ghost function Holders(bins: seq<nat>, stages: seq<Stage>, b: nat): set<nat> {
    set i | i in InBin(bins, b) && i < |stages| && !stages[i].Waiting?
  }

  ghost predicate TicketOk(bins: seq<nat>, stages: seq<Stage>, counts: seq<nat>, i: nat)
    requires i < |bins| == |stages|
  {
    bins[i] < |counts| && (stages[i].Waiting? || stages[i].ticket < counts[bins[i]])
  }

  ghost predicate Differ(bins: seq<nat>, stages: seq<Stage>, i: nat, j: nat)
    requires i < |bins| == |stages| && j < |bins|
  {
    bins[i] == bins[j] && !stages[i].Waiting? && !stages[j].Waiting? ==> stages[i].ticket != stages[j].ticket
  }

  /** The counter of a bin is the number of tickets drawn; tickets of one bin are different. */
  ghost predicate TicketsInv(bins: seq<nat>, stages: seq<Stage>, counts: seq<nat>) {
    && |stages| == |bins|
    && (forall b: nat :: b < |counts| ==> counts[b] == |Holders(bins, stages, b)|)
    && (forall i: nat :: i < |bins| ==> TicketOk(bins, stages, counts, i))
    && (forall i: nat, j: nat :: i < |bins| && j < |bins| && i != j ==> Differ(bins, stages, i, j))
  }

  /** Where the item stores its index. */
  ghost function Target(bins: seq<nat>, stages: seq<Stage>, i: nat): nat
    requires i < |bins| == |stages| && !stages[i].Waiting?
  {
    Offset(bins, bins[i]) + stages[i].ticket
  }

  ghost predicate StoreOk(bins: seq<nat>, stages: seq<Stage>, order: seq<nat>, first: nat, i: nat)
    requires i < |bins| == |stages|
  {
    stages[i].Stored? ==> Target(bins, stages, i) < |order| && order[Target(bins, stages, i)] == first + i
  }

  ghost predicate StoresInv(bins: seq<nat>, stages: seq<Stage>, order: seq<nat>, first: nat) {
    && |stages| == |bins| == |order|
    && forall i: nat :: i < |bins| ==> StoreOk(bins, stages, order, first, i)
  }

  lemma TargetInSlice(bins: seq<nat>, stages: seq<Stage>, counts: seq<nat>, i: nat)
    requires TicketsInv(bins, stages, counts) && i < |bins| && !stages[i].Waiting?
    ensures stages[i].ticket < Size(bins, bins[i])
    ensures Target(bins, stages, i) < |bins|
  {
    assert TicketOk(bins, stages, counts, i);
    SubsetSize(Holders(bins, stages, bins[i]), InBin(bins, bins[i]));
    OffsetsGrow(bins, bins[i], bins[i] + 1);
  }

  /** Two items never aim at the same position. */
  lemma TargetsDiffer(bins: seq<nat>, stages: seq<Stage>, counts: seq<nat>, i: nat, j: nat)
    requires TicketsInv(bins, stages, counts) && i < |bins| && j < |bins| && i != j
    requires !stages[i].Waiting? && !stages[j].Waiting?
    ensures Target(bins, stages, i) != Target(bins, stages, j)
  {
    TargetInSlice(bins, stages, counts, i);
    TargetInSlice(bins, stages, counts, j);
    assert Differ(bins, stages, i, j);
    if Target(bins, stages, i) == Target(bins, stages, j) {
      SliceUnique(bins, bins[i], bins[j], Target(bins, stages, i));
    }
  }

  lemma DrawTicket(bins: seq<nat>, stages: seq<Stage>, counts: seq<nat>, i: nat)
    requires TicketsInv(bins, stages, counts) && i < |bins| && stages[i].Waiting? && bins[i] < |counts|
    ensures TicketsInv(bins, stages[i := Drawn(counts[bins[i]])], counts[bins[i] := counts[bins[i]] + 1])
  {
    var b := bins[i];
    var stages', counts' := stages[i := Drawn(counts[b])], counts[b := counts[b] + 1];
    forall c: nat | c < |counts'|
      ensures counts'[c] == |Holders(bins, stages', c)|
    {
      HoldersAfterDraw(bins, stages, i, counts[b], c);
    }
    forall j: nat | j < |bins|
      ensures TicketOk(bins, stages', counts', j)
    {
      assert TicketOk(bins, stages, counts, j);
    }
    forall j: nat, k: nat | j < |bins| && k < |bins| && j != k
      ensures Differ(bins, stages', j, k)
    {
      assert Differ(bins, stages, j, k) && TicketOk(bins, stages, counts, j) && TicketOk(bins, stages, counts, k);
    }
  }

  lemma HoldersAfterDraw(bins: seq<nat>, stages: seq<Stage>, i: nat, t: nat, b: nat)
    requires i < |bins| == |stages| && stages[i].Waiting?
    ensures |Holders(bins, stages[i := Drawn(t)], b)| == |Holders(bins, stages, b)| + if bins[i] == b then 1 else 0
  {
    var before, after := Holders(bins, stages, b), Holders(bins, stages[i := Drawn(t)], b);
    if bins[i] == b {
      assert after == before + {i};
    } else {
      assert after == before;
    }
  }

  lemma StoreKeepsTickets(bins: seq<nat>, stages: seq<Stage>, counts: seq<nat>, i: nat)
    requires TicketsInv(bins, stages, counts) && i < |bins| && stages[i].Drawn?
    ensures TicketsInv(bins, stages[i := Stored(stages[i].ticket)], counts)
  {
    var stages' := stages[i := Stored(stages[i].ticket)];
    forall c: nat | c < |counts|
      ensures counts[c] == |Holders(bins, stages', c)|
    {
      assert Holders(bins, stages', c) == Holders(bins, stages, c);
    }
    forall j: nat | j < |bins|
      ensures TicketOk(bins, stages', counts, j)
    {
      assert TicketOk(bins, stages, counts, j);
    }
    forall j: nat, k: nat | j < |bins| && k < |bins| && j != k
      ensures Differ(bins, stages', j, k)
    {
      assert Differ(bins, stages, j, k);
    }
  }

  lemma StoreIndex(bins: seq<nat>, stages: seq<Stage>, counts: seq<nat>, order: seq<nat>, first: nat, i: nat)
    requires TicketsInv(bins, stages, counts) && StoresInv(bins, stages, order, first)
    requires i < |bins| && stages[i].Drawn?
    ensures Target(bins, stages, i) < |order|
    ensures StoresInv(bins, stages[i := Stored(stages[i].ticket)], order[Target(bins, stages, i) := first + i], first)
  {
    TargetInSlice(bins, stages, counts, i);
    var p := Target(bins, stages, i);
    var stages', order' := stages[i := Stored(stages[i].ticket)], order[p := first + i];
    forall j: nat | j < |bins|
      ensures StoreOk(bins, stages', order', first, j)
    {
      assert StoreOk(bins, stages, order, first, j);
      if j != i && stages[j].Stored? {
        TargetsDiffer(bins, stages, counts, i, j);
      }
    }
  }

  // ---------------------------------------------------------------- what the pass leaves

  /** `order` lists every index of `[first, first + |order|)` once. */
  ghost predicate Permutation(order: seq<nat>, first: nat) {
    && (forall p: nat :: p < |order| ==> first <= order[p] < first + |order|)
    && (forall p: nat, q: nat :: p < q < |order| ==> order[p] != order[q])
  }

  ghost predicate InSlice(bins: seq<nat>, b: nat, p: nat) {
    Offset(bins, b) <= p < Offset(bins, b) + Size(bins, b)
  }

  /** The slice of bin `b` holds indices of bin `b` only. */
  ghost predicate Grouped(order: seq<nat>, bins: seq<nat>, first: nat) {
    && |order| == |bins|
    && (forall p: nat :: p < |order| ==> first <= order[p] < first + |bins|)
    && (forall p: nat, b: nat :: p < |order| && InSlice(bins, b, p) ==> bins[order[p] - first] == b)
  }

  /** Which item ends up at position `p`, once all have stored. */
  lemma StoredAt(bins: seq<nat>, stages: seq<Stage>, counts: seq<nat>, p: nat) returns (i: nat)
    requires TicketsInv(bins, stages, counts)
    requires forall j: nat :: j < |bins| ==> stages[j].Stored?
    requires p < |bins|
    ensures i < |bins| && Target(bins, stages, i) == p && InSlice(bins, bins[i], p)
  {
    forall j: nat | j < |bins|
      ensures bins[j] < |counts|
    {
      assert TicketOk(bins, stages, counts, j);
    }
    LastOffset(bins, |counts|);
    var b := SliceOf(bins, |counts|, p);
    i := TicketHolder(bins, stages, counts, b, p - Offset(bins, b));
  }

  /** When all have drawn, every ticket below the size of the bin is held. */
  lemma TicketHolder(bins: seq<nat>, stages: seq<Stage>, counts: seq<nat>, b: nat, t: nat) returns (i: nat)
    requires TicketsInv(bins, stages, counts)
    requires forall j: nat :: j < |bins| ==> stages[j].Stored?
    requires t < Size(bins, b)
    ensures i < |bins| && bins[i] == b && stages[i].ticket == t
  {
    var tickets := map j | j in InBin(bins, b) :: stages[j].ticket;
    var drawn := set j | j in InBin(bins, b) :: tickets[j];
    forall j, k | j in InBin(bins, b) && k in InBin(bins, b) && j != k
      ensures tickets[j] != tickets[k]
    {
      assert Differ(bins, stages, j, k);
    }
    ImageSize(InBin(bins, b), tickets, drawn);
    forall d | d in drawn
      ensures d in Range(Size(bins, b))
    {
      var j :| j in InBin(bins, b) && tickets[j] == d;
      TargetInSlice(bins, stages, counts, j);
    }
    hide TicketsInv;
    SubsetSize(drawn, Range(Size(bins, b)));
    assert t in drawn;
    i :| i in InBin(bins, b) && tickets[i] == t;
  }

  lemma PlacedAll(bins: seq<nat>, stages: seq<Stage>, counts: seq<nat>, order: seq<nat>, first: nat)
    requires TicketsInv(bins, stages, counts) && StoresInv(bins, stages, order, first)
    requires forall i: nat :: i < |bins| ==> stages[i].Stored?
    ensures Permutation(order, first) && Grouped(order, bins, first)
  {
    forall p: nat | p < |order|
      ensures first <= order[p] < first + |order|
      ensures Target(bins, stages, order[p] - first) == p
      ensures InSlice(bins, bins[order[p] - first], p)
    {
      var i := StoredAt(bins, stages, counts, p);
      assert StoreOk(bins, stages, order, first, i);
    }
    forall p: nat, b: nat | p < |order| && InSlice(bins, b, p)
      ensures bins[order[p] - first] == b
    {
      SliceUnique(bins, b, bins[order[p] - first], p);
    }
  }

  lemma AllHeld(bins: seq<nat>, stages: seq<Stage>, b: nat)
    requires |stages| == |bins| && forall i: nat :: i < |bins| ==> stages[i].Stored?
    ensures Holders(bins, stages, b) == InBin(bins, b)
  {
  }

  /** Every item takes its two steps, in any order. */
  ghost predicate EachTwice(schedule: seq<nat>, n: nat) {
    && (forall s: nat :: s < |schedule| ==> schedule[s] < n)
    && (forall i: nat :: i < n ==> multiset(schedule)[i] == 2)
  }

  lemma OneMoreStep(schedule: seq<nat>, n: nat, m: nat)
    requires EachTwice(schedule, n) && m < |schedule|
    ensures schedule[m] < n
    ensures multiset(schedule[..m + 1]) == multiset(schedule[..m]) + multiset{schedule[m]}
    ensures multiset(schedule[..m])[schedule[m]] < 2
  {
    assert schedule[..m + 1] == schedule[..m] + [schedule[m]];
    assert schedule == schedule[..m + 1] + schedule[m + 1..];
    assert multiset(schedule) == multiset(schedule[..m + 1]) + multiset(schedule[m + 1..]);
    assert multiset(schedule)[schedule[m]] == 2;
  }

  /**
   `bin_binning_tag` over all items, for every interleaving: the order is a permutation of the key range
   and the slice of every bin holds the indices of that bin.
   */
  method BinningPass(bins: seq<nat>, offsets: seq<nat>, counts: array<nat>, order: array<nat>, first: nat,
                     schedule: seq<nat>)
    requires counts != order && order.Length == |bins| && |offsets| == counts.Length
    requires forall i: nat :: i < |bins| ==> bins[i] < counts.Length
    requires forall b: nat :: b < counts.Length ==> counts[b] == 0 && offsets[b] == Offset(bins, b)
    requires EachTwice(schedule, |bins|)
    modifies counts, order
    ensures forall b: nat :: b < counts.Length ==> counts[b] == Size(bins, b)
    ensures Permutation(order[..], first) && Grouped(order[..], bins, first)
  {
    var stages := seq(|bins|, i => Waiting);
    NothingDrawn(bins, stages, counts[..]);
    for m := 0 to |schedule|
      invariant TicketsInv(bins, stages, counts[..]) && StoresInv(bins, stages, order[..], first)
      invariant forall i: nat :: i < |bins| ==> StepsDone(stages[i]) == multiset(schedule[..m])[i]
    {
      OneMoreStep(schedule, |bins|, m);
      var i := schedule[m];
      var b := bins[i];
      match stages[i]
      case Waiting =>
        DrawTicket(bins, stages, counts[..], i);
        DrawKeepsStores(bins, stages, order[..], first, i, counts[b]);
        stages := stages[i := Drawn(counts[b])];
        counts[b] := counts[b] + 1;
      case Drawn(t) =>
        StoreKeepsTickets(bins, stages, counts[..], i);
        StoreIndex(bins, stages, counts[..], order[..], first, i);
        stages := stages[i := Stored(t)];
        order[offsets[b] + t] := first + i;
    }
    assert schedule[..|schedule|] == schedule;
    PlacedAll(bins, stages, counts[..], order[..], first);
    forall b: nat | b < counts.Length
      ensures counts[b] == Size(bins, b)
    {
      AllHeld(bins, stages, b);
    }
  }

  lemma NothingDrawn(bins: seq<nat>, stages: seq<Stage>, counts: seq<nat>)
    requires |stages| == |bins| && forall i: nat :: i < |bins| ==> bins[i] < |counts| && stages[i] == Waiting
    requires forall b: nat :: b < |counts| ==> counts[b] == 0
    ensures TicketsInv(bins, stages, counts)
  {
    forall b: nat | b < |counts|
      ensures Holders(bins, stages, b) == {}
    {
    }
  }

  lemma DrawKeepsStores(bins: seq<nat>, stages: seq<Stage>, order: seq<nat>, first: nat, i: nat, t: nat)
    requires StoresInv(bins, stages, order, first) && i < |bins| && stages[i].Waiting?
    ensures StoresInv(bins, stages[i := Drawn(t)], order, first)
  {
    var stages' := stages[i := Drawn(t)];
    forall j: nat | j < |bins|
      ensures StoreOk(bins, stages', order, first, j)
    {
      assert StoreOk(bins, stages, order, first, j);
    }
  }
}
