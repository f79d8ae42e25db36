/** Theorems about whole runs of concurrent `insert` calls, and about the table they leave behind. */
module InsertRuns {
  import opened Bitsets
  import opened Counting
  import opened UnorderedMap
  import opened InsertInvariant
  import opened InsertSteps
  import opened InsertTheorems

  // ---------------------------------------------------------------- runs

  ghost predicate Picks<K, V>(s: State<K, V>, schedule: seq<nat>) {
    forall i: nat :: i < |schedule| ==> schedule[i] < |s.calls|
  }

  /** The state and the lists after the calls named in `schedule` have taken one step each, in order. */
  ghost function Run<K, V>(c: Config<K>, s: State<K, V>, lists: Lists, schedule: seq<nat>): (r: (State<K, V>, Lists))
    requires Inv(c, s, lists) && Picks(s, schedule)
    ensures Inv(c, r.0, r.1) && |r.0.calls| == |s.calls|
    decreases |schedule|
  {
    if schedule == [] then (s, lists) else
      var n := |schedule| - 1;
      var (s1, lists1) := Run(c, s, lists, schedule[..n]);
      StepKeeps(c, s1, lists1, schedule[n]);
      (Step(c, s1, schedule[n]), ListsAfter(c, s1.table, lists1, s1.calls[schedule[n]]))
  }

  /** The empty table, with an empty list in every bucket. */
  ghost function NoLists<K, V>(s: State<K, V>): Lists {
    seq(|s.table.heads|, _ => [])
  }

  /**
   Every state that any number of calls reaches from an empty table, in any interleaving: the links in
   memory are finite, acyclic, pairwise disjoint lists of claimed entries, each in the bucket of its key
   and with keys that differ; an unlisted entry has no successor; every claimed index is listed or held by
   one call; every call in flight stands at the end of a prefix without its key; and giving an index
   back never finds it already free.
   */
  lemma EveryReachableState<K, V>(c: Config<K>, s: State<K, V>, schedule: seq<nat>)
    requires Init(s) && Picks(s, schedule)
    ensures Inv(c, s, NoLists(s))
    ensures var (s', lists) := Run(c, s, NoLists(s), schedule);
            && Linked(s'.table, lists) && Disjoint(lists) && Placed(c, s'.table, lists) && KeysDiffer(s'.table, lists)
            && Conserved(s'.table, lists, s'.calls) && !s'.table.warned
            && (forall t: nat :: t < |s'.calls| && !s'.calls[t].pc.Start? && !s'.calls[t].pc.Done? ==>
                  WalkOk(c, s'.table, lists, s'.calls[t]))
  {
    InitHolds(c, s);
    hide Linked, Disjoint, Placed, KeysDiffer, Conserved, WalkOk, HoldOk, ResultOk, Init;
    var (s', lists) := Run(c, s, NoLists(s), schedule);
    forall t: nat | t < |s'.calls| && !s'.calls[t].pc.Start? && !s'.calls[t].pc.Done?
      ensures WalkOk(c, s'.table, lists, s'.calls[t])
    {
      assert CallOk(c, s'.table, lists, s'.calls[t]);
    }
  }

  /** The calls that returned during the run, in the order of their last steps. */
  ghost function Returned<K, V>(c: Config<K>, s: State<K, V>, lists: Lists, schedule: seq<nat>): seq<nat>
    requires Inv(c, s, lists) && Picks(s, schedule)
    decreases |schedule|
  {
    if schedule == [] then [] else
      var n := |schedule| - 1;
      var t := schedule[n];
      var before, after := Run(c, s, lists, schedule[..n]).0, Run(c, s, lists, schedule).0;
      Returned(c, s, lists, schedule[..n]) + if !before.calls[t].pc.Done? && after.calls[t].pc.Done? then [t] else []
  }

  /** What executing the calls of `order` one after the other makes of the map. */
  function Replay<K(==), V>(m: map<K, V>, calls: seq<Call<K, V>>, order: seq<nat>): map<K, V>
    requires forall i: nat :: i < |order| ==> order[i] < |calls|
    decreases |order|
  {
    if order == [] then m else
      var n := |order| - 1;
      var m1, call := Replay(m, calls, order[..n]), calls[order[n]];
      if Succeeded(call) then m1[call.key := call.value] else m1
  }

  /** Executed in this order, every call reports what insert-if-absent must report. */
  ghost predicate Explains<K, V>(m: map<K, V>, calls: seq<Call<K, V>>, order: seq<nat>) {
    && (forall i: nat :: i < |order| ==> order[i] < |calls| && calls[order[i]].pc.Done?)
    && (forall i: nat, j: nat :: i < j < |order| ==> order[i] != order[j])
    && (forall n: nat :: n < |order| ==> ReportsRight(Replay(m, calls, order[..n]), calls[order[n]]))
  }

  /** Success means the key was absent, "existing" means it was present; a failed call reports neither. */
  ghost predicate ReportsRight<K, V>(m: map<K, V>, call: Call<K, V>) {
    && call.pc.Done?
    && (call.pc.result.success ==> call.key !in m)
    && (call.pc.result.existing ==> call.key in m)
  }

  lemma ReplayStable<K, V>(m: map<K, V>, calls: seq<Call<K, V>>, calls': seq<Call<K, V>>, order: seq<nat>)
    requires |calls'| == |calls|
    requires forall i: nat :: i < |order| ==> order[i] < |calls| && calls[order[i]] == calls'[order[i]]
    ensures Replay(m, calls, order) == Replay(m, calls', order)
    decreases |order|
  {
    if order != [] {
      ReplayStable(m, calls, calls', order[..|order| - 1]);
    }
  }

  lemma ExplainsStable<K, V>(m: map<K, V>, calls: seq<Call<K, V>>, calls': seq<Call<K, V>>, order: seq<nat>)
    requires Explains(m, calls, order) && |calls'| == |calls|
    requires forall i: nat :: i < |order| ==> calls[order[i]] == calls'[order[i]]
    ensures Explains(m, calls', order)
  {
    forall n: nat | n < |order|
      ensures ReportsRight(Replay(m, calls', order[..n]), calls'[order[n]])
    {
      ReplayStable(m, calls, calls', order[..n]);
    }
  }

  lemma ExplainsOneMore<K, V>(m: map<K, V>, calls: seq<Call<K, V>>, order: seq<nat>, t: nat)
    requires Explains(m, calls, order) && t < |calls| && t !in order
    requires ReportsRight(Replay(m, calls, order), calls[t])
    ensures Explains(m, calls, order + [t])
    ensures Replay(m, calls, order + [t]) ==
            if Succeeded(calls[t]) then Replay(m, calls, order)[calls[t].key := calls[t].value]
            else Replay(m, calls, order)
  {
    ReplayOneMore(m, calls, order, t);
    hide Replay;
    var order' := order + [t];
    forall n: nat | n < |order'|
      ensures ReportsRight(Replay(m, calls, order'[..n]), calls[order'[n]])
    {
      if n < |order| {
        assert order'[..n] == order[..n];
      } else {
        assert order'[..n] == order;
      }
    }
  }

  lemma ReplayOneMore<K, V>(m: map<K, V>, calls: seq<Call<K, V>>, order: seq<nat>, t: nat)
    requires t < |calls| && forall i: nat :: i < |order| ==> order[i] < |calls|
    ensures Replay(m, calls, order + [t]) ==
            if Succeeded(calls[t]) then Replay(m, calls, order)[calls[t].key := calls[t].value]
            else Replay(m, calls, order)
  {
    assert (order + [t])[..|order|] == order;
  }

  /**
   Linearizability over every interleaving: the calls that have returned, taken in the order of
   their last steps, are a sequential execution of insert-if-absent that reports the same results
   and produces the same map.
   */
  lemma {:induction false} Linearizable<K, V>(c: Config<K>, s: State<K, V>, lists: Lists, schedule: seq<nat>)
    requires Inv(c, s, lists) && Picks(s, schedule)
    requires forall t: nat :: t < |s.calls| ==> s.calls[t].pc.Start?
    ensures var (s', lists') := Run(c, s, lists, schedule);
            var order := Returned(c, s, lists, schedule);
            && Explains(Contents(s.table, lists), s'.calls, order)
            && Replay(Contents(s.table, lists), s'.calls, order) == Contents(s'.table, lists')
            && (forall t: nat :: t < |s'.calls| ==> (t in order <==> s'.calls[t].pc.Done?))
    decreases |schedule|
  {
    if schedule != [] {
      hide Inv, Contents, Safe, Explains, Replay, ReportsRight;
      var n := |schedule| - 1;
      var t := schedule[n];
      assert Picks(s, schedule[..n]);
      Linearizable(c, s, lists, schedule[..n]);
      LinearStep(c, s, lists, schedule);
    }
  }

  /**
   The insert phase as a whole: from an empty table, under every interleaving, the calls that have
   returned are a sequential insert-if-absent run into an empty map with the same results; calls for one
   key that did not fail agree on its index, and at most one of them succeeded.
   */
  lemma ConcurrentInserts<K, V>(c: Config<K>, s: State<K, V>, schedule: seq<nat>)
    requires Init(s) && Picks(s, schedule)
    ensures Inv(c, s, NoLists(s))
    ensures var (s', lists) := Run(c, s, NoLists(s), schedule);
            var order := Returned(c, s, NoLists(s), schedule);
            && Explains(map[], s'.calls, order) && Replay(map[], s'.calls, order) == Contents(s'.table, lists)
            && (forall t: nat :: t < |s'.calls| ==> (t in order <==> s'.calls[t].pc.Done?))
            && (forall t: nat, u: nat :: t < |s'.calls| && u < |s'.calls| ==> Agree(s'.calls[t], s'.calls[u], t == u))
  {
    InitHolds(c, s);
    NothingStored(s);
    assert forall t: nat :: t < |s.calls| ==> s.calls[t].pc.Start?;
    hide Inv, Init, Contents, Explains, Replay, Safe;
    Linearizable(c, s, NoLists(s), schedule);
    var (s', lists) := Run(c, s, NoLists(s), schedule);
    forall t: nat, u: nat | t < |s'.calls| && u < |s'.calls|
      ensures Agree(s'.calls[t], s'.calls[u], t == u)
    {
      if s'.calls[t].key == s'.calls[u].key && GotIndex(s'.calls[t]) && GotIndex(s'.calls[u]) {
        CallsAgree(c, s', lists, t, u);
      }
    }
  }

  predicate GotIndex<K, V>(call: Call<K, V>) {
    call.pc.Done? && call.pc.result.index.To?
  }

  /** Two calls for one key that returned an index returned the same one, and are one call if both succeeded. */
  ghost predicate Agree<K, V>(a: Call<K, V>, b: Call<K, V>, same: bool) {
    a.key == b.key && GotIndex(a) && GotIndex(b) ==>
      && a.pc.result.index == b.pc.result.index
      && (a.pc.result.success && b.pc.result.success ==> same)
  }

  lemma NothingStored<K, V>(s: State<K, V>)
    ensures Contents(s.table, NoLists(s)) == map[]
  {
    assert Entries(NoLists(s)) == {};
    assert KeySet(s.table, NoLists(s)) == {};
  }

  lemma LinearStep<K, V>(c: Config<K>, s: State<K, V>, lists: Lists, schedule: seq<nat>)
    requires Inv(c, s, lists) && Picks(s, schedule) && schedule != []
    requires var front := schedule[..|schedule| - 1];
             Picks(s, front) &&
             var (s1, lists1) := Run(c, s, lists, front);
             var order := Returned(c, s, lists, front);
             && Explains(Contents(s.table, lists), s1.calls, order)
             && Replay(Contents(s.table, lists), s1.calls, order) == Contents(s1.table, lists1)
             && (forall t: nat :: t < |s1.calls| ==> (t in order <==> s1.calls[t].pc.Done?))
    ensures var (s', lists') := Run(c, s, lists, schedule);
            var order := Returned(c, s, lists, schedule);
            && Explains(Contents(s.table, lists), s'.calls, order)
            && Replay(Contents(s.table, lists), s'.calls, order) == Contents(s'.table, lists')
            && (forall t: nat :: t < |s'.calls| ==> (t in order <==> s'.calls[t].pc.Done?))
  {
    hide Inv, Contents, Safe, Advance, Explains, Replay, Atomic;
    var front, t := schedule[..|schedule| - 1], schedule[|schedule| - 1];
    var (s1, lists1) := Run(c, s, lists, front);
    var (s', lists') := Run(c, s, lists, schedule);
    StepIsAtomic(c, s1, lists1, t);
    DoneStays(c, s1.table, s1.calls[t]);
    ExtendOrder(Contents(s.table, lists), s1.calls, Returned(c, s, lists, front), t, s'.calls[t],
                Contents(s1.table, lists1), Contents(s'.table, lists'));
  }

  /** The purely sequential part of the argument: one more atomic step of call `t`. */
  lemma ExtendOrder<K, V>(m: map<K, V>, calls: seq<Call<K, V>>, order: seq<nat>, t: nat, call': Call<K, V>,
                          m1: map<K, V>, m': map<K, V>)
    requires Explains(m, calls, order) && Replay(m, calls, order) == m1 && t < |calls|
    requires forall u: nat :: u < |calls| ==> (u in order <==> calls[u].pc.Done?)
    requires Atomic(m1, m', calls[t], call') && (calls[t].pc.Done? ==> call' == calls[t])
    ensures var calls' := calls[t := call'];
            var order' := order + if !calls[t].pc.Done? && call'.pc.Done? then [t] else [];
            && Explains(m, calls', order') && Replay(m, calls', order') == m'
            && (forall u: nat :: u < |calls'| ==> (u in order' <==> calls'[u].pc.Done?))
  {
    assert forall i: nat :: i < |order| ==> order[i] in order && order[i] < |calls|;
    hide Explains, Replay;
    var calls' := calls[t := call'];
    ExplainsStable(m, calls, calls', order);
    ReplayStable(m, calls, calls', order);
    if !calls[t].pc.Done? && call'.pc.Done? {
      ExplainsOneMore(m, calls', order, t);
    } else {
      assert order + [] == order;
    }
  }

  lemma DoneStays<K, V>(c: Config<K>, tb: Table<K, V>, call: Call<K, V>)
    requires Safe(c, tb, call)
    ensures call.pc.Done? ==> Advance(c, tb, call) == (tb, call)
    ensures Advance(c, tb, call).1.key == call.key && Advance(c, tb, call).1.value == call.value
  {
  }

  // ---------------------------------------------------------------- what the calls report

  /** A call that returned an index returned the entry of its key; a winner's value is stored there. */
  lemma ResultIsStored<K, V>(c: Config<K>, s: State<K, V>, lists: Lists, t: nat)
    requires Inv(c, s, lists) && t < |s.calls|
    requires s.calls[t].pc.Done? && s.calls[t].pc.result.index.To?
    ensures var call, m := s.calls[t], Contents(s.table, lists);
            && call.key in m
            && call.pc.result.index.index == IndexOf(s.table, lists, call.key)
            && (call.pc.result.success ==> m[call.key] == call.value)
  {
    var call := s.calls[t];
    assert CallOk(c, s.table, lists, call);
    ContentsAt(c, s.table, lists, call.key, call.pc.result.index.index);
  }

  /** Calls for the same key never return different entries, and at most one of them reports success. */
  lemma CallsAgree<K, V>(c: Config<K>, s: State<K, V>, lists: Lists, t: nat, u: nat)
    requires Inv(c, s, lists) && t < |s.calls| && u < |s.calls| && s.calls[t].key == s.calls[u].key
    requires s.calls[t].pc.Done? && s.calls[t].pc.result.index.To?
    requires s.calls[u].pc.Done? && s.calls[u].pc.result.index.To?
    ensures s.calls[t].pc.result.index == s.calls[u].pc.result.index
    ensures s.calls[t].pc.result.success && s.calls[u].pc.result.success ==> t == u
  {
    ResultIsStored(c, s, lists, t);
    ResultIsStored(c, s, lists, u);
  }

  lemma StepKeepsEntry<K, V>(c: Config<K>, s: State<K, V>, lists: Lists, t: nat, k: K)
    requires Inv(c, s, lists) && t < |s.calls| && k in Contents(s.table, lists)
    ensures Safe(c, s.table, s.calls[t])
    ensures var s', lists' := Step(c, s, t), ListsAfter(c, s.table, lists, s.calls[t]);
            && k in Contents(s'.table, lists')
            && IndexOf(s'.table, lists', k) == IndexOf(s.table, lists, k)
            && Contents(s'.table, lists')[k] == Contents(s.table, lists)[k]
  {
    StepKeeps(c, s, lists, t);
    var s', lists' := Step(c, s, t), ListsAfter(c, s.table, lists, s.calls[t]);
    hide Advance, Framed, Linked, Disjoint, Placed, KeysDiffer, CallOk, Conserved;
    var x :| Framed(s.table, lists, s'.table, lists', x);
    var i := IndexOf(s.table, lists, k);
    FramedStores(s.table, lists, s'.table, lists', x, k, i);
    ContentsAt(c, s'.table, lists', k, i);
  }

  /** Once linked, an entry keeps its key and its value for the rest of every run. */
  lemma {:induction false} EntriesStay<K, V>(c: Config<K>, s: State<K, V>, lists: Lists, schedule: seq<nat>, k: K)
    requires Inv(c, s, lists) && Picks(s, schedule) && k in Contents(s.table, lists)
    ensures var (s', lists') := Run(c, s, lists, schedule);
            && k in Contents(s'.table, lists')
            && IndexOf(s'.table, lists', k) == IndexOf(s.table, lists, k)
            && Contents(s'.table, lists')[k] == Contents(s.table, lists)[k]
    decreases |schedule|
  {
    hide Inv, Safe, Contents, Stores, KeySet, Advance;
    if schedule != [] {
      var front, t := schedule[..|schedule| - 1], schedule[|schedule| - 1];
      assert Picks(s, front);
      EntriesStay(c, s, lists, front, k);
      var (s1, lists1) := Run(c, s, lists, front);
      StepKeepsEntry(c, s1, lists1, t, k);
    }
  }

  // ---------------------------------------------------------------- conservation of bits

  ghost function Holders<K, V>(s: State<K, V>): set<nat> {
    set t: nat | t < |s.calls| && Held(s.calls[t]).To?
  }

  /**
   Conservation: the claimed bits are the linked entries and the held entries, each once. An entry
   still held by a call that has returned was abandoned after the failed flag went up.
   */
  lemma ClaimedBits<K, V>(c: Config<K>, s: State<K, V>, lists: Lists)
    requires Inv(c, s, lists)
    ensures |Members(s.table.bits)| == |Contents(s.table, lists)| + |Holders(s)|
    ensures forall t :: t in Holders(s) && s.calls[t].pc.Done? ==>
              s.table.failed && !s.calls[t].pc.result.success && !s.calls[t].pc.result.existing
  {
    var held := set t | t in Holders(s) :: Held(s.calls[t]).index;
    HeldIndices(c, s, lists, held);
    ListedEntries(c, s.table, lists);
    MembersSplit(c, s, lists, held);
    forall t | t in Holders(s) && s.calls[t].pc.Done?
      ensures s.table.failed && !s.calls[t].pc.result.success && !s.calls[t].pc.result.existing
    {
      assert CallOk(c, s.table, lists, s.calls[t]);
    }
  }

  lemma HeldIndices<K, V>(c: Config<K>, s: State<K, V>, lists: Lists, held: set<nat>)
    requires Inv(c, s, lists) && held == set t | t in Holders(s) :: Held(s.calls[t]).index
    ensures |held| == |Holders(s)|
  {
    hide Shape, CallOk, WinnersDiffer, Has;
    var index := map t | t in Holders(s) :: Held(s.calls[t]).index;
    ImageSize(Holders(s), index, held);
  }

  lemma ListedEntries<K, V>(c: Config<K>, tb: Table<K, V>, lists: Lists)
    requires Shape(c, tb, lists)
    ensures |Entries(lists)| == |Contents(tb, lists)|
  {
    var m := Contents(tb, lists);
    var entry := map k | k in m.Keys :: IndexOf(tb, lists, k);
    forall k | k in m.Keys
      ensures entry[k] in Entries(lists)
    {
      EntriesAreListed(lists, entry[k]);
    }
    forall i | i in Entries(lists)
      ensures exists k :: k in m.Keys && entry[k] == i
    {
      EntriesAreListed(lists, i);
      assert Stores(tb, lists, tb.keys[i], i);
      ContentsAt(c, tb, lists, tb.keys[i], i);
    }
    ImageSize(m.Keys, entry, Entries(lists));
  }

  lemma MembersSplit<K, V>(c: Config<K>, s: State<K, V>, lists: Lists, held: set<nat>)
    requires Inv(c, s, lists) && held == set t | t in Holders(s) :: Held(s.calls[t]).index
    ensures Members(s.table.bits) == Entries(lists) + held && Entries(lists) !! held
  {
    hide Linked, Disjoint, KeysDiffer, WinnersDiffer, LiveOk, ResultOk, Has;
    forall i: nat
      ensures i in Entries(lists) <==> Listed(lists, i)
      ensures i in held ==> i < s.table.Capacity() && Has(s.table.bits, i) && !Listed(lists, i)
      ensures i < s.table.Capacity() && Has(s.table.bits, i) && !Listed(lists, i) ==> i in held
      ensures Listed(lists, i) ==> i < s.table.Capacity() && Has(s.table.bits, i)
    {
      EntriesAreListed(lists, i);
      if i in held {
        var t :| t in Holders(s) && Held(s.calls[t]).index == i;
        assert CallOk(c, s.table, lists, s.calls[t]);
      }
      if i < s.table.Capacity() && Has(s.table.bits, i) && !Listed(lists, i) {
        assert HeldBySome(s.calls, i);
        var t: nat :| t < |s.calls| && Held(s.calls[t]) == To(i);
        assert t in Holders(s);
      }
    }
  }

  /**
   `size()`: recounts the claimed bits when the table was modified. When every call has returned and
   none failed, that is the number of distinct keys.
   */
  method Size<K, V>(c: Config<K>, s: State<K, V>, ghost lists: Lists, cached: nat) returns (size: nat, table: Table<K, V>)
    requires Inv(c, s, lists)
    ensures table == if s.table.Capacity() == 0 then s.table else s.table.(modified := false)
    ensures s.table.modified && s.table.Capacity() > 0 ==> size == |Members(s.table.bits)|
    ensures !s.table.modified && s.table.Capacity() > 0 ==> size == cached
    ensures
      && (s.table.modified || s.table.Capacity() == 0)
      && (forall t: nat :: t < |s.calls| ==> s.calls[t].pc.Done? && s.calls[t].pc.result.index.To?) ==>
        size == |Contents(s.table, lists)|
  {
    ClaimedBits(c, s, lists);
    size, table := cached, s.table;
    if s.table.Capacity() == 0 {
      size := 0;
      assert Members(s.table.bits) == {};
    } else {
      if s.table.modified {
        size := Count(s.table.bits);
      }
      table := s.table.(modified := false);
    }
    if forall t: nat :: t < |s.calls| ==> s.calls[t].pc.Done? && s.calls[t].pc.result.index.To? {
      assert Holders(s) == {};
    }
  }

  // ---------------------------------------------------------------- lookups

  /** `find(k)`: walks the list of the key's bucket. */
  method Find<K(==), V>(c: Config<K>, tb: Table<K, V>, ghost lists: Lists, k: K) returns (curr: Link)
    requires Shape(c, tb, lists)
    ensures curr.To? <==> k in Contents(tb, lists)
    ensures curr.To? ==> curr.index == IndexOf(tb, lists, k)
  {
    hide Linked, Placed, Disjoint, KeysDiffer, Contents;
    ghost var l := lists[Bucket(c, tb, k)];
    ghost var p := 0;
    curr := if 0 < tb.Capacity() then tb.heads[c.hash(k) % |tb.heads|] else Nil;
    BucketList(c, tb, lists, k);
    while curr != Nil && tb.keys[curr.index] != k
      invariant p <= |l| && curr == LinkAt(l, p)
      invariant forall j: nat :: j < p ==> tb.keys[l[j]] != k
      decreases |l| - p
    {
      curr := tb.nexts[curr.index];
      p := p + 1;
    }
    WalkEnds(c, tb, lists, k, p);
  }

  lemma BucketList<K, V>(c: Config<K>, tb: Table<K, V>, lists: Lists, k: K)
    requires Shape(c, tb, lists)
    ensures var b := Bucket(c, tb, k);
            && tb.heads[b] == LinkAt(lists[b], 0)
            && (tb.Capacity() == 0 ==> lists[b] == [])
            && forall j: nat :: j < |lists[b]| ==>
                 && lists[b][j] < tb.Capacity()
                 && tb.nexts[lists[b][j]] == LinkAt(lists[b], j + 1)
  {
    hide Disjoint, KeysDiffer;
  }

  lemma WalkEnds<K, V>(c: Config<K>, tb: Table<K, V>, lists: Lists, k: K, p: nat)
    requires Shape(c, tb, lists)
    requires var l := lists[Bucket(c, tb, k)];
             && p <= |l|
             && (forall j: nat :: j < p ==> l[j] < |tb.keys| && tb.keys[l[j]] != k)
             && (p < |l| ==> l[p] < |tb.keys| && tb.keys[l[p]] == k)
    ensures k in Contents(tb, lists) <==> p < |lists[Bucket(c, tb, k)]|
    ensures k in Contents(tb, lists) ==> IndexOf(tb, lists, k) == lists[Bucket(c, tb, k)][p]
  {
    hide Disjoint, KeysDiffer, Has, Linked;
    var l := lists[Bucket(c, tb, k)];
    KeySetStores(tb, lists, k);
    if p < |l| {
      assert Stores(tb, lists, k, l[p]);
      ContentsAt(c, tb, lists, k, l[p]);
    }
  }

  /** `exists(k)`. */
  method Exists<K(==), V>(c: Config<K>, tb: Table<K, V>, ghost lists: Lists, k: K) returns (present: bool)
    requires Shape(c, tb, lists)
    ensures present <==> k in Contents(tb, lists)
  {
    var curr := Find(c, tb, lists, k);
    present := curr.To? && Has(tb.bits, curr.index);
    if curr.To? {
      EntriesAreListed(lists, curr.index);
    }
  }
}
