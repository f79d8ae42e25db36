/**
 What every step of every interleaving of `insert` calls keeps. `lists[b]` spells out the entries
 linked from bucket `b`, in order.
 */
module InsertInvariant {
  import opened Bitsets
  import opened UnorderedMap

  type Lists = seq<seq<nat>>

  ghost predicate Listed(lists: Lists, i: nat) {
    exists b: nat, j: nat :: b < |lists| && j < |lists[b]| && lists[b][j] == i
  }

  /** What the `j`-th slot of a list holds. */
  function LinkAt(l: seq<nat>, j: nat): Link {
    if j < |l| then To(l[j]) else Nil
  }

  /** The `j`-th slot of the list of bucket `b`. */
  function SlotAt(b: nat, l: seq<nat>, j: nat): Slot
    requires j <= |l|
  {
    if j == 0 then Head(b) else Next(l[j - 1])
  }

  // ---------------------------------------------------------------- the shared table

  /** The links in memory are exactly the lists; an unlisted entry has no successor. */
  ghost predicate Linked<K, V>(tb: Table<K, V>, lists: Lists) {
    && |lists| == |tb.heads|
    && (forall b: nat :: b < |lists| ==> tb.heads[b] == LinkAt(lists[b], 0))
    && (forall b: nat, j: nat :: b < |lists| && j < |lists[b]| ==>
          lists[b][j] < |tb.nexts| && tb.nexts[lists[b][j]] == LinkAt(lists[b], j + 1))
    && (forall i: nat :: i < |tb.nexts| && !Listed(lists, i) ==> tb.nexts[i] == Nil)
  }

  /** No entry is linked twice: lists are acyclic and pairwise disjoint. */
  ghost predicate Disjoint(lists: Lists) {
    forall b: nat, j: nat, b': nat, j': nat ::
      b < |lists| && j < |lists[b]| && b' < |lists| && j' < |lists[b']| && lists[b][j] == lists[b'][j'] ==>
        b == b' && j == j'
  }

  /** Linked entries are claimed, lie in range and in the bucket their key hashes to. */
  ghost predicate Placed<K, V>(c: Config<K>, tb: Table<K, V>, lists: Lists) {
    && |tb.heads| > 0
    && forall b: nat, j: nat :: b < |lists| && j < |lists[b]| ==>
         && lists[b][j] < tb.Capacity() && lists[b][j] < |tb.keys|
         && Has(tb.bits, lists[b][j])
         && Bucket(c, tb, tb.keys[lists[b][j]]) == b
  }

  /** No key is linked twice. */
  ghost predicate KeysDiffer<K, V>(tb: Table<K, V>, lists: Lists) {
    forall b: nat, j: nat, j': nat :: b < |lists| && j < j' < |lists[b]| ==>
      && lists[b][j] < |tb.keys| && lists[b][j'] < |tb.keys|
      && tb.keys[lists[b][j]] != tb.keys[lists[b][j']]
  }

  ghost predicate Shape<K, V>(c: Config<K>, tb: Table<K, V>, lists: Lists) {
    |lists| == |tb.heads| && tb.Sized() && Linked(tb, lists) && Disjoint(lists) && Placed(c, tb, lists) && KeysDiffer(tb, lists)
  }

  // ---------------------------------------------------------------- the calls

  /** The entry a call has claimed and neither linked nor given back. */
  function Held<K, V>(call: Call<K, V>): Link {
    if call.pc.Done? && call.pc.result.index.To? then Nil else call.claimed
  }

  /** A held entry is claimed in the bitset, unlisted, and holds what has been written so far. */
  ghost predicate HoldOk<K, V>(tb: Table<K, V>, lists: Lists, call: Call<K, V>) {
    Held(call).To? ==>
      var i := Held(call).index;
      && i < tb.Capacity() && i < |tb.keys| && i < |tb.values|
      && Has(tb.bits, i) && !Listed(lists, i)
      && (!call.pc.WriteKey? ==> tb.keys[i] == call.key)
      && (!call.pc.WriteKey? && !call.pc.WriteValue? ==> tb.values[i] == call.value)
  }

  /** `curr_ptr` is the end of a list prefix that holds no equal key. */
  ghost predicate WalkOk<K, V>(c: Config<K>, tb: Table<K, V>, lists: Lists, call: Call<K, V>) {
    && |tb.heads| == |lists| > 0 && tb.Capacity() > 0
    && var b := Bucket(c, tb, call.key);
       && call.visited <= |lists[b]|
       && call.ptr == SlotAt(b, lists[b], call.visited)
       && forall j: nat :: j < call.visited ==>
            lists[b][j] < |tb.keys| && tb.keys[lists[b][j]] != call.key
  }

  /** A loaded link that is not `Nil` is the next entry of the list. */
  ghost predicate CurrOk<K, V>(c: Config<K>, tb: Table<K, V>, lists: Lists, call: Call<K, V>)
    requires WalkOk(c, tb, lists, call)
  {
    var b := Bucket(c, tb, call.key);
    call.curr.To? ==> call.visited < |lists[b]| && call.curr.index == lists[b][call.visited]
  }

  /** A returned index is linked and stores the key; a successful call's value is stored there. */
  ghost predicate ResultOk<K, V>(tb: Table<K, V>, lists: Lists, call: Call<K, V>, r: Result) {
    && (r.index.To? <==> r.success || r.existing)
    && !(r.success && r.existing)
    && (r.index.To? ==>
          && Listed(lists, r.index.index) && r.index.index < |tb.keys|
          && tb.keys[r.index.index] == call.key)
    && (r.success ==> r.index.index < |tb.values| && tb.values[r.index.index] == call.value)
    && (Held(call).To? ==> tb.failed)
  }

  /** What holds of a call between its first and its last step. */
  ghost predicate LiveOk<K, V>(c: Config<K>, tb: Table<K, V>, lists: Lists, call: Call<K, V>) {
    var pc := call.pc;
    && WalkOk(c, tb, lists, call)
    && call.hint / 32 < |tb.bits.blocks|
    && (pc.RaiseFailed? || call.attempts < MaxAttempts(c, tb))
    && (pc.Compare? || pc.Release? ==> CurrOk(c, tb, lists, call))
    && (pc.Release? ==> call.curr.To? && call.curr.index < |tb.keys| && tb.keys[call.curr.index] == call.key)
    && (pc.Scan? || pc.Claim? || pc.RaiseFailed? ==> call.claimed == Nil)
    && (pc.Release? || pc.WriteKey? || pc.WriteValue? || pc.CheckFailed? || pc.Append? ==> call.claimed.To?)
    && (pc.Append? && call.lastTry ==> tb.failed)
  }

  ghost predicate CallOk<K, V>(c: Config<K>, tb: Table<K, V>, lists: Lists, call: Call<K, V>) {
    && HoldOk(tb, lists, call)
    && if call.pc.Start? then call == NewCall(call.key, call.value)
       else if call.pc.Done? then ResultOk(tb, lists, call, call.pc.result)
       else LiveOk(c, tb, lists, call)
  }

  // ---------------------------------------------------------------- ownership of entries

  ghost predicate HeldBySome<K, V>(calls: seq<Call<K, V>>, i: nat) {
    exists t: nat :: t < |calls| && Held(calls[t]) == To(i)
  }

  /** Every claimed entry is linked or held, and by one call only. */
  ghost predicate Conserved<K, V>(tb: Table<K, V>, lists: Lists, calls: seq<Call<K, V>>) {
    && (forall i: nat :: i < tb.Capacity() && Has(tb.bits, i) ==> Listed(lists, i) || HeldBySome(calls, i))
    && (forall t: nat, u: nat :: t < u < |calls| && Held(calls[t]).To? ==> Held(calls[t]) != Held(calls[u]))
  }

  predicate Succeeded<K, V>(call: Call<K, V>) {
    call.pc.Done? && call.pc.result.success
  }

  ghost predicate WinnersDiffer<K, V>(calls: seq<Call<K, V>>) {
    forall t: nat, u: nat :: t < u < |calls| && Succeeded(calls[t]) && Succeeded(calls[u]) ==>
      calls[t].pc.result.index != calls[u].pc.result.index
  }

  ghost predicate Inv<K, V>(c: Config<K>, s: State<K, V>, lists: Lists) {
    && Shape(c, s.table, lists)
    && (forall t: nat :: t < |s.calls| ==> CallOk(c, s.table, lists, s.calls[t]))
    && Conserved(s.table, lists, s.calls)
    && WinnersDiffer(s.calls)
    && !s.table.warned
  }

  lemma InitHolds<K, V>(c: Config<K>, s: State<K, V>)
    requires Init(s)
    ensures Inv(c, s, seq(|s.table.heads|, _ => []))
  {
  }

  /** The next step of a call makes no access out of range. */
  lemma CallIsSafe<K, V>(c: Config<K>, tb: Table<K, V>, lists: Lists, call: Call<K, V>)
    requires Shape(c, tb, lists) && CallOk(c, tb, lists, call)
    ensures Safe(c, tb, call)
  {
  }

  // ---------------------------------------------------------------- framing

  /** From one table to the next, only the unlinked entry `x` changes, and lists only grow, by `x`. */
  ghost predicate Framed<K, V>(tb: Table<K, V>, lists: Lists, tb': Table<K, V>, lists': Lists, x: Link) {
    && |lists'| == |lists| && |tb'.heads| == |tb.heads|
    && tb'.Capacity() == tb.Capacity() && |tb'.bits.blocks| == |tb.bits.blocks|
    && |tb'.keys| == |tb.keys| && |tb'.values| == |tb.values|
    && (forall b: nat :: b < |lists| ==> lists[b] <= lists'[b])
    && (forall i: nat :: Listed(lists', i) ==> Listed(lists, i) || x == To(i))
    && (forall i: nat :: x != To(i) ==>
          && (Has(tb.bits, i) == Has(tb'.bits, i))
          && (i < |tb.keys| ==> tb.keys[i] == tb'.keys[i])
          && (i < |tb.values| ==> tb.values[i] == tb'.values[i]))
    && (tb.failed ==> tb'.failed)
    && (x.To? ==> !Listed(lists, x.index))
  }

  lemma StillListed(lists: Lists, lists': Lists, i: nat)
    requires |lists'| == |lists| && forall b: nat :: b < |lists| ==> lists[b] <= lists'[b]
    requires Listed(lists, i)
    ensures Listed(lists', i)
  {
    var b: nat, j: nat :| b < |lists| && j < |lists[b]| && lists[b][j] == i;
    assert lists'[b][j] == i;
  }

  lemma OtherHoldKept<K, V>(tb: Table<K, V>, lists: Lists, tb': Table<K, V>, lists': Lists,
                            x: Link, call: Call<K, V>)
    requires HoldOk(tb, lists, call)
    requires Framed(tb, lists, tb', lists', x) && (Held(call) == Nil || Held(call) != x)
    ensures HoldOk(tb', lists', call)
  {
  }

  lemma OtherWalkKept<K, V>(c: Config<K>, tb: Table<K, V>, lists: Lists, tb': Table<K, V>, lists': Lists,
                            x: Link, call: Call<K, V>)
    requires WalkOk(c, tb, lists, call) && Framed(tb, lists, tb', lists', x)
    ensures WalkOk(c, tb', lists', call)
    ensures CurrOk(c, tb, lists, call) ==> CurrOk(c, tb', lists', call)
    ensures CurrOk(c, tb, lists, call) && call.curr.To? ==> Listed(lists, call.curr.index)
  {
    var b := Bucket(c, tb, call.key);
    assert lists[b] <= lists'[b];
    forall j: nat | j < |lists[b]|
      ensures Listed(lists, lists[b][j]) && lists[b][j] == lists'[b][j]
    {
    }
  }

  lemma OtherResultKept<K, V>(tb: Table<K, V>, lists: Lists, tb': Table<K, V>, lists': Lists,
                              x: Link, call: Call<K, V>, r: Result)
    requires ResultOk(tb, lists, call, r) && Framed(tb, lists, tb', lists', x)
    ensures ResultOk(tb', lists', call, r)
  {
    if r.index.To? {
      StillListed(lists, lists', r.index.index);
    }
  }

  /** A call that does not hold `x` does not notice such a change. */
  lemma OtherCallKept<K, V>(c: Config<K>, tb: Table<K, V>, lists: Lists, tb': Table<K, V>, lists': Lists,
                            x: Link, call: Call<K, V>)
    requires Shape(c, tb, lists) && CallOk(c, tb, lists, call)
    requires Framed(tb, lists, tb', lists', x) && (Held(call) == Nil || Held(call) != x)
    ensures CallOk(c, tb', lists', call)
  {
    hide Listed;
    OtherHoldKept(tb, lists, tb', lists', x, call);
    if call.pc.Done? {
      OtherResultKept(tb, lists, tb', lists', x, call, call.pc.result);
    } else if !call.pc.Start? {
      OtherWalkKept(c, tb, lists, tb', lists', x, call);
    }
  }

  /** Puts the pieces of the invariant back together after a step of call `t`. */
  lemma Assemble<K, V>(c: Config<K>, s: State<K, V>, lists: Lists, t: nat,
                       tb': Table<K, V>, lists': Lists, call': Call<K, V>, x: Link)
    requires Inv(c, s, lists) && t < |s.calls|
    requires Shape(c, tb', lists') && CallOk(c, tb', lists', call')
    requires Framed(s.table, lists, tb', lists', x)
    requires forall u: nat :: u < |s.calls| && u != t ==> Held(s.calls[u]) == Nil || Held(s.calls[u]) != x
    requires Conserved(tb', lists', s.calls[t := call'])
    requires WinnersDiffer(s.calls[t := call'])
    requires !tb'.warned
    ensures Inv(c, State(tb', s.calls[t := call']), lists')
  {
    var calls' := s.calls[t := call'];
    forall u: nat | u < |calls'|
      ensures CallOk(c, tb', lists', calls'[u])
    {
      if u != t {
        OtherCallKept(c, s.table, lists, tb', lists', x, s.calls[u]);
      }
    }
  }
}
