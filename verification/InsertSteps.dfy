/** Every atomic step of `insert` keeps the invariant. */
module InsertSteps {
  import opened Words
  import opened Bitsets
  import opened Counting
  import opened UnorderedMap
  import opened InsertInvariant

  /** The lists after a step of a call: only a successful compare-exchange appends. */
  ghost function ListsAfter<K, V>(c: Config<K>, tb: Table<K, V>, lists: Lists, call: Call<K, V>): Lists
    requires Safe(c, tb, call) && |lists| == |tb.heads|
  {
    if call.pc.Append? && tb.Read(call.ptr) == Nil then
      var b := Bucket(c, tb, call.key);
      lists[b := lists[b] + [call.claimed.index]]
    else
      lists
  }

  // ---------------------------------------------------------------- steps that touch no entry

  /** Only the call's locals change, or a flag is raised. */
  ghost predicate LocalChange<K, V>(c: Config<K>, tb: Table<K, V>, lists: Lists, call: Call<K, V>) {
    && Safe(c, tb, call)
    && var (tb', call') := Advance(c, tb, call);
       && tb' == tb.(modified := tb'.modified, failed := tb'.failed)
       && (tb.failed ==> tb'.failed)
       && CallOk(c, tb', lists, call') && Held(call') == Held(call)
       && (Succeeded(call') ==> call' == call)
  }

  lemma StartCall<K, V>(c: Config<K>, tb: Table<K, V>, lists: Lists, call: Call<K, V>)
    requires tb.Sized() && |lists| == |tb.heads| && CallOk(c, tb, lists, call) && call.pc.Start?
    ensures LocalChange(c, tb, lists, call)
  {
    if tb.Capacity() > 0 {
      FirstHintInRange(c, tb, call.key);
    }
  }

  lemma FirstHintInRange<K, V>(c: Config<K>, tb: Table<K, V>, k: K)
    requires tb.Sized() && tb.Capacity() > 0
    ensures FirstHint(c, tb, k) / 32 < |tb.bits.blocks|
  {
    ScaledBelow(Bucket(c, tb, k), |tb.heads|, tb.Capacity());
  }

  lemma ScaledBelow(b: nat, n: nat, cap: nat)
    requires b < n && 0 < cap
    ensures b * cap / n < cap
  {
    var q := b * cap / n;
    assert b * cap == q * n + b * cap % n;
    MultiplesApart(cap, b, n);
    if q >= cap {
      assert cap * n == n * cap;
      if q > cap {
        MultiplesApart(n, cap, q);
      }
    }
  }

  /** What the slot under `curr_ptr` holds. */
  lemma SlotHolds<K, V>(c: Config<K>, tb: Table<K, V>, lists: Lists, call: Call<K, V>)
    requires tb.Sized() && Linked(tb, lists) && WalkOk(c, tb, lists, call)
    ensures tb.InRange(call.ptr)
    ensures tb.Read(call.ptr) == LinkAt(lists[Bucket(c, tb, call.key)], call.visited)
  {
  }

  lemma LoadCall<K, V>(c: Config<K>, tb: Table<K, V>, lists: Lists, call: Call<K, V>)
    requires tb.Sized() && Linked(tb, lists) && CallOk(c, tb, lists, call) && call.pc.Load?
    ensures LocalChange(c, tb, lists, call)
  {
    hide Listed, Linked;
    SlotHolds(c, tb, lists, call);
  }

  /** A loaded entry is linked, so it is in range. */
  lemma CurrEntry<K, V>(c: Config<K>, tb: Table<K, V>, lists: Lists, call: Call<K, V>)
    requires Placed(c, tb, lists) && WalkOk(c, tb, lists, call) && CurrOk(c, tb, lists, call) && call.curr.To?
    ensures call.curr.index < tb.Capacity() && call.curr.index < |tb.keys| && Listed(lists, call.curr.index)
  {
  }

  lemma CompareCall<K, V>(c: Config<K>, tb: Table<K, V>, lists: Lists, call: Call<K, V>)
    requires tb.Sized() && Placed(c, tb, lists) && CallOk(c, tb, lists, call) && call.pc.Compare?
    ensures LocalChange(c, tb, lists, call)
  {
    hide Listed, Placed, Has;
    if call.curr.To? {
      CurrEntry(c, tb, lists, call);
      if tb.keys[call.curr.index] != call.key {
        CompareDiffers(c, tb, lists, call);
      }
    }
  }

  lemma CompareDiffers<K, V>(c: Config<K>, tb: Table<K, V>, lists: Lists, call: Call<K, V>)
    requires tb.Sized() && CallOk(c, tb, lists, call) && call.pc.Compare? && call.curr.To?
    requires call.curr.index < tb.Capacity() && call.curr.index < |tb.keys| && tb.keys[call.curr.index] != call.key
    ensures LocalChange(c, tb, lists, call)
  {
    WalkOneFurther(c, tb, lists, call);
    hide Listed, Has, WalkOk, CurrOk, MaskRight, TailClear;
  }

  lemma WalkOneFurther<K, V>(c: Config<K>, tb: Table<K, V>, lists: Lists, call: Call<K, V>)
    requires WalkOk(c, tb, lists, call) && CurrOk(c, tb, lists, call) && call.curr.To?
    requires call.curr.index < |tb.keys| && tb.keys[call.curr.index] != call.key
    ensures WalkOk(c, tb, lists, call.(pc := Load, visited := call.visited + 1, hint := call.curr.index,
                                       ptr := Next(call.curr.index)))
  {
  }

  lemma ScanCall<K, V>(c: Config<K>, tb: Table<K, V>, lists: Lists, call: Call<K, V>)
    requires tb.Sized() && CallOk(c, tb, lists, call) && call.pc.Scan?
    ensures LocalChange(c, tb, lists, call)
  {
    hide Has, Candidates, ScanBlock, Listed;
    FoundIsRight(tb.bits, false, call.hint, Bucket(c, tb, call.key));
  }

  lemma FlagCall<K, V>(c: Config<K>, tb: Table<K, V>, lists: Lists, call: Call<K, V>)
    requires tb.Sized() && CallOk(c, tb, lists, call)
    requires call.pc.RaiseFailed? || call.pc.CheckFailed? || call.pc.Done?
    ensures LocalChange(c, tb, lists, call)
  {
    hide Has, Listed;
  }

  lemma ClaimLostCall<K, V>(c: Config<K>, tb: Table<K, V>, lists: Lists, call: Call<K, V>)
    requires tb.Sized() && CallOk(c, tb, lists, call) && call.pc.Claim? && !SetBit(tb.bits, call.hint).1
    ensures LocalChange(c, tb, lists, call)
  {
    hide Has, Listed, SetBit;
    ClaimLost(tb.bits, call.hint);
  }

  lemma ClaimLost(b: Bits, i: nat)
    requires Valid(b) && !SetBit(b, i).1
    ensures SetBit(b, i).0 == b
  {
    SetBitAdds(b, i);
    if i < b.size {
      RewriteBit(b, i);
    }
  }

  lemma AppendLostCall<K, V>(c: Config<K>, tb: Table<K, V>, lists: Lists, call: Call<K, V>)
    requires tb.Sized() && Linked(tb, lists) && CallOk(c, tb, lists, call) && call.pc.Append?
    ensures Safe(c, tb, call)
    ensures tb.Read(call.ptr) != Nil ==> LocalChange(c, tb, lists, call)
  {
    hide Has, Listed, Linked;
    SlotHolds(c, tb, lists, call);
  }

  lemma ConservedAfter<K, V>(tb: Table<K, V>, lists: Lists, calls: seq<Call<K, V>>, t: nat, call': Call<K, V>)
    requires t < |calls| && Conserved(tb, lists, calls) && Held(call') == Held(calls[t])
    ensures Conserved(tb, lists, calls[t := call'])
  {
    var calls' := calls[t := call'];
    forall i: nat | i < tb.Capacity() && Has(tb.bits, i) && !Listed(lists, i)
      ensures HeldBySome(calls', i)
    {
      assert HeldBySome(calls, i);
      var u: nat :| u < |calls| && Held(calls[u]) == To(i);
      assert Held(calls'[u]) == To(i);
    }
  }

  lemma FlagsKeepShape<K, V>(c: Config<K>, tb: Table<K, V>, lists: Lists, tb': Table<K, V>)
    requires Shape(c, tb, lists)
    requires tb' == tb.(modified := tb'.modified, failed := tb'.failed) && (tb.failed ==> tb'.failed)
    ensures Shape(c, tb', lists) && Framed(tb, lists, tb', lists, Nil)
  {
  }

  /** A local step keeps the invariant. */
  lemma LocalStep<K, V>(c: Config<K>, s: State<K, V>, lists: Lists, t: nat)
    requires Inv(c, s, lists) && t < |s.calls| && LocalChange(c, s.table, lists, s.calls[t])
    ensures Inv(c, Step(c, s, t), lists)
    ensures Framed(s.table, lists, Step(c, s, t).table, lists, Nil)
  {
    hide CallOk, Listed, Shape, Framed, Advance, Safe, Has;
    var (tb', call') := Advance(c, s.table, s.calls[t]);
    FlagsKeepShape(c, s.table, lists, tb');
    ConservedAfter(s.table, lists, s.calls, t, call');
    Assemble(c, s, lists, t, tb', lists, call', Nil);
  }

  // ---------------------------------------------------------------- steps on one entry

  /** Only the unlinked entry `x` changes; the call's side of the step is in order. */
  ghost predicate EntryChange<K, V>(c: Config<K>, tb: Table<K, V>, lists: Lists, call: Call<K, V>, x: Link) {
    && Safe(c, tb, call)
    && var (tb', call') := Advance(c, tb, call);
       && Framed(tb, lists, tb', lists, x) && Shape(c, tb', lists) && CallOk(c, tb', lists, call')
       && !Succeeded(call') && tb'.warned == tb.warned && tb'.Capacity() == tb.Capacity()
       && (Held(call') == Nil || Held(call') == x)
       && (forall i: nat :: Has(tb'.bits, i) ==> (Has(tb.bits, i) && Held(call) != To(i)) || Held(call') == To(i))
  }

  /** Changing an unlinked entry keeps the shape of the lists. */
  lemma UnlinkedChange<K, V>(c: Config<K>, tb: Table<K, V>, lists: Lists, tb': Table<K, V>, x: Link)
    requires Shape(c, tb, lists) && Framed(tb, lists, tb', lists, x)
    requires tb'.heads == tb.heads && tb'.nexts == tb.nexts && tb'.Sized()
    ensures Shape(c, tb', lists)
  {
    forall b: nat, j: nat | b < |lists| && j < |lists[b]|
      ensures lists[b][j] < |tb.keys| && x != To(lists[b][j])
    {
      assert Listed(lists, lists[b][j]);
    }
  }

  lemma WriteKeyCall<K, V>(c: Config<K>, tb: Table<K, V>, lists: Lists, call: Call<K, V>)
    requires Shape(c, tb, lists) && CallOk(c, tb, lists, call) && call.pc.WriteKey?
    ensures EntryChange(c, tb, lists, call, call.claimed)
  {
    hide Has, Listed, Linked, Disjoint, Placed, KeysDiffer;
    var (tb', call') := Advance(c, tb, call);
    assert Framed(tb, lists, tb', lists, call.claimed);
    UnlinkedChange(c, tb, lists, tb', call.claimed);
    OtherWalkKept(c, tb, lists, tb', lists, call.claimed, call);
  }

  lemma WriteValueCall<K, V>(c: Config<K>, tb: Table<K, V>, lists: Lists, call: Call<K, V>)
    requires Shape(c, tb, lists) && CallOk(c, tb, lists, call) && call.pc.WriteValue?
    ensures EntryChange(c, tb, lists, call, call.claimed)
  {
    hide Has, Listed, Linked, Disjoint, Placed, KeysDiffer;
    var (tb', call') := Advance(c, tb, call);
    assert Framed(tb, lists, tb', lists, call.claimed);
    UnlinkedChange(c, tb, lists, tb', call.claimed);
    OtherWalkKept(c, tb, lists, tb', lists, call.claimed, call);
  }

  lemma ReleaseCall<K, V>(c: Config<K>, tb: Table<K, V>, lists: Lists, call: Call<K, V>)
    requires Shape(c, tb, lists) && CallOk(c, tb, lists, call) && call.pc.Release?
    ensures EntryChange(c, tb, lists, call, call.claimed)
  {
    hide Has, ResetBit, Listed, Linked, Disjoint, Placed, KeysDiffer;
    CurrEntry(c, tb, lists, call);
    ResetBitRemoves(tb.bits, call.claimed.index);
    var (tb', call') := Advance(c, tb, call);
    assert Framed(tb, lists, tb', lists, call.claimed);
    UnlinkedChange(c, tb, lists, tb', call.claimed);
  }

  lemma ClaimWonCall<K, V>(c: Config<K>, tb: Table<K, V>, lists: Lists, call: Call<K, V>)
    requires Shape(c, tb, lists) && CallOk(c, tb, lists, call) && call.pc.Claim? && SetBit(tb.bits, call.hint).1
    ensures EntryChange(c, tb, lists, call, To(call.hint)) && !Has(tb.bits, call.hint)
  {
    hide Has, SetBit, Listed, Linked, Disjoint, Placed, KeysDiffer;
    SetBitAdds(tb.bits, call.hint);
    UnclaimedUnlisted(c, tb, lists, call.hint);
    var (tb', call') := Advance(c, tb, call);
    assert Framed(tb, lists, tb', lists, To(call.hint));
    UnlinkedChange(c, tb, lists, tb', To(call.hint));
    OtherWalkKept(c, tb, lists, tb', lists, To(call.hint), call);
  }

  lemma UnclaimedUnlisted<K, V>(c: Config<K>, tb: Table<K, V>, lists: Lists, i: nat)
    requires Placed(c, tb, lists) && !Has(tb.bits, i)
    ensures !Listed(lists, i)
  {
  }

  lemma EntryConserved<K, V>(s: State<K, V>, lists: Lists, t: nat, tb': Table<K, V>, call': Call<K, V>)
    requires t < |s.calls| && Conserved(s.table, lists, s.calls) && tb'.Capacity() == s.table.Capacity()
    requires Held(call').To? ==> forall u: nat :: u < |s.calls| && u != t ==> Held(s.calls[u]) != Held(call')
    requires forall i: nat :: Has(tb'.bits, i) ==>
               (Has(s.table.bits, i) && Held(s.calls[t]) != To(i)) || Held(call') == To(i)
    ensures Conserved(tb', lists, s.calls[t := call'])
  {
    hide Has;
    var calls' := s.calls[t := call'];
    forall i: nat | i < tb'.Capacity() && Has(tb'.bits, i) && !Listed(lists, i)
      ensures HeldBySome(calls', i)
    {
      if To(i) == Held(call') {
        assert Held(calls'[t]) == To(i);
      } else {
        assert HeldBySome(s.calls, i);
        var u: nat :| u < |s.calls| && Held(s.calls[u]) == To(i);
        assert Held(calls'[u]) == To(i);
      }
    }
  }

  /** A step on an entry nobody else holds keeps the invariant. */
  lemma EntryStep<K, V>(c: Config<K>, s: State<K, V>, lists: Lists, t: nat, x: Link)
    requires Inv(c, s, lists) && t < |s.calls| && EntryChange(c, s.table, lists, s.calls[t], x)
    requires forall u: nat :: u < |s.calls| && u != t ==> Held(s.calls[u]) == Nil || Held(s.calls[u]) != x
    ensures Inv(c, Step(c, s, t), lists)
    ensures Framed(s.table, lists, Step(c, s, t).table, lists, x)
  {
    var (tb', call') := Advance(c, s.table, s.calls[t]);
    hide CallOk, Listed, Shape, Framed, Advance, Safe, Has, Conserved;
    EntryConserved(s, lists, t, tb', call');
    Assemble(c, s, lists, t, tb', lists, call', x);
  }

  lemma HeldElsewhere<K, V>(tb: Table<K, V>, lists: Lists, calls: seq<Call<K, V>>, t: nat)
    requires Conserved(tb, lists, calls) && t < |calls|
    ensures forall u: nat :: u < |calls| && u != t ==> Held(calls[u]) == Nil || Held(calls[u]) != Held(calls[t])
  {
  }

  lemma HeldStep<K, V>(c: Config<K>, s: State<K, V>, lists: Lists, t: nat)
    requires Inv(c, s, lists) && t < |s.calls|
    requires s.calls[t].pc.Release? || s.calls[t].pc.WriteKey? || s.calls[t].pc.WriteValue?
    ensures Safe(c, s.table, s.calls[t])
    ensures Inv(c, Step(c, s, t), lists)
    ensures Framed(s.table, lists, Step(c, s, t).table, lists, s.calls[t].claimed)
  {
    var call, tb := s.calls[t], s.table;
    assert CallOk(c, tb, lists, call) && Held(call) == call.claimed;
    hide CallOk, Shape, Conserved, EntryChange, Advance;
    HeldElsewhere(tb, lists, s.calls, t);
    match call.pc {
      case Release => ReleaseCall(c, tb, lists, call);
      case WriteKey => WriteKeyCall(c, tb, lists, call);
      case WriteValue => WriteValueCall(c, tb, lists, call);
    }
    CallIsSafe(c, tb, lists, call);
    EntryStep(c, s, lists, t, call.claimed);
  }

  lemma UnclaimedUnheld<K, V>(c: Config<K>, s: State<K, V>, lists: Lists, i: nat)
    requires Inv(c, s, lists) && !Has(s.table.bits, i)
    ensures forall u: nat :: u < |s.calls| ==> Held(s.calls[u]) != To(i)
  {
    hide Shape, Conserved, WinnersDiffer, LiveOk, ResultOk;
    forall u: nat | u < |s.calls|
      ensures Held(s.calls[u]) != To(i)
    {
      assert CallOk(c, s.table, lists, s.calls[u]);
    }
  }

  lemma BitSizes(b: Bits, i: nat)
    requires Valid(b)
    ensures i < b.size ==> i / 32 < |b.blocks|
    ensures SetBit(b, i).0.size == ResetBit(b, i).0.size == b.size
    ensures |SetBit(b, i).0.blocks| == |ResetBit(b, i).0.blocks| == |b.blocks|
  {
    hide MaskRight, TailClear, SetOne, ClearOne;
  }

  ghost predicate SameSizes<K, V>(tb: Table<K, V>, tb': Table<K, V>) {
    && |tb'.heads| == |tb.heads| && tb'.Capacity() == tb.Capacity() && |tb'.bits.blocks| == |tb.bits.blocks|
    && tb'.erasable == tb.erasable
  }

  lemma BitStepSizes<K, V>(c: Config<K>, tb: Table<K, V>, call: Call<K, V>)
    requires Safe(c, tb, call) && (call.pc.Claim? || call.pc.Release?)
    ensures SameSizes(tb, Advance(c, tb, call).0)
  {
    hide Valid, Has, SetBit, ResetBit;
    BitSizes(tb.bits, if call.pc.Claim? then call.hint else call.claimed.index);
  }

  lemma OtherStepSizes<K, V>(c: Config<K>, tb: Table<K, V>, call: Call<K, V>)
    requires Safe(c, tb, call) && !call.pc.Claim? && !call.pc.Release?
    ensures SameSizes(tb, Advance(c, tb, call).0)
  {
    hide Valid, Has, FindAny, SetBit, ResetBit, Bucket, FirstHint, MaxAttempts;
  }

  /** No step changes the sizes of the table or whether it is being erased. */
  lemma SizesStay<K, V>(c: Config<K>, tb: Table<K, V>, call: Call<K, V>)
    requires Safe(c, tb, call)
    ensures SameSizes(tb, Advance(c, tb, call).0)
  {
    hide Advance, Safe, SameSizes;
    if call.pc.Claim? || call.pc.Release? {
      BitStepSizes(c, tb, call);
    } else {
      OtherStepSizes(c, tb, call);
    }
  }

  // ---------------------------------------------------------------- appending to a list

  ghost predicate AtEnd<K, V>(c: Config<K>, tb: Table<K, V>, lists: Lists, call: Call<K, V>) {
    && |tb.heads| == |lists| > 0
    && Shape(c, tb, lists) && WalkOk(c, tb, lists, call) && HoldOk(tb, lists, call)
    && Held(call).To? && Held(call) == call.claimed && call.pc.Append?
    && call.visited == |lists[Bucket(c, tb, call.key)]|
  }

  ghost function Appended<K, V>(c: Config<K>, tb: Table<K, V>, lists: Lists, call: Call<K, V>): (lists': Lists)
    requires |tb.heads| == |lists| > 0 && call.claimed.To?
    ensures |lists'| == |lists|
  {
    var b := Bucket(c, tb, call.key);
    lists[b := lists[b] + [call.claimed.index]]
  }

  lemma ListedAfter<K, V>(c: Config<K>, tb: Table<K, V>, lists: Lists, call: Call<K, V>, k: nat)
    requires |tb.heads| == |lists| > 0 && call.claimed.To?
    ensures Listed(Appended(c, tb, lists, call), k) <==> Listed(lists, k) || k == call.claimed.index
  {
    var lists', b := Appended(c, tb, lists, call), Bucket(c, tb, call.key);
    forall a: nat | a < |lists|
      ensures lists[a] <= lists'[a]
    {
    }
    if Listed(lists, k) {
      StillListed(lists, lists', k);
    }
    assert lists'[b][|lists[b]|] == call.claimed.index;
  }

  lemma AppendLinksListed<K, V>(c: Config<K>, tb: Table<K, V>, lists: Lists, call: Call<K, V>, a: nat, j: nat)
    requires AtEnd(c, tb, lists, call) && tb.InRange(call.ptr)
    requires a < |lists| && j < |Appended(c, tb, lists, call)[a]|
    ensures var lists' := Appended(c, tb, lists, call);
            && lists'[a][j] < |tb.nexts|
            && tb.Write(call.ptr, call.claimed).nexts[lists'[a][j]] == LinkAt(lists'[a], j + 1)
  {
    hide Placed, KeysDiffer, Has;
    var i, b, lists' := call.claimed.index, Bucket(c, tb, call.key), Appended(c, tb, lists, call);
    if 0 < call.visited {
      assert Listed(lists, lists[b][call.visited - 1]);
    }
    if j < |lists[a]| {
      assert lists'[a][j] == lists[a][j];
    } else {
      assert lists'[a][j] == i && !Listed(lists, i);
    }
  }

  lemma AppendLinksOthers<K, V>(c: Config<K>, tb: Table<K, V>, lists: Lists, call: Call<K, V>, k: nat)
    requires AtEnd(c, tb, lists, call) && tb.InRange(call.ptr)
    ensures var lists', tb' := Appended(c, tb, lists, call), tb.Write(call.ptr, call.claimed);
            && (k < |tb.heads| ==> tb'.heads[k] == LinkAt(lists'[k], 0))
            && (k < |tb.nexts| && !Listed(lists', k) ==> tb'.nexts[k] == Nil)
  {
    hide Placed, KeysDiffer, Has, Disjoint;
    ListedAfter(c, tb, lists, call, k);
    if 0 < call.visited {
      assert Listed(lists, lists[Bucket(c, tb, call.key)][call.visited - 1]);
    }
  }

  lemma AppendLinks<K, V>(c: Config<K>, tb: Table<K, V>, lists: Lists, call: Call<K, V>)
    requires AtEnd(c, tb, lists, call) && tb.InRange(call.ptr)
    ensures Linked(tb.Write(call.ptr, call.claimed), Appended(c, tb, lists, call))
  {
    hide Shape, WalkOk, HoldOk, Listed, Appended, LinkAt;
    var tb', lists' := tb.Write(call.ptr, call.claimed), Appended(c, tb, lists, call);
    assert |tb'.nexts| == |tb.nexts| && |tb'.heads| == |tb.heads| == |lists'|;
    hide AtEnd, Table.Write;
    forall a: nat, j: nat | a < |lists'| && j < |lists'[a]|
      ensures lists'[a][j] < |tb'.nexts| && tb'.nexts[lists'[a][j]] == LinkAt(lists'[a], j + 1)
    {
      AppendLinksListed(c, tb, lists, call, a, j);
    }
    forall k: nat
      ensures k < |tb.heads| ==> tb'.heads[k] == LinkAt(lists'[k], 0)
      ensures k < |tb.nexts| && !Listed(lists', k) ==> tb'.nexts[k] == Nil
    {
      AppendLinksOthers(c, tb, lists, call, k);
    }
  }

  lemma AppendDisjoint<K, V>(c: Config<K>, tb: Table<K, V>, lists: Lists, call: Call<K, V>)
    requires AtEnd(c, tb, lists, call)
    ensures Disjoint(Appended(c, tb, lists, call))
  {
    hide Placed, KeysDiffer, Has, Linked;
    var lists' := Appended(c, tb, lists, call);
    forall a: nat, j: nat | a < |lists'| && j < |lists'[a]|
      ensures if j < |lists[a]| then lists'[a][j] == lists[a][j] != call.claimed.index
              else lists'[a][j] == call.claimed.index && a == Bucket(c, tb, call.key) && j == |lists[a]|
    {
      if j < |lists[a]| {
        assert Listed(lists, lists[a][j]);
      }
    }
  }

  lemma AppendPlaces<K, V>(c: Config<K>, tb: Table<K, V>, lists: Lists, call: Call<K, V>)
    requires AtEnd(c, tb, lists, call) && tb.InRange(call.ptr)
    ensures Placed(c, tb.Write(call.ptr, call.claimed), Appended(c, tb, lists, call))
    ensures KeysDiffer(tb.Write(call.ptr, call.claimed), Appended(c, tb, lists, call))
  {
    hide Disjoint, Has, Linked, Listed;
    var lists', b := Appended(c, tb, lists, call), Bucket(c, tb, call.key);
    forall a: nat, j: nat | a < |lists'| && j < |lists'[a]|
      ensures if j < |lists[a]| then lists'[a][j] == lists[a][j]
              else lists'[a][j] == call.claimed.index && a == b && j == |lists[a]|
    {
    }
  }

  lemma AppendFrames<K, V>(c: Config<K>, tb: Table<K, V>, lists: Lists, call: Call<K, V>)
    requires AtEnd(c, tb, lists, call) && tb.InRange(call.ptr)
    ensures Framed(tb, lists, tb.Write(call.ptr, call.claimed), Appended(c, tb, lists, call), call.claimed)
  {
    hide Disjoint, Has, Linked, Placed, KeysDiffer;
    forall k: nat
      ensures Listed(Appended(c, tb, lists, call), k) <==> Listed(lists, k) || k == call.claimed.index
    {
      ListedAfter(c, tb, lists, call, k);
    }
  }

  lemma AppendConserved<K, V>(c: Config<K>, s: State<K, V>, lists: Lists, t: nat, tb': Table<K, V>, call': Call<K, V>)
    requires t < |s.calls| && Conserved(s.table, lists, s.calls)
    requires |s.table.heads| == |lists| > 0 && s.calls[t].claimed.To? && Held(s.calls[t]) == s.calls[t].claimed
    requires tb'.bits == s.table.bits && Held(call') == Nil
    ensures Conserved(tb', Appended(c, s.table, lists, s.calls[t]), s.calls[t := call'])
  {
    hide Has, Appended;
    var calls', lists' := s.calls[t := call'], Appended(c, s.table, lists, s.calls[t]);
    forall i: nat | i < tb'.Capacity() && Has(tb'.bits, i) && !Listed(lists', i)
      ensures HeldBySome(calls', i)
    {
      ListedAfter(c, s.table, lists, s.calls[t], i);
      assert HeldBySome(s.calls, i);
      var u: nat :| u < |s.calls| && Held(s.calls[u]) == To(i);
      assert Held(calls'[u]) == To(i);
    }
  }

  lemma AppendWins<K, V>(c: Config<K>, s: State<K, V>, lists: Lists, t: nat, call': Call<K, V>)
    requires Inv(c, s, lists) && t < |s.calls| && Held(s.calls[t]).To?
    requires call'.pc.Done? && call'.pc.result.index == Held(s.calls[t])
    ensures WinnersDiffer(s.calls[t := call'])
  {
    hide Shape, Conserved, LiveOk, Has;
    forall u: nat | u < |s.calls| && Succeeded(s.calls[u])
      ensures s.calls[u].pc.result.index != Held(s.calls[t])
    {
      assert CallOk(c, s.table, lists, s.calls[u]) && CallOk(c, s.table, lists, s.calls[t]);
    }
  }

  /** The successful compare-exchange keeps the invariant, with the entry at the end of its list. */
  lemma AppendStep<K, V>(c: Config<K>, s: State<K, V>, lists: Lists, t: nat)
    requires Inv(c, s, lists) && t < |s.calls| && s.calls[t].pc.Append?
    requires Safe(c, s.table, s.calls[t]) && s.table.Read(s.calls[t].ptr) == Nil
    ensures |lists| == |s.table.heads| > 0
    ensures Inv(c, Step(c, s, t), Appended(c, s.table, lists, s.calls[t]))
    ensures Framed(s.table, lists, Step(c, s, t).table, Appended(c, s.table, lists, s.calls[t]), s.calls[t].claimed)
  {
    var call, tb := s.calls[t], s.table;
    assert CallOk(c, tb, lists, call);
    SlotHolds(c, tb, lists, call);
    AtTheEnd(c, tb, lists, call);
    var (tb', call') := Advance(c, tb, call);
    AppendedCallOk(c, tb, lists, call);
    hide CallOk, Advance, Safe, Has, Conserved, AtEnd, Listed, Appended, Framed, Linked, Disjoint, Placed, KeysDiffer;
    AppendLinks(c, tb, lists, call);
    AppendDisjoint(c, tb, lists, call);
    AppendPlaces(c, tb, lists, call);
    AppendFrames(c, tb, lists, call);
    AppendConserved(c, s, lists, t, tb', call');
    AppendWins(c, s, lists, t, call');
    HeldElsewhere(tb, lists, s.calls, t);
    Assemble(c, s, lists, t, tb', Appended(c, tb, lists, call), call', call.claimed);
  }

  lemma AtTheEnd<K, V>(c: Config<K>, tb: Table<K, V>, lists: Lists, call: Call<K, V>)
    requires Shape(c, tb, lists) && CallOk(c, tb, lists, call) && call.pc.Append?
    requires tb.InRange(call.ptr) && tb.Read(call.ptr) == Nil
    ensures AtEnd(c, tb, lists, call)
  {
    hide Linked, Disjoint, Placed, KeysDiffer, Has, Listed;
    SlotHolds(c, tb, lists, call);
  }

  lemma AppendedCallOk<K, V>(c: Config<K>, tb: Table<K, V>, lists: Lists, call: Call<K, V>)
    requires AtEnd(c, tb, lists, call) && Safe(c, tb, call) && tb.Read(call.ptr) == Nil
    ensures var (tb', call') := Advance(c, tb, call);
            && tb' == tb.Write(call.ptr, call.claimed)
            && tb'.Sized() && tb'.warned == tb.warned && tb'.bits == tb.bits
            && call'.pc == Done(Success(call.claimed.index, call.visited)) && Held(call') == Nil
            && CallOk(c, tb', Appended(c, tb, lists, call), call')
  {
    hide Linked, Disjoint, Placed, KeysDiffer, Has, Listed;
    ListedAfter(c, tb, lists, call, call.claimed.index);
  }

  // ---------------------------------------------------------------- all steps

  /**
   In every state that satisfies the invariant, every call can take its next step without an access
   out of range, and the invariant holds again afterwards; nothing but one unlinked entry changes.
   */
  lemma StepKeeps<K, V>(c: Config<K>, s: State<K, V>, lists: Lists, t: nat)
    requires Inv(c, s, lists) && t < |s.calls|
    ensures Safe(c, s.table, s.calls[t])
    ensures Inv(c, Step(c, s, t), ListsAfter(c, s.table, lists, s.calls[t]))
    ensures exists x :: Framed(s.table, lists, Step(c, s, t).table, ListsAfter(c, s.table, lists, s.calls[t]), x)
  {
    hide CallOk, Advance, Has, Conserved, AtEnd, Listed, Framed, Linked, Disjoint, Placed, KeysDiffer, LocalChange, EntryChange;
    var call, tb := s.calls[t], s.table;
    CallIsSafe(c, tb, lists, call);
    match call.pc {
      case Start => StartCall(c, tb, lists, call); LocalStep(c, s, lists, t);
      case Load => LoadCall(c, tb, lists, call); LocalStep(c, s, lists, t);
      case Compare => CompareCall(c, tb, lists, call); LocalStep(c, s, lists, t);
      case Release => HeldStep(c, s, lists, t);
      case Scan => ScanCall(c, tb, lists, call); LocalStep(c, s, lists, t);
      case Claim(_) =>
        if SetBit(tb.bits, call.hint).1 {
          ClaimWonCall(c, tb, lists, call);
          UnclaimedUnheld(c, s, lists, call.hint);
          EntryStep(c, s, lists, t, To(call.hint));
        } else {
          ClaimLostCall(c, tb, lists, call);
          LocalStep(c, s, lists, t);
        }
      case WriteKey => HeldStep(c, s, lists, t);
      case WriteValue => HeldStep(c, s, lists, t);
      case RaiseFailed => FlagCall(c, tb, lists, call); LocalStep(c, s, lists, t);
      case CheckFailed => FlagCall(c, tb, lists, call); LocalStep(c, s, lists, t);
      case Append =>
        if tb.Read(call.ptr) == Nil {
          AppendStep(c, s, lists, t);
        } else {
          AppendLostCall(c, tb, lists, call);
          LocalStep(c, s, lists, t);
        }
      case Done(_) => FlagCall(c, tb, lists, call); LocalStep(c, s, lists, t);
    }
  }
}
