/** `insert` running with no other call in flight. */
module InsertAlone {
  import opened Bitsets
  import opened UnorderedMap
  import opened InsertInvariant
  import opened InsertSteps
  import opened InsertSearch
  import opened InsertTheorems
  import opened InsertRuns
  import opened InsertTermination

  /** Every call has returned. */
  ghost predicate Quiet<K, V>(calls: seq<Call<K, V>>) {
    forall t: nat :: t < |calls| ==> calls[t].pc.Done?
  }

  lemma CallAdded<K, V>(c: Config<K>, s: State<K, V>, lists: Lists, k: K, v: V)
    requires Inv(c, s, lists)
    ensures Inv(c, State(s.table, s.calls + [NewCall(k, v)]), lists)
  {
    hide Shape, Has, Listed;
    var calls' := s.calls + [NewCall(k, v)];
    forall i: nat | HeldBySome(s.calls, i)
      ensures HeldBySome(calls', i)
    {
      var t: nat :| t < |s.calls| && Held(s.calls[t]) == To(i);
      assert Held(calls'[t]) == To(i);
    }
  }

  /**
   What holds of a lone call besides the invariant: it never meets an equal key after its first scan,
   never loses a claim on a bit it found, and has swept as many blocks as it has failed attempts.
   */
  ghost predicate Alone<K, V>(c: Config<K>, tb: Table<K, V>, lists: Lists, call: Call<K, V>) {
    if call.pc.Start? || call.pc.Done? then true else
    && |tb.heads| == |lists| > 0 && call.hint / 32 < |tb.bits.blocks|
    && tb.Capacity() > 0 && !tb.erasable
    && var l, pc := lists[Bucket(c, tb, call.key)], call.pc;
       && (call.attempts > 0 || pc.Scan? || pc.Claim? || pc.RaiseFailed? || call.claimed.To? ==> call.visited == |l|)
       && (pc.Compare? ==> (call.curr == Nil <==> call.visited == |l|))
       && (call.claimed == Nil ==>
             Swept(tb.bits, false, call.hint / 32, IsBackward(Bucket(c, tb, call.key)), call.attempts))
       && (pc.Claim? && pc.found ==> call.hint < tb.Capacity() && !Has(tb.bits, call.hint))
       && (pc.RaiseFailed? ==> call.attempts == MaxAttempts(c, tb))
       && (call.claimed.To? ==> pc.WriteKey? || pc.WriteValue? || pc.Append?)
       && !pc.Release? && !pc.CheckFailed?
  }

  lemma AloneWalk<K, V>(c: Config<K>, tb: Table<K, V>, lists: Lists, call: Call<K, V>)
    requires tb.Sized() && |lists| == |tb.heads| && Linked(tb, lists) && Placed(c, tb, lists)
    requires CallOk(c, tb, lists, call) && Alone(c, tb, lists, call)
    requires call.pc.Start? || call.pc.Load? || call.pc.Compare?
    ensures Safe(c, tb, call) && ListsAfter(c, tb, lists, call) == lists
    ensures Alone(c, Advance(c, tb, call).0, lists, Advance(c, tb, call).1)
  {
    hide Linked, Placed, HoldOk, Has, MaskRight, TailClear, Listed;
    match call.pc {
      case Start =>
        if tb.Capacity() > 0 {
          FirstHintInRange(c, tb, call.key);
        }
      case Load => SlotHolds(c, tb, lists, call);
      case Compare =>
        if call.curr.To? {
          CurrEntry(c, tb, lists, call);
        }
    }
  }

  lemma AloneScan<K, V>(c: Config<K>, tb: Table<K, V>, lists: Lists, call: Call<K, V>)
    requires tb.Sized() && |lists| == |tb.heads|
    requires CallOk(c, tb, lists, call) && Alone(c, tb, lists, call) && call.pc.Scan?
    ensures Safe(c, tb, call)
    ensures Alone(c, Advance(c, tb, call).0, lists, Advance(c, tb, call).1)
  {
    hide HoldOk, Has, FindAny, Swept, NoneIn;
    var backward := IsBackward(Bucket(c, tb, call.key));
    FoundIsRight(tb.bits, false, call.hint, Bucket(c, tb, call.key));
    if !FindAny(tb.bits, false, call.hint, Bucket(c, tb, call.key)).0 {
      SweptExtends(tb.bits, false, call.hint / 32, backward, call.attempts);
    }
  }

  lemma AloneClaim<K, V>(c: Config<K>, tb: Table<K, V>, lists: Lists, call: Call<K, V>)
    requires tb.Sized() && |lists| == |tb.heads|
    requires CallOk(c, tb, lists, call) && Alone(c, tb, lists, call) && call.pc.Claim?
    ensures Safe(c, tb, call)
    ensures Alone(c, Advance(c, tb, call).0, lists, Advance(c, tb, call).1)
  {
    hide HoldOk, Has, SetBit, Swept;
    SetBitAdds(tb.bits, call.hint);
    if !SetBit(tb.bits, call.hint).1 {
      ClaimLost(tb.bits, call.hint);
    }
  }

  lemma AloneHolds<K, V>(c: Config<K>, tb: Table<K, V>, lists: Lists, call: Call<K, V>)
    requires tb.Sized() && |lists| == |tb.heads| && Linked(tb, lists)
    requires CallOk(c, tb, lists, call) && Alone(c, tb, lists, call)
    requires call.pc.WriteKey? || call.pc.WriteValue? || call.pc.Append?
    ensures Safe(c, tb, call)
    ensures Alone(c, Advance(c, tb, call).0, ListsAfter(c, tb, lists, call), Advance(c, tb, call).1)
    ensures call.pc.Append? ==> Succeeded(Advance(c, tb, call).1)
  {
    hide Linked, Has, Swept, Valid, Listed;
    SlotHolds(c, tb, lists, call);
  }

  /** A lone call reports failure only after sweeping every block; unbounded, that is the whole table. */
  lemma AloneFails<K, V>(c: Config<K>, tb: Table<K, V>, lists: Lists, call: Call<K, V>)
    requires tb.Sized() && CallOk(c, tb, lists, call) && Alone(c, tb, lists, call) && call.pc.RaiseFailed? && !c.bounded
    ensures forall i: nat :: i < tb.Capacity() ==> Has(tb.bits, i)
  {
    hide HoldOk, Has, Swept;
    SweepIsComplete(tb.bits, false, call.hint / 32, IsBackward(Bucket(c, tb, call.key)));
  }

  /** How a lone call can come out; `SoloResult` says where it looked. */
  ghost predicate Outcome<K, V>(c: Config<K>, tb: Table<K, V>, m: map<K, V>, call: Call<K, V>, m': map<K, V>) {
    && call.pc.Done?
    && var r := call.pc.result;
       if tb.Capacity() == 0 || tb.erasable then !r.success && !r.existing && m' == m
       else if call.key in m then r.existing && !r.success && m' == m
       else if r.success then call.key !in m && m' == m[call.key := call.value]
       else
         && !r.existing && m' == m
         && (c.bounded || forall i: nat :: i < tb.Capacity() ==> Has(tb.bits, i))
  }

  /** At the end of its list a call's key is known to be absent. */
  lemma AbsentAtEnd<K, V>(c: Config<K>, tb: Table<K, V>, lists: Lists, call: Call<K, V>)
    requires Shape(c, tb, lists) && WalkOk(c, tb, lists, call) && call.visited == |lists[Bucket(c, tb, call.key)]|
    ensures call.key !in Contents(tb, lists)
  {
    hide Linked, Disjoint, Placed, KeysDiffer, Contents, Valid;
    WalkEnds(c, tb, lists, call.key, call.visited);
  }

  /** One step of a lone call. */
  lemma AloneStep<K, V>(c: Config<K>, tb: Table<K, V>, lists: Lists, call: Call<K, V>)
    requires Shape(c, tb, lists) && CallOk(c, tb, lists, call) && Alone(c, tb, lists, call) && !call.pc.Done?
    ensures Safe(c, tb, call)
    ensures var (tb', call'), lists' := Advance(c, tb, call), ListsAfter(c, tb, lists, call);
            && Alone(c, tb', lists', call')
            && tb'.erasable == tb.erasable && tb'.Capacity() == tb.Capacity()
            && (call'.claimed == Nil ==> call.claimed == Nil && tb'.bits == tb.bits)
  {
    hide Linked, Disjoint, Placed, KeysDiffer, HoldOk, Has, Swept, ResetBit, SetBit, FindAny, Listed, Valid;
    CallIsSafe(c, tb, lists, call);
    match call.pc {
      case Scan => AloneScan(c, tb, lists, call);
      case Claim(_) =>
        AloneClaim(c, tb, lists, call);
        SetBitAdds(tb.bits, call.hint);
        if !SetBit(tb.bits, call.hint).1 {
          ClaimLost(tb.bits, call.hint);
        }
      case Start => AloneWalk(c, tb, lists, call);
      case Load => AloneWalk(c, tb, lists, call);
      case Compare => AloneWalk(c, tb, lists, call);
      case RaiseFailed =>
      case _ => AloneHolds(c, tb, lists, call);
    }
  }

  /** The last step of a lone call decides its outcome. */
  lemma AloneOutcome<K, V>(c: Config<K>, tb: Table<K, V>, lists: Lists, call: Call<K, V>, m': map<K, V>)
    requires Shape(c, tb, lists) && CallOk(c, tb, lists, call) && Alone(c, tb, lists, call) && !call.pc.Done?
    requires Safe(c, tb, call) && Advance(c, tb, call).1.pc.Done?
    requires Atomic(Contents(tb, lists), m', call, Advance(c, tb, call).1)
    ensures Outcome(c, tb, Contents(tb, lists), Advance(c, tb, call).1, m')
  {
    hide Linked, Disjoint, Placed, KeysDiffer, HoldOk, Has, Swept, ResetBit, SetBit, FindAny, Listed, Valid, Contents;
    if call.pc.RaiseFailed? {
      AbsentAtEnd(c, tb, lists, call);
      if !c.bounded {
        AloneFails(c, tb, lists, call);
      }
    } else if call.pc.Append? {
      AloneHolds(c, tb, lists, call);
    }
  }

  /** `insert` with no other call in flight. */
  method InsertSolo<K(==), V>(c: Config<K>, s: State<K, V>, ghost lists: Lists, k: K, v: V)
    returns (s': State<K, V>, ghost lists': Lists)
    requires Inv(c, s, lists) && Quiet(s.calls)
    ensures Inv(c, s', lists') && Quiet(s'.calls)
    ensures |s'.calls| == |s.calls| + 1 && s'.calls[..|s.calls|] == s.calls
    ensures s'.calls[|s.calls|].key == k && s'.calls[|s.calls|].value == v
    ensures s'.table.Capacity() == s.table.Capacity() && s'.table.erasable == s.table.erasable
    ensures |s'.table.heads| == |s.table.heads| == |lists| > 0
    ensures Outcome(c, s.table, Contents(s.table, lists), s'.calls[|s.calls|], Contents(s'.table, lists'))
    ensures SoloResult(c, s.table, lists, s'.calls[|s.calls|])
  {
    hide SoloResult, Searched, SameSearch, SearchState, Bucket;
    hide Shape, CallOk, Conserved, WinnersDiffer, Contents, Has, Advance, Safe, Outcome, Atomic, Alone, Work, TotalWork, Events;
    CallAdded(c, s, lists, k, v);
    ghost var m := Contents(s.table, lists);
    var t := |s.calls|;
    s', lists' := State(s.table, s.calls + [NewCall(k, v)]), lists;
    assert Alone(c, s'.table, lists', s'.calls[t]) by {
      StartsAlone(c, s'.table, lists', k, v);
    }
    InvSizes(c, s', lists');
    SearchBegins(c, s.table, lists, k, v);
    while !s'.calls[t].pc.Done?
      invariant Inv(c, s', lists') && |lists'| == |s'.table.heads| > 0
      invariant |s'.calls| == t + 1 && s'.calls[..t] == s.calls
      invariant s'.calls[t].key == k && s'.calls[t].value == v
      invariant s'.table.Capacity() == s.table.Capacity() && s'.table.erasable == s.table.erasable
      invariant Alone(c, s'.table, lists', s'.calls[t])
      invariant s'.calls[t].claimed == Nil ==> s'.table.bits == s.table.bits
      invariant SearchState(c, s.table, lists, s'.table, lists', s'.calls[t])
      invariant if s'.calls[t].pc.Done? then Outcome(c, s.table, m, s'.calls[t], Contents(s'.table, lists'))
                else Contents(s'.table, lists') == m
      decreases Events(s'.calls), TotalWork(c, s'.table, lists', s'.calls)
    {
      SoloStep(c, s.table, m, s', lists', t);
      SoloSearch(c, s.table, lists, s', lists', t);
      s', lists' := Step(c, s', t), ListsAfter(c, s'.table, lists', s'.calls[t]);
      InvSizes(c, s', lists');
    }
    SearchIsOver(c, s.table, lists, s'.table, lists', s'.calls[t]);
    assert forall u: nat :: u < t ==> s'.calls[u] == s'.calls[..t][u];
  }

  /** The search of a lone call that started on table `tb0` with lists `lists0`. */
  ghost predicate SearchState<K, V>(c: Config<K>, tb0: Table<K, V>, lists0: Lists, tb: Table<K, V>, lists: Lists, call: Call<K, V>) {
    && |lists0| == |tb0.heads| > 0 && SameSearch(tb0, tb, call) && tb.erasable == tb0.erasable
    && if call.pc.Start? then lists == lists0
       else if call.pc.Done? then SoloResult(c, tb0, lists0, call)
       else lists == lists0 && Searched(c, tb0, lists0[Bucket(c, tb0, call.key)], call)
  }

  lemma SearchBegins<K, V>(c: Config<K>, tb: Table<K, V>, lists: Lists, k: K, v: V)
    requires |lists| == |tb.heads| > 0
    ensures SearchState(c, tb, lists, tb, lists, NewCall(k, v))
  {
  }

  lemma SearchIsOver<K, V>(c: Config<K>, tb0: Table<K, V>, lists0: Lists, tb: Table<K, V>, lists: Lists, call: Call<K, V>)
    requires SearchState(c, tb0, lists0, tb, lists, call) && call.pc.Done?
    ensures |lists0| == |tb0.heads| == |tb.heads| > 0 && SoloResult(c, tb0, lists0, call)
  {
  }

  /** One step of the search; the last one decides the result. */
  lemma SoloSearch<K, V>(c: Config<K>, tb0: Table<K, V>, lists0: Lists, s: State<K, V>, lists: Lists, t: nat)
    requires Inv(c, s, lists) && t < |s.calls| && !s.calls[t].pc.Done? && |lists| == |s.table.heads| > 0
    requires Alone(c, s.table, lists, s.calls[t]) && SearchState(c, tb0, lists0, s.table, lists, s.calls[t])
    ensures Safe(c, s.table, s.calls[t])
    ensures var s', lists' := Step(c, s, t), ListsAfter(c, s.table, lists, s.calls[t]);
            SearchState(c, tb0, lists0, s'.table, lists', s'.calls[t])
  {
    hide Linked, Disjoint, Placed, KeysDiffer, Conserved, WinnersDiffer, Has, Valid, Searched, SoloResult;
    assert CallOk(c, s.table, lists, s.calls[t]);
    AloneSearch(c, tb0, lists0, s.table, lists, s.calls[t]);
  }

  lemma AloneSearch<K, V>(c: Config<K>, tb0: Table<K, V>, lists0: Lists, tb: Table<K, V>, lists: Lists, call: Call<K, V>)
    requires Shape(c, tb, lists) && CallOk(c, tb, lists, call) && Alone(c, tb, lists, call) && !call.pc.Done?
    requires SearchState(c, tb0, lists0, tb, lists, call)
    ensures Safe(c, tb, call)
    ensures SearchState(c, tb0, lists0, Advance(c, tb, call).0, ListsAfter(c, tb, lists, call), Advance(c, tb, call).1)
  {
    hide Linked, Disjoint, Placed, KeysDiffer, Has, Valid, Searched, SoloResult, HoldOk;
    AloneStep(c, tb, lists, call);
    var (tb', call') := Advance(c, tb, call);
    SizesStay(c, tb, call);
    if call.pc.Start? {
      if tb.Capacity() > 0 && !tb.erasable {
        StartSearched(c, tb0, tb, lists, call);
      } else {
        AtOnce(c, tb0, lists0, call');
      }
    } else {
      SearchedStep(c, tb0, tb, lists, call);
      if call'.pc.Done? {
        LastSearch(c, tb0, tb, lists, call);
      }
    }
  }

  lemma AtOnce<K, V>(c: Config<K>, tb: Table<K, V>, lists: Lists, call: Call<K, V>)
    requires |lists| == |tb.heads| > 0 && (tb.Capacity() == 0 || tb.erasable) && call.pc == Done(Failed(0))
    ensures SoloResult(c, tb, lists, call)
  {
  }

  lemma LastSearch<K, V>(c: Config<K>, tb0: Table<K, V>, tb: Table<K, V>, lists: Lists, call: Call<K, V>)
    requires Shape(c, tb, lists) && CallOk(c, tb, lists, call) && Alone(c, tb, lists, call)
    requires !call.pc.Start? && !call.pc.Done? && Safe(c, tb, call) && Advance(c, tb, call).1.pc.Done?
    requires SameSearch(tb0, tb, call) && tb0.erasable == tb.erasable
    requires Searched(c, tb0, lists[Bucket(c, tb, call.key)], Advance(c, tb, call).1)
    ensures SoloResult(c, tb0, lists, Advance(c, tb, call).1)
  {
    hide Linked, Disjoint, Placed, KeysDiffer, Has, Valid, Searched, SoloResult, HoldOk;
    var call' := Advance(c, tb, call).1;
    if call.pc.Append? {
      AloneHolds(c, tb, lists, call);
      SuccessResult(c, tb0, lists, call');
    } else if call.pc.RaiseFailed? {
      FailureResult(c, tb0, lists, call');
    } else {
      StartInRange(c, tb, lists, call.key);
      ExistingEnds(c, tb0, tb, lists, call');
    }
  }

  lemma ExistingEnds<K, V>(c: Config<K>, tb0: Table<K, V>, tb: Table<K, V>, lists: Lists, call: Call<K, V>)
    requires |lists| == |tb0.heads| == |tb.heads| > 0 && tb0.Capacity() == tb.Capacity() > 0 && !tb0.erasable
    requires |tb0.bits.blocks| == |tb.bits.blocks| && StartBlock(c, tb, lists[Bucket(c, tb, call.key)], call.key) < |tb.bits.blocks|
    requires call.pc.Done? && call.pc.result.existing && !call.pc.result.success
    ensures SoloResult(c, tb0, lists, call)
  {
  }

  lemma StartsAlone<K, V>(c: Config<K>, tb: Table<K, V>, lists: Lists, k: K, v: V)
    ensures Alone(c, tb, lists, NewCall(k, v))
  {
  }

  lemma InvSizes<K, V>(c: Config<K>, s: State<K, V>, lists: Lists)
    requires Inv(c, s, lists)
    ensures |lists| == |s.table.heads| > 0
  {
  }

  lemma SoloStep<K, V>(c: Config<K>, tb0: Table<K, V>, m: map<K, V>, s: State<K, V>, lists: Lists, t: nat)
    requires Inv(c, s, lists) && t < |s.calls| && !s.calls[t].pc.Done? && |lists| == |s.table.heads| > 0
    requires Alone(c, s.table, lists, s.calls[t]) && Contents(s.table, lists) == m
    requires s.table.Capacity() == tb0.Capacity() && s.table.erasable == tb0.erasable
    requires s.calls[t].claimed == Nil ==> s.table.bits == tb0.bits
    ensures Safe(c, s.table, s.calls[t])
    ensures var s', lists' := Step(c, s, t), ListsAfter(c, s.table, lists, s.calls[t]);
            && Inv(c, s', lists') && |lists'| == |s'.table.heads| > 0
            && Alone(c, s'.table, lists', s'.calls[t])
            && s'.table.Capacity() == tb0.Capacity() && s'.table.erasable == tb0.erasable
            && s'.calls[t].key == s.calls[t].key && s'.calls[t].value == s.calls[t].value
            && (s'.calls[t].claimed == Nil ==> s'.table.bits == tb0.bits)
            && (if s'.calls[t].pc.Done? then Outcome(c, tb0, m, s'.calls[t], Contents(s'.table, lists'))
                else Contents(s'.table, lists') == m)
            && (|| Events(s'.calls) < Events(s.calls)
                || (Events(s'.calls) == Events(s.calls)
                    && TotalWork(c, s'.table, lists', s'.calls) < TotalWork(c, s.table, lists, s.calls)))
  {
    hide Linked, Disjoint, Placed, KeysDiffer, CallOk, Conserved, WinnersDiffer, Contents, Has, Advance, Safe, Alone, Work, TotalWork, Events, Valid;
    StepKeeps(c, s, lists, t);
    StepIsAtomic(c, s, lists, t);
    StepProgresses(c, s, lists, t);
    AloneStep(c, s.table, lists, s.calls[t]);
    DoneStays(c, s.table, s.calls[t]);
    var s', lists' := Step(c, s, t), ListsAfter(c, s.table, lists, s.calls[t]);
    if s'.calls[t].pc.Done? {
      AloneOutcome(c, s.table, lists, s.calls[t], Contents(s'.table, lists'));
      FailedKeepsNothing(c, s.table, s.calls[t], lists);
    }
  }

  /** A lone call that fails has claimed nothing. */
  lemma FailedKeepsNothing<K, V>(c: Config<K>, tb: Table<K, V>, call: Call<K, V>, lists: Lists)
    requires Shape(c, tb, lists) && CallOk(c, tb, lists, call) && Alone(c, tb, lists, call)
    requires Safe(c, tb, call) && !call.pc.Done? && Advance(c, tb, call).1.pc.Done?
    ensures Advance(c, tb, call).1.pc.result.success || call.claimed == Nil
  {
    hide Linked, Disjoint, Placed, KeysDiffer, HoldOk, Has, Swept, ResetBit, SetBit, FindAny, Listed, Valid;
    if call.pc.Append? {
      AloneHolds(c, tb, lists, call);
    }
  }
}
