/** The fields of the result of `insert`, and the flag that makes `size()` recount, over whole runs. */
module InsertResults {
  import opened Bitsets
  import opened UnorderedMap
  import opened InsertInvariant
  import opened InsertSteps
  import opened InsertRuns

  /**
   A returned call: `list_position` is the number of entries it passed, saturated; none of them holds its key,
   and a returned index is the next entry of the list. `freed_existing` tells that an existing key was found
   after an index had been claimed.
   */
  ghost predicate Reported<K, V>(c: Config<K>, tb: Table<K, V>, lists: Lists, call: Call<K, V>) {
    call.pc.Done? ==>
      && |lists| == |tb.heads| > 0
      && var r, l := call.pc.result, lists[c.hash(call.key) % |tb.heads|];
         && r.position == (if call.visited < 0x1FFF_FFFF then call.visited else 0x1FFF_FFFF)
         && call.visited <= |l|
         && (forall j: nat :: j < call.visited ==> l[j] < |tb.keys| && tb.keys[l[j]] != call.key)
         && (r.index.To? ==> call.visited < |l| && l[call.visited] == r.index.index)
         && (r.freedExisting <==> r.existing && call.claimed.To?)
  }

  ghost predicate AllReported<K, V>(c: Config<K>, s: State<K, V>, lists: Lists) {
    forall t: nat :: t < |s.calls| ==> Reported(c, s.table, lists, s.calls[t])
  }

  lemma StillReported<K, V>(c: Config<K>, tb: Table<K, V>, lists: Lists, tb': Table<K, V>, lists': Lists, x: Link, call: Call<K, V>)
    requires Framed(tb, lists, tb', lists', x) && Reported(c, tb, lists, call)
    ensures Reported(c, tb', lists', call)
  {
    if call.pc.Done? {
      var b := c.hash(call.key) % |tb.heads|;
      assert lists[b] <= lists'[b];
      forall j: nat | j < |lists[b]|
        ensures Listed(lists, lists[b][j]) && lists'[b][j] == lists[b][j]
      {
      }
    }
  }

  /** The step that ends a call reports it. */
  lemma LastStepReports<K, V>(c: Config<K>, tb: Table<K, V>, lists: Lists, call: Call<K, V>)
    requires Shape(c, tb, lists) && CallOk(c, tb, lists, call) && Safe(c, tb, call) && !call.pc.Done?
    ensures var (tb', call') := Advance(c, tb, call);
            call'.pc.Done? && !Succeeded(call') ==> Reported(c, tb, lists, call')
    ensures var (tb', call') := Advance(c, tb, call);
            Succeeded(call') ==> Reported(c, tb', ListsAfter(c, tb, lists, call), call')
  {
    hide Linked, Disjoint, Placed, KeysDiffer, Has, Valid, HoldOk, FindAny, SetBit, ResetBit;
    if call.pc.Append? && tb.Read(call.ptr) == Nil {
      AtTheEnd(c, tb, lists, call);
    }
  }

  lemma StepReports<K, V>(c: Config<K>, s: State<K, V>, lists: Lists, t: nat)
    requires Inv(c, s, lists) && t < |s.calls| && AllReported(c, s, lists)
    ensures Safe(c, s.table, s.calls[t])
    ensures AllReported(c, Step(c, s, t), ListsAfter(c, s.table, lists, s.calls[t]))
  {
    assert CallOk(c, s.table, lists, s.calls[t]);
    StepKeeps(c, s, lists, t);
    hide Linked, Disjoint, Placed, KeysDiffer, CallOk, Conserved, WinnersDiffer, Framed, Advance, Reported, Valid;
    var s', lists' := Step(c, s, t), ListsAfter(c, s.table, lists, s.calls[t]);
    var x :| Framed(s.table, lists, s'.table, lists', x);
    forall u: nat | u < |s'.calls|
      ensures Reported(c, s'.table, lists', s'.calls[u])
    {
      if u != t {
        StillReported(c, s.table, lists, s'.table, lists', x, s.calls[u]);
      } else if s.calls[t].pc.Done? {
        DoneStays(c, s.table, s.calls[t]);
        StillReported(c, s.table, lists, s'.table, lists', x, s.calls[t]);
      } else {
        LastStepReports(c, s.table, lists, s.calls[t]);
        if s'.calls[t].pc.Done? && !Succeeded(s'.calls[t]) {
          StillReported(c, s.table, lists, s'.table, lists', x, s'.calls[t]);
        } else if !s'.calls[t].pc.Done? {
          NotYet(c, s'.table, lists', s'.calls[t]);
        }
      }
    }
  }

  lemma NotYet<K, V>(c: Config<K>, tb: Table<K, V>, lists: Lists, call: Call<K, V>)
    requires !call.pc.Done?
    ensures Reported(c, tb, lists, call)
  {
  }

  lemma {:induction false} RunReports<K, V>(c: Config<K>, s: State<K, V>, lists: Lists, schedule: seq<nat>)
    requires Inv(c, s, lists) && Picks(s, schedule) && AllReported(c, s, lists)
    ensures var (s', lists') := Run(c, s, lists, schedule); AllReported(c, s', lists')
    decreases |schedule|
  {
    hide Inv, AllReported, Safe, Advance;
    if schedule != [] {
      var front, t := schedule[..|schedule| - 1], schedule[|schedule| - 1];
      assert Picks(s, front);
      RunReports(c, s, lists, front);
      var (s1, lists1) := Run(c, s, lists, front);
      StepReports(c, s1, lists1, t);
    }
  }

  /** From an empty table, in every interleaving, every result says how far its call walked and whether it gave an index back. */
  lemma EveryResultReported<K, V>(c: Config<K>, s: State<K, V>, schedule: seq<nat>)
    requires Init(s) && Picks(s, schedule)
    ensures Inv(c, s, NoLists(s))
    ensures var (s', lists) := Run(c, s, NoLists(s), schedule); AllReported(c, s', lists)
  {
    InitHolds(c, s);
    forall t: nat | t < |s.calls|
      ensures Reported(c, s.table, NoLists(s), s.calls[t])
    {
      NotYet(c, s.table, NoLists(s), s.calls[t]);
    }
    hide Inv, Init;
    RunReports(c, s, NoLists(s), schedule);
  }

  /** A call ends with `freed_existing` exactly if its last step clears a bit, and that is the one it had claimed. */
  lemma FreedIsGivenBack<K, V>(c: Config<K>, s: State<K, V>, lists: Lists, t: nat)
    requires Inv(c, s, lists) && t < |s.calls| && !s.calls[t].pc.Done?
    ensures Safe(c, s.table, s.calls[t])
    ensures var s' := Step(c, s, t);
            s'.calls[t].pc.Done? ==>
              && (s'.calls[t].pc.result.freedExisting <==> exists i: nat :: Has(s.table.bits, i) && !Has(s'.table.bits, i))
              && (forall i: nat :: Has(s.table.bits, i) && !Has(s'.table.bits, i) ==> s.calls[t].claimed == To(i))
  {
    assert CallOk(c, s.table, lists, s.calls[t]);
    CallIsSafe(c, s.table, lists, s.calls[t]);
    LastStepBits(c, s.table, s.calls[t]);
    if s.calls[t].pc.Release? {
      ReleaseBits(s.table, lists, s.calls[t]);
    }
    hide Inv, Has, Valid, Advance, Safe;
  }

  lemma LastStepBits<K, V>(c: Config<K>, tb: Table<K, V>, call: Call<K, V>)
    requires Safe(c, tb, call) && !call.pc.Done?
    ensures var (tb', call') := Advance(c, tb, call);
            call'.pc.Done? ==>
              && (call'.pc.result.freedExisting <==> call.pc.Release?)
              && tb'.bits == if call.pc.Release? then ResetBit(tb.bits, call.claimed.index).0 else tb.bits
  {
    hide Valid, Has, FindAny, SetBit, ResetBit;
  }

  lemma ReleaseBits<K, V>(tb: Table<K, V>, lists: Lists, call: Call<K, V>)
    requires tb.Sized() && HoldOk(tb, lists, call) && call.pc.Release? && call.claimed.To?
    ensures var bits', i := ResetBit(tb.bits, call.claimed.index).0, call.claimed.index;
            Has(tb.bits, i) && !Has(bits', i) && forall k: nat :: k != i ==> (Has(bits', k) <==> Has(tb.bits, k))
  {
    hide Has, MaskRight, TailClear, ResetBit;
    ResetBitRemoves(tb.bits, call.claimed.index);
  }

  /** The first hint: the number of the bucket, scaled from the number of buckets to the capacity and rounded down. */
  lemma FirstHintIs<K, V>(c: Config<K>, tb: Table<K, V>, call: Call<K, V>)
    requires tb.Sized() && tb.Capacity() > 0 && !tb.erasable && call.pc.Start?
    ensures var h, b, n := Advance(c, tb, call).1.hint, c.hash(call.key) % |tb.heads|, |tb.heads|;
            h * n <= b * tb.Capacity() < (h + 1) * n
    ensures Advance(c, tb, call).1.ptr == Head(c.hash(call.key) % |tb.heads|)
  {
    hide Valid;
    var p, n := c.hash(call.key) % |tb.heads| * tb.Capacity(), |tb.heads|;
    assert p == p / n * n + p % n;
    assert (p / n + 1) * n == p / n * n + n;
  }

  // ---------------------------------------------------------------- the modified flag

  /** A call that has done anything on a table that takes inserts has set the flag. */
  ghost predicate FlagSet<K, V>(s: State<K, V>) {
    s.table.Capacity() > 0 && !s.table.erasable && (exists t: nat :: t < |s.calls| && !s.calls[t].pc.Start?) ==> s.table.modified
  }

  lemma StepSetsFlag<K, V>(c: Config<K>, s: State<K, V>, t: nat)
    requires t < |s.calls| && Safe(c, s.table, s.calls[t]) && FlagSet(s)
    ensures FlagSet(Step(c, s, t))
  {
    hide Valid, FindAny, Has;
    var s' := Step(c, s, t);
    if u: nat :| u < |s'.calls| && !s'.calls[u].pc.Start? {
      assert s.calls[t].pc.Start? || !s.calls[t].pc.Start?;
      assert u != t ==> s.calls[u] == s'.calls[u];
    }
  }

  lemma {:induction false} RunSetsFlag<K, V>(c: Config<K>, s: State<K, V>, lists: Lists, schedule: seq<nat>)
    requires Inv(c, s, lists) && Picks(s, schedule) && FlagSet(s)
    ensures FlagSet(Run(c, s, lists, schedule).0)
    decreases |schedule|
  {
    hide Inv, FlagSet, Safe, Advance;
    if schedule != [] {
      var front, t := schedule[..|schedule| - 1], schedule[|schedule| - 1];
      assert Picks(s, front);
      RunSetsFlag(c, s, lists, front);
      var (s1, lists1) := Run(c, s, lists, front);
      StepKeeps(c, s1, lists1, t);
      StepSetsFlag(c, s1, t);
    }
  }

  /** After any insert phase that did something, the next `size()` recounts. */
  lemma InsertsAreNoticed<K, V>(c: Config<K>, s: State<K, V>, schedule: seq<nat>)
    requires Init(s) && Picks(s, schedule)
    ensures Inv(c, s, NoLists(s))
    ensures var s' := Run(c, s, NoLists(s), schedule).0;
            s'.table.Capacity() > 0 && !s'.table.erasable && (exists t: nat :: t < |s'.calls| && !s'.calls[t].pc.Start?) ==>
              s'.table.modified
  {
    InitHolds(c, s);
    assert FlagSet(s);
    hide Inv, Init;
    RunSetsFlag(c, s, NoLists(s), schedule);
  }

  // ---------------------------------------------------------------- the failed flag

  /** The call returned without an index. */
  predicate Lost<K, V>(call: Call<K, V>) {
    call.pc.Done? && !call.pc.result.success && !call.pc.result.existing
  }

  ghost predicate SomeLost<K, V>(calls: seq<Call<K, V>>) {
    exists t: nat :: t < |calls| && Lost(calls[t])
  }

  /** On a table that takes inserts, the failed flag is up exactly if an insert has returned without an index. */
  ghost predicate FlagExact<K, V>(s: State<K, V>) {
    s.table.Capacity() > 0 && !s.table.erasable ==> (s.table.failed <==> SomeLost(s.calls))
  }

  lemma CallFlag<K, V>(c: Config<K>, tb: Table<K, V>, lists: Lists, call: Call<K, V>)
    requires CallOk(c, tb, lists, call) && Safe(c, tb, call) && tb.Capacity() > 0 && !tb.erasable
    ensures var (tb', call') := Advance(c, tb, call);
            && tb'.Capacity() == tb.Capacity() && tb'.erasable == tb.erasable
            && (tb'.failed <==> tb.failed || (Lost(call') && !Lost(call)))
            && (Lost(call) ==> Lost(call'))
  {
    hide Has, Valid, HoldOk, WalkOk, CurrOk, FindAny;
    if call.pc.Append? {
      assert LiveOk(c, tb, lists, call);
    }
  }

  lemma StepFlag<K, V>(c: Config<K>, s: State<K, V>, lists: Lists, t: nat)
    requires Inv(c, s, lists) && t < |s.calls| && FlagExact(s)
    ensures Safe(c, s.table, s.calls[t]) && FlagExact(Step(c, s, t))
  {
    assert CallOk(c, s.table, lists, s.calls[t]);
    CallIsSafe(c, s.table, lists, s.calls[t]);
    SizesStay(c, s.table, s.calls[t]);
    var s' := Step(c, s, t);
    if s.table.Capacity() > 0 && !s.table.erasable {
      CallFlag(c, s.table, lists, s.calls[t]);
      hide Inv, CallOk, Advance, Safe, Lost, Has;
      if SomeLost(s.calls) {
        var u: nat :| u < |s.calls| && Lost(s.calls[u]);
        assert Lost(s'.calls[u]);
      }
      if SomeLost(s'.calls) {
        var u: nat :| u < |s'.calls| && Lost(s'.calls[u]);
        assert u != t ==> Lost(s.calls[u]);
      }
      assert Lost(s'.calls[t]) ==> SomeLost(s'.calls);
    }
  }

  lemma {:induction false} RunFlag<K, V>(c: Config<K>, s: State<K, V>, lists: Lists, schedule: seq<nat>)
    requires Inv(c, s, lists) && Picks(s, schedule) && FlagExact(s)
    ensures FlagExact(Run(c, s, lists, schedule).0)
    decreases |schedule|
  {
    hide Inv, FlagExact, Safe, Advance;
    if schedule != [] {
      var front, t := schedule[..|schedule| - 1], schedule[|schedule| - 1];
      assert Picks(s, front);
      RunFlag(c, s, lists, front);
      var (s1, lists1) := Run(c, s, lists, front);
      StepFlag(c, s1, lists1, t);
    }
  }

  /** In every interleaving from an empty table, `failed_insert()` tells exactly whether an insert has failed. */
  lemma FailuresAreFlagged<K, V>(c: Config<K>, s: State<K, V>, schedule: seq<nat>)
    requires Init(s) && Picks(s, schedule)
    ensures Inv(c, s, NoLists(s)) && FlagExact(Run(c, s, NoLists(s), schedule).0)
  {
    InitHolds(c, s);
    assert FlagExact(s);
    hide Inv, Init, FlagExact;
    RunFlag(c, s, NoLists(s), schedule);
  }
}
