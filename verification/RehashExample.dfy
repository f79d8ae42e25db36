/**
 A run after which `rehash` does not preserve the map: an insert fails after it has claimed an entry below the
 one that another insert of the same key succeeds with, and the replay meets the abandoned entry first.
 */
module RehashExample {
  import opened Bitsets
  import opened UnorderedMap
  import opened InsertInvariant
  import opened InsertSteps
  import opened InsertTheorems
  import opened InsertRuns
  import opened InsertAlone
  import opened Rehash

  // ---------------------------------------------------------------- reaching states

  /** Some schedule leads from the empty table to `s`. */
  ghost predicate Reaches<K, V>(c: Config<K>, s0: State<K, V>, s: State<K, V>) {
    Init(s0) && Inv(c, s0, NoLists(s0)) && exists schedule :: Picks(s0, schedule) && Run(c, s0, NoLists(s0), schedule).0 == s
  }

  /** The table and the call after `n` steps of the call, as long as they are safe. */
  ghost function Exec<K, V>(c: Config<K>, tb: Table<K, V>, call: Call<K, V>, n: nat): (Table<K, V>, Call<K, V>) {
    if n == 0 then (tb, call)
    else
      var (tb1, call1) := Exec(c, tb, call, n - 1);
      if Safe(c, tb1, call1) then Advance(c, tb1, call1) else (tb1, call1)
  }

  lemma ReachStep<K, V>(c: Config<K>, s0: State<K, V>, s: State<K, V>, t: nat)
    requires Reaches(c, s0, s) && t < |s.calls|
    ensures Safe(c, s.table, s.calls[t]) && Reaches(c, s0, Step(c, s, t))
  {
    hide Inv, Init, Safe, Advance;
    var schedule :| Picks(s0, schedule) && Run(c, s0, NoLists(s0), schedule).0 == s;
    var lists := Run(c, s0, NoLists(s0), schedule).1;
    StepKeeps(c, s, lists, t);
    var longer := schedule + [t];
    assert longer[..|schedule|] == schedule;
    assert Picks(s0, longer);
    assert Run(c, s0, NoLists(s0), longer).0 == Step(c, s, t);
  }

  lemma {:induction false} ReachExec<K, V>(c: Config<K>, s0: State<K, V>, s: State<K, V>, t: nat, n: nat)
    requires Reaches(c, s0, s) && t < |s.calls|
    ensures var (tb, call) := Exec(c, s.table, s.calls[t], n);
            Reaches(c, s0, State(tb, s.calls[t := call]))
  {
    hide Reaches, Safe, Advance;
    if n == 0 {
      assert s == State(s.table, s.calls[t := s.calls[t]]);
    } else {
      ReachExec(c, s0, s, t, n - 1);
      var (tb, call) := Exec(c, s.table, s.calls[t], n - 1);
      var r := State(tb, s.calls[t := call]);
      ReachStep(c, s0, r, t);
      var (tb', call') := Exec(c, s.table, s.calls[t], n);
      assert Step(c, r, t) == State(tb', s.calls[t := call']);
    }
  }

  // ---------------------------------------------------------------- stretches of one call

  ghost predicate OneBucket<K, V>(tb: Table<K, V>) {
    tb.Sized() && |tb.heads| == 1 && tb.Capacity() > 0 && !tb.erasable
  }

  /** The table after a call has claimed entry `i` and written it. */
  function Written<K, V>(tb: Table<K, V>, i: nat, k: K, v: V): Table<K, V>
    requires i < |tb.keys| && i < |tb.values| && (i < tb.bits.size ==> i / 32 < |tb.bits.blocks|)
  {
    tb.(modified := true, bits := SetBit(tb.bits, i).0, keys := tb.keys[i := k], values := tb.values[i := v])
  }

  function Claimer<K, V>(k: K, v: V, i: nat): Call<K, V> {
    Call(k, v, Append, Head(0), Nil, To(i), i, 0, 0, false)
  }

  /** On an empty list a call claims the entry it finds and is about to append it. */
  lemma ClaimsEntry<K, V>(c: Config<K>, tb: Table<K, V>, k: K, v: V, i: nat)
    requires OneBucket(tb) && tb.heads[0] == Nil && i < tb.Capacity() && !Has(tb.bits, i)
    requires FindAny(tb.bits, false, 0, 0) == (true, i)
    ensures OneBucket(Written(tb, i, k, v))
    ensures Exec(c, tb, NewCall(k, v), 7) == (Written(tb, i, k, v), Claimer(k, v, i))
  {
    hide FindAny, SetBit, Has, MaskRight, TailClear;
    SetBitAdds(tb.bits, i);
    var call := NewCall<K, V>(k, v);
    var tb1 := tb.(modified := true);
    var claimed := tb1.(bits := SetBit(tb.bits, i).0);
    assert Exec(c, tb, call, 1) == (tb1, call.(pc := Load));
    assert Exec(c, tb, call, 2) == (tb1, call.(pc := Compare));
    assert Exec(c, tb, call, 3) == (tb1, call.(pc := Scan));
    assert Exec(c, tb, call, 4) == (tb1, call.(pc := Claim(true), hint := i));
    assert Exec(c, tb, call, 5) == (claimed, call.(pc := WriteKey, hint := i, claimed := To(i)));
  }

  /** It appends the entry to the empty list. */
  lemma AppendsFirst<K, V>(c: Config<K>, tb: Table<K, V>, k: K, v: V, i: nat)
    requires OneBucket(tb) && tb.heads[0] == Nil
    ensures Exec(c, tb, Claimer(k, v, i), 1) ==
            (tb.(heads := [To(i)]), Claimer(k, v, i).(pc := Done(Success(i, 0))))
  {
    hide Valid;
    assert Exec(c, tb, Claimer(k, v, i), 0) == (tb, Claimer(k, v, i));
    assert tb.heads[0 := To(i)] == [To(i)];
  }

  /** A list of one entry `e`. */
  ghost predicate OneEntry<K, V>(tb: Table<K, V>, e: nat) {
    OneBucket(tb) && tb.heads[0] == To(e) && e < tb.Capacity() && tb.nexts[e] == Nil
  }

  /** With the table full and another key in the list, a call fails and raises the flag. */
  lemma FailsOnFull<K, V>(c: Config<K>, tb: Table<K, V>, k: K, v: V, e: nat, next: nat)
    requires OneEntry(tb, e) && tb.keys[e] != k && |tb.bits.blocks| == 1 && e / 32 == 0 && tb.modified
    requires FindAny(tb.bits, false, e, 0) == (false, next)
    ensures Exec(c, tb, NewCall(k, v), 7) ==
            (tb.(failed := true), Call(k, v, Done(Failed(1)), Next(e), Nil, Nil, next, 1, 1, false))
  {
    hide FindAny, Has, MaskRight, TailClear;
    var call := NewCall<K, V>(k, v);
    assert tb.(modified := true) == tb;
    assert Exec(c, tb, call, 1) == (tb, call.(pc := Load));
    assert Exec(c, tb, call, 2) == (tb, call.(pc := Compare, curr := To(e)));
    var past := call.(visited := 1, hint := e, ptr := Next(e));
    assert Exec(c, tb, call, 3) == (tb, past.(pc := Load, curr := To(e)));
    assert Exec(c, tb, call, 4) == (tb, past.(pc := Compare));
    assert Exec(c, tb, call, 5) == (tb, past.(pc := Scan));
    assert Exec(c, tb, call, 6) == (tb, past.(pc := RaiseFailed, hint := next, attempts := 1));
  }

  /** A call that lost the head walks past the entry, sees the flag, and has one attempt left. */
  function LastAttempt<K, V>(k: K, v: V, i: nat, e: nat): Call<K, V> {
    Call(k, v, Append, Next(e), Nil, To(i), e, 0, 1, true)
  }

  lemma WalksOn<K, V>(c: Config<K>, tb: Table<K, V>, k: K, v: V, i: nat, e: nat)
    requires OneEntry(tb, e) && tb.keys[e] != k && tb.failed
    ensures Exec(c, tb, Claimer(k, v, i), 6) == (tb, LastAttempt(k, v, i, e))
  {
    hide Has, Valid;
    var call := Claimer(k, v, i);
    assert Exec(c, tb, call, 1) == (tb, call.(pc := Load));
    assert Exec(c, tb, call, 2) == (tb, call.(pc := Compare, curr := To(e)));
    var past := call.(visited := 1, hint := e, ptr := Next(e));
    assert Exec(c, tb, call, 3) == (tb, past.(pc := Load, curr := To(e)));
    assert Exec(c, tb, call, 4) == (tb, past.(pc := Compare));
    assert Exec(c, tb, call, 5) == (tb, past.(pc := CheckFailed));
  }

  /** The last attempt: it succeeds at the end of the list, and fails elsewhere. */
  lemma LastAppend<K, V>(c: Config<K>, tb: Table<K, V>, k: K, v: V, i: nat, e: nat)
    requires OneBucket(tb) && e < tb.Capacity()
    ensures Exec(c, tb, LastAttempt(k, v, i, e), 1) ==
            if tb.nexts[e] == Nil
            then (tb.(nexts := tb.nexts[e := To(i)]), LastAttempt(k, v, i, e).(pc := Done(Success(i, 1))))
            else (tb, LastAttempt(k, v, i, e).(pc := Done(Failed(1))))
  {
    hide Valid;
    assert Exec(c, tb, LastAttempt(k, v, i, e), 0) == (tb, LastAttempt(k, v, i, e));
  }

  // ---------------------------------------------------------------- the words of the run

  /** A bitset of three bits. */
  function Three(w: bv32): Bits {
    Bits(3, 7, [w])
  }

  lemma NewThree()
    ensures NewBits(3) == Three(0)
  {
    assert TailMaskOf(1) == 1;
    assert TailMaskOf(2) == 3;
    assert TailMaskOf(3) == 7;
  }

  lemma FindsFirst()
    ensures FindAny(Three(0), false, 0, 0) == (true, 0)
    ensures SetBit(Three(0), 0).0 == Three(1)
  {
  }

  lemma FindsSecond()
    ensures FindAny(Three(1), false, 0, 0) == (true, 1)
    ensures SetBit(Three(1), 1).0 == Three(3)
  {
  }

  lemma FindsThird()
    ensures FindAny(Three(3), false, 0, 0) == (true, 2)
    ensures SetBit(Three(3), 2).0 == Three(7)
  {
  }

  lemma FindsNone()
    ensures FindAny(Three(7), false, 2, 0) == (false, 2)
  {
  }

  // ---------------------------------------------------------------- the run

  /** Four calls on an empty table of three entries and one bucket. */
  function Start0(): State<nat, nat> {
    State(FreshTable(3, 1, 0, 0), [NewCall(9, 90), NewCall(5, 1), NewCall(5, 2), NewCall(7, 70)])
  }

  lemma StartHolds(c: Config<nat>)
    ensures Reaches(c, Start0(), Start0()) && OneBucket(Start0().table) && Start0().table.bits == Three(0)
  {
    var s := Start0();
    NewBitsAreClear(3);
    NewThree();
    InitHolds(c, s);
    hide Inv, Init;
    assert Picks(s, []) && Run(c, s, NoLists(s), []).0 == s;
  }

  /** A call that has not started claims the entry that the search finds, and writes it. */
  lemma ClaimReached(c: Config<nat>, s: State<nat, nat>, t: nat, i: nat)
    requires Reaches(c, Start0(), s) && t < |s.calls| && s.calls[t].pc.Start?
    requires s.calls[t] == NewCall(s.calls[t].key, s.calls[t].value)
    requires OneBucket(s.table) && s.table.heads[0] == Nil && FindAny(s.table.bits, false, 0, 0) == (true, i)
    ensures i < s.table.Capacity()
    ensures var tb := Written(s.table, i, s.calls[t].key, s.calls[t].value);
            && OneBucket(tb)
            && Reaches(c, Start0(), State(tb, s.calls[t := Claimer(s.calls[t].key, s.calls[t].value, i)]))
  {
    hide Reaches, FindAny, Has, Written, Claimer, NewCall, MaskRight, TailClear;
    FoundIsRight(s.table.bits, false, 0, 0);
    ClaimsEntry(c, s.table, s.calls[t].key, s.calls[t].value, i);
    ReachExec(c, Start0(), s, t, 7);
  }

  /** The tables once one, two and three calls have written their entries. */
  function OneWritten(): Table<nat, nat> {
    Table(Three(1), [Nil], [Nil, Nil, Nil, Nil], [5, 0, 0, 0], [1, 0, 0, 0], false, true, false, false)
  }

  function TwoWritten(): Table<nat, nat> {
    OneWritten().(bits := Three(3), keys := [5, 5, 0, 0], values := [1, 2, 0, 0])
  }

  function AllWritten(): Table<nat, nat> {
    OneWritten().(bits := Three(7), keys := [5, 5, 9, 0], values := [1, 2, 90, 0])
  }

  lemma FirstWrite(c: Config<nat>)
    ensures OneBucket(OneWritten())
    ensures Reaches(c, Start0(), State(OneWritten(), [NewCall(9, 90), Claimer(5, 1, 0), NewCall(5, 2), NewCall(7, 70)]))
  {
    StartHolds(c);
    NewThree();
    FindsFirst();
    hide Reaches, FindAny, SetBit, OneBucket, NewBits;
    var s := Start0();
    ClaimReached(c, s, 1, 0);
    assert Written(s.table, 0, 5, 1) == OneWritten();
    assert s.calls[1 := Claimer(5, 1, 0)] == [NewCall(9, 90), Claimer(5, 1, 0), NewCall(5, 2), NewCall(7, 70)];
  }

  lemma SecondWrite(c: Config<nat>)
    ensures OneBucket(TwoWritten())
    ensures Reaches(c, Start0(), State(TwoWritten(), [NewCall(9, 90), Claimer(5, 1, 0), Claimer(5, 2, 1), NewCall(7, 70)]))
  {
    FirstWrite(c);
    FindsSecond();
    hide Reaches, FindAny, SetBit, OneBucket, Start0;
    var s := State(OneWritten(), [NewCall(9, 90), Claimer(5, 1, 0), NewCall(5, 2), NewCall(7, 70)]);
    ClaimReached(c, s, 2, 1);
    assert Written(s.table, 1, 5, 2) == TwoWritten();
    assert s.calls[2 := Claimer(5, 2, 1)] == [NewCall(9, 90), Claimer(5, 1, 0), Claimer(5, 2, 1), NewCall(7, 70)];
  }

  lemma WritesReached(c: Config<nat>)
    ensures OneBucket(AllWritten())
    ensures Reaches(c, Start0(), State(AllWritten(), [Claimer(9, 90, 2), Claimer(5, 1, 0), Claimer(5, 2, 1), NewCall(7, 70)]))
  {
    SecondWrite(c);
    FindsThird();
    hide Reaches, FindAny, SetBit, OneBucket, Start0;
    var s := State(TwoWritten(), [NewCall(9, 90), Claimer(5, 1, 0), Claimer(5, 2, 1), NewCall(7, 70)]);
    ClaimReached(c, s, 0, 2);
    assert Written(s.table, 2, 9, 90) == AllWritten();
    assert s.calls[0 := Claimer(9, 90, 2)] == [Claimer(9, 90, 2), Claimer(5, 1, 0), Claimer(5, 2, 1), NewCall(7, 70)];
  }

  /** Entry 2 is linked, and a call that found no entry has failed. */
  function FlagRaised(): Table<nat, nat> {
    AllWritten().(heads := [To(2)], failed := true)
  }

  function Winner(): Call<nat, nat> {
    Claimer(9, 90, 2).(pc := Done(Success(2, 0)))
  }

  function Loser(): Call<nat, nat> {
    Call(7, 70, Done(Failed(1)), Next(2), Nil, Nil, 2, 1, 1, false)
  }

  lemma FlagReached(c: Config<nat>)
    ensures OneEntry(FlagRaised(), 2)
    ensures Reaches(c, Start0(), State(FlagRaised(), [Winner(), Claimer(5, 1, 0), Claimer(5, 2, 1), Loser()]))
  {
    WritesReached(c);
    hide Reaches, FindAny, Valid, Exec, Start0;
    var tb := AllWritten();
    var s := State(tb, [Claimer(9, 90, 2), Claimer(5, 1, 0), Claimer(5, 2, 1), NewCall(7, 70)]);
    AppendsFirst(c, tb, 9, 90, 2);
    ReachExec(c, Start0(), s, 0, 1);
    var tb1 := tb.(heads := [To(2)]);
    var s1 := State(tb1, s.calls[0 := Winner()]);
    assert Reaches(c, Start0(), s1);
    FindsNone();
    FailsOnFull(c, tb1, 7, 70, 2, 2);
    ReachExec(c, Start0(), s1, 3, 7);
    assert s1.calls[3 := Loser()] == [Winner(), Claimer(5, 1, 0), Claimer(5, 2, 1), Loser()];
  }

  /** The second insert of key 5 is linked behind entry 2; the first has failed and keeps entry 0. */
  function Final(): State<nat, nat> {
    State(FlagRaised().(nexts := [Nil, Nil, To(1), Nil]),
          [Winner(), LastAttempt(5, 1, 0, 2).(pc := Done(Failed(1))), LastAttempt(5, 2, 1, 2).(pc := Done(Success(1, 1))), Loser()])
  }

  lemma FinalReached(c: Config<nat>)
    ensures Reaches(c, Start0(), Final())
  {
    FlagReached(c);
    hide Reaches, Valid, Exec, Start0;
    var tb := FlagRaised();
    var s := State(tb, [Winner(), Claimer(5, 1, 0), Claimer(5, 2, 1), Loser()]);
    WalksOn(c, tb, 5, 1, 0, 2);
    ReachExec(c, Start0(), s, 1, 6);
    var s1 := State(tb, s.calls[1 := LastAttempt(5, 1, 0, 2)]);
    assert Reaches(c, Start0(), s1);
    WalksOn(c, tb, 5, 2, 1, 2);
    ReachExec(c, Start0(), s1, 2, 6);
    var s2 := State(tb, s1.calls[2 := LastAttempt(5, 2, 1, 2)]);
    assert Reaches(c, Start0(), s2);
    LastAppend(c, tb, 5, 2, 1, 2);
    ReachExec(c, Start0(), s2, 2, 1);
    var tb' := tb.(nexts := tb.nexts[2 := To(1)]);
    var s3 := State(tb', s2.calls[2 := LastAttempt(5, 2, 1, 2).(pc := Done(Success(1, 1)))]);
    assert Reaches(c, Start0(), s3);
    LastAppend(c, tb', 5, 1, 0, 2);
    ReachExec(c, Start0(), s3, 1, 1);
    assert tb' == Final().table;
    assert s3.calls[1 := LastAttempt(5, 1, 0, 2).(pc := Done(Failed(1)))] == Final().calls;
  }

  lemma FinalCalls()
    ensures Claimed(Final().table, 0) && Quiet(Final().calls) && |Final().calls| == 4
    ensures var won, lost := Final().calls[2], Final().calls[1];
            && Succeeded(won) && won.key == 5 && won.value == 2
            && !Answered(lost) && lost.key == 5 && lost.value == 1
  {
  }

  /**
   The run ends with every call returned. The insert of (5, 2) reported success and the map holds it, the
   insert of (5, 1) reported failure; yet every replay in index order stores 1 for key 5. The condition
   under which `rehash` preserves the map does not hold.
   */
  lemma FailedInsertWins(c: Config<nat>) returns (schedule: seq<nat>)
    ensures Init(Start0()) && Picks(Start0(), schedule) && Inv(c, Start0(), NoLists(Start0()))
    ensures var (f, lists) := Run(c, Start0(), NoLists(Start0()), schedule);
            && Quiet(f.calls)
            && Succeeded(f.calls[2]) && f.calls[2].key == 5 && f.calls[2].value == 2
            && !Answered(f.calls[1]) && f.calls[1].key == 5 && f.calls[1].value == 1
            && 5 in Contents(f.table, lists) && Contents(f.table, lists)[5] == 2
            && (forall m :: Copied(f.table, m, f.table.Capacity()) ==> 5 in m && m[5] == 1)
            && !Harmless(f.table, lists)
  {
    hide Inv, Init, Contents, Copied, Harmless, Final, Start0, Claimed, Quiet, Answered;
    FinalReached(c);
    FinalCalls();
    schedule :| Picks(Start0(), schedule) && Run(c, Start0(), NoLists(Start0()), schedule).0 == Final();
    var (f, lists) := Run(c, Start0(), NoLists(Start0()), schedule);
    AbandonedFirst(c, f, lists);
  }

  lemma AbandonedFirst(c: Config<nat>, f: State<nat, nat>, lists: Lists)
    requires f == Final() && Inv(c, f, lists) && Claimed(f.table, 0)
    ensures 5 in Contents(f.table, lists) && Contents(f.table, lists)[5] == 2
    ensures forall m :: Copied(f.table, m, f.table.Capacity()) ==> 5 in m && m[5] == 1
    ensures !Harmless(f.table, lists)
  {
    assert CallOk(c, f.table, lists, f.calls[1]) && !Listed(lists, 0);
    hide Inv, Shape, Contents, Copied, Has, CallOk, Conserved;
    ResultIsStored(c, f, lists, 2);
    assert Lowest(f.table, 5, 0);
    forall m | Copied(f.table, m, f.table.Capacity())
      ensures 5 in m && m[5] == 1
    {
      CopiedAt(f.table, m, 0, 0);
    }
    assert !HarmlessAt(f.table, lists, 0, 0);
  }
}
