/**
 The concurrent find-then-set loop that the unit test of `Bitset` runs from every thread: search
 near a private hint, try to flip the bit that was found, and retry. `want` is the value searched
 for: `false` claims clear bits with `set`, `true` claims set bits with `reset`. Each load of a
 word and each atomic update is one step; a schedule interleaves the workers' steps in any order.
 */
module BitsetClaim {
  import opened Bitsets
  import opened BitsetSearch
  import opened Counting

  datatype Worker =
    | Searching(hint: nat, attempts: nat)
    | Claiming(hint: nat, attempts: nat)
    | Won(index: nat)
    | GaveUp
  {
    predicate Finished() {
      Won? || GaveUp?
    }
  }

  datatype State = State(bits: Bits, workers: seq<Worker>)

  /** `set(i)` when a clear bit is wanted, `reset(i)` when a set bit is wanted. */
  function Flip(b: Bits, want: bool, i: nat): (Bits, bool)
    requires i < b.size ==> i / 32 < |b.blocks|
  {
    if want then ResetBit(b, i) else SetBit(b, i)
  }

  lemma FlipEffect(b: Bits, want: bool, i: nat)
    requires Valid(b) && i < b.size
    ensures var (b', won) := Flip(b, want, i);
            && Valid(b') && b'.size == b.size && |b'.blocks| == |b.blocks|
            && won == (Has(b, i) == want)
            && (forall k: nat :: Has(b', k) == if k == i then !want else Has(b, k))
  {
    SetBitAdds(b, i);
    ResetBitRemoves(b, i);
  }

  /** The search direction of worker `t`; the test passes the work item's number. */
  function Dir(t: nat): nat {
    t
  }

  ghost predicate Safe(s: State) {
    Valid(s.bits) && forall t: nat :: t < |s.workers| ==> match s.workers[t]
      case Searching(hint, _) => hint / 32 < |s.bits.blocks|
      case Claiming(hint, _) => hint < s.bits.size
      case _ => true
  }

  /** One atomic step of worker `t`. */
  ghost function Step(want: bool, s: State, t: nat): State
    requires Safe(s) && t < |s.workers|
  {
    match s.workers[t]
    case Searching(hint, attempts) =>
      if attempts < |s.bits.blocks| then
        var (found, hint') := FindAny(s.bits, want, hint, Dir(t));
        s.(workers := s.workers[t := if found then Claiming(hint', attempts)
                                     else Searching(hint', attempts + 1)])
      else
        s.(workers := s.workers[t := GaveUp])
    case Claiming(hint, attempts) =>
      var (bits', won) := Flip(s.bits, want, hint);
      State(bits', s.workers[t := if won then Won(hint) else Searching(hint, attempts)])
    case _ => s
  }

  // ---------------------------------------------------------------- the invariant

  ghost predicate WorkerOk(want: bool, b: Bits, t: nat, w: Worker)
  {
    match w
    case Searching(hint, attempts) =>
      && attempts <= |b.blocks| && hint / 32 < |b.blocks|
      && Swept(b, want, hint / 32, IsBackward(Dir(t)), attempts)
    case Claiming(hint, attempts) =>
      && attempts < |b.blocks| && hint < b.size && hint / 32 < |b.blocks|
      && Swept(b, want, hint / 32, IsBackward(Dir(t)), attempts)
    case Won(i) => i < b.size && Has(b, i) == !want
    case GaveUp => false
  }

  /**
   Every worker has swept as many blocks as it has failed attempts; every flipped bit was won by
   exactly one worker; and nobody has given up.
   */
  ghost predicate Inv(want: bool, s: State) {
    && Valid(s.bits) && |s.workers| <= s.bits.size
    && (forall t: nat :: t < |s.workers| ==> WorkerOk(want, s.bits, t, s.workers[t]))
    && (forall t: nat, u: nat :: t < u < |s.workers| && s.workers[t].Won? && s.workers[u].Won? ==>
          s.workers[t].index != s.workers[u].index)
    && (forall i: nat :: i < s.bits.size && Has(s.bits, i) == !want ==>
          exists t: nat :: t < |s.workers| && s.workers[t] == Won(i))
  }

  /** A bitset whose bits all have the wanted value, and at most as many workers as bits. */
  ghost predicate Init(want: bool, s: State) {
    && Valid(s.bits) && |s.workers| <= s.bits.size
    && (forall i: nat :: i < s.bits.size ==> Has(s.bits, i) == want)
    && (forall t: nat :: t < |s.workers| ==> s.workers[t] == Searching(t / 16 * 16, 0))
  }

  lemma InitHolds(want: bool, s: State)
    requires Init(want, s)
    ensures Inv(want, s)
  {
  }

  /** A sweep over all blocks would need more winners than there are other workers. */
  lemma NeverExhausted(want: bool, s: State, t: nat)
    requires Inv(want, s) && t < |s.workers| && s.workers[t].Searching?
    ensures s.workers[t].attempts < |s.bits.blocks|
  {
    var w, b := s.workers[t], s.bits;
    if w.attempts == |b.blocks| {
      SweepIsComplete(b, want, w.hint / 32, IsBackward(Dir(t)));
      var winners := set u: nat | u < |s.workers| && s.workers[u].Won?;
      var index := map u | u in winners :: s.workers[u].index;
      forall i: nat | i < b.size
        ensures Covers(winners, index, i)
      {
        assert Has(b, i) == !want;
        var u: nat :| u < |s.workers| && s.workers[u] == Won(i);
        assert u in winners && index[u] == i;
      }
      CoverSize(winners, index, b.size);
      SubsetSize(winners, Range(|s.workers|) - {t});
      assert false;
    }
  }

  lemma FlippedWordsKeepSweeps(want: bool, b: Bits, b': Bits, t: nat, w: Worker)
    requires WorkerOk(want, b, t, w)
    requires Valid(b') && b'.size == b.size && |b'.blocks| == |b.blocks|
    requires forall k: nat :: Has(b, k) == !want && k < b.size ==> Has(b', k) == !want
    ensures WorkerOk(want, b', t, w)
  {
  }

  lemma SearchKeeps(want: bool, s: State, t: nat)
    requires Inv(want, s) && t < |s.workers| && s.workers[t].Searching?
    ensures Inv(want, Step(want, s, t))
  {
    hide Has, Candidates, ScanBlock;
    var w, b := s.workers[t], s.bits;
    NeverExhausted(want, s, t);
    FoundIsRight(b, want, w.hint, Dir(t));
    var (found, hint') := FindAny(b, want, w.hint, Dir(t));
    if !found {
      SweptExtends(b, want, w.hint / 32, IsBackward(Dir(t)), w.attempts);
    }
    var w' := if found then Claiming(hint', w.attempts) else Searching(hint', w.attempts + 1);
    assert WorkerOk(want, b, t, w');
    WorkerReplaced(want, s, t, w');
  }

  lemma WorkerReplaced(want: bool, s: State, t: nat, w: Worker)
    requires Inv(want, s) && t < |s.workers| && !s.workers[t].Won? && !w.Won?
    requires WorkerOk(want, s.bits, t, w)
    ensures Inv(want, s.(workers := s.workers[t := w]))
  {
    var s' := s.(workers := s.workers[t := w]);
    forall i: nat | i < s.bits.size && Has(s.bits, i) == !want
      ensures exists u: nat :: u < |s'.workers| && s'.workers[u] == Won(i)
    {
      var u: nat :| u < |s.workers| && s.workers[u] == Won(i);
      assert s'.workers[u] == Won(i);
    }
  }

  lemma ClaimKeeps(want: bool, s: State, t: nat)
    requires Inv(want, s) && t < |s.workers| && s.workers[t].Claiming?
    ensures Inv(want, Step(want, s, t))
  {
    hide Swept, SetBit, ResetBit, Has;
    var w, b, s' := s.workers[t], s.bits, Step(want, s, t);
    FlipEffect(b, want, w.hint);
    forall u: nat | u < |s.workers|
      ensures WorkerOk(want, s'.bits, u, s'.workers[u])
    {
      FlippedWordsKeepSweeps(want, b, s'.bits, u, s.workers[u]);
    }
    forall i: nat | i < b.size && Has(s'.bits, i) == !want
      ensures exists u: nat :: u < |s'.workers| && s'.workers[u] == Won(i)
    {
      if Has(b, i) == !want {
        var u: nat :| u < |s.workers| && s.workers[u] == Won(i);
        assert s'.workers[u] == Won(i);
      } else {
        assert s'.workers[t] == Won(i);
      }
    }
  }

  /** Every step of every worker keeps the invariant. */
  lemma StepKeeps(want: bool, s: State, t: nat)
    requires Inv(want, s) && t < |s.workers|
    ensures Safe(s) && Inv(want, Step(want, s, t))
  {
    match s.workers[t] {
      case Searching(_, _) => SearchKeeps(want, s, t);
      case Claiming(_, _) => ClaimKeeps(want, s, t);
      case _ =>
    }
  }

  /** The state after the workers named in `schedule` have taken one step each, in that order. */
  ghost function Run(want: bool, s: State, schedule: seq<nat>): (s': State)
    requires Inv(want, s)
    requires forall t :: t in schedule ==> t < |s.workers|
    ensures Inv(want, s') && |s'.workers| == |s.workers| && s'.bits.size == s.bits.size
    decreases |schedule|
  {
    if schedule == [] then s else
      assert schedule[0] in schedule && forall t :: t in schedule[1..] ==> t in schedule;
      StepKeeps(want, s, schedule[0]);
      StepKeepsSizes(want, s, schedule[0]);
      Run(want, Step(want, s, schedule[0]), schedule[1..])
  }

  lemma StepKeepsSizes(want: bool, s: State, t: nat)
    requires Inv(want, s) && t < |s.workers| && Safe(s)
    ensures var s' := Step(want, s, t);
            |s'.workers| == |s.workers| && s'.bits.size == s.bits.size
            && |s'.bits.blocks| == |s.bits.blocks|
  {
    if s.workers[t].Claiming? {
      FlipEffect(s.bits, want, s.workers[t].hint);
    }
  }

  /**
   Under every interleaving of at most `size()` workers nobody runs out of attempts, no two workers
   win the same bit, and the flipped bits are exactly the winners' bits. Once as many workers as
   bits have finished, every bit has been flipped.
   */
  lemma EveryScheduleIsSafe(want: bool, s: State, schedule: seq<nat>)
    requires Init(want, s)
    requires forall t :: t in schedule ==> t < |s.workers|
    ensures Inv(want, s)
    ensures var s' := Run(want, s, schedule);
            && GaveUp !in s'.workers
            && (forall i: nat :: i < s.bits.size ==> (Won(i) in s'.workers <==> Has(s'.bits, i) == !want))
            && (forall t: nat, u: nat :: t < u < |s'.workers| && s'.workers[t].Won? ==>
                  s'.workers[t] != s'.workers[u])
            && (|s.workers| == s.bits.size && (forall w :: w in s'.workers ==> w.Finished()) ==>
                  forall i: nat :: i < s.bits.size ==> Has(s'.bits, i) == !want)
  {
    InitHolds(want, s);
    var s' := Run(want, s, schedule);
    if |s.workers| == s.bits.size && forall w :: w in s'.workers ==> w.Finished() {
      AllBitsWon(want, s');
    }
  }

  lemma AllBitsWon(want: bool, s: State)
    requires Inv(want, s) && |s.workers| == s.bits.size
    requires forall w :: w in s.workers ==> w.Finished()
    ensures forall i: nat :: i < s.bits.size ==> Has(s.bits, i) == !want
  {
    forall t: nat | t < |s.workers|
      ensures s.workers[t].Won? && s.workers[t].index < s.bits.size
    {
      assert s.workers[t] in s.workers && WorkerOk(want, s.bits, t, s.workers[t]);
    }
    var won := seq(|s.workers|, t requires 0 <= t < |s.workers| => s.workers[t].index);
    Pigeonhole(won);
    forall i: nat | i < s.bits.size
      ensures Has(s.bits, i) == !want
    {
      assert i in won;
    }
  }

  // ---------------------------------------------------------------- termination

  /**
   What a worker can still do before the next bit is won: a search that fails costs an attempt, a
   claim that is doomed because its bit was just taken costs one more search.
   */
  ghost function Work(want: bool, b: Bits, w: Worker): nat
  {
    match w
    case Searching(_, attempts) => if attempts <= |b.blocks| then 3 * (|b.blocks| - attempts) + 1 else 0
    case Claiming(hint, attempts) =>
      if |b.blocks| < attempts then 0
      else 3 * (|b.blocks| - attempts) + if Has(b, hint) == want then 0 else 2
    case _ => 0
  }

  ghost function Unfinished(s: State): nat {
    Sum(seq(|s.workers|, t requires 0 <= t < |s.workers| => if s.workers[t].Finished() then 0 else 1))
  }

  ghost function TotalWork(want: bool, s: State): nat {
    Sum(seq(|s.workers|, t requires 0 <= t < |s.workers| => Work(want, s.bits, s.workers[t])))
  }

  lemma OneWorkerChanged(want: bool, s: State, t: nat, w: Worker)
    requires t < |s.workers|
    ensures var s' := s.(workers := s.workers[t := w]);
            && Unfinished(s') + (if s.workers[t].Finished() then 0 else 1)
               == Unfinished(s) + (if w.Finished() then 0 else 1)
            && TotalWork(want, s') + Work(want, s.bits, s.workers[t])
               == TotalWork(want, s) + Work(want, s.bits, w)
  {
    var s' := s.(workers := s.workers[t := w]);
    var flags := seq(|s.workers|, t requires 0 <= t < |s.workers| => if s.workers[t].Finished() then 0 else 1);
    var flags' := seq(|s'.workers|, t requires 0 <= t < |s'.workers| => if s'.workers[t].Finished() then 0 else 1);
    assert flags' == flags[t := if w.Finished() then 0 else 1];
    SumUpdate(flags, t, if w.Finished() then 0 else 1);
    var work := seq(|s.workers|, t requires 0 <= t < |s.workers| => Work(want, s.bits, s.workers[t]));
    var work' := seq(|s'.workers|, t requires 0 <= t < |s'.workers| => Work(want, s'.bits, s'.workers[t]));
    assert work' == work[t := Work(want, s.bits, w)];
    SumUpdate(work, t, Work(want, s.bits, w));
  }

  /** Every step of an unfinished worker wins a bit or uses up work. */
  lemma StepProgresses(want: bool, s: State, t: nat)
    requires Inv(want, s) && t < |s.workers| && !s.workers[t].Finished() && Safe(s)
    ensures var s' := Step(want, s, t);
            || Unfinished(s') < Unfinished(s)
            || (Unfinished(s') == Unfinished(s) && TotalWork(want, s') < TotalWork(want, s))
  {
    var w, b, s' := s.workers[t], s.bits, Step(want, s, t);
    match w {
      case Searching(hint, attempts) =>
        NeverExhausted(want, s, t);
        FoundIsRight(b, want, hint, Dir(t));
        OneWorkerChanged(want, s, t, s'.workers[t]);
      case Claiming(hint, attempts) =>
        FlipEffect(b, want, hint);
        if Has(b, hint) == want {
          FinishedOneMore(s, s', t);
        } else {
          FailedFlipKeepsWords(b, want, hint);
          OneWorkerChanged(want, s, t, s'.workers[t]);
        }
    }
  }

  lemma FailedFlipKeepsWords(b: Bits, want: bool, i: nat)
    requires Valid(b) && i < b.size && Has(b, i) != want
    ensures Flip(b, want, i).0 == b
  {
    RewriteBit(b, i);
  }

  lemma FinishedOneMore(s: State, s': State, t: nat)
    requires t < |s.workers| == |s'.workers| && !s.workers[t].Finished() && s'.workers[t].Finished()
    requires s'.workers == s.workers[t := s'.workers[t]]
    ensures Unfinished(s') < Unfinished(s)
  {
    OneWorkerChanged(true, s, t, s'.workers[t]);
    assert Unfinished(s') == Unfinished(s.(workers := s'.workers));
  }

  /** No schedule that keeps picking unfinished workers runs forever. */
  lemma EveryScheduleFinishes(want: bool, f: nat -> State, pick: nat -> nat, k: nat)
    requires Inv(want, f(k))
    requires forall i: nat :: k <= i && Inv(want, f(i)) && Busy(f(i)) ==>
               && pick(i) < |f(i).workers| && !f(i).workers[pick(i)].Finished()
               && Safe(f(i)) && f(i + 1) == Step(want, f(i), pick(i))
    ensures exists n: nat :: k <= n && Inv(want, f(n)) && !Busy(f(n))
    decreases Unfinished(f(k)), TotalWork(want, f(k))
  {
    if Busy(f(k)) {
      StepKeeps(want, f(k), pick(k));
      StepProgresses(want, f(k), pick(k));
      EveryScheduleFinishes(want, f, pick, k + 1);
    }
  }

  ghost predicate Busy(s: State) {
    exists t: nat :: t < |s.workers| && !s.workers[t].Finished()
  }

  /**
   Worker `t`, going first: it wins the index of its bit group that is nearest to its hint, upwards from the
   hint for an even work item, downwards from two below it for an odd one.
   */
  lemma FirstClaim(want: bool, s: State, t: nat)
    requires Init(want, s) && t < |s.workers|
    ensures Safe(s) && Safe(Step(want, s, t)) && t < |Step(want, s, t).workers|
    ensures var w, hint := Step(want, Step(want, s, t), t).workers[t], t / 16 * 16;
            && w.Won? && w.index < s.bits.size && w.index / 32 == hint / 32
            && (t % 2 == 0 ==> w.index == hint)
            && (t % 2 == 1 ==> forall p: nat :: p < s.bits.size && p / 32 == hint / 32 ==> (hint - 2 - w.index) % 32 <= (hint - 2 - p) % 32)
  {
    var hint := t / 16 * 16;
    FirstSearch(want, s, t, hint);
    var i := FindAny(s.bits, want, hint, t).1;
    InitSafe(want, s);
    assert s.workers[t] == Searching(hint, 0);
    hide Init;
    TwoSteps(want, s, t, hint, i);
    hide Step, Safe, FindAny, Has;
  }

  lemma TwoSteps(want: bool, s: State, t: nat, hint: nat, i: nat)
    requires Safe(s) && t < |s.workers| && s.workers[t] == Searching(hint, 0) && |s.bits.blocks| > 0
    requires HintBlock(s.bits, want, hint) < |s.bits.blocks| && FindAny(s.bits, want, hint, t) == (true, i)
    requires i < s.bits.size && Has(s.bits, i) == want
    ensures Safe(Step(want, s, t)) && t < |Step(want, s, t).workers|
    ensures t < |Step(want, Step(want, s, t), t).workers| && Step(want, Step(want, s, t), t).workers[t] == Won(i)
  {
    hide FindAny, Has, Flip, MaskRight, TailClear;
    FlipEffect(s.bits, want, i);
  }

  lemma InitSafe(want: bool, s: State)
    requires Init(want, s)
    ensures Safe(s) && (s.workers != [] ==> |s.bits.blocks| > 0)
  {
    hide Has, MaskRight, TailClear;
  }

  lemma FirstSearch(want: bool, s: State, t: nat, hint: nat)
    requires Init(want, s) && t < |s.workers| && hint == t / 16 * 16
    ensures hint / 32 < |s.bits.blocks|
    ensures var (found, i) := FindAny(s.bits, want, hint, t);
            && found && i < s.bits.size && i / 32 == hint / 32 && Has(s.bits, i) == want
            && (t % 2 == 0 ==> i == hint)
            && (t % 2 == 1 ==> forall p: nat :: p < s.bits.size && p / 32 == hint / 32 ==> (hint - 2 - i) % 32 <= (hint - 2 - p) % 32)
  {
    hide Has, MaskRight, TailClear;
    assert hint < s.bits.size && hint / 32 < |s.bits.blocks|;
    SearchResult(s.bits, want, hint, t);
    hide FindAny, Valid;
    assert Hit(s.bits, want, hint / 32, hint);
    var i := FindAny(s.bits, want, hint, t).1;
    if t % 2 == 0 {
      assert (hint - hint) % 32 == 0;
      SameBlock(hint, i);
    } else {
      forall p: nat | p < s.bits.size && p / 32 == hint / 32
        ensures (hint - 2 - i) % 32 <= (hint - 2 - p) % 32
      {
        assert Hit(s.bits, want, hint / 32, p);
      }
    }
  }

  lemma SameBlock(h: nat, i: nat)
    requires h / 32 == i / 32 && (i - h) % 32 == 0
    ensures i == h
  {
  }
}
