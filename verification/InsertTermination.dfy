/**
 Every schedule of finitely many `insert` calls terminates. The measure is lexicographic: first the
 claims and returns that are still to come, then the work each call can do before the next of them.
 A failed compare-exchange or a lost claim costs work that only another call's append or claim can
 have created.
 */
module InsertTermination {
  import opened Bitsets
  import opened Counting
  import opened UnorderedMap
  import opened InsertInvariant
  import opened InsertSteps

  /** How often this call can still claim or return. */
  function EventsLeft<K, V>(call: Call<K, V>): nat {
    if call.pc.Done? then 0 else if call.claimed == Nil then 2 else 1
  }

  /** `k` levels of height `h`. */
  function Level(h: nat, k: nat): nat {
    if k == 0 then 0 else Level(h, k - 1) + h
  }

  /** Work of a call that holds an entry, `d` list entries away from the end. */
  function HoldingWork(pc: Pc, curr: Link, d: nat): nat {
    match pc
    case WriteKey => 10 * d + 8
    case WriteValue => 10 * d + 7
    case Load => 10 * d + if d == 0 then 5 else 1
    case Compare => 10 * d + if curr == Nil then 4 else 0
    case CheckFailed => 10 * d + 3
    case Append => 10 * d + 2
    case _ => 0
  }

  /** Work of a call without an entry, on a list of `n` entries, with `r` attempts left. */
  function SearchingWork(pc: Pc, curr: Link, n: nat, d: nat, r: nat, free: bool): nat {
    match pc
    case Start => Level(10 * n + 20, 2 * r + 2)
    case Load => Level(10 * n + 20, 2 * r + 1) + 10 * d + 4
    case Compare => Level(10 * n + 20, 2 * r + 1) + 10 * d + if curr == Nil then 2 else 3
    case Scan => Level(10 * n + 20, 2 * r + 1) + 10 * d + 1
    case Claim(_) => Level(10 * n + 20, 2 * r + if free then 0 else 2)
    case _ => 0
  }

  lemma LevelsGrow(h: nat, k: nat)
    ensures Level(h, k + 1) == Level(h, k) + h
    ensures Level(h, k + 2) == Level(h, k) + h + h
  {
  }

  ghost function ListOf<K, V>(c: Config<K>, tb: Table<K, V>, lists: Lists, call: Call<K, V>): seq<nat>
    requires |lists| == |tb.heads| > 0
  {
    lists[Bucket(c, tb, call.key)]
  }

  function AttemptsLeft<K, V>(c: Config<K>, tb: Table<K, V>, call: Call<K, V>): nat {
    if call.attempts < MaxAttempts(c, tb) then MaxAttempts(c, tb) - call.attempts else 0
  }

  /** The work call `call` can do while nobody claims or returns. */
  ghost function Work<K, V>(c: Config<K>, tb: Table<K, V>, lists: Lists, call: Call<K, V>): nat
    requires |lists| == |tb.heads| > 0
  {
    var n := |ListOf(c, tb, lists, call)|;
    var d := if call.visited < n then n - call.visited else 0;
    if call.claimed == Nil then
      SearchingWork(call.pc, call.curr, n, d, AttemptsLeft(c, tb, call),
                    call.hint < tb.Capacity() && !Has(tb.bits, call.hint))
    else
      HoldingWork(call.pc, call.curr, d)
  }

  /** A step is an event, or it leaves lists and bits alone and uses up work. */
  ghost predicate Progress<K, V>(c: Config<K>, tb: Table<K, V>, lists: Lists, call: Call<K, V>) {
    && Safe(c, tb, call) && |lists| == |tb.heads|
    && var (tb', call') := Advance(c, tb, call);
       || EventsLeft(call') < EventsLeft(call)
       || (&& EventsLeft(call') == EventsLeft(call) && ListsAfter(c, tb, lists, call) == lists
           && tb'.bits == tb.bits && |tb'.heads| == |tb.heads|
           && Work(c, tb, lists, call') < Work(c, tb, lists, call))
  }

  lemma StartProgress<K, V>(c: Config<K>, tb: Table<K, V>, lists: Lists, call: Call<K, V>)
    requires tb.Sized() && |lists| == |tb.heads| && CallOk(c, tb, lists, call) && call.pc.Start?
    ensures Progress(c, tb, lists, call)
  {
    hide Level, HoldOk, Valid, Has, MaxAttempts;
    LevelsGrow(10 * |ListOf(c, tb, lists, call)| + 20, 2 * AttemptsLeft(c, tb, call) + 1);
  }

  lemma LoadProgress<K, V>(c: Config<K>, tb: Table<K, V>, lists: Lists, call: Call<K, V>)
    requires tb.Sized() && |lists| == |tb.heads| && Linked(tb, lists) && CallOk(c, tb, lists, call) && call.pc.Load?
    ensures Progress(c, tb, lists, call)
  {
    hide Level, HoldOk, Valid, Has, Linked, MaxAttempts;
    SlotHolds(c, tb, lists, call);
  }

  lemma CompareProgress<K, V>(c: Config<K>, tb: Table<K, V>, lists: Lists, call: Call<K, V>)
    requires tb.Sized() && |lists| == |tb.heads| && Placed(c, tb, lists) && CallOk(c, tb, lists, call) && call.pc.Compare?
    ensures Progress(c, tb, lists, call)
  {
    hide Level, HoldOk, Valid, Has, Placed, MaxAttempts, Listed;
    if call.curr.To? {
      CurrEntry(c, tb, lists, call);
    }
  }

  lemma ScanProgress<K, V>(c: Config<K>, tb: Table<K, V>, lists: Lists, call: Call<K, V>)
    requires tb.Sized() && |lists| == |tb.heads| && CallOk(c, tb, lists, call) && call.pc.Scan?
    ensures Progress(c, tb, lists, call)
  {
    hide Level, HoldOk, Has, FindAny, MaxAttempts;
    var h, r := 10 * |ListOf(c, tb, lists, call)| + 20, AttemptsLeft(c, tb, call);
    LevelsGrow(h, 2 * r);
    LevelsGrow(h, 2 * (r - 1));
    FoundIsRight(tb.bits, false, call.hint, Bucket(c, tb, call.key));
  }

  lemma ClaimProgress<K, V>(c: Config<K>, tb: Table<K, V>, lists: Lists, call: Call<K, V>)
    requires tb.Sized() && |lists| == |tb.heads| && CallOk(c, tb, lists, call) && call.pc.Claim?
    ensures Progress(c, tb, lists, call)
  {
    hide Level, HoldOk, Has, SetBit, MaxAttempts;
    LevelsGrow(10 * |ListOf(c, tb, lists, call)| + 20, 2 * AttemptsLeft(c, tb, call) + 1);
    SetBitAdds(tb.bits, call.hint);
    if !SetBit(tb.bits, call.hint).1 {
      ClaimLost(tb.bits, call.hint);
    }
  }

  lemma HoldingProgress<K, V>(c: Config<K>, tb: Table<K, V>, lists: Lists, call: Call<K, V>)
    requires tb.Sized() && |lists| == |tb.heads| && Linked(tb, lists) && CallOk(c, tb, lists, call)
    requires call.pc.WriteKey? || call.pc.WriteValue? || call.pc.CheckFailed? || call.pc.Append?
    ensures Progress(c, tb, lists, call)
  {
    hide Level, Has, Linked, MaxAttempts, Valid, Listed;
    SlotHolds(c, tb, lists, call);
  }

  lemma LastProgress<K, V>(c: Config<K>, tb: Table<K, V>, lists: Lists, call: Call<K, V>)
    requires tb.Sized() && |lists| == |tb.heads| && CallOk(c, tb, lists, call)
    requires call.pc.Release? || call.pc.RaiseFailed?
    ensures Progress(c, tb, lists, call)
  {
    hide Work, Has, MaxAttempts, Listed, ResetBit;
  }

  lemma CallProgress<K, V>(c: Config<K>, tb: Table<K, V>, lists: Lists, call: Call<K, V>)
    requires Shape(c, tb, lists) && CallOk(c, tb, lists, call) && !call.pc.Done?
    ensures Progress(c, tb, lists, call)
  {
    hide Linked, Disjoint, Placed, KeysDiffer, Valid, CallOk, Progress;
    match call.pc {
      case Start => StartProgress(c, tb, lists, call);
      case Load => LoadProgress(c, tb, lists, call);
      case Compare => CompareProgress(c, tb, lists, call);
      case Scan => ScanProgress(c, tb, lists, call);
      case Claim(_) => ClaimProgress(c, tb, lists, call);
      case Release => LastProgress(c, tb, lists, call);
      case RaiseFailed => LastProgress(c, tb, lists, call);
      case _ => HoldingProgress(c, tb, lists, call);
    }
  }

  // ---------------------------------------------------------------- all calls together

  ghost function Events<K, V>(calls: seq<Call<K, V>>): nat {
    Sum(seq(|calls|, t requires 0 <= t < |calls| => EventsLeft(calls[t])))
  }

  ghost function TotalWork<K, V>(c: Config<K>, tb: Table<K, V>, lists: Lists, calls: seq<Call<K, V>>): nat
    requires |lists| == |tb.heads| > 0
  {
    Sum(seq(|calls|, t requires 0 <= t < |calls| => Work(c, tb, lists, calls[t])))
  }

  lemma EventsAfter<K, V>(calls: seq<Call<K, V>>, t: nat, call': Call<K, V>)
    requires t < |calls|
    ensures Events(calls[t := call']) + EventsLeft(calls[t]) == Events(calls) + EventsLeft(call')
  {
    var xs := seq(|calls|, t requires 0 <= t < |calls| => EventsLeft(calls[t]));
    var calls' := calls[t := call'];
    assert seq(|calls'|, u requires 0 <= u < |calls'| => EventsLeft(calls'[u])) == xs[t := EventsLeft(call')];
    SumUpdate(xs, t, EventsLeft(call'));
  }

  lemma WorkAfter<K, V>(c: Config<K>, tb: Table<K, V>, tb': Table<K, V>, lists: Lists, calls: seq<Call<K, V>>, t: nat, call': Call<K, V>)
    requires t < |calls| && |lists| == |tb.heads| == |tb'.heads| > 0 && tb'.bits == tb.bits
    ensures TotalWork(c, tb', lists, calls[t := call']) + Work(c, tb, lists, calls[t])
            == TotalWork(c, tb, lists, calls) + Work(c, tb, lists, call')
  {
    var xs := seq(|calls|, t requires 0 <= t < |calls| => Work(c, tb, lists, calls[t]));
    var calls' := calls[t := call'];
    var xs' := seq(|calls'|, u requires 0 <= u < |calls'| => Work(c, tb', lists, calls'[u]));
    forall u: nat | u < |calls'|
      ensures xs'[u] == xs[t := Work(c, tb, lists, call')][u]
    {
      SameWork(c, tb, tb', lists, calls'[u]);
    }
    assert xs' == xs[t := Work(c, tb, lists, call')];
    SumUpdate(xs, t, Work(c, tb, lists, call'));
  }

  lemma SameWork<K, V>(c: Config<K>, tb: Table<K, V>, tb': Table<K, V>, lists: Lists, call: Call<K, V>)
    requires |lists| == |tb.heads| == |tb'.heads| > 0 && tb'.bits == tb.bits
    ensures Work(c, tb', lists, call) == Work(c, tb, lists, call)
  {
  }

  /** Every step of a call that has not returned lowers the measure. */
  lemma StepProgresses<K, V>(c: Config<K>, s: State<K, V>, lists: Lists, t: nat)
    requires Inv(c, s, lists) && t < |s.calls| && !s.calls[t].pc.Done?
    ensures Safe(c, s.table, s.calls[t])
    ensures var s', lists' := Step(c, s, t), ListsAfter(c, s.table, lists, s.calls[t]);
            && |lists'| == |s'.table.heads| > 0
            && (|| Events(s'.calls) < Events(s.calls)
                || (&& Events(s'.calls) == Events(s.calls)
                    && TotalWork(c, s'.table, lists', s'.calls) < TotalWork(c, s.table, lists, s.calls)))
  {
    hide CallOk, Linked, Disjoint, Placed, KeysDiffer, Conserved, WinnersDiffer, Advance, Work, Events, TotalWork, Valid;
    StepKeeps(c, s, lists, t);
    var (tb', call') := Advance(c, s.table, s.calls[t]);
    CallProgress(c, s.table, lists, s.calls[t]);
    EventsAfter(s.calls, t, call');
    if tb'.bits == s.table.bits && |tb'.heads| == |s.table.heads| {
      WorkAfter(c, s.table, tb', lists, s.calls, t, call');
    }
  }

  ghost predicate Busy<K, V>(s: State<K, V>) {
    exists t: nat :: t < |s.calls| && !s.calls[t].pc.Done?
  }

  ghost predicate StepsTo<K, V>(c: Config<K>, s: State<K, V>, t: nat, s': State<K, V>) {
    t < |s.calls| && !s.calls[t].pc.Done? && (Safe(c, s.table, s.calls[t]) ==> s' == Step(c, s, t))
  }

  /** No schedule runs forever: from some point on every call has returned. */
  lemma EveryScheduleFinishes<K, V>(c: Config<K>, f: nat -> State<K, V>, pick: nat -> nat, k: nat, lists: Lists)
    requires Inv(c, f(k), lists)
    requires forall i: nat :: k <= i && Busy(f(i)) ==> StepsTo(c, f(i), pick(i), f(i + 1))
    ensures exists n: nat :: k <= n && !Busy(f(n))
    decreases Events(f(k).calls), TotalWork(c, f(k).table, lists, f(k).calls)
  {
    hide CallOk, Linked, Disjoint, Placed, KeysDiffer, Conserved, WinnersDiffer, Advance, Work, Events, TotalWork, Valid;
    if Busy(f(k)) {
      assert StepsTo(c, f(k), pick(k), f(k + 1));
      StepKeeps(c, f(k), lists, pick(k));
      StepProgresses(c, f(k), lists, pick(k));
      EveryScheduleFinishes(c, f, pick, k + 1, ListsAfter(c, f(k).table, lists, f(k).calls[pick(k)]));
    }
  }

  /** Any number of calls started on an empty table all return, whatever the schedule. */
  lemma EveryPhaseFinishes<K, V>(c: Config<K>, f: nat -> State<K, V>, pick: nat -> nat)
    requires Init(f(0))
    requires forall i: nat :: Busy(f(i)) ==> StepsTo(c, f(i), pick(i), f(i + 1))
    ensures exists n: nat :: !Busy(f(n))
  {
    InitHolds(c, f(0));
    hide Inv, Init;
    EveryScheduleFinishes(c, f, pick, 0, seq(|f(0).table.heads|, _ => []));
  }
}
