/** The replay of `rehash` as the original runs it: one `insert` for every claimed entry, all in parallel. */
module RehashParallel {
  import opened Bitsets
  import opened UnorderedMap
  import opened InsertInvariant
  import opened InsertSteps
  import opened InsertTheorems
  import opened InsertRuns
  import opened InsertAlone
  import opened Rehash

  /** The claimed indices below `n`, in order. */
  function ClaimedBelow<K, V>(src: Table<K, V>, n: nat): (r: seq<nat>)
    ensures forall t: nat :: t < |r| ==> r[t] < n && Claimed(src, r[t])
    ensures forall t: nat, u: nat :: t < u < |r| ==> r[t] < r[u]
    ensures forall i: nat :: i < n && Claimed(src, i) ==> i in r
  {
    if n == 0 then []
    else
      var r := ClaimedBelow(src, n - 1);
      if Claimed(src, n - 1) then r + [n - 1] else r
  }

  /** One call for every claimed entry. */
  function ReplayCalls<K, V>(src: Table<K, V>): (calls: seq<Call<K, V>>)
    ensures var r := ClaimedBelow(src, src.Capacity());
            |calls| == |r| && forall t: nat :: t < |r| ==> calls[t] == NewCall(src.keys[r[t]], src.values[r[t]])
  {
    var r := ClaimedBelow(src, src.Capacity());
    seq(|r|, t requires 0 <= t < |r| => NewCall(src.keys[r[t]], src.values[r[t]]))
  }

  /** A run does not change the arguments of a call. */
  lemma {:induction false} ArgumentsStay<K, V>(c: Config<K>, s: State<K, V>, lists: Lists, schedule: seq<nat>, t: nat)
    requires Inv(c, s, lists) && Picks(s, schedule) && t < |s.calls|
    ensures var r := Run(c, s, lists, schedule).0;
            r.calls[t].key == s.calls[t].key && r.calls[t].value == s.calls[t].value
    decreases |schedule|
  {
    hide Inv, Safe, Advance;
    if schedule != [] {
      var front, u := schedule[..|schedule| - 1], schedule[|schedule| - 1];
      assert Picks(s, front);
      ArgumentsStay(c, s, lists, front, t);
      var (s1, lists1) := Run(c, s, lists, front);
      StepKeeps(c, s1, lists1, u);
      DoneStays(c, s1.table, s1.calls[u]);
    }
  }

  /** What a sequential run into an empty map stores comes from a call that succeeded. */
  lemma {:induction false} StoredBySuccess<K, V>(calls: seq<Call<K, V>>, order: seq<nat>, k: K) returns (t: nat)
    requires forall i: nat :: i < |order| ==> order[i] < |calls|
    requires k in Replay(map[], calls, order)
    ensures t < |calls| && Succeeded(calls[t]) && calls[t].key == k && calls[t].value == Replay(map[], calls, order)[k]
    decreases |order|
  {
    var n := |order| - 1;
    var last := calls[order[n]];
    if Succeeded(last) && last.key == k {
      t := order[n];
    } else {
      t := StoredBySuccess(calls, order[..n], k);
    }
  }

  /** A finished parallel replay into an empty table, under some schedule. */
  ghost predicate Finished<K, V>(src: Table<K, V>, c: Config<K>, d: State<K, V>, schedule: seq<nat>) {
    && Init(d) && d.calls == ReplayCalls(src) && Picks(d, schedule)
    && Inv(c, d, NoLists(d)) && Quiet(Run(c, d, NoLists(d), schedule).0.calls)
  }

  ghost function Result<K, V>(src: Table<K, V>, c: Config<K>, d: State<K, V>, schedule: seq<nat>): map<K, V>
    requires Finished(src, c, d, schedule)
  {
    var (d', lists) := Run(c, d, NoLists(d), schedule);
    Contents(d'.table, lists)
  }

  ghost function Calls<K, V>(src: Table<K, V>, c: Config<K>, d: State<K, V>, schedule: seq<nat>): (calls: seq<Call<K, V>>)
    requires Finished(src, c, d, schedule)
    ensures |calls| == |ReplayCalls(src)|
  {
    Run(c, d, NoLists(d), schedule).0.calls
  }

  lemma CallOfEntry<K, V>(src: Table<K, V>, c: Config<K>, d: State<K, V>, schedule: seq<nat>, t: nat)
    requires Finished(src, c, d, schedule) && t < |ReplayCalls(src)|
    ensures var i, call := ClaimedBelow(src, src.Capacity())[t], Calls(src, c, d, schedule)[t];
            Claimed(src, i) && call.key == src.keys[i] && call.value == src.values[i] && call.pc.Done?
  {
    hide Inv, Init, ClaimedBelow, Has;
    ArgumentsStay(c, d, NoLists(d), schedule, t);
  }

  /** A pair of the new map comes from a claimed entry whose call succeeded. */
  lemma StoredEntry<K, V>(src: Table<K, V>, c: Config<K>, d: State<K, V>, schedule: seq<nat>, k: K) returns (t: nat)
    requires Finished(src, c, d, schedule) && k in Result(src, c, d, schedule)
    ensures t < |ReplayCalls(src)| && Succeeded(Calls(src, c, d, schedule)[t])
    ensures var i := ClaimedBelow(src, src.Capacity())[t];
            Claimed(src, i) && src.keys[i] == k && src.values[i] == Result(src, c, d, schedule)[k]
  {
    hide Inv, Init, ClaimedBelow, Has, Contents, Explains, Agree;
    ConcurrentInserts(c, d, schedule);
    var order := Returned(c, d, NoLists(d), schedule);
    var calls := Calls(src, c, d, schedule);
    assert forall i: nat :: i < |order| ==> order[i] < |calls| by {
      OrderInRange(calls, order);
    }
    t := StoredBySuccess(calls, order, k);
    CallOfEntry(src, c, d, schedule, t);
  }

  lemma OrderInRange<K, V>(calls: seq<Call<K, V>>, order: seq<nat>)
    requires Explains(map[], calls, order)
    ensures forall i: nat :: i < |order| ==> order[i] < |calls|
  {
  }

  /** The key of a call that did not fail is in the new map. */
  lemma AnsweredEntry<K, V>(src: Table<K, V>, c: Config<K>, d: State<K, V>, schedule: seq<nat>, t: nat)
    requires Finished(src, c, d, schedule) && t < |ReplayCalls(src)| && Answered(Calls(src, c, d, schedule)[t])
    ensures src.keys[ClaimedBelow(src, src.Capacity())[t]] in Result(src, c, d, schedule)
  {
    hide Init, ClaimedBelow, Has, Contents, Shape, Conserved, WinnersDiffer;
    CallOfEntry(src, c, d, schedule, t);
    var (d', lists) := Run(c, d, NoLists(d), schedule);
    assert CallOk(c, d'.table, lists, d'.calls[t]);
    ResultIsStored(c, d', lists, t);
  }

  /**
   The parallel replay, under every interleaving: every pair of the new map is that of a claimed entry, and
   if no call fails the new map has the keys of all claimed entries.
   */
  lemma ParallelReplay<K, V>(src: Table<K, V>, c: Config<K>, d: State<K, V>, schedule: seq<nat>)
    requires Finished(src, c, d, schedule)
    ensures var m := Result(src, c, d, schedule);
            && (forall k :: k in m ==> exists i: nat :: Claimed(src, i) && src.keys[i] == k && src.values[i] == m[k])
            && (NoneFailed(Calls(src, c, d, schedule)) ==> forall i: nat :: Claimed(src, i) ==> src.keys[i] in m)
  {
    hide Finished, Has, Result, Calls;
    var m := Result(src, c, d, schedule);
    forall k | k in m
      ensures exists i: nat :: Claimed(src, i) && src.keys[i] == k && src.values[i] == m[k]
    {
      var t := StoredEntry(src, c, d, schedule, k);
    }
    if NoneFailed(Calls(src, c, d, schedule)) {
      forall i: nat | Claimed(src, i)
        ensures src.keys[i] in m
      {
        var r := ClaimedBelow(src, src.Capacity());
        assert i in r;
        var t: nat :| t < |r| && r[t] == i;
        AnsweredEntry(src, c, d, schedule, t);
      }
    }
  }

  /** Linked entries have different keys. */
  lemma SameEntry<K, V>(c: Config<K>, tb: Table<K, V>, lists: Lists, i: nat, j: nat)
    requires Shape(c, tb, lists) && Claimed(tb, i) && Claimed(tb, j) && Listed(lists, i) && Listed(lists, j)
    requires tb.keys[i] == tb.keys[j]
    ensures i == j
  {
    hide Shape, Has, Listed;
    KeyDeterminesEntry(c, tb, lists, tb.keys[i], i, j);
  }

  /**
   The parallel replay of a table without abandoned entries, under every interleaving: the new map is
   contained in the old one, and equals it exactly if no replayed call failed.
   */
  lemma ParallelRehash<K, V>(c0: Config<K>, src: Table<K, V>, lists: Lists, c: Config<K>, d: State<K, V>, schedule: seq<nat>)
    requires Shape(c0, src, lists) && (forall i: nat :: Claimed(src, i) ==> Listed(lists, i))
    requires Finished(src, c, d, schedule)
    ensures var m, m' := Contents(src, lists), Result(src, c, d, schedule);
            && (forall k :: k in m' ==> k in m && m'[k] == m[k])
            && (m' == m <==> NoneFailed(Calls(src, c, d, schedule)))
  {
    hide Finished, Has, Result, Calls, Contents, Shape, Listed;
    var m, m' := Contents(src, lists), Result(src, c, d, schedule);
    ParallelReplay(src, c, d, schedule);
    forall k | k in m'
      ensures k in m && m'[k] == m[k]
    {
      var i: nat :| Claimed(src, i) && src.keys[i] == k && src.values[i] == m'[k];
      LinkedValue(c0, src, lists, i);
    }
    if NoneFailed(Calls(src, c, d, schedule)) {
      forall k | k in m
        ensures k in m'
      {
        LinkedIsClaimed(c0, src, lists, k);
      }
      assert m' == m;
    }
    if m' == m {
      forall t: nat | t < |ReplayCalls(src)|
        ensures Answered(Calls(src, c, d, schedule)[t])
      {
        CallOfEntry(src, c, d, schedule, t);
        var r := ClaimedBelow(src, src.Capacity());
        LinkedValue(c0, src, lists, r[t]);
        var u := StoredEntry(src, c, d, schedule, src.keys[r[t]]);
        SameEntry(c0, src, lists, r[t], r[u]);
        assert t == u;
      }
    }
  }
}
