/** `calculate_capacity` and `rehash`: replaying the valid entries into a fresh table. */
module Rehash {
  import opened Bitsets
  import opened Counting
  import opened UnorderedMap
  import opened InsertInvariant
  import opened InsertTheorems
  import opened InsertRuns
  import opened InsertSearch
  import opened InsertAlone

  const UINT32: nat := 0x1_0000_0000

  /** `calculate_capacity`, with the 32-bit truncation and wrap-around of the original. */
  function CalculateCapacity(hint: nat): nat
    requires hint < UINT32
  {
    if hint == 0 then 128 else (7 * hint / 6 % UINT32 + 127) % UINT32 / 128 * 128
  }

  /**
   The computed capacity covers the hint exactly when the 32-bit arithmetic does not overflow; it is
   then the least positive multiple of 128 at or above seven sixths of the hint.
   */
  lemma CapacityCovers(hint: nat)
    requires hint < UINT32
    ensures hint <= CalculateCapacity(hint) <==> 7 * hint / 6 <= UINT32 - 128
    ensures 7 * hint / 6 <= UINT32 - 128 ==>
              0 < CalculateCapacity(hint) <= MAX_SIZE && CalculateCapacity(hint) % 128 == 0
    ensures hint == 0 ==> CalculateCapacity(hint) == 128
    ensures 0 < hint && 7 * hint / 6 <= UINT32 - 128 ==> 7 * hint / 6 <= CalculateCapacity(hint) < 7 * hint / 6 + 128
  {
    if hint > 0 {
      RoundedUp(hint, 7 * hint / 6);
    }
  }

  lemma RoundedUp(hint: nat, scaled: nat)
    requires 0 < hint < UINT32 && hint <= scaled <= hint + hint / 6
    ensures var rounded := (scaled % UINT32 + 127) % UINT32 / 128 * 128;
            && (hint <= rounded <==> scaled <= UINT32 - 128)
            && (scaled <= UINT32 - 128 ==> 0 < rounded <= MAX_SIZE && rounded % 128 == 0)
            && (scaled <= UINT32 - 128 ==> scaled <= rounded < scaled + 128)
  {
    if scaled <= UINT32 - 128 {
      assert (scaled % UINT32 + 127) % UINT32 == scaled + 127;
    } else if scaled < UINT32 {
      assert (scaled % UINT32 + 127) % UINT32 == scaled + 127 - UINT32;
    } else {
      assert scaled % UINT32 == scaled - UINT32;
    }
  }

  /** A newly constructed map: no bits set, no links, default keys and values. */
  function FreshTable<K, V>(capacity: nat, buckets: nat, k: K, v: V): Table<K, V> {
    Table(NewBits(capacity), seq(buckets, _ => Nil), seq(capacity + 1, _ => Nil),
          seq(capacity + 1, _ => k), seq(capacity + 1, _ => v), false, false, false, false)
  }

  /** The call found or stored its key. */
  predicate Answered<K, V>(call: Call<K, V>) {
    call.pc.Done? && (call.pc.result.success || call.pc.result.existing)
  }

  ghost predicate NoneFailed<K, V>(calls: seq<Call<K, V>>) {
    forall t: nat :: t < |calls| ==> Answered(calls[t])
  }

  // ---------------------------------------------------------------- what a replay copies

  /** `valid_at(i)`: the entry is claimed, whether it is linked or was abandoned by a failed insert. */
  predicate Claimed<K, V>(tb: Table<K, V>, i: nat) {
    i < tb.Capacity() && i < |tb.keys| && i < |tb.values| && Has(tb.bits, i)
  }

  /** `i` is the lowest claimed index that stores `k`. */
  ghost predicate Lowest<K, V>(tb: Table<K, V>, k: K, i: nat) {
    && Claimed(tb, i) && tb.keys[i] == k
    && forall j: nat :: j < i && Claimed(tb, j) ==> tb.keys[j] != k
  }

  /** The keys of the claimed entries below `n`, each with the value at its lowest index, and nothing else. */
  ghost predicate Copied<K, V>(tb: Table<K, V>, m: map<K, V>, n: nat) {
    && (forall k :: k in m ==> exists j: nat :: j < n && Lowest(tb, k, j) && m[k] == tb.values[j])
    && (forall j: nat :: j < n && Claimed(tb, j) ==> tb.keys[j] in m)
  }

  /** The key of a claimed entry has a lowest index. */
  lemma {:induction false} LowestBelow<K, V>(tb: Table<K, V>, k: K, i: nat) returns (j: nat)
    requires Claimed(tb, i) && tb.keys[i] == k
    ensures j <= i && Lowest(tb, k, j)
  {
    hide Has;
    if l: nat :| l < i && Claimed(tb, l) && tb.keys[l] == k {
      j := LowestBelow(tb, k, l);
    } else {
      j := i;
    }
  }

  lemma LowestIsUnique<K, V>(tb: Table<K, V>, k: K, i: nat, j: nat)
    requires Lowest(tb, k, i) && Lowest(tb, k, j)
    ensures i == j
  {
    hide Claimed;
  }

  lemma FreshIsEmpty<K, V>(c: Config<K>, capacity: nat, buckets: nat, k: K, v: V)
    requires capacity <= MAX_SIZE && buckets > 0
    ensures var s := State(FreshTable<K, V>(capacity, buckets, k, v), []);
            && Inv(c, s, NoLists(s)) && Contents(s.table, NoLists(s)) == map[]
  {
    var s := State(FreshTable<K, V>(capacity, buckets, k, v), []);
    NewBitsAreClear(capacity);
    InitHolds(c, s);
    NothingStored(s);
  }

  lemma NobodyHolds<K, V>(c: Config<K>, s: State<K, V>, lists: Lists)
    requires Inv(c, s, lists) && NoneFailed(s.calls)
    ensures Holders(s) == {}
  {
    hide Shape, Conserved, WinnersDiffer, LiveOk, HoldOk;
    forall t: nat | t < |s.calls|
      ensures Held(s.calls[t]) == Nil
    {
      assert CallOk(c, s.table, lists, s.calls[t]) && Answered(s.calls[t]);
    }
  }

  /** A table of which no insert failed has a clear bit unless it holds `capacity()` keys. */
  lemma HasRoom<K, V>(c: Config<K>, s: State<K, V>, lists: Lists)
    requires Inv(c, s, lists) && NoneFailed(s.calls) && |Contents(s.table, lists)| < s.table.Capacity()
    ensures !(forall i: nat :: i < s.table.Capacity() ==> Has(s.table.bits, i))
  {
    hide Inv, Contents, Has;
    ClaimedBits(c, s, lists);
    NobodyHolds(c, s, lists);
    FullSize(s.table.bits);
  }

  lemma FullSize(b: Bits)
    ensures (forall i: nat :: i < b.size ==> Has(b, i)) ==> |Members(b)| == b.size
  {
    hide Has;
    if forall i: nat :: i < b.size ==> Has(b, i) {
      assert Members(b) == Range(b.size);
    }
  }

  ghost function LowestOf<K, V>(tb: Table<K, V>, m: map<K, V>, n: nat, k: K): (j: nat)
    requires Copied(tb, m, n) && k in m
    ensures j < n && Claimed(tb, j) && tb.keys[j] == k
  {
    var j: nat :| j < n && Lowest(tb, k, j) && m[k] == tb.values[j];
    j
  }

  /** A key that is still to be copied leaves the copy smaller than the number of claimed entries. */
  lemma FewerKeys<K, V>(tb: Table<K, V>, m: map<K, V>, i: nat)
    requires Copied(tb, m, i) && Claimed(tb, i)
    ensures |m| < |Members(tb.bits)|
  {
    hide Has, Lowest, Copied, LowestOf;
    var lowest := map k | k in m.Keys :: LowestOf(tb, m, i, k);
    var image := set k | k in m.Keys :: lowest[k];
    ImageSize(m.Keys, lowest, image);
    assert i in Members(tb.bits) && image <= Members(tb.bits) - {i};
    SubsetSize(image, Members(tb.bits) - {i});
  }

  lemma CopiedNext<K, V>(tb: Table<K, V>, m: map<K, V>, i: nat, m': map<K, V>)
    requires Copied(tb, m, i)
    requires if !Claimed(tb, i) || tb.keys[i] in m then m' == m else m' == m[tb.keys[i] := tb.values[i]]
    ensures Copied(tb, m', i + 1)
  {
    hide Has;
    forall k | k in m'
      ensures exists j: nat :: j < i + 1 && Lowest(tb, k, j) && m'[k] == tb.values[j]
    {
      if k in m {
        var j: nat :| j < i && Lowest(tb, k, j) && m[k] == tb.values[j];
      } else {
        assert Lowest(tb, k, i);
      }
    }
  }

  /** Replaying one claimed entry into a table with room does not fail and copies it. */
  lemma ReplayedEntry<K, V>(src: Table<K, V>, i: nat, c: Config<K>, d: State<K, V>, lists: Lists,
                            call: Call<K, V>, m': map<K, V>)
    requires Claimed(src, i) && |Members(src.bits)| <= d.table.Capacity()
    requires Inv(c, d, lists) && NoneFailed(d.calls) && !d.table.erasable && !c.bounded
    requires Copied(src, Contents(d.table, lists), i)
    requires call.key == src.keys[i] && call.value == src.values[i]
    requires Outcome(c, d.table, Contents(d.table, lists), call, m')
    ensures Answered(call) && Copied(src, m', i + 1)
  {
    hide Inv, Contents, Has, Copied;
    FewerKeys(src, Contents(d.table, lists), i);
    HasRoom(c, d, lists);
    CopiedNext(src, Contents(d.table, lists), i, m');
  }

  /**
   The replay loop of `rehash`, one entry after the other. If the new table has at least as many indices as
   the old one has claimed, no insert fails, and the new map has the keys of all claimed entries, each
   with the value at the lowest claimed index of that key.
   */
  method ReplayAll<K(==), V>(src: Table<K, V>, c: Config<K>, d: State<K, V>, ghost lists: Lists)
    returns (d': State<K, V>, ghost lists': Lists)
    requires src.Sized()
    requires Inv(c, d, lists) && d.calls == [] && !d.table.erasable && !c.bounded
    requires Contents(d.table, lists) == map[]
    ensures Inv(c, d', lists') && Quiet(d'.calls) && d'.table.Capacity() == d.table.Capacity()
    ensures |d'.table.heads| == |d.table.heads|
    ensures |Members(src.bits)| <= d.table.Capacity() ==>
              NoneFailed(d'.calls) && Copied(src, Contents(d'.table, lists'), src.Capacity())
  {
    hide Inv, Contents, Has, Outcome, SoloResult, Copied;
    ghost var fits := |Members(src.bits)| <= d.table.Capacity();
    d', lists' := d, lists;
    NothingCopied(src, Contents(d.table, lists));
    for i := 0 to src.Capacity()
      invariant Inv(c, d', lists') && Quiet(d'.calls)
      invariant d'.table.Capacity() == d.table.Capacity() && |d'.table.heads| == |d.table.heads| && !d'.table.erasable
      invariant fits ==> NoneFailed(d'.calls) && Copied(src, Contents(d'.table, lists'), i)
    {
      if Claimed(src, i) {
        ghost var before, beforeLists, n := d', lists', |d'.calls|;
        d', lists' := InsertSolo(c, d', lists', src.keys[i], src.values[i]);
        if fits {
          ReplayedEntry(src, i, c, before, beforeLists, d'.calls[n], Contents(d'.table, lists'));
        }
        assert forall t: nat :: t < n ==> d'.calls[t] == d'.calls[..n][t];
      } else if fits {
        CopiedNext(src, Contents(d'.table, lists'), i, Contents(d'.table, lists'));
      }
    }
  }

  lemma NothingCopied<K, V>(tb: Table<K, V>, m: map<K, V>)
    ensures m == map[] ==> Copied(tb, m, 0)
  {
  }

  // ---------------------------------------------------------------- when the map is preserved

  /**
   Every claimed entry that is not linked has a key of the map, and the lowest claimed index of that key
   stores the value that the map has for it.
   */
  ghost predicate Harmless<K, V>(tb: Table<K, V>, lists: Lists) {
    forall i: nat, j: nat :: HarmlessAt(tb, lists, i, j)
  }

  ghost predicate HarmlessAt<K, V>(tb: Table<K, V>, lists: Lists, i: nat, j: nat) {
    Claimed(tb, i) && !Listed(lists, i) && Lowest(tb, tb.keys[i], j) ==>
      tb.keys[i] in Contents(tb, lists) && tb.values[j] == Contents(tb, lists)[tb.keys[i]]
  }

  lemma LinkedIsClaimed<K, V>(c: Config<K>, tb: Table<K, V>, lists: Lists, k: K)
    requires Shape(c, tb, lists) && k in Contents(tb, lists)
    ensures k in KeySet(tb, lists) && Claimed(tb, IndexOf(tb, lists, k)) && tb.keys[IndexOf(tb, lists, k)] == k
  {
    hide Linked, Disjoint, KeysDiffer, Has;
    assert Stores(tb, lists, k, IndexOf(tb, lists, k));
  }

  lemma LinkedValue<K, V>(c: Config<K>, tb: Table<K, V>, lists: Lists, i: nat)
    requires Shape(c, tb, lists) && Claimed(tb, i) && Listed(lists, i)
    ensures tb.keys[i] in Contents(tb, lists) && Contents(tb, lists)[tb.keys[i]] == tb.values[i]
  {
    hide Shape, Has, Contents;
    ContentsAt(c, tb, lists, tb.keys[i], i);
  }

  lemma HarmlessIsExact<K, V>(c: Config<K>, tb: Table<K, V>, lists: Lists, m': map<K, V>)
    requires Shape(c, tb, lists) && Copied(tb, m', tb.Capacity()) && Harmless(tb, lists)
    ensures m' == Contents(tb, lists)
  {
    hide Shape, Contents, Listed, Has;
    var m := Contents(tb, lists);
    forall k | k in m
      ensures k in m'
    {
      LinkedIsClaimed(c, tb, lists, k);
    }
    forall k | k in m'
      ensures k in m && m'[k] == m[k]
    {
      var j: nat :| j < tb.Capacity() && Lowest(tb, k, j) && m'[k] == tb.values[j];
      if Listed(lists, j) {
        LinkedValue(c, tb, lists, j);
      } else {
        assert HarmlessAt(tb, lists, j, j);
      }
    }
    assert m'.Keys == m.Keys;
    assert m' == m;
  }

  /** The copy equals the map exactly if the abandoned entries are harmless. */
  lemma CopyIsExact<K, V>(c: Config<K>, tb: Table<K, V>, lists: Lists, m': map<K, V>)
    requires Shape(c, tb, lists) && Copied(tb, m', tb.Capacity())
    ensures m' == Contents(tb, lists) <==> Harmless(tb, lists)
  {
    if Harmless(tb, lists) {
      HarmlessIsExact(c, tb, lists, m');
    }
    if m' == Contents(tb, lists) {
      ExactIsHarmless(tb, lists, m');
    }
  }

  lemma ExactIsHarmless<K, V>(tb: Table<K, V>, lists: Lists, m': map<K, V>)
    requires Copied(tb, m', tb.Capacity()) && m' == Contents(tb, lists)
    ensures Harmless(tb, lists)
  {
    hide Contents, Listed, Has, Copied;
    forall i: nat, j: nat
      ensures HarmlessAt(tb, lists, i, j)
    {
      if Claimed(tb, i) && Lowest(tb, tb.keys[i], j) {
        CopiedAt(tb, m', i, j);
      }
    }
  }

  lemma CopiedAt<K, V>(tb: Table<K, V>, m: map<K, V>, i: nat, j: nat)
    requires Copied(tb, m, tb.Capacity()) && Claimed(tb, i) && Lowest(tb, tb.keys[i], j)
    ensures tb.keys[i] in m && m[tb.keys[i]] == tb.values[j]
  {
    hide Has;
    var l: nat :| l < tb.Capacity() && Lowest(tb, tb.keys[i], l) && m[tb.keys[i]] == tb.values[l];
    LowestIsUnique(tb, tb.keys[i], j, l);
  }

  /** Without a failed insert nothing is abandoned. */
  lemma NothingAbandoned<K, V>(c: Config<K>, s: State<K, V>, lists: Lists)
    requires Inv(c, s, lists) && Quiet(s.calls) && (!s.table.failed || NoneFailed(s.calls))
    ensures Holders(s) == {} && Harmless(s.table, lists)
  {
    if NoneFailed(s.calls) {
      NobodyHolds(c, s, lists);
    } else {
      ClaimedBits(c, s, lists);
    }
    hide Shape, CallOk, WinnersDiffer, Listed, Contents, Lowest;
    forall i: nat | Claimed(s.table, i)
      ensures Listed(lists, i)
    {
      assert !HeldBySome(s.calls, i) by {
        forall t: nat | t < |s.calls|
          ensures Held(s.calls[t]) != To(i)
        {
          assert t !in Holders(s);
        }
      }
    }
  }

  /**
   `rehash`, with `currSize` what `size()` returns and whatever bucket count `find_hash_size` picks. If the
   computed capacity is at least `currSize`, which by `CapacityCovers` it is unless the arithmetic
   overflows, no replayed insert fails and the new map has every claimed key with the value at its lowest
   index. That is the old map exactly if the abandoned entries are harmless, and in particular if no
   insert has failed.
   */
  method RehashTo<K(==), V>(c: Config<K>, s: State<K, V>, ghost lists: Lists, currSize: nat,
                            requested: nat, bounded: bool, buckets: nat, defaultKey: K, defaultValue: V)
    returns (c': Config<K>, s': State<K, V>, ghost lists': Lists)
    requires Inv(c, s, lists) && Quiet(s.calls) && currSize == |Members(s.table.bits)|
    requires buckets > 0 && requested < UINT32
    ensures currSize < UINT32 && c' == c.(bounded := bounded) && Inv(c', s', lists') && Quiet(s'.calls)
    ensures s'.table.Capacity() == CalculateCapacity(if requested < currSize then currSize else requested)
    ensures |s'.table.heads| == buckets
    ensures currSize <= s'.table.Capacity() ==>
              && NoneFailed(s'.calls) && Copied(s.table, Contents(s'.table, lists'), s.table.Capacity())
              && (Contents(s'.table, lists') == Contents(s.table, lists) <==> Harmless(s.table, lists))
              && (!s.table.failed ==> Contents(s'.table, lists') == Contents(s.table, lists))
  {
    InvParts(c, s, lists);
    hide Inv, Contents, Members, Copied, Harmless, Shape;
    var hint := if requested < currSize then currSize else requested;
    CapacityFits(hint);
    var unbounded := c.(bounded := false);
    FreshIsEmpty(unbounded, CalculateCapacity(hint), buckets, defaultKey, defaultValue);
    s' := State(FreshTable(CalculateCapacity(hint), buckets, defaultKey, defaultValue), []);
    lists' := NoLists(s');
    if currSize != 0 {
      s', lists' := ReplayAll(s.table, unbounded, s', lists');
    } else {
      NothingClaimed(s.table, Contents(s'.table, lists'));
    }
    c' := c.(bounded := bounded);
    OnlyTheBound(unbounded, c', s', lists');
    if currSize <= s'.table.Capacity() {
      CopyIsExact(c, s.table, lists, Contents(s'.table, lists'));
      if !s.table.failed {
        NothingAbandoned(c, s, lists);
      }
    }
  }

  /** Once all calls have returned, the bound on attempts plays no part. */
  lemma OnlyTheBound<K, V>(c: Config<K>, c': Config<K>, s: State<K, V>, lists: Lists)
    requires Inv(c, s, lists) && Quiet(s.calls) && c'.hash == c.hash
    ensures Inv(c', s, lists)
  {
    hide Linked, Disjoint, KeysDiffer, Conserved, WinnersDiffer, HoldOk, ResultOk, Has;
    forall t: nat | t < |s.calls|
      ensures CallOk(c', s.table, lists, s.calls[t])
    {
      assert CallOk(c, s.table, lists, s.calls[t]);
    }
  }

  /** `rehash(requested)`: bounded again exactly if the map was empty. */
  method RehashDefault<K(==), V>(c: Config<K>, s: State<K, V>, ghost lists: Lists, currSize: nat,
                                 requested: nat, buckets: nat, defaultKey: K, defaultValue: V)
    returns (c': Config<K>, s': State<K, V>, ghost lists': Lists)
    requires Inv(c, s, lists) && Quiet(s.calls) && currSize == |Members(s.table.bits)|
    requires buckets > 0 && requested < UINT32
    ensures c' == c.(bounded := |Members(s.table.bits)| == 0) && Inv(c', s', lists')
    ensures currSize <= s'.table.Capacity() && !s.table.failed ==> Contents(s'.table, lists') == Contents(s.table, lists)
  {
    EmptyHasNone(s.table.bits);
    var bounded := s.table.Capacity() == 0 || currSize == 0;
    c', s', lists' := RehashTo(c, s, lists, currSize, requested, bounded, buckets, defaultKey, defaultValue);
  }

  lemma EmptyHasNone(b: Bits)
    ensures b.size == 0 ==> Members(b) == {}
  {
  }

  lemma InvParts<K, V>(c: Config<K>, s: State<K, V>, lists: Lists)
    requires Inv(c, s, lists)
    ensures Shape(c, s.table, lists) && s.table.Sized() && |Members(s.table.bits)| <= MAX_SIZE
  {
    SubsetSize(Members(s.table.bits), Range(s.table.bits.size));
  }

  /**
   Whatever the hint, a bitset can hold the computed capacity; it is the greatest multiple of 128 up to what 32
   bits keep of seven sixths of the hint and then of the sum with 127.
   */
  lemma CapacityFits(hint: nat)
    requires hint < UINT32
    ensures CalculateCapacity(hint) <= MAX_SIZE && CalculateCapacity(hint) % 128 == 0
    ensures hint > 0 ==>
              var kept := (7 * hint / 6 % 0x1_0000_0000 + 127) % 0x1_0000_0000;
              CalculateCapacity(hint) <= kept < CalculateCapacity(hint) + 128
  {
    var x := (7 * hint / 6 % UINT32 + 127) % UINT32;
    assert x / 128 < UINT32 / 128;
  }

  lemma NothingClaimed<K, V>(tb: Table<K, V>, m: map<K, V>)
    requires |Members(tb.bits)| == 0 && m == map[]
    ensures Copied(tb, m, tb.Capacity())
  {
    forall j: nat | Claimed(tb, j)
      ensures j in Members(tb.bits)
    {
    }
  }
}
