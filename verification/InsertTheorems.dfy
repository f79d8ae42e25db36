/** The key-to-value map that a table stands for, and the effect of every step on it. */
module InsertTheorems {
  import opened Bitsets
  import opened UnorderedMap
  import opened InsertInvariant
  import opened InsertSteps

  // ---------------------------------------------------------------- the abstract map

  /** Entry `i` is linked and stores key `k`. */
  ghost predicate Stores<K, V>(tb: Table<K, V>, lists: Lists, k: K, i: nat) {
    Listed(lists, i) && i < |tb.keys| && i < |tb.values| && tb.keys[i] == k
  }

  ghost function Entries(lists: Lists): set<nat> {
    set b: nat, j: nat | b < |lists| && j < |lists[b]| :: lists[b][j]
  }

  ghost function KeySet<K, V>(tb: Table<K, V>, lists: Lists): set<K> {
    set i | i in Entries(lists) && i < |tb.keys| && i < |tb.values| :: tb.keys[i]
  }

  lemma EntriesAreListed(lists: Lists, i: nat)
    ensures i in Entries(lists) <==> Listed(lists, i)
  {
  }

  lemma KeySetStores<K, V>(tb: Table<K, V>, lists: Lists, k: K)
    ensures k in KeySet(tb, lists) <==> exists i :: Stores(tb, lists, k, i)
  {
    if k in KeySet(tb, lists) {
      var i :| i in Entries(lists) && i < |tb.keys| && i < |tb.values| && tb.keys[i] == k;
      EntriesAreListed(lists, i);
      assert Stores(tb, lists, k, i);
    }
    if i :| Stores(tb, lists, k, i) {
      EntriesAreListed(lists, i);
    }
  }

  /** The entry that stores `k`. */
  ghost function IndexOf<K, V>(tb: Table<K, V>, lists: Lists, k: K): (i: nat)
    requires k in KeySet(tb, lists)
    ensures Stores(tb, lists, k, i)
  {
    KeySetStores(tb, lists, k);
    var i :| Stores(tb, lists, k, i);
    i
  }

  /** The key-to-value map that the linked entries stand for. */
  ghost function Contents<K, V>(tb: Table<K, V>, lists: Lists): map<K, V> {
    map k | k in KeySet(tb, lists) :: tb.values[IndexOf(tb, lists, k)]
  }

  /** Linked entries with equal keys are the same entry. */
  lemma KeyDeterminesEntry<K, V>(c: Config<K>, tb: Table<K, V>, lists: Lists, k: K, i: nat, i': nat)
    requires Shape(c, tb, lists) && Stores(tb, lists, k, i) && Stores(tb, lists, k, i')
    ensures i == i'
  {
    hide Linked, Disjoint, Has;
    var b: nat, j: nat :| b < |lists| && j < |lists[b]| && lists[b][j] == i;
    var b': nat, j': nat :| b' < |lists| && j' < |lists[b']| && lists[b'][j'] == i';
    assert b == Bucket(c, tb, k) == b';
    assert !(j < j') && !(j' < j);
  }

  lemma ContentsAt<K, V>(c: Config<K>, tb: Table<K, V>, lists: Lists, k: K, i: nat)
    requires Shape(c, tb, lists) && Stores(tb, lists, k, i)
    ensures k in Contents(tb, lists) && IndexOf(tb, lists, k) == i && Contents(tb, lists)[k] == tb.values[i]
  {
    hide Shape, Stores;
    KeySetStores(tb, lists, k);
    KeyDeterminesEntry(c, tb, lists, k, i, IndexOf(tb, lists, k));
  }

  // ---------------------------------------------------------------- one step

  /** Linked entries keep their key and value. */
  lemma FramedStores<K, V>(tb: Table<K, V>, lists: Lists, tb': Table<K, V>, lists': Lists, x: Link, k: K, i: nat)
    requires Framed(tb, lists, tb', lists', x)
    ensures Stores(tb, lists, k, i) ==> Stores(tb', lists', k, i) && tb'.values[i] == tb.values[i]
    ensures Stores(tb', lists', k, i) && x != To(i) ==> Stores(tb, lists, k, i)
  {
    if Listed(lists, i) {
      StillListed(lists, lists', i);
    }
  }

  /** From one table to the next the map keeps its pairs, and gains at most the key stored in `x`. */
  lemma FramedContents<K, V>(c: Config<K>, tb: Table<K, V>, lists: Lists, tb': Table<K, V>, lists': Lists, x: Link, k: K)
    requires Shape(c, tb, lists) && Shape(c, tb', lists') && Framed(tb, lists, tb', lists', x)
    ensures k in Contents(tb, lists) ==>
              k in Contents(tb', lists') && Contents(tb', lists')[k] == Contents(tb, lists)[k]
    ensures k in Contents(tb', lists') ==>
              k in Contents(tb, lists) || (x.To? && Stores(tb', lists', k, x.index))
  {
    hide Shape, Framed, Stores, Listed;
    KeySetStores(tb, lists, k);
    KeySetStores(tb', lists', k);
    if i :| Stores(tb, lists, k, i) {
      FramedStores(tb, lists, tb', lists', x, k, i);
      ContentsAt(c, tb, lists, k, i);
      ContentsAt(c, tb', lists', k, i);
    } else if i :| Stores(tb', lists', k, i) {
      FramedStores(tb, lists, tb', lists', x, k, i);
    }
  }

  lemma UnlinkedKeepsPair<K, V>(c: Config<K>, tb: Table<K, V>, lists: Lists, tb': Table<K, V>, x: Link, k: K)
    requires Shape(c, tb, lists) && Shape(c, tb', lists) && Framed(tb, lists, tb', lists, x)
    ensures k in Contents(tb', lists) <==> k in Contents(tb, lists)
    ensures k in Contents(tb, lists) ==> Contents(tb', lists)[k] == Contents(tb, lists)[k]
  {
    hide Shape, Listed, Contents;
    FramedContents(c, tb, lists, tb', lists, x, k);
  }

  lemma UnlinkedKeepsContents<K, V>(c: Config<K>, tb: Table<K, V>, lists: Lists, tb': Table<K, V>, x: Link)
    requires Shape(c, tb, lists) && Shape(c, tb', lists) && Framed(tb, lists, tb', lists, x)
    ensures Contents(tb', lists) == Contents(tb, lists)
  {
    hide Shape, Framed, Contents;
    var m, m' := Contents(tb, lists), Contents(tb', lists);
    forall k | k in m
      ensures k in m' && m'[k] == m[k]
    {
      UnlinkedKeepsPair(c, tb, lists, tb', x, k);
    }
    forall k | k in m'
      ensures k in m
    {
      UnlinkedKeepsPair(c, tb, lists, tb', x, k);
    }
    assert m' == m;
  }

  lemma KeyIsNew<K, V>(c: Config<K>, tb: Table<K, V>, lists: Lists, call: Call<K, V>)
    requires AtEnd(c, tb, lists, call)
    ensures call.key !in Contents(tb, lists)
  {
    hide Linked, Disjoint, KeysDiffer, Has, HoldOk;
    KeySetStores(tb, lists, call.key);
  }

  lemma AppendStores<K, V>(c: Config<K>, tb: Table<K, V>, lists: Lists, call: Call<K, V>, tb': Table<K, V>, lists': Lists)
    requires AtEnd(c, tb, lists, call) && tb.InRange(call.ptr)
    requires tb' == tb.Write(call.ptr, call.claimed) && lists' == Appended(c, tb, lists, call)
    ensures Stores(tb', lists', call.key, call.claimed.index) && tb'.values[call.claimed.index] == call.value
  {
    hide Shape, Has, Listed;
    ListedAfter(c, tb, lists, call, call.claimed.index);
  }

  lemma AppendPair<K, V>(c: Config<K>, tb: Table<K, V>, lists: Lists, call: Call<K, V>, tb': Table<K, V>, lists': Lists, k: K)
    requires Shape(c, tb, lists) && Shape(c, tb', lists') && Framed(tb, lists, tb', lists', call.claimed)
    requires call.claimed.To? && Stores(tb', lists', call.key, call.claimed.index)
    ensures call.key in Contents(tb', lists') && Contents(tb', lists')[call.key] == tb'.values[call.claimed.index]
    ensures k in Contents(tb', lists') <==> k in Contents(tb, lists) || k == call.key
    ensures k in Contents(tb, lists) ==> Contents(tb', lists')[k] == Contents(tb, lists)[k]
  {
    hide Shape, Listed, Contents, Framed;
    ContentsAt(c, tb', lists', call.key, call.claimed.index);
    FramedContents(c, tb, lists, tb', lists', call.claimed, k);
  }

  lemma AppendAddsPair<K, V>(c: Config<K>, tb: Table<K, V>, lists: Lists, call: Call<K, V>, tb': Table<K, V>, lists': Lists)
    requires Shape(c, tb, lists) && Shape(c, tb', lists') && Framed(tb, lists, tb', lists', call.claimed)
    requires call.claimed.To? && Stores(tb', lists', call.key, call.claimed.index)
    requires tb'.values[call.claimed.index] == call.value && call.key !in Contents(tb, lists)
    ensures Contents(tb', lists') == Contents(tb, lists)[call.key := call.value]
  {
    hide Shape, Framed, Contents, Stores;
    var m, m' := Contents(tb, lists), Contents(tb', lists');
    AppendPair(c, tb, lists, call, tb', lists', call.key);
    forall k | k in m
      ensures k in m' && m'[k] == m[k]
    {
      AppendPair(c, tb, lists, call, tb', lists', k);
    }
    forall k | k in m'
      ensures k in m || k == call.key
    {
      AppendPair(c, tb, lists, call, tb', lists', k);
    }
    assert m' == m[call.key := call.value];
  }

  /**
   The effect a call's last step must have to be insert-if-absent: success stores a key that was
   absent, "existing" finds the key present, and every other step leaves the map alone.
   */
  ghost predicate Atomic<K, V>(m: map<K, V>, m': map<K, V>, before: Call<K, V>, after: Call<K, V>) {
    if after.pc.Done? && !before.pc.Done? then
      var r := after.pc.result;
      if r.success then !r.existing && after.key !in m && m' == m[after.key := after.value]
      else m' == m && (r.existing ==> after.key in m)
    else
      m' == m
  }

  /** Every call takes effect in its last step, and in no other. */
  lemma StepIsAtomic<K, V>(c: Config<K>, s: State<K, V>, lists: Lists, t: nat)
    requires Inv(c, s, lists) && t < |s.calls|
    ensures Safe(c, s.table, s.calls[t])
    ensures var s', lists' := Step(c, s, t), ListsAfter(c, s.table, lists, s.calls[t]);
            Atomic(Contents(s.table, lists), Contents(s'.table, lists'), s.calls[t], s'.calls[t])
  {
    hide CallOk, Linked, Disjoint, Placed, KeysDiffer, Conserved, WinnersDiffer, Framed, Contents, Advance, AtEnd, Valid;
    StepKeeps(c, s, lists, t);
    var call, tb, s', lists' := s.calls[t], s.table, Step(c, s, t), ListsAfter(c, s.table, lists, s.calls[t]);
    var x :| Framed(tb, lists, s'.table, lists', x);
    assert CallOk(c, tb, lists, call) && CallOk(c, s'.table, lists', s'.calls[t]);
    if call.pc.Append? && tb.Read(call.ptr) == Nil {
      AppendIsAtomic(c, tb, lists, call, s'.table, lists');
    } else {
      UnlinkedKeepsContents(c, tb, lists, s'.table, x);
      if !call.pc.Done? {
        LastStepResult(c, tb, call);
        ExistingIsStored(c, s'.table, lists, s'.calls[t]);
      }
    }
  }

  lemma AppendIsAtomic<K, V>(c: Config<K>, tb: Table<K, V>, lists: Lists, call: Call<K, V>, tb': Table<K, V>, lists': Lists)
    requires Shape(c, tb, lists) && CallOk(c, tb, lists, call) && call.pc.Append? && Safe(c, tb, call)
    requires tb.Read(call.ptr) == Nil && tb' == Advance(c, tb, call).0 && lists' == ListsAfter(c, tb, lists, call)
    requires Shape(c, tb', lists')
    ensures Succeeded(Advance(c, tb, call).1)
    ensures Atomic(Contents(tb, lists), Contents(tb', lists'), call, Advance(c, tb, call).1)
  {
    hide CallOk, Shape, Framed, Contents, AtEnd, Stores;
    AtTheEnd(c, tb, lists, call);
    AppendedCallOk(c, tb, lists, call);
    AppendFrames(c, tb, lists, call);
    AppendStores(c, tb, lists, call, tb', lists');
    KeyIsNew(c, tb, lists, call);
    AppendAddsPair(c, tb, lists, call, tb', lists');
  }

  lemma LastStepResult<K, V>(c: Config<K>, tb: Table<K, V>, call: Call<K, V>)
    requires Safe(c, tb, call) && !call.pc.Done? && !(call.pc.Append? && tb.Read(call.ptr) == Nil)
    ensures !Succeeded(Advance(c, tb, call).1)
  {
  }

  lemma ExistingIsStored<K, V>(c: Config<K>, tb: Table<K, V>, lists: Lists, call: Call<K, V>)
    requires Shape(c, tb, lists) && CallOk(c, tb, lists, call)
    ensures call.pc.Done? && call.pc.result.index.To? ==>
              Stores(tb, lists, call.key, call.pc.result.index.index) && call.key in Contents(tb, lists)
    ensures call.pc.Done? ==> (call.pc.result.index.To? <==> call.pc.result.success || call.pc.result.existing)
  {
    hide Linked, Disjoint, Placed, KeysDiffer, LiveOk;
    if call.pc.Done? && call.pc.result.index.To? {
      ContentsAt(c, tb, lists, call.key, call.pc.result.index.index);
    }
  }
}
