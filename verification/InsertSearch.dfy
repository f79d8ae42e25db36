/** Where a call of `insert` that runs alone looks for a free index, block by block. */
module InsertSearch {
  import opened Bitsets
  import opened BitsetSearch
  import opened UnorderedMap
  import opened InsertInvariant
  import opened InsertSteps

  // ---------------------------------------------------------------- blocks ahead of a start

  /** The `k`-th block of a sweep from `start`: upwards for directions 0 and 1, downwards for 2 and 3. */
  function Ahead(n: nat, start: nat, dir: nat, k: nat): nat
    requires start < n && k <= n
  {
    if dir % 4 < 2 then (start + k) % n else (start + n - k) % n
  }

  lemma BehindIsAhead(n: nat, blk: nat, dir: nat, a: nat, j: nat)
    requires blk < n && j <= a <= n
    ensures Behind(n, blk, IsBackward(dir), j) == Ahead(n, Behind(n, blk, IsBackward(dir), a), dir, a - j)
  {
    BehindClosed(n, blk, IsBackward(dir), j);
    BehindClosed(n, blk, IsBackward(dir), a);
    Backwards(dir);
    hide Behind, IsBackward;
    var start := Behind(n, blk, IsBackward(dir), a);
    if dir % 4 < 2 {
      Wrapped(start + (a - j), n);
    } else {
      Wrapped(start + n - (a - j), n);
    }
  }

  lemma Backwards(dir: nat)
    ensures IsBackward(dir) <==> dir % 4 >= 2
  {
  }

  // ---------------------------------------------------------------- the sweep of a lone call

  /** The index that the search starts from: the last entry passed, or the place of the bucket scaled to the capacity. */
  function StartIndex<K, V>(c: Config<K>, tb: Table<K, V>, l: seq<nat>, visited: nat, key: K): nat
    requires |tb.heads| > 0 && visited <= |l|
  {
    if visited == 0 then c.hash(key) % |tb.heads| * tb.Capacity() / |tb.heads| else l[visited - 1]
  }

  /**
   What a lone call has done with its hint: it stands `attempts` blocks ahead of where it started, all of
   them without a clear bit, and what it claimed is what the hint named.
   */
  ghost predicate SweptSo<K, V>(c: Config<K>, tb: Table<K, V>, l: seq<nat>, call: Call<K, V>) {
    && |tb.heads| > 0 && call.visited <= |l| && call.hint / 32 < |tb.bits.blocks|
    && var n, blk, back := |tb.bits.blocks|, call.hint / 32, IsBackward(c.hash(call.key) % |tb.heads|);
       && Behind(n, blk, back, call.attempts) == StartIndex(c, tb, l, call.visited, call.key) / 32
       && Swept(tb.bits, false, blk, back, call.attempts)
       && call.attempts <= MaxAttempts(c, tb)
       && (call.claimed.To? ==>
             && call.claimed.index == call.hint < tb.Capacity() && !Has(tb.bits, call.hint)
             && call.attempts < MaxAttempts(c, tb))
  }

  ghost predicate Searched<K, V>(c: Config<K>, tb: Table<K, V>, l: seq<nat>, call: Call<K, V>) {
    SweptSo(c, tb, l, call) && TriesHint(c, tb, l, call)
  }

  /** The index at the offset of the start, in the block where the call stands. */
  function HintedIndex<K, V>(c: Config<K>, tb: Table<K, V>, l: seq<nat>, call: Call<K, V>): nat
    requires |tb.heads| > 0 && call.visited <= |l|
  {
    call.hint / 32 * 32 + StartIndex(c, tb, l, call.visited, call.key) % 32
  }

  ghost predicate Clear(b: Bits, i: nat) {
    i < b.size && !Has(b, i)
  }

  /**
   After a failed search the call first tries the index that the moved hint names, and searches the block only
   if that is taken or out of range.
   */
  ghost predicate TriesHint<K, V>(c: Config<K>, tb: Table<K, V>, l: seq<nat>, call: Call<K, V>)
    requires |tb.heads| > 0 && call.visited <= |l|
  {
    var d, trying := HintedIndex(c, tb, l, call), call.pc.Claim? && !call.pc.found;
    && (call.claimed == Nil && !(call.pc.Claim? && call.pc.found) ==> call.hint == d)
    && (call.attempts > 0 && call.claimed == Nil && !trying && !call.pc.RaiseFailed? && !call.pc.Done? ==> !Clear(tb.bits, d))
    && (call.attempts > 0 && call.claimed.To? && Clear(tb.bits, d) ==> call.claimed.index == d)
  }

  /** Same sizes; and same bits as long as the call has claimed nothing. */
  ghost predicate SameSearch<K, V>(tb0: Table<K, V>, tb: Table<K, V>, call: Call<K, V>) {
    && |tb0.heads| == |tb.heads| && tb0.Capacity() == tb.Capacity() && |tb0.bits.blocks| == |tb.bits.blocks|
    && (call.claimed == Nil ==> tb.bits == tb0.bits)
  }

  lemma StartSearched<K, V>(c: Config<K>, tb0: Table<K, V>, tb: Table<K, V>, lists: Lists, call: Call<K, V>)
    requires tb.Sized() && SameSearch(tb0, tb, call) && call == NewCall(call.key, call.value)
    requires tb.Capacity() > 0 && !tb.erasable && |lists| == |tb.heads|
    ensures Searched(c, tb0, lists[Bucket(c, tb, call.key)], Advance(c, tb, call).1)
  {
    hide Has;
    FirstHintInRange(c, tb, call.key);
  }

  lemma WalkSearched<K, V>(c: Config<K>, tb0: Table<K, V>, tb: Table<K, V>, lists: Lists, call: Call<K, V>)
    requires tb.Sized() && |lists| == |tb.heads| && Placed(c, tb, lists) && CallOk(c, tb, lists, call) && call.pc.Compare?
    requires SameSearch(tb0, tb, call) && Searched(c, tb0, lists[Bucket(c, tb, call.key)], call)
    requires call.visited < |lists[Bucket(c, tb, call.key)]| ==> call.attempts == 0 && call.claimed == Nil
    ensures Safe(c, tb, call) && Searched(c, tb0, lists[Bucket(c, tb, call.key)], Advance(c, tb, call).1)
  {
    hide Placed, Has, HoldOk, Swept, MaskRight, TailClear, Clear;
    if call.curr.To? {
      CurrEntry(c, tb, lists, call);
      NothingSwept(tb0.bits, call.curr.index / 32, IsBackward(Bucket(c, tb, call.key)));
    }
  }

  lemma NothingSwept(b: Bits, blk: nat, backward: bool)
    requires blk < |b.blocks|
    ensures Swept(b, false, blk, backward, 0)
  {
  }

  lemma ScanSearched<K, V>(c: Config<K>, tb0: Table<K, V>, tb: Table<K, V>, lists: Lists, call: Call<K, V>)
    requires tb.Sized() && |lists| == |tb.heads| && CallOk(c, tb, lists, call) && call.pc.Scan?
    requires SameSearch(tb0, tb, call) && Searched(c, tb0, lists[Bucket(c, tb, call.key)], call)
    ensures Safe(c, tb, call) && Searched(c, tb0, lists[Bucket(c, tb, call.key)], Advance(c, tb, call).1)
  {
    hide Has, FindAny, Swept, NoneIn, HoldOk, MaskRight, TailClear;
    ScanTries(c, tb0, tb, lists, call);
    hide TriesHint;
    var dir := Bucket(c, tb, call.key);
    FoundIsRight(tb.bits, false, call.hint, dir);
    if !FindAny(tb.bits, false, call.hint, dir).0 {
      SweptExtends(tb.bits, false, call.hint / 32, IsBackward(dir), call.attempts);
    }
  }

  lemma ScanTries<K, V>(c: Config<K>, tb0: Table<K, V>, tb: Table<K, V>, lists: Lists, call: Call<K, V>)
    requires tb.Sized() && |lists| == |tb.heads| && CallOk(c, tb, lists, call) && call.pc.Scan?
    requires SameSearch(tb0, tb, call) && Searched(c, tb0, lists[Bucket(c, tb, call.key)], call)
    ensures Safe(c, tb, call) && TriesHint(c, tb0, lists[Bucket(c, tb, call.key)], Advance(c, tb, call).1)
  {
    hide Has, FindAny, Swept, HoldOk, MaskRight, TailClear, WalkOk, Behind, StartIndex;
    ScanOffset(tb.bits, call.hint, Bucket(c, tb, call.key));
    var call' := Advance(c, tb, call).1;
    SameRemainder(call.hint, call'.hint, StartIndex(c, tb0, lists[Bucket(c, tb, call.key)], call.visited, call.key));
  }

  lemma ScanOffset(b: Bits, hint: nat, dir: nat)
    requires Valid(b) && hint / 32 < |b.blocks|
    ensures var (found, i) := FindAny(b, false, hint, dir);
            if found then i / 32 == hint / 32 else i % 32 == hint % 32
  {
    hide Has, FindAny, Valid;
    SearchResult(b, false, hint, dir);
  }

  lemma SameRemainder(h: nat, i: nat, start: nat)
    ensures h == h / 32 * 32 + start % 32 && i % 32 == h % 32 ==> i == i / 32 * 32 + start % 32
  {
  }

  lemma ClaimSearched<K, V>(c: Config<K>, tb0: Table<K, V>, tb: Table<K, V>, lists: Lists, call: Call<K, V>)
    requires tb.Sized() && |lists| == |tb.heads| && CallOk(c, tb, lists, call) && call.pc.Claim?
    requires SameSearch(tb0, tb, call) && Searched(c, tb0, lists[Bucket(c, tb, call.key)], call)
    requires call.pc.found ==> Clear(tb.bits, call.hint)
    ensures Safe(c, tb, call) && Searched(c, tb0, lists[Bucket(c, tb, call.key)], Advance(c, tb, call).1)
  {
    hide Has, SetBit, Swept, HoldOk;
    SetBitAdds(tb.bits, call.hint);
  }

  /** Every step of a lone call that has started keeps it. */
  lemma SearchedStep<K, V>(c: Config<K>, tb0: Table<K, V>, tb: Table<K, V>, lists: Lists, call: Call<K, V>)
    requires Shape(c, tb, lists) && CallOk(c, tb, lists, call) && Safe(c, tb, call) && !call.pc.Start?
    requires SameSearch(tb0, tb, call) && Searched(c, tb0, lists[Bucket(c, tb, call.key)], call)
    requires call.pc.Compare? && call.visited < |lists[Bucket(c, tb, call.key)]| ==> call.attempts == 0 && call.claimed == Nil
    requires call.pc.Claim? && call.pc.found ==> Clear(tb.bits, call.hint)
    ensures Searched(c, tb0, lists[Bucket(c, tb, call.key)], Advance(c, tb, call).1)
  {
    hide Linked, Disjoint, Placed, KeysDiffer, CallOk, Has, Swept, Valid, FindAny, SetBit, ResetBit;
    match call.pc {
      case Compare => WalkSearched(c, tb0, tb, lists, call);
      case Scan => ScanSearched(c, tb0, tb, lists, call);
      case Claim(_) => ClaimSearched(c, tb0, tb, lists, call);
      case _ =>
    }
  }

  // ---------------------------------------------------------------- what it comes to

  /** All indices of the block are claimed. */
  ghost predicate Full(b: Bits, blk: nat) {
    forall i: nat :: i < b.size && i / 32 == blk ==> Has(b, i)
  }

  /** The number of blocks that an insert may sweep. */
  function Limit(bounded: bool, n: nat): nat {
    if bounded && n > 32 then 32 else n
  }

  /** Where the sweep of an insert of `key` starts, with the list of its bucket in `l`. */
  function StartBlock<K, V>(c: Config<K>, tb: Table<K, V>, l: seq<nat>, key: K): nat
    requires |tb.heads| > 0
  {
    StartIndex(c, tb, l, |l|, key) / 32
  }

  /**
   The claimed index lies `k` blocks ahead of the start, in the first one that is not full; in a block after the
   first it is the index at the offset of the start if that is clear.
   */
  ghost predicate FoundAt<K, V>(c: Config<K>, tb: Table<K, V>, l: seq<nat>, key: K, i: nat, k: nat)
    requires |tb.heads| > 0 && StartBlock(c, tb, l, key) < |tb.bits.blocks| && k < Limit(c.bounded, |tb.bits.blocks|)
  {
    var n, start, dir := |tb.bits.blocks|, StartBlock(c, tb, l, key), c.hash(key) % |tb.heads|;
    && i < tb.Capacity() && !Has(tb.bits, i) && i / 32 == Ahead(n, start, dir, k)
    && (forall j: nat :: j < k ==> Full(tb.bits, Ahead(n, start, dir, j)))
    && var d := Ahead(n, start, dir, k) * 32 + StartIndex(c, tb, l, |l|, key) % 32;
       k > 0 && d < tb.Capacity() && !Has(tb.bits, d) ==> i == d
  }

  lemma SweptIsFull<K, V>(c: Config<K>, tb: Table<K, V>, l: seq<nat>, call: Call<K, V>)
    requires Searched(c, tb, l, call) && call.visited == |l| && call.attempts <= |tb.bits.blocks|
    ensures StartBlock(c, tb, l, call.key) < |tb.bits.blocks|
    ensures var n, start, dir := |tb.bits.blocks|, StartBlock(c, tb, l, call.key), c.hash(call.key) % |tb.heads|;
            && call.hint / 32 == Ahead(n, start, dir, call.attempts)
            && forall j: nat :: j < call.attempts ==> Full(tb.bits, Ahead(n, start, dir, j))
  {
    hide Has, Behind, Ahead;
    var n, blk, dir := |tb.bits.blocks|, call.hint / 32, c.hash(call.key) % |tb.heads|;
    var back := IsBackward(dir);
    var start := Behind(n, blk, back, call.attempts);
    assert start < n by {
      BehindInRange(n, blk, back, call.attempts);
    }
    BehindIsAhead(n, blk, dir, call.attempts, 0);
    BehindZero(n, blk, back);
    forall j: nat | j < call.attempts
      ensures Full(tb.bits, Ahead(n, start, dir, j))
    {
      BehindIsAhead(n, blk, dir, call.attempts, call.attempts - j);
      assert NoneIn(tb.bits, false, Behind(n, blk, back, call.attempts - j));
    }
  }

  lemma BehindInRange(n: nat, blk: nat, backward: bool, k: nat)
    requires blk < n
    ensures Behind(n, blk, backward, k) < n
  {
  }

  lemma BehindZero(n: nat, blk: nat, backward: bool)
    requires blk < n
    ensures Behind(n, blk, backward, 0) == blk
  {
  }

  /**
   What a lone insert reports: failure at once on a table without capacity or being erased. Otherwise success
   with an index of the first block that is not full, or failure when all blocks it may sweep are full: 32
   for a bounded map of more than 32 blocks, and all of them otherwise. The sweep starts at the block of the
   last entry of the list, or at the place of the bucket scaled to the capacity if the list is empty, and
   the number of the bucket gives its direction.
   */
  ghost predicate SoloResult<K, V>(c: Config<K>, tb: Table<K, V>, lists: Lists, call: Call<K, V>)
    requires |lists| == |tb.heads| > 0
  {
    && call.pc.Done?
    && var r, n, dir := call.pc.result, |tb.bits.blocks|, c.hash(call.key) % |tb.heads|;
       var l := lists[dir];
       if tb.Capacity() == 0 || tb.erasable then !r.success && !r.existing
       else
         && StartBlock(c, tb, l, call.key) < n
         && (r.success ==> r.index.To?)
         && (r.success ==> exists k: nat :: k < Limit(c.bounded, n) && FoundAt(c, tb, l, call.key, r.index.index, k))
         && (!r.success && !r.existing ==>
               forall j: nat :: j < Limit(c.bounded, n) ==> Full(tb.bits, Ahead(n, StartBlock(c, tb, l, call.key), dir, j)))
  }

  lemma LimitIs<K, V>(c: Config<K>, tb: Table<K, V>)
    ensures MaxAttempts(c, tb) == Limit(c.bounded, |tb.bits.blocks|) <= |tb.bits.blocks|
  {
  }

  lemma SuccessResult<K, V>(c: Config<K>, tb: Table<K, V>, lists: Lists, call: Call<K, V>)
    requires |lists| == |tb.heads| > 0 && tb.Capacity() > 0 && !tb.erasable
    requires Searched(c, tb, lists[Bucket(c, tb, call.key)], call) && call.visited == |lists[Bucket(c, tb, call.key)]|
    requires call.claimed.To? && call.pc.Done? && call.pc.result.success && call.pc.result.index == call.claimed
    ensures SoloResult(c, tb, lists, call)
  {
    hide Has, Behind, Ahead, StartIndex;
    LimitIs(c, tb);
    SweptIsFull(c, tb, lists[Bucket(c, tb, call.key)], call);
    assert FoundAt(c, tb, lists[Bucket(c, tb, call.key)], call.key, call.hint, call.attempts);
  }

  lemma FailureResult<K, V>(c: Config<K>, tb: Table<K, V>, lists: Lists, call: Call<K, V>)
    requires |lists| == |tb.heads| > 0 && tb.Capacity() > 0 && !tb.erasable
    requires Searched(c, tb, lists[Bucket(c, tb, call.key)], call) && call.visited == |lists[Bucket(c, tb, call.key)]|
    requires call.pc.Done? && !call.pc.result.success && call.attempts == MaxAttempts(c, tb)
    ensures SoloResult(c, tb, lists, call)
  {
    hide Has, Behind, Ahead, StartIndex;
    LimitIs(c, tb);
    SweptIsFull(c, tb, lists[Bucket(c, tb, call.key)], call);
  }

  lemma StartInRange<K, V>(c: Config<K>, tb: Table<K, V>, lists: Lists, key: K)
    requires Shape(c, tb, lists) && tb.Capacity() > 0
    ensures StartBlock(c, tb, lists[Bucket(c, tb, key)], key) < |tb.bits.blocks|
  {
    hide Linked, Disjoint, KeysDiffer, Has, MaskRight, TailClear;
    FirstHintInRange(c, tb, key);
    var l := lists[Bucket(c, tb, key)];
    if l != [] {
      assert l[|l| - 1] < tb.Capacity();
    }
  }

  /** With at most 32 blocks, or unbounded, a lone insert that fails has seen every index claimed. */
  lemma FailureIsFull<K, V>(c: Config<K>, tb: Table<K, V>, lists: Lists, call: Call<K, V>)
    requires tb.Sized() && |lists| == |tb.heads| && SoloResult(c, tb, lists, call)
    requires tb.Capacity() > 0 && !tb.erasable && !call.pc.result.success && !call.pc.result.existing
    requires c.bounded ==> |tb.bits.blocks| <= 32
    ensures forall i: nat :: i < tb.Capacity() ==> Has(tb.bits, i)
  {
    hide Has, MaskRight, TailClear, StartIndex;
    var n, dir := |tb.bits.blocks|, c.hash(call.key) % |tb.heads|;
    var start := StartBlock(c, tb, lists[dir], call.key);
    forall i: nat | i < tb.Capacity()
      ensures Has(tb.bits, i)
    {
      var j := AheadCovers(n, start, dir, i / 32);
      assert Full(tb.bits, Ahead(n, start, dir, j));
    }
  }

  lemma AheadCovers(n: nat, start: nat, dir: nat, blk: nat) returns (j: nat)
    requires start < n && blk < n
    ensures j < n && Ahead(n, start, dir, j) == blk
  {
    if dir % 4 < 2 {
      j := if blk >= start then blk - start else blk + n - start;
      Wrapped(start + j, n);
    } else {
      j := if blk <= start then start - blk else start + n - blk;
      Wrapped(start + n - j, n);
    }
  }
}
