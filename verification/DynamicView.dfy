/**
 `DynamicView`: a resizable array kept in chunks of 2^shift elements. A table of chunk pointers is followed
 by the number of allocated chunks and the extent. Allocations carry an identity, so that every one of
 them can be followed to the call that frees it.
 */
module DynamicView {
  import opened Counting
  import opened Wrappers

  // ---------------------------------------------------------------- chunk arithmetic

  /** The position of the highest bit; zero for zero. */
  function Log2(n: nat): (r: nat)
    ensures n > 0 ==> Power2(r) <= n < Power2(r + 1)
    ensures n == 0 ==> r == 0
  {
    if n <= 1 then 0 else Log2(n / 2) + 1
  }

  /** `integral_power_of_two_that_contains`: the least shift whose chunk holds `n` elements. */
  function ShiftFor(n: nat): (shift: nat)
    ensures Power2(shift) >= n && (shift > 0 ==> Power2(shift - 1) < n)
  {
    var i := Log2(n);
    if Power2(i) < n then i + 1 else i
  }

  /** `2 << (shift - 1)`, which shifts by a negative amount when the shift is zero. */
  function ChunkSize(shift: nat): Option<nat> {
    if shift == 0 then None else Some(2 * Power2(shift - 1))
  }

  /** The computed chunk size is that of the chunks, except that it is undefined exactly for chunks of one element. */
  lemma ChunkSizeIsExact(min: nat)
    ensures ChunkSize(ShiftFor(min)).None? <==> min <= 1
    ensures min > 1 ==> ChunkSize(ShiftFor(min)) == Some(Power2(ShiftFor(min)))
  {
  }

  /** What a chunk is allocated with, and what shrinking gives back: `sizeof(T) << shift` bytes. */
  function Bytes(elementSize: nat, shift: nat): nat {
    elementSize * Power2(shift)
  }

  /**
   The final destruction gives back `m_chunk_size` bytes a chunk, a number of elements. That is what was
   allocated exactly if elements are one byte and chunks hold more than one.
   */
  lemma DestroySizeIsRight(elementSize: nat, shift: nat)
    requires elementSize > 0
    ensures ChunkSize(shift) == Some(Bytes(elementSize, shift)) <==> elementSize == 1 && shift > 0
  {
    if elementSize > 1 {
      MultiplesApart(Power2(shift), 1, elementSize);
    }
  }

  /** The number of chunks that hold `n` elements: `(n + mask) >> shift`. */
  function ChunksFor(n: nat, size: nat): nat
    requires size > 0
  {
    (n + (size - 1)) / size
  }

  lemma ChunksCover(n: nat, size: nat)
    requires size > 0
    ensures n <= ChunksFor(n, size) * size < n + size
  {
    var x := n + (size - 1);
    assert x == x / size * size + x % size;
  }

  /** `i >> shift`. */
  function ChunkOf(i: nat, size: nat): nat
    requires size > 0
  {
    i / size
  }

  /** `i & mask`. */
  function OffsetOf(i: nat, size: nat): (r: nat)
    requires size > 0
    ensures r < size
  {
    i % size
  }

  lemma InChunk(i: nat, size: nat)
    requires size > 0
    ensures i == ChunkOf(i, size) * size + OffsetOf(i, size)
  {
  }

  /** An index lies in one of the first `count` chunks exactly if it is below their total size. */
  lemma ChunkBelow(i: nat, size: nat, count: nat)
    requires size > 0
    ensures ChunkOf(i, size) < count <==> i < count * size
  {
    InChunk(i, size);
    var c := ChunkOf(i, size);
    if c < count {
      MultiplesApart(size, c, count);
    } else if count < c {
      MultiplesApart(size, count, c);
    }
  }

  /** Different indices have different (chunk, offset) pairs. */
  lemma PlaceIsUnique(i: nat, j: nat, size: nat)
    requires size > 0 && ChunkOf(i, size) == ChunkOf(j, size) && OffsetOf(i, size) == OffsetOf(j, size)
    ensures i == j
  {
    InChunk(i, size);
    InChunk(j, size);
  }

  // ---------------------------------------------------------------- the chunk table

  /** Where an access goes; `Stray` is past the table, `Abort` the bounds error. */
  datatype Access = At(chunk: nat, offset: nat) | Abort | Stray

  datatype Table<T> = Table(size: nat, slots: seq<Option<nat>>, count: nat, extent: nat,
                            memory: map<nat, seq<T>>, issued: nat, freed: seq<nat>)

  ghost predicate SlotOk<T>(t: Table<T>, k: nat)
    requires k < |t.slots|
  {
    if k < t.count then t.slots[k].Some? && t.slots[k].value in t.memory && |t.memory[t.slots[k].value]| == t.size
    else t.slots[k].None?
  }

  ghost predicate Different<T>(t: Table<T>, k: nat, l: nat)
    requires k < |t.slots| && l < |t.slots|
  {
    t.slots[k].Some? && t.slots[l].Some? ==> t.slots[k].value != t.slots[l].value
  }

  /** The pointers are non-null exactly below the counter, and every live chunk is pointed to once. */
  ghost predicate TableOk<T>(t: Table<T>) {
    && t.size > 0 && t.count <= |t.slots|
    && (forall k: nat :: k < |t.slots| ==> SlotOk(t, k))
    && (forall k: nat, l: nat :: k < |t.slots| && l < |t.slots| && k != l ==> Different(t, k, l))
    && (forall id :: id in t.memory ==> exists k: nat :: k < |t.slots| && t.slots[k] == Some(id))
  }

  /** Every chunk that was ever issued is live, or has been freed once. */
  ghost predicate Accounted<T>(t: Table<T>) {
    && (forall id :: id in t.memory ==> id < t.issued)
    && (forall id: nat :: multiset(t.freed)[id] == if id < t.issued && id !in t.memory then 1 else 0)
  }

  ghost predicate Fits<T>(t: Table<T>)
    requires t.size > 0
  {
    t.count == ChunksFor(t.extent, t.size)
  }

  function Element<T>(t: Table<T>, i: nat): T
    requires TableOk(t) && i < t.count * t.size
  {
    ChunkBelow(i, t.size, t.count);
    assert SlotOk(t, ChunkOf(i, t.size));
    t.memory[t.slots[ChunkOf(i, t.size)].value][OffsetOf(i, t.size)]
  }

  /** One more chunk, with whatever the new memory holds. */
  function Grow<T>(t: Table<T>, block: seq<T>): Table<T>
    requires t.count < |t.slots|
  {
    t.(slots := t.slots[t.count := Some(t.issued)], count := t.count + 1,
       memory := t.memory[t.issued := block], issued := t.issued + 1)
  }

  function Shrink<T>(t: Table<T>): Table<T>
    requires 0 < t.count <= |t.slots| && t.slots[t.count - 1].Some?
  {
    var id := t.slots[t.count - 1].value;
    t.(slots := t.slots[t.count - 1 := None], count := t.count - 1, memory := t.memory - {id}, freed := t.freed + [id])
  }

  lemma GrowKeeps<T>(t: Table<T>, block: seq<T>)
    requires TableOk(t) && Accounted(t) && t.count < |t.slots| && |block| == t.size
    ensures TableOk(Grow(t, block)) && Accounted(Grow(t, block))
  {
    var r := Grow(t, block);
    forall k: nat | k < |r.slots|
      ensures SlotOk(r, k) && (k != t.count ==> r.slots[k] != Some(t.issued))
    {
      assert SlotOk(t, k);
    }
    forall k: nat, l: nat | k < |r.slots| && l < |r.slots| && k != l
      ensures Different(r, k, l)
    {
      assert Different(t, k, l);
    }
    forall id | id in r.memory
      ensures exists k: nat :: k < |r.slots| && r.slots[k] == Some(id)
    {
      if id == t.issued {
        assert r.slots[t.count] == Some(id);
      } else {
        var k: nat :| k < |t.slots| && t.slots[k] == Some(id);
        assert SlotOk(t, k);
        assert r.slots[k] == Some(id);
      }
    }
  }

  lemma ShrinkKeeps<T>(t: Table<T>)
    requires TableOk(t) && Accounted(t) && t.count > 0
    ensures t.slots[t.count - 1].Some? && TableOk(Shrink(t)) && Accounted(Shrink(t))
  {
    var last := t.count - 1;
    assert SlotOk(t, last);
    var r := Shrink(t);
    var id := t.slots[last].value;
    forall k: nat | k < |r.slots|
      ensures SlotOk(r, k)
    {
      assert SlotOk(t, k) && (k != last ==> Different(t, k, last));
    }
    forall k: nat, l: nat | k < |r.slots| && l < |r.slots| && k != l
      ensures Different(r, k, l)
    {
      assert Different(t, k, l);
    }
    forall i | i in r.memory
      ensures exists k: nat :: k < |r.slots| && r.slots[k] == Some(i)
    {
      var k: nat :| k < |t.slots| && t.slots[k] == Some(i);
      assert r.slots[k] == Some(i);
    }
    assert multiset(r.freed) == multiset(t.freed) + multiset{id};
  }

  lemma GrowElement<T>(t: Table<T>, block: seq<T>, i: nat)
    requires TableOk(t) && Accounted(t) && t.count < |t.slots| && |block| == t.size && i < t.count * t.size
    ensures TableOk(Grow(t, block)) && i < Grow(t, block).count * t.size && Element(Grow(t, block), i) == Element(t, i)
  {
    GrowKeeps(t, block);
    MultiplesApart(t.size, t.count, t.count + 1);
    ChunkBelow(i, t.size, t.count);
    assert SlotOk(t, ChunkOf(i, t.size));
  }

  lemma ShrinkElement<T>(t: Table<T>, i: nat)
    requires TableOk(t) && Accounted(t) && t.count > 0 && i < (t.count - 1) * t.size
    ensures t.slots[t.count - 1].Some? && TableOk(Shrink(t))
    ensures i < t.count * t.size && Element(Shrink(t), i) == Element(t, i)
  {
    ShrinkKeeps(t);
    MultiplesApart(t.size, t.count - 1, t.count);
    ChunkBelow(i, t.size, t.count - 1);
    assert SlotOk(t, ChunkOf(i, t.size)) && Different(t, ChunkOf(i, t.size), t.count - 1);
  }

  /** `operator()`: the chunk and offset of an index, or why there is none. */
  function Locate<T>(t: Table<T>, i: nat): (r: Access)
    requires TableOk(t)
    ensures r.At? <==> i < t.count * t.size
    ensures r.At? ==> r.offset < t.size && exists k: nat :: k < t.count && t.slots[k] == Some(r.chunk) && i == k * t.size + r.offset
    ensures r.Stray? <==> i >= |t.slots| * t.size
  {
    ChunkBelow(i, t.size, t.count);
    ChunkBelow(i, t.size, |t.slots|);
    InChunk(i, t.size);
    var c := ChunkOf(i, t.size);
    if c >= |t.slots| then Stray
    else
      assert SlotOk(t, c);
      if t.slots[c].None? then Abort
      else
        assert t.slots[c] == Some(t.slots[c].value);
        At(t.slots[c].value, OffsetOf(i, t.size))
  }

  function Store<T>(t: Table<T>, i: nat, x: T): Table<T>
    requires TableOk(t) && i < t.count * t.size
  {
    ChunkBelow(i, t.size, t.count);
    assert SlotOk(t, ChunkOf(i, t.size));
    var id := t.slots[ChunkOf(i, t.size)].value;
    t.(memory := t.memory[id := t.memory[id][OffsetOf(i, t.size) := x]])
  }

  lemma StoreKeeps<T>(t: Table<T>, i: nat, x: T)
    requires TableOk(t) && Accounted(t) && i < t.count * t.size
    ensures TableOk(Store(t, i, x)) && Accounted(Store(t, i, x))
  {
    var r := Store(t, i, x);
    ChunkBelow(i, t.size, t.count);
    assert SlotOk(t, ChunkOf(i, t.size));
    forall k: nat | k < |r.slots|
      ensures SlotOk(r, k)
    {
      assert SlotOk(t, k);
    }
    forall k: nat, l: nat | k < |r.slots| && l < |r.slots| && k != l
      ensures Different(r, k, l)
    {
      assert Different(t, k, l);
    }
    assert r.memory.Keys == t.memory.Keys;
  }

  lemma Located<T>(t: Table<T>, i: nat)
    requires TableOk(t) && i < t.count * t.size
    ensures ChunkOf(i, t.size) < t.count <= |t.slots| && SlotOk(t, ChunkOf(i, t.size))
  {
    ChunkBelow(i, t.size, t.count);
  }

  /** A write changes the element it names and no other. */
  lemma StoreElement<T>(t: Table<T>, i: nat, x: T, j: nat)
    requires TableOk(t) && Accounted(t) && i < t.count * t.size && j < t.count * t.size
    ensures TableOk(Store(t, i, x)) && Element(Store(t, i, x), j) == if j == i then x else Element(t, j)
  {
    StoreKeeps(t, i, x);
    Located(t, i);
    Located(t, j);
    var c, d := ChunkOf(i, t.size), ChunkOf(j, t.size);
    assert c != d ==> Different(t, c, d);
    if c == d && OffsetOf(i, t.size) == OffsetOf(j, t.size) {
      PlaceIsUnique(i, j, t.size);
    }
    hide TableOk, Accounted, ChunkOf, OffsetOf;
    var id := t.slots[c].value;
    assert Store(t, i, x).memory == t.memory[id := t.memory[id][OffsetOf(i, t.size) := x]];
  }

  // ---------------------------------------------------------------- the flat array it refines

  lemma ExtentFits<T>(t: Table<T>, i: nat)
    requires t.size > 0 && Fits(t)
    ensures i < t.extent ==> i < t.count * t.size
  {
    ChunksCover(t.extent, t.size);
  }

  ghost predicate TableValid<T>(t: Table<T>) {
    TableOk(t) && Accounted(t) && Fits(t)
  }

  /** The elements below the extent, in order. */
  ghost function Flat<T>(t: Table<T>): (s: seq<T>)
    requires TableValid(t)
    ensures |s| == t.extent
    ensures forall i: nat :: i < t.extent ==> i < t.count * t.size && s[i] == Element(t, i)
  {
    ExtentsFit(t);
    seq(t.extent, i requires 0 <= i < t.extent => Element(t, i))
  }

  lemma ExtentsFit<T>(t: Table<T>)
    requires t.size > 0 && Fits(t)
    ensures forall i: nat {:trigger ChunkOf(i, t.size)} :: i < t.extent ==> i < t.count * t.size
    ensures t.extent <= t.count * t.size
  {
    ChunksCover(t.extent, t.size);
  }

  /** `t` keeps the first `n` elements of `s`. */
  ghost predicate SamePrefix<T>(s: Table<T>, t: Table<T>, n: nat)
    requires TableOk(s) && TableOk(t)
  {
    && n <= s.count * s.size && n <= t.count * t.size
    && forall i: nat :: i < n ==> Element(t, i) == Element(s, i)
  }

  class View<T> {
    const shift: nat
    const size: nat
    const chunkMax: nat
    const elementSize: nat
    var slots: seq<Option<nat>>
    var count: nat
    var extent: nat
    var memory: map<nat, seq<T>>
    var issued: nat
    var freed: seq<nat>
    var sizes: seq<Option<nat>>   // the sizes given to the deallocator, one for every chunk of `freed`

    ghost function State(): Table<T>
      reads this
    {
      Table(size, slots, count, extent, memory, issued, freed)
    }

    ghost predicate Valid()
      reads this
    {
      size == Power2(shift) && |slots| == chunkMax && TableValid(State())
    }

    /** Chunks hold at least `minChunk` elements, and the table has room for `maxExtent` elements. */
    constructor (minChunk: nat, maxExtent: nat, elementSize: nat)
      ensures this.elementSize == elementSize && sizes == []
      ensures Valid() && Flat(State()) == [] && count == issued == 0
      ensures shift == ShiftFor(minChunk)
      ensures minChunk <= size && (size > 1 ==> size < 2 * minChunk)
      ensures chunkMax == TableLength(minChunk, maxExtent) && chunkMax * size == Capacity(minChunk, maxExtent) < maxExtent + size
    {
      shift := ShiftFor(minChunk);
      size := Power2(ShiftFor(minChunk));
      chunkMax := ChunksFor(maxExtent, Power2(ShiftFor(minChunk)));
      slots := seq(ChunksFor(maxExtent, Power2(ShiftFor(minChunk))), k => None);
      this.elementSize := elementSize;
      count, extent, memory, issued, freed, sizes := 0, 0, map[], 0, [], [];
      new;
      ChunksCover(maxExtent, size);
      EmptyTable(State());
    }

    method Read(i: nat) returns (r: Option<T>)
      requires Valid() && i < chunkMax * size
      ensures r.Some? <==> i < count * size
      ensures i < extent ==> r == Some(Flat(State())[i])
    {
      hide TableOk, Accounted, Fits, Flat, Element, ChunkOf, OffsetOf;
      Reads(State(), i);
      var c := ChunkOf(i, size);
      if slots[c].None? {
        return None;
      }
      r := Some(memory[slots[c].value][OffsetOf(i, size)]);
    }

    method Write(i: nat, x: T) returns (ok: bool)
      requires Valid() && i < chunkMax * size
      modifies this
      ensures Valid() && (ok <==> i < old(count) * size) && extent == old(extent)
      ensures count == old(count) && issued == old(issued) && freed == old(freed) && sizes == old(sizes)
      ensures Flat(State()) == if i < extent then old(Flat(State()))[i := x] else old(Flat(State()))
    {
      hide TableOk, Accounted, Fits, Flat, Element, ChunkOf, OffsetOf;
      ghost var t := State();
      Reads(t, i);
      var c := ChunkOf(i, size);
      if slots[c].None? {
        return false;
      }
      var id := slots[c].value;
      Writes(t, i, x);
      memory := memory[id := memory[id][OffsetOf(i, size) := x]];
      ok := true;
      assert State() == Store(t, i, x);
    }

    /**
     Grows or shrinks by whole chunks; what new chunks hold is up to `noise`. Elements below both extents
     survive. More chunks than the table has room for are refused.
     */
    method ResizeSerial(n: nat, noise: nat -> T) returns (ok: bool)
      requires Valid()
      modifies this
      ensures Valid() && (ok <==> n <= chunkMax * size)
      ensures !ok ==> State() == old(State()) && sizes == old(sizes)
      ensures ok ==> sizes == old(sizes) + seq(if count < old(count) then old(count) - count else 0, k => Some(Bytes(elementSize, shift)))
      ensures ok ==> count == ChunksFor(n, size)
                     && issued == old(issued) + if count > old(count) then count - old(count) else 0
      ensures ok ==> extent == n && forall i: nat :: i < n && i < old(extent) ==> Flat(State())[i] == old(Flat(State()))[i]
    {
      ghost var t := State();
      var needed := (n + (size - 1)) / size;
      ChunksCover(n, size);
      NeededFits(n, size, chunkMax);
      if chunkMax < needed {
        return false;
      }
      ok := true;
      if count < needed {
        GrowTo(needed, noise);
      } else {
        ShrinkTo(needed);
      }
      ghost var u := State();
      extent := n;
      Resized(t, u, n);
    }

    /** Final destruction: all slots and the two counters behind them are cleared, in any order. */
    method Destroy(schedule: seq<nat>)
      requires Valid() && forall k: nat :: k < chunkMax + 2 ==> k in schedule
      modifies this
      ensures memory == map[] && count == 0 && extent == 0 && issued == old(issued)
      ensures forall k: nat :: k < |slots| ==> slots[k].None?
      ensures forall id: nat :: multiset(freed)[id] == if id < issued then 1 else 0
      ensures |sizes| >= |old(sizes)| && sizes[..|old(sizes)|] == old(sizes) && (|sizes| > |old(sizes)| <==> old(count) > 0)
      ensures forall k: nat :: |old(sizes)| <= k < |sizes| ==> sizes[k] == ChunkSize(shift)
    {
      FirstSlot(State());
      ValidIsPointed(State());
      hide Pointed, Accounted, TableOk, Fits;
      for m := 0 to |schedule|
        invariant |slots| == chunkMax && issued == old(issued) && Pointed(State()) && Accounted(State())
        invariant forall k: nat :: k < m ==> Cleared(schedule[k])
        invariant |sizes| >= |old(sizes)| && sizes[..|old(sizes)|] == old(sizes)
        invariant forall k: nat :: |old(sizes)| <= k < |sizes| ==> sizes[k] == ChunkSize(shift)
        invariant if |sizes| == |old(sizes)| then slots == old(slots) else old(count) > 0
      {
        ClearEntry(schedule[m]);
      }
      EntriesCleared(schedule);
      AllFreed(State());
    }

    /** Entry `k` of the table, or the counter behind it, is zero. */
    ghost predicate Cleared(k: nat)
      reads this
    {
      if k < |slots| then slots[k].None? else if k == |slots| then count == 0 else k == |slots| + 1 ==> extent == 0
    }

    lemma EntriesCleared(schedule: seq<nat>)
      requires forall k: nat :: k < |slots| + 2 ==> k in schedule
      requires forall k: nat :: k < |schedule| ==> Cleared(schedule[k])
      ensures count == 0 && extent == 0 && forall k: nat :: k < |slots| ==> slots[k].None?
    {
      forall k: nat | k < |slots| + 2
        ensures Cleared(k)
      {
        assert k in schedule;
      }
      assert Cleared(|slots|) && Cleared(|slots| + 1);
      forall k: nat | k < |slots|
        ensures slots[k].None?
      {
        assert Cleared(k);
      }
    }

    /** One call of the destruction functor. */
    method ClearEntry(k: nat)
      requires Pointed(State()) && Accounted(State())
      modifies this
      ensures Pointed(State()) && Accounted(State()) && |slots| == old(|slots|) && issued == old(issued)
      ensures Cleared(k) && forall l: nat :: old(Cleared(l)) ==> Cleared(l)
      ensures if old(k < |slots| && slots[k].Some?) then sizes == old(sizes) + [ChunkSize(shift)]
              else sizes == old(sizes) && slots == old(slots)
    {
      ghost var t := State();
      if k < |slots| {
        if slots[k].Some? {
          ClearKeeps(t, k);
          freed := freed + [slots[k].value];
          sizes := sizes + [ChunkSize(shift)];
          memory := memory - {slots[k].value};
          slots := slots[k := None];
          assert State() == Clear(t, k);
        }
      } else if k == |slots| {
        count := 0;
        CountersFree(t, State());
      } else if k == |slots| + 1 {
        extent := 0;
        CountersFree(t, State());
      }
    }

    /** Runs writes and resizes; the elements stay those of the flat array. */
    method Replay(ops: seq<Op<T>>, noise: nat -> T)
      requires Valid() && Flat(State()) == [] && count == issued == 0 && sizes == []
      requires forall k: nat :: k < |ops| && ops[k].DoWrite? ==> ops[k].index < chunkMax * size
      modifies this
      ensures Valid() && Agrees(Flat(State()), MeaningOfRun(ops, chunkMax * size))
      ensures (count, issued) == ChunksOfRun(ops, size, chunkMax)
      ensures forall k: nat :: k < |sizes| ==> sizes[k] == Some(Bytes(elementSize, shift))
    {
      hide TableOk, Accounted, Fits, Flat, Meaning, ChunkStep, Agrees, Power2;
      var capacity := chunkMax * size;
      NothingYet(Flat(State()));
      for k := 0 to |ops|
        invariant Valid() && Agrees(Flat(State()), MeaningOfRun(ops[..k], capacity))
        invariant (count, issued) == ChunksOfRun(ops[..k], size, chunkMax)
        invariant forall j: nat :: j < |sizes| ==> sizes[j] == Some(Bytes(elementSize, shift))
      {
        assert ops[..k + 1][..k] == ops[..k];
        Perform(ops[k], noise, MeaningOfRun(ops[..k], capacity));
      }
      assert ops[..|ops|] == ops;
    }

    method Perform(op: Op<T>, noise: nat -> T, ghost flat: seq<Option<T>>)
      requires Valid() && Agrees(Flat(State()), flat) && (op.DoWrite? ==> op.index < chunkMax * size)
      modifies this
      ensures Valid() && Agrees(Flat(State()), Meaning(flat, op, chunkMax * size))
      ensures (count, issued) == ChunkStep((old(count), old(issued)), op, size, chunkMax)
      ensures |sizes| >= |old(sizes)| && sizes[..|old(sizes)|] == old(sizes)
      ensures forall k: nat :: |old(sizes)| <= k < |sizes| ==> sizes[k] == Some(Bytes(elementSize, shift))
    {
      hide TableOk, Accounted, Fits, Flat, Power2;
      match op
      case DoWrite(i, x) =>
        var ok := Write(i, x);
      case DoResize(n) =>
        NeededFits(n, size, chunkMax);
        var ok := ResizeSerial(n, noise);
    }

    /** All elements, through `operator()`. */
    method Snapshot() returns (s: seq<T>)
      requires Valid()
      ensures s == Flat(State())
    {
      hide TableOk, Accounted, Fits, Flat;
      s := [];
      for i := 0 to extent
        invariant |s| == i && forall j: nat :: j < i ==> s[j] == Flat(State())[j]
      {
        InsideTable(State(), i);
        var x := Read(i);
        s := s + [x.value];
      }
    }

    method GrowTo(needed: nat, noise: nat -> T)
      requires size > 0 && TableOk(State()) && Accounted(State()) && count < needed <= |slots|
      modifies this`slots, this`count, this`memory, this`issued
      ensures TableOk(State()) && Accounted(State()) && count == needed && |slots| == old(|slots|)
      ensures issued == old(issued) + (needed - old(count))
      ensures SamePrefix(old(State()), State(), old(count) * size)
    {
      ghost var t := State();
      while count < needed
        invariant t.count <= count <= needed <= |slots| == |t.slots| && issued - count == t.issued - t.count
        invariant TableOk(State()) && Accounted(State()) && SamePrefix(t, State(), t.count * size)
      {
        ghost var u := State();
        var block := seq(size, k requires k >= 0 => noise(k));
        slots := slots[count := Some(issued)];
        memory := memory[issued := block];
        issued := issued + 1;
        count := count + 1;
        assert State() == Grow(u, block);
        GrowKeeps(u, block);
        GrowPrefix(t, u, block);
      }
    }

    method ShrinkTo(needed: nat)
      requires size > 0 && TableOk(State()) && Accounted(State()) && needed <= count
      modifies this`slots, this`count, this`memory, this`freed, this`sizes
      ensures TableOk(State()) && Accounted(State()) && count == needed && |slots| == old(|slots|)
      ensures SamePrefix(old(State()), State(), needed * size)
      ensures sizes == old(sizes) + seq(old(count) - needed, k => Some(Bytes(elementSize, shift)))
    {
      ghost var t := State();
      PrefixRefl(t, needed);
      assert count <= |slots|;
      hide TableOk, Accounted, SamePrefix;
      while needed + 1 <= count
        invariant needed <= count <= t.count <= |slots| && |slots| == |t.slots| && issued == t.issued && extent == t.extent
        invariant TableOk(State()) && Accounted(State()) && SamePrefix(t, State(), needed * size)
        invariant sizes == old(sizes) + seq(t.count - count, k => Some(Bytes(elementSize, shift)))
      {
        ghost var u := State();
        ShrinkKeeps(u);
        count := count - 1;
        freed := freed + [slots[count].value];
        sizes := sizes + [Some(Bytes(elementSize, shift))];
        memory := memory - {slots[count].value};
        slots := slots[count := None];
        assert State() == Shrink(u);
        ShrinkPrefix(t, u, needed);
      }
    }
  }

  // ---------------------------------------------------------------- destruction

  /** Every live chunk is pointed to by one slot. */
  ghost predicate Pointed<T>(t: Table<T>) {
    && (forall k: nat :: k < |t.slots| && t.slots[k].Some? ==> t.slots[k].value in t.memory)
    && (forall k: nat, l: nat :: k < |t.slots| && l < |t.slots| && k != l ==> Different(t, k, l))
    && (forall id :: id in t.memory ==> exists k: nat :: k < |t.slots| && t.slots[k] == Some(id))
  }

  /** Frees what slot `k` points to. */
  function Clear<T>(t: Table<T>, k: nat): Table<T>
    requires k < |t.slots| && t.slots[k].Some?
  {
    t.(slots := t.slots[k := None], memory := t.memory - {t.slots[k].value}, freed := t.freed + [t.slots[k].value])
  }

  lemma ClearKeeps<T>(t: Table<T>, k: nat)
    requires Pointed(t) && Accounted(t) && k < |t.slots| && t.slots[k].Some?
    ensures Pointed(Clear(t, k)) && Accounted(Clear(t, k))
  {
    var r, id := Clear(t, k), t.slots[k].value;
    forall l: nat | l < |r.slots| && r.slots[l].Some?
      ensures r.slots[l].value in r.memory
    {
      assert Different(t, k, l);
    }
    forall l: nat, m: nat | l < |r.slots| && m < |r.slots| && l != m
      ensures Different(r, l, m)
    {
      assert Different(t, l, m);
    }
    forall i | i in r.memory
      ensures exists l: nat :: l < |r.slots| && r.slots[l] == Some(i)
    {
      var l: nat :| l < |t.slots| && t.slots[l] == Some(i);
      assert r.slots[l] == Some(i);
    }
    assert multiset(r.freed) == multiset(t.freed) + multiset{id};
  }

  lemma ValidIsPointed<T>(t: Table<T>)
    requires TableOk(t)
    ensures Pointed(t)
  {
    forall k: nat | k < |t.slots| && t.slots[k].Some?
      ensures t.slots[k].value in t.memory
    {
      assert SlotOk(t, k);
    }
  }

  /** Once every slot is null, every chunk that was ever allocated has been freed exactly once. */
  lemma AllFreed<T>(t: Table<T>)
    requires Pointed(t) && Accounted(t) && forall k: nat :: k < |t.slots| ==> t.slots[k].None?
    ensures t.memory == map[]
    ensures forall id: nat :: multiset(t.freed)[id] == if id < t.issued then 1 else 0
  {
    assert t.memory.Keys == {};
  }

  // ---------------------------------------------------------------- whole runs

  datatype Op<T> = DoWrite(index: nat, value: T) | DoResize(extent: nat)

  /** A flat array in which elements that were never written since they came into range are unknown. */
  function Meaning<T>(flat: seq<Option<T>>, op: Op<T>, capacity: nat): seq<Option<T>> {
    match op
    case DoWrite(i, x) => if i < |flat| then flat[i := Some(x)] else flat
    case DoResize(n) =>
      if n > capacity then flat else if n <= |flat| then flat[..n] else flat + seq(n - |flat|, i => None)
  }

  function MeaningOfRun<T>(ops: seq<Op<T>>, capacity: nat): seq<Option<T>> {
    if ops == [] then [] else Meaning(MeaningOfRun(ops[..|ops| - 1], capacity), ops[|ops| - 1], capacity)
  }

  /** What an operation does to the number of chunks in use and of all chunks ever allocated. */
  function ChunkStep<T>(c: (nat, nat), op: Op<T>, size: nat, table: nat): (nat, nat)
    requires size > 0
  {
    match op
    case DoWrite(_, _) => c
    case DoResize(n) =>
      var needed := ChunksFor(n, size);
      if needed > table then c else (needed, c.1 + if needed > c.0 then needed - c.0 else 0)
  }

  function ChunksOfRun<T>(ops: seq<Op<T>>, size: nat, table: nat): (nat, nat)
    requires size > 0
  {
    if ops == [] then (0, 0)
    else ChunkStep(ChunksOfRun(ops[..|ops| - 1], size, table), ops[|ops| - 1], size, table)
  }

  ghost predicate Agrees<T>(s: seq<T>, flat: seq<Option<T>>) {
    |s| == |flat| && forall i: nat :: i < |s| ==> flat[i].None? || flat[i] == Some(s[i])
  }

  lemma NothingYet<T>(s: seq<T>)
    ensures s == [] ==> Agrees(s, [])
  {
  }

  function TableLength(minChunk: nat, maxExtent: nat): nat {
    ChunksFor(maxExtent, Power2(ShiftFor(minChunk)))
  }

  /** How many elements the table has room for. */
  function Capacity(minChunk: nat, maxExtent: nat): (r: nat)
    ensures r >= maxExtent
  {
    var size := Power2(ShiftFor(minChunk));
    ChunksCover(maxExtent, size);
    TableLength(minChunk, maxExtent) * size
  }

  /**
   Any run of writes and resizes on a new view, followed by its destruction: the elements are those of a flat
   resizable array, every chunk that was allocated is freed exactly once, and all are freed with the size they
   were allocated with exactly if none is left for the destruction, or elements are one byte and chunks more
   than one.
   */
  method Live<T>(minChunk: nat, maxExtent: nat, elementSize: nat, ops: seq<Op<T>>, noise: nat -> T, schedule: seq<nat>)
    returns (elements: seq<T>, issued: nat, freed: seq<nat>, sizes: seq<Option<nat>>)
    requires elementSize > 0
    requires forall k: nat :: k < |ops| && ops[k].DoWrite? ==> ops[k].index < maxExtent
    requires forall k: nat :: k < TableLength(minChunk, maxExtent) + 2 ==> k in schedule
    ensures Agrees(elements, MeaningOfRun(ops, Capacity(minChunk, maxExtent)))
    ensures issued == ChunksOfRun(ops, Power2(ShiftFor(minChunk)), TableLength(minChunk, maxExtent)).1
    ensures forall id: nat :: multiset(freed)[id] == if id < issued then 1 else 0
    ensures var left := ChunksOfRun(ops, Power2(ShiftFor(minChunk)), TableLength(minChunk, maxExtent)).0;
            (forall k: nat :: k < |sizes| ==> sizes[k] == Some(Bytes(elementSize, ShiftFor(minChunk))))
            <==> left == 0 || (elementSize == 1 && ShiftFor(minChunk) > 0)
  {
    hide TableOk, Accounted, Fits, ChunksOfRun, ChunkSize, Bytes, Power2, ShiftFor, ChunksFor, MeaningOfRun, Agrees, Flat;
    var v := new View<T>(minChunk, maxExtent, elementSize);
    v.Replay(ops, noise);
    elements := v.Snapshot();
    DestroySizeIsRight(elementSize, v.shift);
    ghost var before := |v.sizes|;
    v.Destroy(schedule);
    issued, freed, sizes := v.issued, v.freed, v.sizes;
    assert forall k: nat :: k < before ==> sizes[k] == sizes[..before][k];
    assert before < |sizes| ==> sizes[before] == ChunkSize(v.shift);
  }

  lemma CountersFree<T>(t: Table<T>, r: Table<T>)
    requires Pointed(t) && Accounted(t) && r == t.(count := r.count, extent := r.extent)
    ensures Pointed(r) && Accounted(r)
  {
    forall k: nat, l: nat | k < |r.slots| && l < |r.slots| && k != l
      ensures Different(r, k, l)
    {
      assert Different(t, k, l);
    }
  }

  lemma InsideTable<T>(t: Table<T>, i: nat)
    requires TableValid(t) && i < t.extent
    ensures i < |t.slots| * t.size
  {
    ExtentFits(t, i);
    if t.count < |t.slots| {
      MultiplesApart(t.size, t.count, |t.slots|);
    }
  }

  lemma FirstSlot<T>(t: Table<T>)
    requires TableOk(t)
    ensures (exists k: nat :: k < |t.slots| && t.slots[k].Some?) <==> t.count > 0
  {
    if t.count > 0 {
      assert SlotOk(t, 0);
    }
    forall k: nat | k < |t.slots|
      ensures t.slots[k].Some? ==> k < t.count
    {
      assert SlotOk(t, k);
    }
  }

  lemma EmptyTable<T>(t: Table<T>)
    requires t.size > 0 && t.count == 0 && t.extent == 0 && t.memory == map[] && t.issued == 0 && t.freed == []
    requires forall k: nat :: k < |t.slots| ==> t.slots[k].None?
    ensures TableValid(t) && Flat(t) == []
  {
    forall k: nat | k < |t.slots|
      ensures SlotOk(t, k)
    {
    }
    ChunksCover(0, t.size);
    NeededFits(0, t.size, 0);
  }

  /** What the table says about an index inside it. */
  lemma Reads<T>(t: Table<T>, i: nat)
    requires TableValid(t) && i < |t.slots| * t.size
    ensures t.size > 0 && ChunkOf(i, t.size) < |t.slots|
    ensures t.slots[ChunkOf(i, t.size)].Some? <==> i < t.count * t.size
    ensures i < t.count * t.size ==>
              && TableOk(t) && t.slots[ChunkOf(i, t.size)].value in t.memory
              && |t.memory[t.slots[ChunkOf(i, t.size)].value]| == t.size
              && Element(t, i) == t.memory[t.slots[ChunkOf(i, t.size)].value][OffsetOf(i, t.size)]
    ensures i < t.extent ==> i < t.count * t.size && TableOk(t) && Flat(t)[i] == Element(t, i)
  {
    ChunkBelow(i, t.size, |t.slots|);
    ChunkBelow(i, t.size, t.count);
    ExtentFits(t, i);
    assert SlotOk(t, ChunkOf(i, t.size));
    hide ChunkOf, OffsetOf;
  }

  lemma Writes<T>(t: Table<T>, i: nat, x: T)
    requires TableValid(t) && i < t.count * t.size
    ensures TableOk(t) && TableValid(Store(t, i, x))
    ensures Flat(Store(t, i, x)) == if i < t.extent then Flat(t)[i := x] else Flat(t)
  {
    StoreKeeps(t, i, x);
    var r := Store(t, i, x);
    hide TableOk, Accounted, Element, ChunkOf, OffsetOf;
    forall j: nat | j < t.extent
      ensures Flat(r)[j] == if j == i then x else Flat(t)[j]
    {
      ExtentFits(t, j);
      StoreElement(t, i, x, j);
    }
  }

  lemma NeededFits(n: nat, size: nat, max: nat)
    requires size > 0
    ensures ChunksFor(n, size) <= max <==> n <= max * size
  {
    ChunksCover(n, size);
    var c := ChunksFor(n, size);
    if c < max {
      MultiplesApart(size, c, max);
    } else if max < c {
      MultiplesApart(size, max, c);
    }
  }

  lemma GrowPrefix<T>(t: Table<T>, u: Table<T>, block: seq<T>)
    requires TableOk(t) && TableOk(u) && Accounted(u) && t.size == u.size && t.count <= u.count < |u.slots| && |block| == u.size
    requires SamePrefix(t, u, t.count * t.size)
    ensures TableOk(Grow(u, block)) && SamePrefix(t, Grow(u, block), t.count * t.size)
  {
    GrowKeeps(u, block);
    MultiplesApart(u.size, u.count, u.count + 1);
    forall i: nat | i < t.count * t.size
      ensures Element(Grow(u, block), i) == Element(t, i)
    {
      GrowElement(u, block, i);
    }
  }

  lemma PrefixRefl<T>(t: Table<T>, needed: nat)
    requires TableOk(t) && needed <= t.count
    ensures SamePrefix(t, t, needed * t.size)
  {
    if needed < t.count {
      MultiplesApart(t.size, needed, t.count);
    }
  }

  lemma ShrinkPrefix<T>(t: Table<T>, u: Table<T>, needed: nat)
    requires TableOk(t) && TableOk(u) && Accounted(u) && t.size == u.size && needed < u.count
    requires SamePrefix(t, u, needed * t.size)
    ensures u.slots[u.count - 1].Some? && TableOk(Shrink(u)) && SamePrefix(t, Shrink(u), needed * t.size)
  {
    ShrinkKeeps(u);
    if needed < u.count - 1 {
      MultiplesApart(u.size, needed, u.count - 1);
    }
    forall i: nat | i < needed * t.size
      ensures Element(Shrink(u), i) == Element(t, i)
    {
      ShrinkElement(u, i);
    }
  }

  lemma Resized<T>(t: Table<T>, u: Table<T>, n: nat)
    requires TableValid(t) && TableOk(u) && Accounted(u) && u.size == t.size && u.count == ChunksFor(n, t.size)
    requires SamePrefix(t, u, if t.count < u.count then t.count * t.size else u.count * t.size)
    ensures TableValid(u.(extent := n))
    ensures forall i: nat :: i < n && i < t.extent ==> Flat(u.(extent := n))[i] == Flat(t)[i]
  {
    var r := u.(extent := n);
    forall k: nat | k < |r.slots|
      ensures SlotOk(r, k)
    {
      assert SlotOk(u, k);
    }
    forall k: nat, l: nat | k < |r.slots| && l < |r.slots| && k != l
      ensures Different(r, k, l)
    {
      assert Different(u, k, l);
    }
    assert TableValid(r);
    forall i: nat | i < n && i < t.extent
      ensures Flat(r)[i] == Flat(t)[i]
    {
      ExtentFits(t, i);
      ExtentFits(r, i);
      assert Element(r, i) == Element(u, i) == Element(t, i);
    }
  }
}
