/**
 `Random_XorShift64_Pool` on a device: threads claim a slot by probing a lock array with compare and
 exchange, build a generator from the state of the slot, draw, write the state back and unlock. Every
 access to the shared arrays is one step, and the steps of all threads interleave in any order.
 */
module RandomPool {
  import opened Xorshift
  import opened Random

  /** Where a thread sits: the number of its block and its number inside the block. */
  datatype Place = Place(block: nat, offset: nat)

  datatype Config = Config(slots: nat, blockSize: nat, places: seq<Place>)

  ghost predicate ConfigOk(c: Config) {
    && c.slots > 0 && c.blockSize > 0
    && forall t: nat :: t < |c.places| ==> c.places[t].offset < c.blockSize
  }

  // ---------------------------------------------------------------- the probe sequence

  /** The slot that a thread tries first. */
  function Start(c: Config, p: Place): nat
    requires c.slots > 0
  {
    (p.block * c.blockSize + p.offset) % c.slots
  }

  /** The slot that it tries after `i`. */
  function Advance(c: Config, p: Place, i: nat): nat {
    if i + c.blockSize >= c.slots then p.offset else i + c.blockSize
  }

  /** The slot of the `k`-th attempt. */
  function ProbeAt(c: Config, p: Place, k: nat): nat
    requires c.slots > 0
  {
    if k == 0 then Start(c, p) else Advance(c, p, ProbeAt(c, p, k - 1))
  }

  lemma {:induction false} ProbeInRange(c: Config, p: Place, k: nat)
    requires c.slots > 0 && p.offset < c.slots
    ensures ProbeAt(c, p, k) < c.slots
  {
    if k > 0 {
      ProbeInRange(c, p, k - 1);
    }
  }

  /** Attempts go up in strides until they wrap to the offset. */
  lemma {:induction false} ProbeWraps(c: Config, p: Place, k: nat) returns (n: nat)
    requires c.slots > 0 && c.blockSize > 0 && ProbeAt(c, p, k) < c.slots
    ensures k < n <= k + c.slots - ProbeAt(c, p, k) && ProbeAt(c, p, n) == p.offset
    decreases c.slots - ProbeAt(c, p, k)
  {
    var i := ProbeAt(c, p, k);
    assert ProbeAt(c, p, k + 1) == Advance(c, p, i);
    if i + c.blockSize >= c.slots {
      n := k + 1;
    } else {
      n := ProbeWraps(c, p, k + 1);
    }
  }

  /** `j` is some strides above `i`. */
  ghost predicate StridesAbove(c: Config, i: nat, j: nat)
    requires c.blockSize > 0
  {
    i <= j && (j - i) % c.blockSize == 0
  }

  lemma StrideBack(i: nat, j: nat, b: nat)
    requires 0 < b && i < j && (j - i) % b == 0
    ensures i + b <= j && (j - (i + b)) % b == 0
  {
    var q := (j - i) / b;
    assert j - i == q * b;
    assert q >= 1;
    assert j - (i + b) == (q - 1) * b;
    assert (q - 1) * b >= 0;
    Multiple(q - 1, b);
  }

  lemma Multiple(q: nat, b: nat)
    requires 0 < b
    ensures q * b % b == 0
  {
    Quotient(b, q, 0);
  }

  lemma {:induction false} ProbeClimbs(c: Config, p: Place, k: nat, j: nat) returns (n: nat)
    requires c.slots > 0 && c.blockSize > 0 && j < c.slots && StridesAbove(c, ProbeAt(c, p, k), j)
    ensures k <= n <= k + (j - ProbeAt(c, p, k)) && ProbeAt(c, p, n) == j
    decreases j - ProbeAt(c, p, k)
  {
    var i := ProbeAt(c, p, k);
    if i == j {
      n := k;
    } else {
      StrideBack(i, j, c.blockSize);
      assert ProbeAt(c, p, k + 1) == i + c.blockSize;
      n := ProbeClimbs(c, p, k + 1, j);
    }
  }

  /** The slots that a probe of `p` ever tries. */
  ghost predicate Tries(c: Config, p: Place, j: nat)
    requires c.slots > 0 && c.blockSize > 0
  {
    && j < c.slots
    && (StridesAbove(c, (p.block * c.blockSize + p.offset) % c.slots, j) || StridesAbove(c, p.offset, j))
  }

  lemma StrideOn(i: nat, j: nat, b: nat)
    requires 0 < b && i <= j && (j - i) % b == 0
    ensures (j + b - i) % b == 0
  {
    var q := (j - i) / b;
    assert j - i == q * b;
    assert j + b - i == (q + 1) * b;
    Multiple(q + 1, b);
  }

  lemma {:induction false} ProbeStays(c: Config, p: Place, k: nat)
    requires c.slots > 0 && c.blockSize > 0 && p.offset < c.slots
    ensures Tries(c, p, ProbeAt(c, p, k))
  {
    if k > 0 {
      ProbeStays(c, p, k - 1);
      var i := ProbeAt(c, p, k - 1);
      if i + c.blockSize < c.slots {
        if StridesAbove(c, Start(c, p), i) {
          StrideOn(Start(c, p), i, c.blockSize);
        } else {
          StrideOn(p.offset, i, c.blockSize);
        }
      }
    }
  }

  /**
   A probe that runs alone stops exactly if a slot it tries is free, and then within two sweeps of the
   lock array; the slots it tries are those in strides above its first slot and above its offset.
   */
  lemma LoneProbeStops(c: Config, p: Place, locks: seq<bool>)
    requires c.slots > 0 && c.blockSize > 0 && p.offset < c.slots && |locks| == c.slots
    ensures forall k: nat :: ProbeAt(c, p, k) < c.slots
    ensures (exists k: nat :: ProbeAt(c, p, k) < |locks| && !locks[ProbeAt(c, p, k)])
            <==> (exists j: nat :: j < |locks| && !locks[j] && Tries(c, p, j))
    ensures (exists j: nat :: j < |locks| && !locks[j] && Tries(c, p, j)) ==>
              exists k: nat :: k <= 2 * c.slots && ProbeAt(c, p, k) < |locks| && !locks[ProbeAt(c, p, k)]
  {
    forall k: nat
      ensures ProbeAt(c, p, k) < c.slots && Tries(c, p, ProbeAt(c, p, k))
    {
      ProbeInRange(c, p, k);
      ProbeStays(c, p, k);
    }
    if j: nat :| j < |locks| && !locks[j] && Tries(c, p, j) {
      var k := TriedWithin(c, p, j);
      assert !locks[ProbeAt(c, p, k)];
    }
  }

  lemma TriedWithin(c: Config, p: Place, j: nat) returns (k: nat)
    requires c.slots > 0 && c.blockSize > 0 && p.offset < c.slots && Tries(c, p, j)
    ensures k <= 2 * c.slots && ProbeAt(c, p, k) == j
  {
    if StridesAbove(c, Start(c, p), j) {
      k := ProbeClimbs(c, p, 0, j);
    } else {
      var wrap := ProbeWraps(c, p, 0);
      k := ProbeClimbs(c, p, wrap, j);
    }
  }

  /** All attempts of all threads of a block stay in range exactly if the block has at most as many threads as slots. */
  lemma BlocksInRange(c: Config, block: nat)
    requires c.slots > 0 && c.blockSize > 0
    ensures (forall offset: nat, k: nat :: offset < c.blockSize ==> ProbeAt(c, Place(block, offset), k) < c.slots)
            <==> c.blockSize <= c.slots
  {
    if c.blockSize <= c.slots {
      forall offset: nat, k: nat | offset < c.blockSize
        ensures ProbeAt(c, Place(block, offset), k) < c.slots
      {
        ProbeInRange(c, Place(block, offset), k);
      }
    } else {
      var p := Place(block, c.slots);
      var k := ProbeWraps(c, p, 0);
      assert ProbeAt(c, Place(block, c.slots), k) >= c.slots;
    }
  }

  // ---------------------------------------------------------------- the protocol

  /** What a thread does next; `Stray` is an access outside the lock array. */
  datatype Pc =
    | Idle
    | Probing(slot: nat)
    | Claimed(slot: nat)
    | Live(slot: nat, state: bv64)
    | Stored(slot: nat)
    | Stray

  /** `drawn` records, for every slot, the draws of the generators that held it, in order. */
  datatype Pool = Pool(locks: seq<bool>, states: seq<bv64>, pcs: seq<Pc>, drawn: seq<seq<nat>>)

  /** A thread that has a generator either draws from it or frees it. */
  datatype Event = Event(thread: nat, draws: bool)

  ghost predicate Shaped(c: Config, s: Pool) {
    |s.locks| == |s.states| == |s.drawn| == c.slots && |s.pcs| == |c.places|
  }

  ghost predicate Holds(pc: Pc, i: nat) {
    (pc.Claimed? || pc.Live? || pc.Stored?) && pc.slot == i
  }

  function Step(c: Config, s: Pool, e: Event): Pool
    requires c.slots > 0 && |s.pcs| == |c.places|
  {
    if e.thread >= |s.pcs| then s
    else
      var t := e.thread;
      match s.pcs[t]
      case Idle => s.(pcs := s.pcs[t := Probing(Start(c, c.places[t]))])
      case Probing(i) =>
        if i >= |s.locks| then s.(pcs := s.pcs[t := Stray])
        else if s.locks[i] then s.(pcs := s.pcs[t := Probing(Advance(c, c.places[t], i))])
        else s.(locks := s.locks[i := true], pcs := s.pcs[t := Claimed(i)])
      case Claimed(i) =>
        if i >= |s.states| then s.(pcs := s.pcs[t := Stray])
        else s.(pcs := s.pcs[t := Live(i, Seeded(s.states[i]))])
      case Live(i, x) =>
        if i >= |s.states| || i >= |s.drawn| then s.(pcs := s.pcs[t := Stray])
        else if e.draws then s.(pcs := s.pcs[t := Live(i, Next(x))], drawn := s.drawn[i := s.drawn[i] + [Draw(x)]])
        else s.(states := s.states[i := x], pcs := s.pcs[t := Stored(i)])
      case Stored(i) =>
        if i >= |s.locks| then s.(pcs := s.pcs[t := Stray])
        else s.(locks := s.locks[i := false], pcs := s.pcs[t := Idle])
      case Stray => s
  }

  function Run(c: Config, s: Pool, events: seq<Event>): (r: Pool)
    requires c.slots > 0 && |s.pcs| == |c.places|
    ensures |r.pcs| == |c.places|
    decreases |events|
  {
    if events == [] then s else Run(c, Step(c, s, events[0]), events[1..])
  }

  // ---------------------------------------------------------------- the invariant

  /** The state that slot `i` has reached after the draws made on it so far. */
  ghost function Reached(seeds: seq<bv64>, s: Pool, i: nat): bv64
    requires i < |seeds| && i < |s.drawn|
  {
    After(Seeded(seeds[i]), |s.drawn[i]|)
  }

  ghost predicate PcOk(c: Config, seeds: seq<bv64>, s: Pool, t: nat)
    requires Shaped(c, s) && |seeds| == c.slots && t < |s.pcs|
  {
    match s.pcs[t]
    case Idle => true
    case Probing(i) => i < c.slots
    case Claimed(i) => i < c.slots && s.locks[i]
    case Live(i, x) => i < c.slots && s.locks[i] && x == Reached(seeds, s, i)
    case Stored(i) => i < c.slots && s.locks[i]
    case Stray => false
  }

  ghost predicate Apart2(s: Pool, t: nat, u: nat)
    requires t < |s.pcs| && u < |s.pcs|
  {
    forall i: nat :: Holds(s.pcs[t], i) ==> !Holds(s.pcs[u], i)
  }

  ghost predicate HasHolder(s: Pool, i: nat) {
    exists t: nat :: t < |s.pcs| && Holds(s.pcs[t], i)
  }

  ghost predicate HasGenerator(s: Pool, i: nat) {
    exists t: nat :: t < |s.pcs| && s.pcs[t].Live? && s.pcs[t].slot == i
  }

  /** The record of slot `i` is what one generator seeded for it would have drawn. */
  ghost predicate RecordOk(seeds: seq<bv64>, s: Pool, i: nat)
    requires i < |seeds| && i < |s.drawn|
  {
    forall j: nat :: j < |s.drawn[i]| ==> s.drawn[i][j] == Draw(After(Seeded(seeds[i]), j))
  }

  ghost predicate SlotOk(c: Config, seeds: seq<bv64>, s: Pool, i: nat)
    requires Shaped(c, s) && |seeds| == c.slots && i < c.slots
  {
    && (s.locks[i] ==> HasHolder(s, i))
    && (!HasGenerator(s, i) ==> Seeded(s.states[i]) == Reached(seeds, s, i))
    && RecordOk(seeds, s, i)
  }

  ghost predicate Inv(c: Config, seeds: seq<bv64>, s: Pool) {
    && Shaped(c, s) && |seeds| == c.slots
    && (forall t: nat :: t < |s.pcs| ==> PcOk(c, seeds, s, t))
    && (forall t: nat, u: nat :: t < |s.pcs| && u < |s.pcs| && t != u ==> Apart2(s, t, u))
    && (forall i: nat :: i < c.slots ==> SlotOk(c, seeds, s, i))
  }

  // ---------------------------------------------------------------- every step keeps the invariant

  /** A thread without a slot moves on. */
  lemma SearchKeeps(c: Config, seeds: seq<bv64>, s: Pool, t: nat, i: nat)
    requires Inv(c, seeds, s) && t < |s.pcs| && i < c.slots && (s.pcs[t].Idle? || s.pcs[t].Probing?)
    ensures Inv(c, seeds, s.(pcs := s.pcs[t := Probing(i)]))
  {
    hide After, Seeded;
    var r := s.(pcs := s.pcs[t := Probing(i)]);
    forall u: nat | u < |r.pcs|
      ensures PcOk(c, seeds, r, u)
    {
      assert PcOk(c, seeds, s, u);
    }
    forall u: nat, v: nat | u < |r.pcs| && v < |r.pcs| && u != v
      ensures Apart2(r, u, v)
    {
      assert Apart2(s, u, v);
    }
    forall j: nat | j < c.slots
      ensures SlotOk(c, seeds, r, j)
    {
      assert SlotOk(c, seeds, s, j);
      SameHolders(s, r, t, j);
    }
  }

  /** Whether a slot has a holder, or a generator, only depends on the thread that moved. */
  lemma SameHolders(s: Pool, r: Pool, t: nat, j: nat)
    requires t < |s.pcs| == |r.pcs| && r.pcs == s.pcs[t := r.pcs[t]]
    ensures (Holds(s.pcs[t], j) ==> Holds(r.pcs[t], j)) && HasHolder(s, j) ==> HasHolder(r, j)
    ensures (s.pcs[t].Live? && s.pcs[t].slot == j ==> r.pcs[t].Live? && r.pcs[t].slot == j) && HasGenerator(s, j) ==> HasGenerator(r, j)
  {
    if HasHolder(s, j) {
      var u: nat :| u < |s.pcs| && Holds(s.pcs[u], j);
      assert u != t ==> Holds(r.pcs[u], j);
    }
    if HasGenerator(s, j) {
      var u: nat :| u < |s.pcs| && s.pcs[u].Live? && s.pcs[u].slot == j;
      assert u != t ==> r.pcs[u].Live? && r.pcs[u].slot == j;
    }
  }

  /** A thread wins the lock of a free slot. */
  lemma ClaimKeeps(c: Config, seeds: seq<bv64>, s: Pool, t: nat, i: nat)
    requires Inv(c, seeds, s) && t < |s.pcs| && i < c.slots && s.pcs[t] == Probing(i) && !s.locks[i]
    ensures Inv(c, seeds, s.(locks := s.locks[i := true], pcs := s.pcs[t := Claimed(i)]))
  {
    hide After, Seeded;
    var r := s.(locks := s.locks[i := true], pcs := s.pcs[t := Claimed(i)]);
    forall u: nat | u < |r.pcs|
      ensures PcOk(c, seeds, r, u) && (u != t ==> !Holds(r.pcs[u], i))
    {
      assert PcOk(c, seeds, s, u);
    }
    forall u: nat, v: nat | u < |r.pcs| && v < |r.pcs| && u != v
      ensures Apart2(r, u, v)
    {
      assert Apart2(s, u, v);
    }
    forall j: nat | j < c.slots
      ensures SlotOk(c, seeds, r, j)
    {
      assert SlotOk(c, seeds, s, j);
      SameHolders(s, r, t, j);
      assert Holds(r.pcs[t], i);
    }
  }

  /** It builds its generator from the state of the slot. */
  lemma LoadKeeps(c: Config, seeds: seq<bv64>, s: Pool, t: nat, i: nat)
    requires Inv(c, seeds, s) && t < |s.pcs| && i < c.slots && s.pcs[t] == Claimed(i)
    ensures Inv(c, seeds, s.(pcs := s.pcs[t := Live(i, Seeded(s.states[i]))]))
  {
    hide After, Seeded;
    var r := s.(pcs := s.pcs[t := Live(i, Seeded(s.states[i]))]);
    assert Holds(s.pcs[t], i);
    forall u: nat | u < |s.pcs|
      ensures !(s.pcs[u].Live? && s.pcs[u].slot == i)
    {
      if u != t {
        assert Apart2(s, t, u);
        assert !Holds(s.pcs[u], i);
      }
    }
    assert SlotOk(c, seeds, s, i) && PcOk(c, seeds, s, t);
    forall u: nat | u < |r.pcs|
      ensures PcOk(c, seeds, r, u)
    {
      assert PcOk(c, seeds, s, u);
    }
    forall u: nat, v: nat | u < |r.pcs| && v < |r.pcs| && u != v
      ensures Apart2(r, u, v)
    {
      SameSlotApart(s, r, t, u, v);
    }
    forall j: nat | j < c.slots
      ensures SlotOk(c, seeds, r, j)
    {
      assert SlotOk(c, seeds, s, j);
      SameHolders(s, r, t, j);
    }
  }

  lemma SameSlotApart(s: Pool, r: Pool, t: nat, u: nat, v: nat)
    requires t < |s.pcs| == |r.pcs| && r.pcs == s.pcs[t := r.pcs[t]]
    requires forall i: nat :: Holds(r.pcs[t], i) ==> Holds(s.pcs[t], i)
    requires u < |s.pcs| && v < |s.pcs| && u != v && Apart2(s, u, v)
    ensures Apart2(r, u, v)
  {
    forall i: nat | Holds(r.pcs[u], i)
      ensures !Holds(r.pcs[v], i)
    {
      assert Holds(s.pcs[u], i);
    }
  }

  /** One draw advances the private state and adds to the record of the slot. */
  lemma DrawKeeps(c: Config, seeds: seq<bv64>, s: Pool, t: nat, i: nat, x: bv64)
    requires Inv(c, seeds, s) && t < |s.pcs| && i < c.slots && s.pcs[t] == Live(i, x)
    ensures Inv(c, seeds, s.(pcs := s.pcs[t := Live(i, Next(x))], drawn := s.drawn[i := s.drawn[i] + [Draw(x)]]))
  {
    hide Seeded, Next, Draw;
    var r := s.(pcs := s.pcs[t := Live(i, Next(x))], drawn := s.drawn[i := s.drawn[i] + [Draw(x)]]);
    assert PcOk(c, seeds, s, t) && Holds(s.pcs[t], i);
    assert Reached(seeds, r, i) == Next(x);
    forall u: nat | u < |r.pcs|
      ensures PcOk(c, seeds, r, u)
    {
      assert PcOk(c, seeds, s, u);
      if u != t {
        assert Apart2(s, t, u);
        assert !Holds(s.pcs[u], i);
      }
    }
    forall u: nat, v: nat | u < |r.pcs| && v < |r.pcs| && u != v
      ensures Apart2(r, u, v)
    {
      SameSlotApart(s, r, t, u, v);
    }
    forall j: nat | j < c.slots
      ensures SlotOk(c, seeds, r, j)
    {
      assert SlotOk(c, seeds, s, j);
      SameHolders(s, r, t, j);
      assert r.pcs[t].Live? && r.pcs[t].slot == i;
      assert HasGenerator(r, i);
    }
  }

  /** The state is written back. */
  lemma StoreKeeps(c: Config, seeds: seq<bv64>, s: Pool, t: nat, i: nat, x: bv64)
    requires Inv(c, seeds, s) && t < |s.pcs| && i < c.slots && s.pcs[t] == Live(i, x)
    ensures Inv(c, seeds, s.(states := s.states[i := x], pcs := s.pcs[t := Stored(i)]))
  {
    hide Next, Draw;
    var r := s.(states := s.states[i := x], pcs := s.pcs[t := Stored(i)]);
    assert PcOk(c, seeds, s, t) && Holds(s.pcs[t], i);
    AfterIsNonzero(Seeded(seeds[i]), |s.drawn[i]|);
    assert Seeded(x) == x == Reached(seeds, r, i);
    hide After, Seeded;
    forall u: nat | u < |r.pcs|
      ensures PcOk(c, seeds, r, u)
    {
      assert PcOk(c, seeds, s, u);
    }
    forall u: nat, v: nat | u < |r.pcs| && v < |r.pcs| && u != v
      ensures Apart2(r, u, v)
    {
      SameSlotApart(s, r, t, u, v);
    }
    forall j: nat | j < c.slots
      ensures SlotOk(c, seeds, r, j)
    {
      assert SlotOk(c, seeds, s, j);
      SameHolders(s, r, t, j);
    }
  }

  /** The slot is unlocked. */
  lemma UnlockKeeps(c: Config, seeds: seq<bv64>, s: Pool, t: nat, i: nat)
    requires Inv(c, seeds, s) && t < |s.pcs| && i < c.slots && s.pcs[t] == Stored(i)
    ensures Inv(c, seeds, s.(locks := s.locks[i := false], pcs := s.pcs[t := Idle]))
  {
    hide After, Seeded;
    var r := s.(locks := s.locks[i := false], pcs := s.pcs[t := Idle]);
    assert PcOk(c, seeds, s, t) && Holds(s.pcs[t], i);
    forall u: nat | u < |r.pcs|
      ensures PcOk(c, seeds, r, u)
    {
      assert PcOk(c, seeds, s, u);
      if u != t {
        assert Apart2(s, t, u);
        assert !Holds(s.pcs[u], i);
      }
    }
    forall u: nat, v: nat | u < |r.pcs| && v < |r.pcs| && u != v
      ensures Apart2(r, u, v)
    {
      SameSlotApart(s, r, t, u, v);
    }
    forall j: nat | j < c.slots
      ensures SlotOk(c, seeds, r, j)
    {
      assert SlotOk(c, seeds, s, j);
      SameHolders(s, r, t, j);
    }
  }

  lemma StepKeeps(c: Config, seeds: seq<bv64>, s: Pool, e: Event)
    requires ConfigOk(c) && c.blockSize <= c.slots && Inv(c, seeds, s)
    ensures Inv(c, seeds, Step(c, s, e))
  {
    if e.thread < |s.pcs| {
      var t := e.thread;
      assert PcOk(c, seeds, s, t);
      match s.pcs[t] {
        case Idle => SearchKeeps(c, seeds, s, t, Start(c, c.places[t]));
        case Probing(i) =>
          if s.locks[i] {
            SearchKeeps(c, seeds, s, t, Advance(c, c.places[t], i));
          } else {
            ClaimKeeps(c, seeds, s, t, i);
          }
        case Claimed(i) => LoadKeeps(c, seeds, s, t, i);
        case Live(i, x) =>
          if e.draws {
            DrawKeeps(c, seeds, s, t, i, x);
          } else {
            StoreKeeps(c, seeds, s, t, i, x);
          }
        case Stored(i) => UnlockKeeps(c, seeds, s, t, i);
      }
    }
  }

  /** All slots are unlocked and hold their seeds; no thread has started. */
  ghost predicate Init(c: Config, seeds: seq<bv64>, s: Pool) {
    && Shaped(c, s) && s.states == seeds
    && (forall i: nat :: i < c.slots ==> !s.locks[i] && s.drawn[i] == [])
    && (forall t: nat :: t < |s.pcs| ==> s.pcs[t] == Idle)
  }

  lemma {:induction false} RunKeeps(c: Config, seeds: seq<bv64>, s: Pool, events: seq<Event>)
    requires ConfigOk(c) && c.blockSize <= c.slots && Inv(c, seeds, s)
    ensures Inv(c, seeds, Run(c, s, events))
    decreases |events|
  {
    hide Inv;
    if events != [] {
      assert Shaped(c, s) by {
        InvShaped(c, seeds, s);
      }
      StepKeeps(c, seeds, s, events[0]);
      RunKeeps(c, seeds, Step(c, s, events[0]), events[1..]);
    }
  }

  lemma InvShaped(c: Config, seeds: seq<bv64>, s: Pool)
    requires Inv(c, seeds, s)
    ensures Shaped(c, s) && |seeds| == c.slots
  {
  }

  lemma InitHolds(c: Config, seeds: seq<bv64>, s: Pool)
    requires Init(c, seeds, s)
    ensures Inv(c, seeds, s)
  {
    hide Draw, Seeded;
    forall i: nat | i < c.slots
      ensures SlotOk(c, seeds, s, i)
    {
    }
  }

  /**
   Every run of any number of threads, in any interleaving: no two generators share a slot, no thread
   leaves the lock array, the draws made on a slot are those of one generator with the seed of the
   slot, none lost and none repeated, and an unlocked slot holds the state after all of them.
   */
  lemma EveryRunIsSafe(c: Config, seeds: seq<bv64>, s: Pool, events: seq<Event>)
    requires ConfigOk(c) && c.blockSize <= c.slots && Init(c, seeds, s)
    ensures var r := Run(c, s, events);
            && Shaped(c, r) && |seeds| == c.slots
            && (forall t: nat :: t < |r.pcs| ==> !r.pcs[t].Stray?)
            && (forall t: nat, u: nat :: t < |r.pcs| && u < |r.pcs| && t != u && r.pcs[t].Live? && r.pcs[u].Live?
                                         ==> r.pcs[t].slot != r.pcs[u].slot)
            && (forall i: nat, j: nat :: i < c.slots && j < |r.drawn[i]| ==> r.drawn[i][j] == Draw(After(Seeded(seeds[i]), j)))
            && (forall i: nat :: i < c.slots && !r.locks[i] ==>
                                   Seeded(r.states[i]) == After(Seeded(seeds[i]), |r.drawn[i]|))
  {
    InitHolds(c, seeds, s);
    RunKeeps(c, seeds, s, events);
    var r := Run(c, s, events);
    Safe(c, seeds, r);
  }

  lemma Safe(c: Config, seeds: seq<bv64>, r: Pool)
    requires Inv(c, seeds, r)
    ensures forall t: nat :: t < |r.pcs| ==> !r.pcs[t].Stray?
    ensures forall t: nat, u: nat :: t < |r.pcs| && u < |r.pcs| && t != u && r.pcs[t].Live? && r.pcs[u].Live?
                                     ==> r.pcs[t].slot != r.pcs[u].slot
    ensures forall i: nat, j: nat :: i < c.slots && j < |r.drawn[i]| ==> r.drawn[i][j] == Draw(After(Seeded(seeds[i]), j))
    ensures forall i: nat :: i < c.slots && !r.locks[i] ==> Seeded(r.states[i]) == After(Seeded(seeds[i]), |r.drawn[i]|)
  {
    hide Draw, Seeded, After;
    forall t: nat | t < |r.pcs|
      ensures !r.pcs[t].Stray? && (r.pcs[t].Live? ==> r.pcs[t].slot < c.slots && r.locks[r.pcs[t].slot])
    {
      assert PcOk(c, seeds, r, t);
    }
    forall t: nat, u: nat | t < |r.pcs| && u < |r.pcs| && t != u && r.pcs[t].Live? && r.pcs[u].Live?
      ensures r.pcs[t].slot != r.pcs[u].slot
    {
      assert Apart2(r, t, u) && Holds(r.pcs[t], r.pcs[t].slot);
    }
    forall i: nat | i < c.slots
      ensures RecordOk(seeds, r, i) && (!r.locks[i] ==> Seeded(r.states[i]) == After(Seeded(seeds[i]), |r.drawn[i]|))
    {
      assert SlotOk(c, seeds, r, i);
    }
    forall i: nat, j: nat | i < c.slots && j < |r.drawn[i]|
      ensures r.drawn[i][j] == Draw(After(Seeded(seeds[i]), j))
    {
      assert RecordOk(seeds, r, i);
    }
  }

  // ---------------------------------------------------------------- what a thread gets done

  /** A draw appends one number to the record of the slot and advances the state of the generator once; nothing else changes. */
  lemma DrawEvent(c: Config, s: Pool, t: nat)
    requires c.slots > 0 && Shaped(c, s) && t < |s.pcs| && s.pcs[t].Live? && s.pcs[t].slot < c.slots
    ensures var i, x, r := s.pcs[t].slot, s.pcs[t].state, Step(c, s, Event(t, true));
            && r.drawn == s.drawn[i := s.drawn[i] + [Draw(x)]] && r.pcs == s.pcs[t := Live(i, After(x, 1))]
            && r.locks == s.locks && r.states == s.states
  {
    hide Next, Draw;
    assert After(s.pcs[t].state, 0) == s.pcs[t].state;
  }

  lemma {:induction false} RunAdd(c: Config, s: Pool, a: seq<Event>, b: seq<Event>)
    requires c.slots > 0 && |s.pcs| == |c.places|
    ensures Run(c, s, a + b) == Run(c, Run(c, s, a), b)
    decreases |a|
  {
    hide Step;
    if a == [] {
      assert a + b == b;
    } else {
      assert (a + b)[0] == a[0] && (a + b)[1..] == a[1..] + b;
      StepShape(c, s, a[0]);
      RunAdd(c, Step(c, s, a[0]), a[1..], b);
    }
  }

  lemma StepShape(c: Config, s: Pool, e: Event)
    requires c.slots > 0 && |s.pcs| == |c.places|
    ensures |Step(c, s, e).pcs| == |c.places|
  {
    hide Next, Draw;
  }

  /** What `n` draws from state `x` return. */
  function DrawsFrom(x: bv64, n: nat): seq<nat> {
    if n == 0 then [] else DrawsFrom(x, n - 1) + [Draw(After(x, n - 1))]
  }

  /** `n` draws in a row. */
  function DrawEvents(t: nat, n: nat): seq<Event> {
    if n == 0 then [] else DrawEvents(t, n - 1) + [Event(t, true)]
  }

  ghost predicate Drawing(c: Config, s: Pool, t: nat, i: nat, x: bv64) {
    c.slots > 0 && Shaped(c, s) && t < |s.pcs| && i < c.slots && s.pcs[t] == Live(i, x)
  }

  lemma {:induction false} DrawsInARow(c: Config, s: Pool, t: nat, i: nat, x: bv64, n: nat)
    requires Drawing(c, s, t, i, x)
    ensures Run(c, s, DrawEvents(t, n)) ==
            s.(pcs := s.pcs[t := Live(i, After(x, n))], drawn := s.drawn[i := s.drawn[i] + DrawsFrom(x, n)])
  {
    hide Next, Draw;
    if n == 0 {
      assert s.drawn[i] + [] == s.drawn[i];
      assert s.pcs[t := Live(i, x)] == s.pcs && s.drawn[i := s.drawn[i]] == s.drawn;
    } else {
      DrawsInARow(c, s, t, i, x, n - 1);
      RunAdd(c, s, DrawEvents(t, n - 1), [Event(t, true)]);
      var r := Run(c, s, DrawEvents(t, n - 1));
      DrawEvent(c, r, t);
      hide Step;
      assert Run(c, r, [Event(t, true)]) == Step(c, r, Event(t, true)) by {
        StepShape(c, r, Event(t, true));
        assert [Event(t, true)][1..] == [];
      }
      OneMore(x, n - 1);
      assert s.drawn[i] + DrawsFrom(x, n) == s.drawn[i] + DrawsFrom(x, n - 1) + [Draw(After(x, n - 1))];
    }
  }

  lemma OneMore(x: bv64, n: nat)
    ensures After(After(x, n), 1) == After(x, n + 1)
  {
    hide Next;
    assert After(After(x, n), 0) == After(x, n);
  }

  /** Claim a slot and load its state; draw; store the state and unlock. */
  function Round(t: nat, n: nat): seq<Event> {
    [Event(t, false), Event(t, false), Event(t, false)] + DrawEvents(t, n) + [Event(t, false), Event(t, false)]
  }

  /**
   A whole round of one thread whose first slot is free: it makes `n` draws from the state of that slot, with a
   zero state replaced, leaves there the state after them, and unlocks the slot again.
   */
  lemma OneRound(c: Config, s: Pool, t: nat, n: nat)
    requires c.slots > 0 && Shaped(c, s) && t < |s.pcs| && s.pcs[t] == Idle
    requires !s.locks[(c.places[t].block * c.blockSize + c.places[t].offset) % c.slots]
    ensures var i := (c.places[t].block * c.blockSize + c.places[t].offset) % c.slots;
            var x := if s.states[i] == 0 then 1318319 else s.states[i];
            Run(c, s, Round(t, n)) ==
            s.(states := s.states[i := After(x, n)], drawn := s.drawn[i := s.drawn[i] + DrawsFrom(x, n)])
  {
    hide Next, Draw, After, DrawsFrom, DrawEvents, Step, Run;
    var go := Event(t, false);
    var i := Start(c, c.places[t]);
    var x := Seeded(s.states[i]);
    var s3 := Claims(c, s, t, i);
    RunAdd(c, s, [go, go, go], DrawEvents(t, n));
    DrawsInARow(c, s3, t, i, x, n);
    var s4 := Run(c, s3, DrawEvents(t, n));
    RunAdd(c, s, [go, go, go] + DrawEvents(t, n), [go, go]);
    Frees(c, s4, t, i, After(x, n));
    RoundEnds(s, t, i, x, n);
  }

  /** Claimed and unlocked, gone and back: only the state and the record of the slot differ. */
  lemma RoundEnds(s: Pool, t: nat, i: nat, x: bv64, n: nat)
    requires t < |s.pcs| && s.pcs[t] == Idle && i < |s.locks| == |s.states| == |s.drawn| && !s.locks[i]
    ensures s.locks[i := true][i := false] == s.locks
    ensures s.pcs[t := Live(i, x)][t := Live(i, After(x, n))][t := Idle] == s.pcs
  {
  }

  lemma Claims(c: Config, s: Pool, t: nat, i: nat) returns (r: Pool)
    requires c.slots > 0 && Shaped(c, s) && t < |s.pcs| && s.pcs[t] == Idle && i == Start(c, c.places[t]) && !s.locks[i]
    ensures r == s.(locks := s.locks[i := true], pcs := s.pcs[t := Live(i, Seeded(s.states[i]))])
    ensures Run(c, s, [Event(t, false), Event(t, false), Event(t, false)]) == r
  {
    hide Next, Draw, Seeded;
    var e := Event(t, false);
    var s1 := Step(c, s, e);
    var s2 := Step(c, s1, e);
    r := Step(c, s2, e);
    assert [e, e, e][1..] == [e, e] && [e, e][1..] == [e] && [e][1..] == [];
    assert Run(c, r, []) == r;
    assert Run(c, s2, [e]) == r;
    assert Run(c, s1, [e, e]) == r;
  }

  lemma Frees(c: Config, s: Pool, t: nat, i: nat, x: bv64)
    requires Drawing(c, s, t, i, x)
    ensures Run(c, s, [Event(t, false), Event(t, false)]) ==
            s.(states := s.states[i := x], locks := s.locks[i := false], pcs := s.pcs[t := Idle])
  {
    hide Next, Draw;
    var e := Event(t, false);
    var s1 := Step(c, s, e);
    var s2 := Step(c, s1, e);
    assert [e, e][1..] == [e] && [e][1..] == [];
    assert Run(c, s2, []) == s2;
    assert Run(c, s1, [e]) == s2;
  }
}
