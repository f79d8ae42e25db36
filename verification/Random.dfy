/** `Random_XorShift64`: draws, ranged draws by rejection, and how evenly they fall. */
module Random {
  import opened Counting
  import opened Wrappers
  import opened Xorshift

  const MULTIPLIER: nat := 2685821657736338717
  const INVERSE: nat := 6415128727920758069
  const MAX_URAND64: nat := WORDS64 - 1

  /** The output of a state: multiplication and decrement wrap at 64 bits. */
  function Output(s: bv64): (o: nat)
    ensures o < WORDS64
  {
    (Value(s) * MULTIPLIER % WORDS64 + MAX_URAND64) % WORDS64
  }

  /** What `urand64` returns from state `s`. */
  function Draw(s: bv64): nat {
    Output(Next(s))
  }

  lemma ModUnique(x: int, v: nat, k: int)
    requires x == v + k * WORDS64 && v < WORDS64
    ensures x % WORDS64 == v
  {
  }

  /** The multiplier is odd, so multiplication can be undone modulo 2^64. */
  lemma UndoMultiplier(v: nat)
    requires v < WORDS64
    ensures v * MULTIPLIER % WORDS64 * INVERSE % WORDS64 == v
    ensures v * INVERSE % WORDS64 * MULTIPLIER % WORDS64 == v
  {
    var a, b := v * MULTIPLIER / WORDS64, v * INVERSE / WORDS64;
    var q := MULTIPLIER * INVERSE / WORDS64;
    assert MULTIPLIER * INVERSE == 1 + q * WORDS64;
    ModUnique(v * MULTIPLIER % WORDS64 * INVERSE, v, v * q - a * INVERSE);
    ModUnique(v * INVERSE % WORDS64 * MULTIPLIER, v, v * q - b * MULTIPLIER);
  }

  /** The state before the draw that returns `o`. */
  ghost function StateFor(o: nat): bv64 {
    Previous(Word((o + 1) % WORDS64 * INVERSE % WORDS64))
  }

  lemma MinusPlus(x: nat)
    requires x < WORDS64
    ensures ((x + MAX_URAND64) % WORDS64 + 1) % WORDS64 == x
    ensures ((x + 1) % WORDS64 + MAX_URAND64) % WORDS64 == x
    ensures (x + MAX_URAND64) % WORDS64 == MAX_URAND64 <==> x == 0
  {
  }

  lemma DrawUndone(s: bv64)
    ensures StateFor(Draw(s)) == s
  {
    hide Next, Previous, Value, Word;
    var v := Value(Next(s));
    WordOfValue(Next(s));
    MinusPlus(v * MULTIPLIER % WORDS64);
    UndoMultiplier(v);
    StepIsBijective(s);
  }

  lemma DrawReached(o: nat)
    requires o < WORDS64
    ensures Draw(StateFor(o)) == o
  {
    hide Next, Previous, Value, Word;
    var v := (o + 1) % WORDS64 * INVERSE % WORDS64;
    StepIsBijective(Word(v));
    ValueOfWord(v);
    UndoMultiplier((o + 1) % WORDS64);
    MinusPlus(o);
  }

  /** What a draw returns: the number of the next state times the multiplier, less one, modulo 2^64. */
  lemma DrawFormula(s: bv64)
    ensures Draw(s) == (Value(Next(s)) * 2685821657736338717 - 1) % 0x1_0000_0000_0000_0000
  {
    hide Next, Value;
    var p := Value(Next(s)) * 2685821657736338717;
    assert (p % WORDS64 + (WORDS64 - 1)) % WORDS64 == (p - 1) % WORDS64;
  }

  /** Only the state zero, which no generator holds, draws 2^64 - 1. */
  lemma DrawBelowMax(s: bv64)
    ensures Draw(s) == MAX_URAND64 <==> s == 0
  {
    hide Next, Draw, StateFor, Value, Output;
    DrawUndone(s);
    DrawUndone(0);
    NonzeroStays(0);
    OutputOfZero();
    assert Draw(0) == Output(Next(0)) by {
      DrawUnfolds(0);
    }
  }

  lemma DrawUnfolds(s: bv64)
    ensures Draw(s) == Output(Next(s))
  {
  }

  lemma OutputOfZero()
    ensures Output(0) == MAX_URAND64
  {
    hide Low;
    LowOfZero(64);
  }

  /** `urand64` maps the nonzero states one to one onto `[0, 2^64 - 2]`. */
  lemma DrawIsBijective(s: bv64, o: nat)
    requires s != 0 && o < MAX_URAND64
    ensures Draw(s) < MAX_URAND64 && StateFor(Draw(s)) == s
    ensures StateFor(o) != 0 && Draw(StateFor(o)) == o
  {
    hide Draw, StateFor;
    DrawBelowMax(s);
    DrawUndone(s);
    DrawReached(o);
    DrawBelowMax(StateFor(o));
    assert Draw(s) < WORDS64 by {
      DrawUnfolds(s);
    }
  }

  // ---------------------------------------------------------------- ranged draws

  /** Draws at or above this bound are rejected. */
  function Bound(range: nat): nat
    requires range > 0
  {
    MAX_URAND64 / range * range
  }

  /** The states whose draw is accepted with residue `r`. */
  ghost function Preimages(range: nat, r: nat): set<bv64>
    requires r < range
  {
    set k | k in Range(MAX_URAND64 / range) :: Nth(range, r, k)
  }

  /** The state that draws the `k`-th number with residue `r`. */
  ghost function Nth(range: nat, r: nat, k: nat): bv64 {
    StateFor(k * range + r)
  }

  lemma Quotient(range: nat, k: nat, r: nat)
    requires r < range
    ensures (k * range + r) / range == k && (k * range + r) % range == r
  {
    var x := k * range + r;
    var q, t := x / range, x % range;
    assert x == q * range + t;
    if q < k {
      MultiplesApart(range, q, k);
    } else if k < q {
      MultiplesApart(range, k, q);
    }
  }

  lemma BelowBound(range: nat, k: nat, r: nat)
    requires r < range
    ensures k * range + r < Bound(range) <==> k < MAX_URAND64 / range
  {
    var n := MAX_URAND64 / range;
    if k < n {
      MultiplesApart(range, k, n);
    } else if n < k {
      MultiplesApart(range, n, k);
    }
  }

  lemma BoundFits(range: nat)
    requires range > 0
    ensures Bound(range) <= MAX_URAND64
  {
    assert MAX_URAND64 == MAX_URAND64 / range * range + MAX_URAND64 % range;
  }

  lemma PreimageIn(range: nat, r: nat, s: bv64)
    requires r < range
    ensures s in Preimages(range, r) ==> s != 0 && Draw(s) < Bound(range) && Draw(s) % range == r
  {
    hide Draw, StateFor, Bound;
    if s in Preimages(range, r) {
      var k :| k in Range(MAX_URAND64 / range) && s == Nth(range, r, k);
      BelowBound(range, k, r);
      BoundFits(range);
      DrawReached(k * range + r);
      DrawBelowMax(s);
      Quotient(range, k, r);
    }
  }

  lemma PreimageOut(range: nat, r: nat, s: bv64)
    requires r < range && Draw(s) < Bound(range) && Draw(s) % range == r
    ensures s in Preimages(range, r)
  {
    hide Draw, StateFor, Bound;
    var k := Draw(s) / range;
    assert Draw(s) == k * range + r;
    BelowBound(range, k, r);
    DrawUndone(s);
    assert k in Range(MAX_URAND64 / range) && s == Nth(range, r, k);
  }

  lemma StatesDiffer(range: nat, r: nat, j: nat, k: nat)
    requires r < range && j < MAX_URAND64 / range && k < MAX_URAND64 / range && j != k
    ensures Nth(range, r, j) != Nth(range, r, k)
  {
    hide Draw, StateFor, Bound;
    BelowBound(range, j, r);
    BelowBound(range, k, r);
    BoundFits(range);
    DrawReached(j * range + r);
    DrawReached(k * range + r);
    Quotient(range, j, r);
    Quotient(range, k, r);
  }

  lemma PreimageCount(range: nat, r: nat)
    requires r < range
    ensures |Preimages(range, r)| == MAX_URAND64 / range
  {
    hide Nth;
    var n := MAX_URAND64 / range;
    var states := map k | k in Range(n) :: Nth(range, r, k);
    forall j, k | j in Range(n) && k in Range(n) && j != k
      ensures states[j] != states[k]
    {
      StatesDiffer(range, r, j, k);
    }
    ImageSize(Range(n), states, Preimages(range, r));
  }

  /** For every range, every residue has exactly `MAX_URAND64 / range` accepted states. */
  lemma ResiduesAreEven(range: nat, r: nat)
    requires r < range
    ensures |Preimages(range, r)| == MAX_URAND64 / range
    ensures forall s: bv64 :: s in Preimages(range, r) <==> s != 0 && Draw(s) < Bound(range) && Draw(s) % range == r
  {
    hide Draw, StateFor, Bound, Preimages;
    PreimageCount(range, r);
    forall s: bv64
      ensures s in Preimages(range, r) <==> s != 0 && Draw(s) < Bound(range) && Draw(s) % range == r
    {
      PreimageIn(range, r, s);
      if Draw(s) < Bound(range) && Draw(s) % range == r {
        PreimageOut(range, r, s);
      }
    }
  }

  // ---------------------------------------------------------------- the generator

  /** The state after `n` draws. */
  function After(s: bv64, n: nat): bv64 {
    if n == 0 then s else Next(After(s, n - 1))
  }

  lemma {:induction false} AfterIsNonzero(s: bv64, n: nat)
    requires s != 0
    ensures After(s, n) != 0
  {
    hide Next;
    if n > 0 {
      AfterIsNonzero(s, n - 1);
      NonzeroStays(After(s, n - 1));
    }
  }

  lemma {:induction false} AfterAdd(s: bv64, a: nat, b: nat)
    ensures After(s, a + b) == After(After(s, a), b)
  {
    hide Next;
    if b > 0 {
      AfterAdd(s, a, b - 1);
    }
  }

  lemma {:induction false} AfterIsInjective(x: bv64, y: bv64, n: nat)
    requires After(x, n) == After(y, n)
    ensures x == y
  {
    hide Next, Previous;
    if n > 0 {
      StepIsBijective(After(x, n - 1));
      StepIsBijective(After(y, n - 1));
      AfterIsInjective(x, y, n - 1);
    }
  }

  /** A state that comes back after `d` draws goes round in a circle. */
  lemma {:induction false} AfterCycles(s: bv64, d: nat, n: nat) returns (k: nat)
    requires d > 0 && After(s, d) == s
    ensures k < d && After(s, n) == After(s, k)
  {
    if n < d {
      k := n;
    } else {
      AfterAdd(s, d, n - d);
      k := AfterCycles(s, d, n - d);
    }
  }

  predicate Rejects(range: nat, s: bv64)
    requires range > 0
  {
    Draw(s) >= Bound(range)
  }

  /** How far a rejected draw is above the bound. */
  function Surplus(range: nat, s: bv64): nat
    requires range > 0
  {
    if Rejects(range, s) then Draw(s) - Bound(range) else 0
  }

  lemma RejectedDraws(range: nat, s: bv64)
    requires range > 0 && s != 0 && Rejects(range, s)
    ensures Surplus(range, s) < MAX_URAND64 % range
  {
    hide Draw;
    DrawBelowMax(s);
    assert Draw(s) < WORDS64 by {
      DrawUnfolds(s);
    }
    assert MAX_URAND64 == MAX_URAND64 / range * range + MAX_URAND64 % range;
  }

  lemma SameSurplus(range: nat, x: bv64, y: bv64)
    requires range > 0 && Rejects(range, x) && Rejects(range, y) && Surplus(range, x) == Surplus(range, y)
    ensures x == y
  {
    hide Draw, StateFor, Bound;
    DrawUndone(x);
    DrawUndone(y);
  }

  /** Only `MAX_URAND64 % range` draws are rejected, so after one more rejection a state has come back. */
  lemma StateComesBack(range: nat, s: bv64) returns (i: nat, j: nat)
    requires range > 0 && s != 0 && forall n: nat :: n <= MAX_URAND64 % range ==> Rejects(range, After(s, n))
    ensures i < j <= MAX_URAND64 % range && After(s, i) == After(s, j)
  {
    hide Surplus, After, Rejects;
    var r := MAX_URAND64 % range;
    var xs := seq(r + 1, n requires 0 <= n <= r => Surplus(range, After(s, n)));
    forall n: nat | n < |xs|
      ensures xs[n] < r
    {
      AfterIsNonzero(s, n);
      RejectedDraws(range, After(s, n));
    }
    i, j := Repetition(xs, r);
    SameSurplus(range, After(s, i), After(s, j));
  }

  /** If `MAX_URAND64 % range + 1` draws in a row are rejected, the loop of the original never ends. */
  lemma RejectedForever(range: nat, s: bv64, n: nat)
    requires range > 0 && s != 0 && forall k: nat :: k <= MAX_URAND64 % range ==> Rejects(range, After(s, k))
    ensures Rejects(range, After(s, n))
  {
    hide After, Rejects;
    var i, j := StateComesBack(range, s);
    AfterAdd(s, j - i, i);
    AfterIsInjective(After(s, j - i), s, i);
    var k := AfterCycles(s, j - i, n);
  }

  /** A generator replaces the state zero, from which it could never leave. */
  function Seeded(s: bv64): (r: bv64)
    ensures r != 0
  {
    if s == 0 then 1318319 else s
  }

  class Generator {
    var state: bv64
    const index: nat

    constructor (state: bv64, index: nat)
      ensures this.state == Seeded(state) == (if state == 0 then 1318319 else state) && this.index == index
    {
      this.state := Seeded(state);
      this.index := index;
    }

    method Urand64() returns (o: nat)
      modifies this
      ensures state == Next(old(state)) && o == Draw(old(state))
      ensures o == (Value(state) * 2685821657736338717 - 1) % 0x1_0000_0000_0000_0000
      ensures old(state) != 0 ==> state != 0 && o < MAX_URAND64
    {
      hide Output, Draw, Next, Value;
      NonzeroStays(state);
      DrawBelowMax(state);
      DrawFormula(state);
      DrawUnfolds(state);
      state := Next(state);
      o := Output(state);
    }

    /**
     Draws until one is accepted; the result is the residue of the first accepted draw. `None` stands for the
     loop of the original going on forever, which is decided after `MAX_URAND64 % range + 1` draws.
     */
    method Urand64Below(range: nat) returns (r: Option<nat>, draws: nat)
      requires range > 0 && state != 0
      modifies this
      ensures state == After(old(state), draws) && state != 0 && draws <= MAX_URAND64 % range + 1
      ensures forall j: nat :: j + 1 < draws ==> Rejects(range, After(old(state), j))
      ensures r.None? <==> forall n: nat :: Rejects(range, After(old(state), n))
      ensures r.Some? ==> draws > 0 && !Rejects(range, After(old(state), draws - 1))
                          && r.value == Draw(After(old(state), draws - 1)) % range < range
    {
      hide Draw, Bound, Next, Value;
      var bound := Bound(range);
      ghost var start := state;
      r, draws := None, 0;
      while draws < MAX_URAND64 % range + 1
        invariant draws <= MAX_URAND64 % range + 1 && state == After(start, draws) && state != 0
        invariant forall j: nat :: j < draws ==> Rejects(range, After(start, j))
      {
        var o := Urand64();
        draws := draws + 1;
        if o < bound {
          r := Some(o % range);
          assert !Rejects(range, After(start, draws - 1));
          return;
        }
      }
      forall n: nat
        ensures Rejects(range, After(start, n))
      {
        RejectedForever(range, start, n);
      }
    }

    /** A draw from `[start, end)`; it ends exactly if the draw below `end - start` does. */
    method Urand64Between(start: nat, end: nat) returns (r: Option<nat>)
      requires start < end <= MAX_URAND64 && state != 0
      modifies this
      ensures state != 0 && (r.Some? ==> start <= r.value < end)
      ensures r.None? <==> forall n: nat :: Rejects(end - start, After(old(state), n))
      ensures exists n: nat :: state == After(old(state), n)
                               && (r.Some? ==> n > 0 && r.value == start + Draw(After(old(state), n - 1)) % (end - start))
    {
      hide Draw, Bound, Next;
      var below, draws := Urand64Below(end - start);
      r := if below.None? then None else Some(below.value + start);
    }
  }
}
