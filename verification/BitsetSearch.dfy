/** What the two searches of `Bitset` return, in plain index arithmetic. */
module BitsetSearch {
  import opened Bitsets

  // ---------------------------------------------------------------- positions as numbers

  function Minus(x: bv5, y: bv5): bv5 {
    x - y
  }

  function Value(x: bv5): int {
    x as int
  }

  lemma Difference(x: bv5, y: bv5)
    ensures Value(Minus(x, y)) == if Value(x) >= Value(y) then Value(x) - Value(y) else Value(x) - Value(y) + 32
  {
  }

  lemma TwoIsTwo()
    ensures Value(2) == 2
  {
  }

  lemma SameOrder(x: bv5, y: bv5)
    ensures x < y <==> Value(x) < Value(y)
  {
  }

  lemma OffIsRemainder(i: nat)
    ensures Value(Off(i)) == i % 32
  {
  }

  lemma StepsUnfold(x: bv5, dir: nat, y: bv5)
    ensures Steps(x, dir, y) == if dir % 2 == 1 then Minus(Minus(x, 2), y) else Minus(y, x)
    ensures Looked(x, dir, Steps(x, dir, y)) == y
  {
  }

  /** Distances inside a block, which wrap around it. */
  lemma StepsAreDistance(hint: nat, dir: nat, p: nat)
    ensures Value(Steps(Off(hint), dir, Off(p))) == if dir % 2 == 1 then (hint - 2 - p) % 32 else (p - hint) % 32
    ensures Looked(Off(hint), dir, Steps(Off(hint), dir, Off(p))) == Off(p)
  {
    hide Off, Steps, Looked, Minus, Value;
    var x, y := Off(hint), Off(p);
    OffIsRemainder(hint);
    OffIsRemainder(p);
    StepsUnfold(x, dir, y);
    if dir % 2 == 1 {
      TwoIsTwo();
      Difference(x, 2);
      Difference(Minus(x, 2), y);
      ReverseRemainder(hint, p);
    } else {
      Difference(y, x);
      ForwardRemainder(hint, p);
    }
  }

  lemma ForwardRemainder(h: nat, p: nat)
    ensures (p - h) % 32 == if p % 32 >= h % 32 then p % 32 - h % 32 else p % 32 - h % 32 + 32
  {
  }

  lemma ReverseRemainder(h: nat, p: nat)
    ensures var q := if h % 32 >= 2 then h % 32 - 2 else h % 32 + 30;
            (h - 2 - p) % 32 == if q >= p % 32 then q - p % 32 else q - p % 32 + 32
  {
  }

  // ---------------------------------------------------------------- the searches

  /** The block that a search looks at: a hint past the end counts as the first block. */
  function BlockOf(b: Bits, hint: nat): nat {
    if hint / 32 < |b.blocks| then hint / 32 else 0
  }

  /** An index of block `blk` with the wanted value. */
  ghost predicate Hit(b: Bits, want: bool, blk: nat, i: nat) {
    i < b.size && i / 32 == blk && Has(b, i) == want
  }

  /**
   `find_any_set_near` and `find_any_unset_near`. A found index is the nearest one of the block: upwards from
   the hint in an even direction, downwards from two below the hint in an odd one, wrapping around the
   block. Otherwise the new hint is in the next block for directions 0 and 1 and in the previous one for 2
   and 3, wrapping around the bitset, at the same offset.
   */
  lemma SearchResult(b: Bits, want: bool, hint: nat, dir: nat)
    requires Valid(b) && |b.blocks| > 0 && (want || hint / 32 < |b.blocks|)
    ensures HintBlock(b, want, hint) == BlockOf(b, hint)
    ensures var (found, i), blk, n := FindAny(b, want, hint, dir), BlockOf(b, hint), |b.blocks|;
            && (found <==> exists p: nat :: Hit(b, want, blk, p))
            && (found ==> Hit(b, want, blk, i))
            && (found && dir % 2 == 0 ==> forall p: nat :: Hit(b, want, blk, p) ==> (i - hint) % 32 <= (p - hint) % 32)
            && (found && dir % 2 == 1 ==> forall p: nat :: Hit(b, want, blk, p) ==> (hint - 2 - i) % 32 <= (hint - 2 - p) % 32)
            && (!found && dir % 4 < 2 ==> i == (blk + 1) % n * 32 + hint % 32)
            && (!found && dir % 4 >= 2 ==> i == (blk + n - 1) % n * 32 + hint % 32)
  {
    hide FindAny, Valid, Has, Off, Move, IsBackward;
    var (found, i) := FindAny(b, want, hint, dir);
    var blk := BlockOf(b, hint);
    FoundIsRight(b, want, hint, dir);
    if found {
      assert Hit(b, want, blk, i);
      forall p: nat | Hit(b, want, blk, p)
        ensures if dir % 2 == 1 then (hint - 2 - i) % 32 <= (hint - 2 - p) % 32 else (i - hint) % 32 <= (p - hint) % 32
      {
        Nearest(b, want, hint, dir, p);
      }
    } else {
      MovedHint(|b.blocks|, blk, dir, hint, i);
    }
  }

  lemma Nearest(b: Bits, want: bool, hint: nat, dir: nat, p: nat)
    requires Valid(b) && HintBlock(b, want, hint) < |b.blocks| && FindAny(b, want, hint, dir).0
    requires Hit(b, want, HintBlock(b, want, hint), p)
    ensures var i := FindAny(b, want, hint, dir).1;
            if dir % 2 == 1 then (hint - 2 - i) % 32 <= (hint - 2 - p) % 32 else (i - hint) % 32 <= (p - hint) % 32
  {
    var i := FindAny(b, want, hint, dir).1;
    var k := Steps(Off(hint), dir, Off(p));
    FoundIsFirst(b, want, hint, dir, k);
    StepsAreDistance(hint, dir, p);
    StepsAreDistance(hint, dir, i);
    SameOrder(k, Steps(Off(hint), dir, Off(i)));
    Position(p);
    hide FindAny, Valid, Has, Steps, Looked, At, Off, Value;
  }

  lemma MovedHint(n: nat, blk: nat, dir: nat, hint: nat, i: nat)
    requires blk < n && i / 32 == Move(n, blk, IsBackward(dir)) && Off(i) == Off(hint)
    ensures dir % 4 < 2 ==> i == (blk + 1) % n * 32 + hint % 32
    ensures dir % 4 >= 2 ==> i == (blk + n - 1) % n * 32 + hint % 32
  {
    hide Off, Move, IsBackward, Value;
    OffIsRemainder(i);
    OffIsRemainder(hint);
    MoveIsNeighbour(n, blk, dir);
    assert i == i / 32 * 32 + i % 32;
  }

  lemma MoveIsNeighbour(n: nat, blk: nat, dir: nat)
    requires blk < n
    ensures Move(n, blk, IsBackward(dir)) == if dir % 4 < 2 then (blk + 1) % n else (blk + n - 1) % n
  {
    assert dir / 2 % 2 == 1 <==> dir % 4 >= 2;
    Wrapped(blk + 1, n);
    Wrapped(blk + n - 1, n);
  }

  lemma Wrapped(x: nat, n: nat)
    requires 0 < n && x < 2 * n
    ensures x % n == if x < n then x else x - n
  {
    if x >= n {
      assert x == (x - n) + n;
    }
  }

  /** A full first block, and the default direction: the search goes on in the second block. */
  lemma NextBlockExample()
    ensures FindAny(Bits(128, 0, [0xFFFF_FFFF, 0, 0, 0]), false, 0, 0) == (false, 32)
    ensures FindAny(Bits(128, 0, [0xFFFF_FFFF, 0, 0, 0]), false, 0, 2) == (false, 96)
  {
  }
}
