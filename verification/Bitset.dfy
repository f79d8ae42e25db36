/**
 The word-level `Kokkos::Bitset`: a value `Bits` with the pure functions that the atomic steps of
 the concurrent protocols use, and the class `Bitset` whose methods update the words in place.
 */
module Bitsets {
  import opened Words

  const MAX_SIZE: nat := 0x1_0000_0000 - 32

  /** `m_size`, `m_last_block_mask` and `m_blocks`. */
  datatype Bits = Bits(size: nat, lastMask: bv32, blocks: seq<bv32>)

  /** The index of bit `j` of block `blk`. */
  function At(blk: nat, j: bv5): nat {
    blk * 32 + j as nat
  }

  /** `i & block_mask`. */
  function Off(i: nat): bv5 {
    (i % 32) as bv5
  }

  lemma Position(i: nat)
    ensures At(i / 32, Off(i)) == i
  {
    assert Off(i) as nat == i % 32;
  }

  lemma OffsetBack(j: bv5)
    ensures (j as nat) as bv5 == j && j as nat < 32
  {
  }

  lemma PositionBack(blk: nat, j: bv5)
    ensures At(blk, j) / 32 == blk && Off(At(blk, j)) == j
  {
    OffsetBack(j);
    assert At(blk, j) % 32 == j as nat;
  }

  /** `test(i)`. */
  predicate Has(b: Bits, i: nat) {
    i < b.size && i / 32 < |b.blocks| && Bit(b.blocks[i / 32], Off(i))
  }

  /** The set of indices that the words stand for. */
  ghost function Members(b: Bits): set<nat> {
    set i: nat | i < b.size && Has(b, i)
  }

  ghost predicate TailClear(b: Bits) {
    forall blk: nat, j: bv5 :: blk < |b.blocks| && b.size <= At(blk, j) ==> !Bit(b.blocks[blk], j)
  }

  ghost predicate MaskRight(b: Bits) {
    forall j: bv5 :: Bit(b.lastMask, j) <==> j as nat < b.size % 32
  }

  ghost predicate Valid(b: Bits) {
    && b.size <= MAX_SIZE
    && |b.blocks| == (b.size + 31) / 32
    && MaskRight(b)
    && TailClear(b)
  }

  /** `set(i)`: the words after `atomic_fetch_or`, and whether this call set the bit. */
  function SetBit(b: Bits, i: nat): (Bits, bool)
    requires i < b.size ==> i / 32 < |b.blocks|
  {
    if i < b.size then
      var old_ := b.blocks[i / 32];
      (b.(blocks := b.blocks[i / 32 := SetOne(old_, Off(i))]), !TestOne(old_, Off(i)))
    else
      (b, false)
  }

  /** `reset(i)`: the words after `atomic_fetch_and`, and whether this call cleared the bit. */
  function ResetBit(b: Bits, i: nat): (Bits, bool)
    requires i < b.size ==> i / 32 < |b.blocks|
  {
    if i < b.size then
      var old_ := b.blocks[i / 32];
      (b.(blocks := b.blocks[i / 32 := ClearOne(old_, Off(i))]), TestOne(old_, Off(i)))
    else
      (b, false)
  }

  lemma OneWordChanged(b: Bits, blk: nat, w: bv32, k: nat)
    requires blk < |b.blocks|
    ensures Has(b.(blocks := b.blocks[blk := w]), k) ==
            if k / 32 == blk then k < b.size && Bit(w, Off(k)) else Has(b, k)
  {
  }

  lemma SameOffset(i: nat, k: nat)
    requires i / 32 == k / 32
    ensures Off(i) == Off(k) <==> i == k
  {
    Position(i);
    Position(k);
  }

  lemma WordWriteKeepsTail(b: Bits, i: nat, w: bv32)
    requires Valid(b) && i < b.size
    requires forall j: bv5 :: Bit(w, j) ==> Bit(b.blocks[i / 32], j) || j == Off(i)
    ensures Valid(b.(blocks := b.blocks[i / 32 := w]))
  {
    hide Bit, Off, At;
    var b' := b.(blocks := b.blocks[i / 32 := w]);
    forall c: nat, j: bv5 | c < |b'.blocks| && b.size <= At(c, j)
      ensures !Bit(b'.blocks[c], j)
    {
      assert !Bit(b.blocks[c], j);
      Position(i);
    }
  }

  lemma WordWriteMembers(b: Bits, i: nat, w: bv32, value: bool)
    requires Valid(b) && i < b.size
    requires forall j: bv5 :: Bit(w, j) <==> if j == Off(i) then value else Bit(b.blocks[i / 32], j)
    ensures forall k: nat ::
              Has(b.(blocks := b.blocks[i / 32 := w]), k) <==> if k == i then value else Has(b, k)
  {
    hide Bit, Off, TailClear, MaskRight;
    forall k: nat
      ensures Has(b.(blocks := b.blocks[i / 32 := w]), k) <==> if k == i then value else Has(b, k)
    {
      OneWordChanged(b, i / 32, w, k);
      if k / 32 == i / 32 {
        SameOffset(i, k);
      }
    }
  }

  /** `set(i)` adds `i` to the set, reports whether it was new, and keeps the tail clear. */
  lemma SetBitAdds(b: Bits, i: nat)
    requires Valid(b)
    ensures var (b', won) := SetBit(b, i);
            && Valid(b') && b'.size == b.size && |b'.blocks| == |b.blocks|
            && won == (i < b.size && !Has(b, i))
            && (forall k: nat :: Has(b', k) <==> Has(b, k) || (k == i && i < b.size))
  {
    hide Bit, Off, TailClear, MaskRight, SetOne, TestOne;
    if i < b.size {
      var w := SetOne(b.blocks[i / 32], Off(i));
      forall j: bv5
        ensures Bit(w, j) <==> Bit(b.blocks[i / 32], j) || Off(i) == j
        ensures TestOne(b.blocks[i / 32], j) == Bit(b.blocks[i / 32], j)
      {
        BitOps(b.blocks[i / 32], 0, Off(i), j);
      }
      WordWriteKeepsTail(b, i, w);
      WordWriteMembers(b, i, w, true);
    }
  }

  /** `reset(i)` removes `i` from the set, reports whether it was there, and keeps the tail clear. */
  lemma ResetBitRemoves(b: Bits, i: nat)
    requires Valid(b)
    ensures var (b', won) := ResetBit(b, i);
            && Valid(b') && b'.size == b.size && |b'.blocks| == |b.blocks|
            && won == Has(b, i)
            && (forall k: nat :: Has(b', k) <==> Has(b, k) && k != i)
  {
    hide Bit, Off, TailClear, MaskRight, ClearOne, TestOne;
    if i < b.size {
      var w := ClearOne(b.blocks[i / 32], Off(i));
      forall j: bv5
        ensures Bit(w, j) <==> Bit(b.blocks[i / 32], j) && Off(i) != j
        ensures TestOne(b.blocks[i / 32], j) == Bit(b.blocks[i / 32], j)
      {
        BitOps(b.blocks[i / 32], 0, Off(i), j);
      }
      WordWriteKeepsTail(b, i, w);
      WordWriteMembers(b, i, w, false);
    }
  }

  /** Writing a bit with the value it already has leaves the words alone. */
  lemma RewriteBit(b: Bits, i: nat)
    requires Valid(b) && i < b.size
    ensures Has(b, i) ==> SetBit(b, i).0 == b
    ensures !Has(b, i) ==> ResetBit(b, i).0 == b
  {
    hide Off;
    SameBitWord(b.blocks[i / 32], Off(i));
  }

  // ---------------------------------------------------------------- searching near a hint

  predicate IsReverse(dir: nat) {
    dir % 2 == 1
  }

  predicate IsBackward(dir: nat) {
    dir / 2 % 2 == 1
  }

  /** The loaded word, complemented when a clear bit is wanted, with the unused tail masked off. */
  function Candidates(b: Bits, want: bool, blk: nat): bv32
    requires blk < |b.blocks|
  {
    var w := if want then b.blocks[blk] else Complement(b.blocks[blk]);
    if b.lastMask == 0 || blk < |b.blocks| - 1 then w else Intersect(w, b.lastMask)
  }

  /** `scan_block`, relative to the start of the block. */
  function ScanBlock(off: bv5, w: bv32, dir: nat): bv5
    requires w != 0
  {
    var off' := if IsReverse(dir) then off + 31 else off;
    RotateKeepsNonzero(w, off');
    var rotated := RotateRight(w, off');
    (if IsReverse(dir) then ScanReverse(rotated, 31) else ScanForward(rotated, 0)) + off'
  }

  /** The neighbouring block that `update_hint` moves to. */
  function Move(n: nat, blk: nat, backward: bool): (m: nat)
    requires blk < n
    ensures m < n
  {
    if backward then (if blk == 0 then n - 1 else blk - 1)
    else (if blk + 1 == n then 0 else blk + 1)
  }

  /** The block a search with this hint looks at; only `find_any_set_near` clamps it. */
  function HintBlock(b: Bits, want: bool, hint: nat): nat {
    if want && |b.blocks| <= hint / 32 then 0 else hint / 32
  }

  /** `find_any_set_near` (`want`) and `find_any_unset_near` (`!want`). */
  function FindAny(b: Bits, want: bool, hint: nat, dir: nat): (bool, nat)
    requires HintBlock(b, want, hint) < |b.blocks|
  {
    var blk := HintBlock(b, want, hint);
    var w := Candidates(b, want, blk);
    if w != 0 then
      (true, At(blk, ScanBlock(Off(hint), w, dir)))
    else
      (false, At(Move(|b.blocks|, blk, IsBackward(dir)), Off(hint)))
  }

  /** Candidate bits are exactly the in-range indices with the wanted value. */
  lemma CandidateBit(b: Bits, want: bool, blk: nat, j: bv5)
    requires Valid(b) && blk < |b.blocks|
    ensures Bit(Candidates(b, want, blk), j) <==> At(blk, j) < b.size && Has(b, At(blk, j)) == want
  {
    hide Bit, Off, At, MaskRight, Complement, Intersect;
    var w := if want then b.blocks[blk] else Complement(b.blocks[blk]);
    BitOps(b.blocks[blk], b.lastMask, j, j);
    BitOps(w, b.lastMask, j, j);
    TailMask(b);
    TailRange(b, blk, j);
    HasAt(b, blk, j);
  }

  lemma HasAt(b: Bits, blk: nat, j: bv5)
    requires blk < |b.blocks|
    ensures Has(b, At(blk, j)) <==> At(blk, j) < b.size && Bit(b.blocks[blk], j)
  {
    hide Bit, Off, At;
    PositionBack(blk, j);
  }

  lemma TailRange(b: Bits, blk: nat, j: bv5)
    requires Valid(b) && blk < |b.blocks|
    ensures At(blk, j) < b.size <==>
            blk < |b.blocks| - 1 || b.size % 32 == 0 || Bit(b.lastMask, j)
  {
    hide Bit;
    OffsetBack(j);
  }

  lemma TailMask(b: Bits)
    requires Valid(b)
    ensures b.lastMask == 0 <==> b.size % 32 == 0
  {
    hide Bit;
    ZeroWord(b.lastMask);
    assert (0 as bv5) as nat == 0;
    assert Bit(b.lastMask, 0) <==> 0 < b.size % 32;
  }

  /** No in-range bit of this block has the wanted value. */
  ghost predicate NoneIn(b: Bits, want: bool, blk: nat) {
    forall i: nat :: i < b.size && i / 32 == blk ==> Has(b, i) == !want
  }

  /** A successful search returns an index in range, in the hinted block, with the wanted value. */
  lemma FoundIsRight(b: Bits, want: bool, hint: nat, dir: nat)
    requires Valid(b) && HintBlock(b, want, hint) < |b.blocks|
    ensures var (found, i) := FindAny(b, want, hint, dir);
            var blk := HintBlock(b, want, hint);
            && (found ==> i < b.size && Has(b, i) == want && i / 32 == blk)
            && (found <==> !NoneIn(b, want, blk))
            && (!found ==> i / 32 == Move(|b.blocks|, blk, IsBackward(dir)) && Off(i) == Off(hint))
  {
    var (found, i) := FindAny(b, want, hint, dir);
    var blk := HintBlock(b, want, hint);
    var w := Candidates(b, want, blk);
    if w != 0 {
      ScanHits(Off(hint), w, dir);
      var j := ScanBlock(Off(hint), w, dir);
      CandidateBit(b, want, blk, j);
      PositionBack(blk, j);
    } else {
      PositionBack(Move(|b.blocks|, blk, IsBackward(dir)), Off(hint));
      forall k: nat | k < b.size && k / 32 == blk
        ensures Has(b, k) == !want
      {
        Position(k);
        CandidateBit(b, want, blk, Off(k));
        BitOps(w, w, Off(k), Off(k));
      }
    }
  }

  lemma ScanHits(off: bv5, w: bv32, dir: nat)
    requires w != 0
    ensures Bit(w, ScanBlock(off, w, dir))
  {
    hide Bit, RotateRight, NoneAbove, NoneBelow;
    var off' := if IsReverse(dir) then off + 31 else off;
    RotateKeepsNonzero(w, off');
    var rotated := RotateRight(w, off');
    EndPositions(rotated);
    var k := if IsReverse(dir) then ScanReverse(rotated, 31) else ScanForward(rotated, 0);
    RotateBit(w, off', k);
    assert Bit(rotated, k);
  }

  /** The forward scan returns the cyclically first candidate at or after the hint. */
  lemma ForwardIsFirst(off: bv5, w: bv32, dir: nat, k: bv5)
    requires w != 0 && !IsReverse(dir) && k < ScanBlock(off, w, dir) - off
    ensures !Bit(w, off + k)
  {
    hide Bit, RotateRight, NoneBelow;
    RotateKeepsNonzero(w, off);
    var rotated := RotateRight(w, off);
    EndPositions(rotated);
    var low := ScanForward(rotated, 0);
    assert k < low;
    NoneBelowBit(rotated, low, k);
    RotateBit(w, off, k);
  }

  /**
   The reverse scan goes downwards, but starts two positions below the hint: rotating by
   `offset - 1` leaves bit `offset - 2` on top.
   */
  lemma ReverseIsFirst(off: bv5, w: bv32, dir: nat, k: bv5)
    requires w != 0 && IsReverse(dir) && k < (off - 2) - ScanBlock(off, w, dir)
    ensures !Bit(w, (off - 2) - k)
  {
    hide Bit, RotateRight, NoneAbove;
    RotateKeepsNonzero(w, off + 31);
    var rotated := RotateRight(w, off + 31);
    EndPositions(rotated);
    var top := ScanReverse(rotated, 31);
    assert top < 31 - k by {
      ReverseDistances(off, top, k);
    }
    NoneAboveBit(rotated, top, 31 - k);
    ReversePoint(w, off, k);
  }

  /** `j` is the first set bit that a downward scan from `off` itself would meet. */
  ghost predicate FirstBelow(w: bv32, off: bv5, j: bv5) {
    Bit(w, j) && forall i: bv5 :: off - i < off - j ==> !Bit(w, i)
  }

  ghost predicate OnlyAtHint(w: bv32, off: bv5) {
    forall i: bv5 :: i != off && i != off - 1 ==> !Bit(w, i)
  }

  lemma Downwards(off: bv5, j: bv5, i: bv5)
    ensures (off - 2) - ((off - 2) - i) == i
    ensures i != off && i != off - 1 && off - i < off - j ==> (off - 2) - i < (off - 2) - j || j == off || j == off - 1
    ensures i != off && i != off - 1 && (j == off || j == off - 1) ==> (off - 2) - i < (off - 2) - j
    ensures j == off || (j == off - 1 && off - i < off - j) ==> off - i < off - j ==> i == off && (off - 2) - i < (off - 2) - j
    ensures j != off && j != off - 1 ==> off - off < off - j && off - (off - 1) < off - j
  {
  }

  /**
   The reverse scan returns the first candidate at or below the hint exactly if no candidate is at the hint or
   one below it, or none is elsewhere.
   */
  lemma ReverseAsNamed(off: bv5, w: bv32, dir: nat)
    requires w != 0 && IsReverse(dir)
    ensures FirstBelow(w, off, ScanBlock(off, w, dir)) <==> (!Bit(w, off) && !Bit(w, off - 1)) || OnlyAtHint(w, off)
  {
    hide Bit, ScanBlock;
    var j := ScanBlock(off, w, dir);
    ScanHits(off, w, dir);
    if j == off || j == off - 1 {
      ReverseAtHint(off, w, dir, j);
    } else {
      ReverseElsewhere(off, w, dir, j);
    }
  }

  lemma ReverseAtHint(off: bv5, w: bv32, dir: nat, j: bv5)
    requires w != 0 && IsReverse(dir) && j == ScanBlock(off, w, dir) && Bit(w, j) && (j == off || j == off - 1)
    ensures FirstBelow(w, off, j) && OnlyAtHint(w, off)
  {
    hide Bit, ScanBlock;
    forall i: bv5
      ensures (i != off && i != off - 1) || off - i < off - j ==> !Bit(w, i)
    {
      Downwards(off, j, i);
      if (i != off && i != off - 1) || off - i < off - j {
        ReverseIsFirst(off, w, dir, (off - 2) - i);
      }
    }
  }

  lemma ReverseElsewhere(off: bv5, w: bv32, dir: nat, j: bv5)
    requires w != 0 && IsReverse(dir) && j == ScanBlock(off, w, dir) && Bit(w, j) && j != off && j != off - 1
    ensures FirstBelow(w, off, j) <==> !Bit(w, off) && !Bit(w, off - 1)
  {
    hide Bit, ScanBlock;
    Downwards(off, j, off);
    forall i: bv5
      ensures i != off && i != off - 1 && off - i < off - j ==> !Bit(w, i)
    {
      Downwards(off, j, i);
      if i != off && i != off - 1 && off - i < off - j {
        ReverseIsFirst(off, w, dir, (off - 2) - i);
      }
    }
  }

  /** With bits 5 and 0 set, the reverse scan from 5 returns 0. */
  lemma ReverseSkipsHint()
    ensures ScanBlock(5, 0x21, 1) == 0 && Bit(0x21, 5) && !FirstBelow(0x21, 5, 0)
  {
    assert Bit(0x21, 5);
  }

  /** The `k`-th position that a scan from offset `off` looks at. */
  function Looked(off: bv5, dir: nat, k: bv5): bv5 {
    if IsReverse(dir) then (off - 2) - k else off + k
  }

  /** How many positions it looks at before position `j`. */
  function Steps(off: bv5, dir: nat, j: bv5): bv5 {
    if IsReverse(dir) then (off - 2) - j else j - off
  }

  lemma ScanIsFirst(off: bv5, w: bv32, dir: nat, k: bv5)
    requires w != 0
    ensures k < Steps(off, dir, ScanBlock(off, w, dir)) ==> !Bit(w, Looked(off, dir, k))
  {
    hide Bit, ScanBlock;
    if k < Steps(off, dir, ScanBlock(off, w, dir)) {
      if IsReverse(dir) {
        ReverseIsFirst(off, w, dir, k);
      } else {
        ForwardIsFirst(off, w, dir, k);
      }
    }
  }

  /** In index terms: no index that the scan looks at before the one it returns has the wanted value. */
  lemma FoundIsFirst(b: Bits, want: bool, hint: nat, dir: nat, k: bv5)
    requires Valid(b) && HintBlock(b, want, hint) < |b.blocks| && FindAny(b, want, hint, dir).0
    ensures var i, p := FindAny(b, want, hint, dir).1, At(HintBlock(b, want, hint), Looked(Off(hint), dir, k));
            k < Steps(Off(hint), dir, Off(i)) && p < b.size ==> Has(b, p) == !want
  {
    hide Bit, Off, At, Candidates, ScanBlock, Valid, Has, Looked, Steps;
    var blk := HintBlock(b, want, hint);
    var w := Candidates(b, want, blk);
    PositionBack(blk, ScanBlock(Off(hint), w, dir));
    ScanIsFirst(Off(hint), w, dir, k);
    CandidateBit(b, want, blk, Looked(Off(hint), dir, k));
  }

  lemma ReversePoint(w: bv32, off: bv5, k: bv5)
    ensures Bit(RotateRight(w, off + 31), 31 - k) == Bit(w, (off - 2) - k)
  {
    hide Bit, RotateRight;
    RotateBit(w, off + 31, 31 - k);
    ReverseDistances(off, 0, k);
  }

  lemma ReverseDistances(off: bv5, top: bv5, k: bv5)
    ensures (off - 2) - (top + (off + 31)) == 31 - top
    ensures (31 - k) + (off + 31) == (off - 2) - k
    ensures k < 31 - top ==> top < 31 - k
  {
  }

  // ---------------------------------------------------------------- sweeping over all blocks

  /** The block that a search now at `blk` was looking at `k` moves ago. */
  function Behind(n: nat, blk: nat, backward: bool, k: nat): (m: nat)
    requires blk < n
    ensures m < n
    decreases k
  {
    if k == 0 then blk else Behind(n, Move(n, blk, !backward), backward, k - 1)
  }

  lemma BehindClosed(n: nat, blk: nat, backward: bool, k: nat)
    requires blk < n && k <= n
    ensures !backward ==> Behind(n, blk, backward, k) == if k <= blk then blk - k else blk - k + n
    ensures backward ==> Behind(n, blk, backward, k) == if blk + k < n then blk + k else blk + k - n
    decreases k
  {
    if k != 0 {
      BehindClosed(n, Move(n, blk, !backward), backward, k - 1);
    }
  }

  /** Any `n` consecutive moves visit every block exactly once. */
  lemma SweepVisits(n: nat, blk: nat, backward: bool, target: nat)
    requires blk < n && target < n
    ensures exists k :: 1 <= k <= n && Behind(n, blk, backward, k) == target
    ensures forall k, l :: 1 <= k < l <= n ==> Behind(n, blk, backward, k) != Behind(n, blk, backward, l)
  {
    forall k: nat | k <= n
      ensures Behind(n, blk, backward, k) ==
              if backward then (if blk + k < n then blk + k else blk + k - n)
              else (if k <= blk then blk - k else blk - k + n)
    {
      BehindClosed(n, blk, backward, k);
    }
    var k := if backward then (if blk < target then target - blk else target + n - blk)
             else (if target < blk then blk - target else blk + n - target);
    assert Behind(n, blk, backward, k) == target;
  }

  /** The last `attempts` blocks moved over on the way to `blk` hold no wanted bit. */
  ghost predicate Swept(b: Bits, want: bool, blk: nat, backward: bool, attempts: nat)
    requires blk < |b.blocks|
  {
    forall k :: 1 <= k <= attempts ==> NoneIn(b, want, Behind(|b.blocks|, blk, backward, k))
  }

  /** One more unsuccessful search extends the swept run by one block. */
  lemma SweptExtends(b: Bits, want: bool, blk: nat, backward: bool, attempts: nat)
    requires blk < |b.blocks| && Swept(b, want, blk, backward, attempts) && NoneIn(b, want, blk)
    ensures Swept(b, want, Move(|b.blocks|, blk, backward), backward, attempts + 1)
  {
    var n := |b.blocks|;
    var next := Move(n, blk, backward);
    assert Move(n, next, !backward) == blk;
    forall k | 1 <= k <= attempts + 1
      ensures NoneIn(b, want, Behind(n, next, backward, k))
    {
      assert Behind(n, next, backward, k) == Behind(n, blk, backward, k - 1);
    }
  }

  /** After `max_hint()` unsuccessful searches in a row there is no wanted bit at all. */
  lemma SweepIsComplete(b: Bits, want: bool, blk: nat, backward: bool)
    requires Valid(b) && blk < |b.blocks|
    requires Swept(b, want, blk, backward, |b.blocks|)
    ensures forall i: nat :: i < b.size ==> Has(b, i) == !want
  {
    forall i: nat | i < b.size
      ensures Has(b, i) == !want
    {
      SweepVisits(|b.blocks|, blk, backward, i / 32);
      var k :| 1 <= k <= |b.blocks| && Behind(|b.blocks|, blk, backward, k) == i / 32;
      assert NoneIn(b, want, i / 32);
    }
  }

  // ---------------------------------------------------------------- counting

  /** The number of members below `i`. */
  ghost function CountBelow(b: Bits, i: nat): nat {
    if i == 0 then 0 else CountBelow(b, i - 1) + if Has(b, i - 1) then 1 else 0
  }

  lemma {:induction false} CountBelowIsSize(b: Bits, i: nat)
    ensures CountBelow(b, i) == |set k: nat | k < i && Has(b, k)|
    ensures i == 0 ==> CountBelow(b, i) == 0
  {
    hide Has;
    if i == 0 {
      assert (set k: nat | k < i && Has(b, k)) == {};
    } else {
      CountBelowIsSize(b, i - 1);
      var below := set k: nat | k < i - 1 && Has(b, k);
      assert (set k: nat | k < i && Has(b, k)) == if Has(b, i - 1) then below + {i - 1} else below;
    }
  }

  lemma {:induction false} CountAboveSize(b: Bits, i: nat)
    requires b.size <= i
    ensures CountBelow(b, i) == CountBelow(b, b.size)
  {
    if b.size < i {
      CountAboveSize(b, i - 1);
    }
  }

  /** `bit_count` of one word. */
  method CountBlock(b: Bits, blk: nat) returns (n: nat)
    requires Valid(b) && blk < |b.blocks|
    ensures CountBelow(b, blk * 32) + n == CountBelow(b, blk * 32 + 32)
  {
    hide Bit, Has, Valid;
    n := 0;
    for j := 0 to 32
      invariant CountBelow(b, blk * 32) + n == CountBelow(b, blk * 32 + j)
    {
      BitIsMember(b, blk, j);
      if Bit(b.blocks[blk], j as bv5) {
        n := n + 1;
      }
    }
  }

  /** `count()`: the number of set bits, summed word by word as `BitsetCount` does. */
  method Count(b: Bits) returns (n: nat)
    requires Valid(b)
    ensures n == |Members(b)|
  {
    hide Has, MaskRight, TailClear, CountBelow;
    n := 0;
    assert CountBelow(b, 0) == 0 by {
      CountBelowIsSize(b, 0);
    }
    for blk := 0 to |b.blocks|
      invariant n == CountBelow(b, blk * 32)
    {
      var k := CountBlock(b, blk);
      n := n + k;
    }
    CountAboveSize(b, |b.blocks| * 32);
    CountBelowIsSize(b, b.size);
    assert Members(b) == set k: nat | k < b.size && Has(b, k);
  }

  lemma AtOf(blk: nat, j: nat)
    requires j < 32
    ensures At(blk, j as bv5) == blk * 32 + j
  {
    assert (j as bv5) as nat == j;
  }

  lemma PastSize(b: Bits, blk: nat, j: bv5)
    requires Valid(b) && blk < |b.blocks|
    ensures At(blk, j) >= b.size ==> !Bit(b.blocks[blk], j)
  {
    hide Bit, At;
  }

  lemma BitIsMember(b: Bits, blk: nat, j: nat)
    requires Valid(b) && blk < |b.blocks| && j < 32
    ensures Has(b, blk * 32 + j) <==> Bit(b.blocks[blk], j as bv5)
  {
    hide Bit, Valid, Has, At;
    AtOf(blk, j);
    HasAt(b, blk, j as bv5);
    PastSize(b, blk, j as bv5);
  }

  // ---------------------------------------------------------------- construction

  /** The mask that the constructor's loop builds for `r` used bits in the last block. */
  function TailMaskOf(r: nat): bv32
    requires r < 32
  {
    if r == 0 then 0 else SetOne(TailMaskOf(r - 1), Off(r - 1))
  }

  lemma OffIs(i: nat, j: bv5)
    requires i < 32
    ensures Off(i) == j <==> j as nat == i
  {
    OffsetBack(j);
  }

  lemma {:induction false} TailMaskBit(r: nat, j: bv5)
    requires r < 32
    ensures Bit(TailMaskOf(r), j) <==> j as nat < r
  {
    hide Bit, SetOne, Off;
    if r == 0 {
      BitOps(0, 0, j, j);
    } else {
      TailMaskBit(r - 1, j);
      OffIs(r - 1, j);
      BitOps(TailMaskOf(r - 1), 0, Off(r - 1), j);
    }
  }

  /** A bitset of `n` clear bits. */
  function NewBits(n: nat): Bits {
    Bits(n, TailMaskOf(n % 32), seq((n + 31) / 32, _ => 0))
  }

  lemma NewBitsAreClear(n: nat)
    requires n <= MAX_SIZE
    ensures Valid(NewBits(n)) && Members(NewBits(n)) == {}
    ensures forall i: nat :: !Has(NewBits(n), i)
  {
    hide Bit, TailMaskOf;
    var b := NewBits(n);
    forall j: bv5
      ensures Bit(b.lastMask, j) <==> j as nat < n % 32
      ensures !Bit(0, j)
    {
      TailMaskBit(n % 32, j);
      BitOps(0, 0, j, j);
    }
  }

  // ---------------------------------------------------------------- the object

  /** All bits below the size, and no others. */
  function AllBits(b: Bits): Bits {
    var ones := seq(|b.blocks|, k => 0xFFFF_FFFF);
    b.(blocks := if b.lastMask != 0 && |b.blocks| > 0 then ones[|b.blocks| - 1 := b.lastMask] else ones)
  }

  lemma AllBitsSet(b: Bits)
    requires Valid(b)
    ensures Valid(AllBits(b)) && forall i: nat :: Has(AllBits(b), i) <==> i < b.size
  {
    hide Bit, Off, At, Has, MaskRight;
    var r := AllBits(b);
    TailMask(b);
    forall blk: nat, j: bv5 | blk < |r.blocks|
      ensures Bit(r.blocks[blk], j) <==> At(blk, j) < b.size
    {
      BitOps(0, 0, j, j);
      TailRange(b, blk, j);
    }
    assert MaskRight(r) by {
      SameMask(b, r);
    }
    forall i: nat
      ensures Has(r, i) <==> i < b.size
    {
      Position(i);
      if i < b.size {
        HasAt(r, i / 32, Off(i));
      } else {
        HasInRange(r, i);
      }
    }
  }

  lemma SameMask(b: Bits, r: Bits)
    requires MaskRight(b) && r.size == b.size && r.lastMask == b.lastMask
    ensures MaskRight(r)
  {
  }

  lemma HasInRange(b: Bits, i: nat)
    ensures Has(b, i) ==> i < b.size
  {
  }

  class Bitset {
    const size: nat
    var lastMask: bv32
    const blocks: array<bv32>

    ghost function Value(): Bits
      reads this, blocks
    {
      Bits(size, lastMask, blocks[..])
    }

    /** The number of blocks is computed in 32 bits: a size within 31 of 2^32 gets no block at all. */
    constructor (n: nat)
      requires n < 0x1_0000_0000
      ensures Value() == if n <= MAX_SIZE then NewBits(n) else Bits(n, TailMaskOf(n % 32), [])
      ensures n <= MAX_SIZE ==> Valid(Value()) && Members(Value()) == {}
      ensures fresh(blocks)
    {
      size := n;
      var mask: bv32 := 0;
      for i := 0 to n % 32
        invariant mask == TailMaskOf(i)
      {
        mask := SetOne(mask, Off(i));
      }
      lastMask := mask;
      blocks := new bv32[((n + 31) % 0x1_0000_0000) / 32](_ => 0);
      new;
      if n <= MAX_SIZE {
        NewBitsAreClear(n);
        assert blocks[..] == NewBits(n).blocks;
      }
    }

    /** `set(i)`: adds `i`, and reports whether this call added it. */
    method Set(i: nat) returns (added: bool)
      requires Valid(Value())
      modifies blocks
      ensures (Value(), added) == SetBit(old(Value()), i) && Valid(Value())
      ensures Members(Value()) == if i < size then old(Members(Value())) + {i} else old(Members(Value()))
      ensures added <==> i < size && i !in old(Members(Value()))
    {
      hide SetOne, TestOne, Bit, MaskRight, TailClear, Off;
      ghost var b := Value();
      if i < size {
        SetBitAdds(b, i);
        var was := blocks[i / 32];
        added := !TestOne(was, Off(i));
        blocks[i / 32] := SetOne(was, Off(i));
        assert blocks[..] == b.blocks[i / 32 := SetOne(was, Off(i))];
      } else {
        added := false;
      }
    }

    /** `reset(i)`: removes `i`, and reports whether this call removed it. */
    method Reset(i: nat) returns (removed: bool)
      requires Valid(Value())
      modifies blocks
      ensures (Value(), removed) == ResetBit(old(Value()), i) && Valid(Value())
      ensures Members(Value()) == old(Members(Value())) - {i}
      ensures removed <==> i in old(Members(Value()))
    {
      hide ClearOne, TestOne, Bit, MaskRight, TailClear, Off;
      ghost var b := Value();
      if i < size {
        ResetBitRemoves(b, i);
        var was := blocks[i / 32];
        removed := TestOne(was, Off(i));
        blocks[i / 32] := ClearOne(was, Off(i));
        assert blocks[..] == b.blocks[i / 32 := ClearOne(was, Off(i))];
      } else {
        removed := false;
      }
    }

    method Test(i: nat) returns (present: bool)
      requires Valid(Value())
      ensures present <==> i in Members(Value())
    {
      hide Bit, TestOne, Off, MaskRight, TailClear;
      if i < size {
        BitOps(blocks[i / 32], 0, Off(i), Off(i));
        present := TestOne(blocks[i / 32], Off(i));
      } else {
        present := false;
      }
    }

    /** `set()`: all bits below the size; those beyond it stay zero. */
    method SetAll()
      requires Valid(Value())
      modifies blocks
      ensures Value() == AllBits(old(Value())) && Valid(Value())
      ensures forall i: nat :: i in Members(Value()) <==> i < size
    {
      hide Bit, MaskRight, TailClear, Has;
      ghost var b := Value();
      AllBitsSet(b);
      for k := 0 to blocks.Length
        invariant lastMask == b.lastMask && forall l: nat :: l < k ==> blocks[l] == 0xFFFF_FFFF
      {
        blocks[k] := 0xFFFF_FFFF;
      }
      if lastMask != 0 && blocks.Length > 0 {
        blocks[blocks.Length - 1] := lastMask;
      }
      assert blocks[..] == AllBits(b).blocks;
    }

    /** `reset()` and `clear()`. */
    method Clear()
      requires Valid(Value())
      modifies blocks
      ensures Valid(Value()) && Members(Value()) == {}
    {
      hide Bit, Off, At, MaskRight;
      ghost var b := Value();
      for k := 0 to blocks.Length
        invariant lastMask == b.lastMask && forall l: nat :: l < k ==> blocks[l] == 0
      {
        blocks[k] := 0;
      }
      SameMask(b, Value());
      forall j: bv5
        ensures !Bit(0, j)
      {
        BitOps(0, 0, j, j);
      }
    }
  }
}
