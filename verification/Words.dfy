/**
 Bit-level facts about 32-bit words: single-bit masks, rotation, and the two bit scans that
 `Kokkos::Bitset` is built on. A position inside a word is a 5-bit vector, so that position
 arithmetic wraps around the word exactly as `& block_mask` does.
 */
module Words {

  /** The word whose only set bit is `j`. */
  function Mask(j: bv5): bv32 {
    1 << j
  }

  /** Bit `j` of `w`. */
  predicate Bit(w: bv32, j: bv5) {
    (w >> j) & 1 == 1
  }

  /** The value `atomic_fetch_or` leaves for the mask of bit `i`. */
  function SetOne(w: bv32, i: bv5): bv32 {
    w | Mask(i)
  }

  /** The value `atomic_fetch_and` leaves for the complemented mask of bit `i`. */
  function ClearOne(w: bv32, i: bv5): bv32 {
    w & !Mask(i)
  }

  /** `w & (1u << i)` as a truth value. */
  predicate TestOne(w: bv32, i: bv5) {
    w & Mask(i) != 0
  }

  function Complement(w: bv32): bv32 {
    !w
  }

  function Intersect(w: bv32, v: bv32): bv32 {
    w & v
  }

  /** How the word operations act on single bits. */
  lemma BitOps(w: bv32, v: bv32, i: bv5, j: bv5)
    ensures Bit(SetOne(w, i), j) <==> Bit(w, j) || i == j
    ensures Bit(ClearOne(w, i), j) <==> Bit(w, j) && i != j
    ensures TestOne(w, j) == Bit(w, j)
    ensures Bit(Complement(w), j) == !Bit(w, j)
    ensures Bit(Intersect(w, v), j) == (Bit(w, j) && Bit(v, j))
    ensures !Bit(0, j) && Bit(0xFFFF_FFFF, j)
  {
    hide Bit, SetOne, ClearOne, TestOne, Complement, Intersect;
    SetOneBit(w, i, j);
    ClearOneBit(w, i, j);
    PlainBit(w, v, j);
  }

  lemma PlainBit(w: bv32, v: bv32, j: bv5)
    ensures TestOne(w, j) == Bit(w, j)
    ensures Bit(Complement(w), j) == !Bit(w, j)
    ensures Bit(Intersect(w, v), j) == (Bit(w, j) && Bit(v, j))
    ensures !Bit(0, j) && Bit(0xFFFF_FFFF, j)
  {
  }

  lemma SetOneBit(w: bv32, i: bv5, j: bv5)
    ensures Bit(SetOne(w, i), j) <==> Bit(w, j) || i == j
  {
  }

  lemma ClearOneBit(w: bv32, i: bv5, j: bv5)
    ensures Bit(ClearOne(w, i), j) <==> Bit(w, j) && i != j
  {
  }

  lemma SameBitWord(w: bv32, i: bv5)
    ensures Bit(w, i) ==> SetOne(w, i) == w
    ensures !Bit(w, i) ==> ClearOne(w, i) == w
  {
  }

  /** `rotate_right`: the shift by the full width is avoided, since C++ leaves it undefined. */
  function RotateRight(w: bv32, r: bv5): bv32 {
    if r == 0 then w else (w >> r) | (w << (32 - r as bv6))
  }

  lemma RotateNonzero(w: bv32, r: bv5, j: bv5)
    requires r != 0
    ensures Bit((w >> r) | (w << (32 - r as bv6)), j) == Bit(w, j + r)
  {
    assert (((w >> r) | (w << (32 - r as bv6))) >> j) & 1 == (w >> (j + r)) & 1;
  }

  /** Rotating right by `r` brings bit `j + r` (mod 32) to position `j`. */
  lemma RotateBit(w: bv32, r: bv5, j: bv5)
    ensures Bit(RotateRight(w, r), j) == Bit(w, j + r)
  {
    if r != 0 {
      RotateNonzero(w, r, j);
    }
  }

  lemma RotateKeepsNonzero(w: bv32, r: bv5)
    ensures RotateRight(w, r) == 0 <==> w == 0
  {
  }

  /** No bit of `w` below position `j` is set. */
  predicate NoneBelow(w: bv32, j: bv5) {
    w & (Mask(j) - 1) == 0
  }

  lemma NoneBelowBit(w: bv32, j: bv5, i: bv5)
    requires NoneBelow(w, j) && i < j
    ensures !Bit(w, i)
  {
  }

  lemma Successor(j: bv5)
    requires j < 31
    ensures j as nat < (j + 1) as nat < 32
  {
  }

  lemma ForwardStep(w: bv32, j: bv5)
    requires w != 0 && NoneBelow(w, j) && !Bit(w, j)
    ensures j < 31 && NoneBelow(w, j + 1)
  {
  }

  /** `bit_scan_forward`, started at a position `j` with no set bit below it: the lowest set bit. */
  function ScanForward(w: bv32, j: bv5): (k: bv5)
    requires w != 0 && NoneBelow(w, j)
    ensures Bit(w, k) && NoneBelow(w, k)
    decreases 32 - j as nat
  {
    if Bit(w, j) then j else
      ForwardStep(w, j);
      Successor(j);
      ScanForward(w, j + 1)
  }

  /** No bit of `w` above position `j` is set. */
  predicate NoneAbove(w: bv32, j: bv5) {
    w >> j == 0 || w >> j == 1
  }

  lemma EndPositions(w: bv32)
    ensures NoneBelow(w, 0) && NoneAbove(w, 31)
  {
  }

  lemma NoneAboveBit(w: bv32, j: bv5, i: bv5)
    requires NoneAbove(w, j) && j < i
    ensures !Bit(w, i)
  {
  }

  lemma Predecessor(j: bv5)
    requires 0 < j
    ensures (j - 1) as nat < j as nat
  {
  }

  lemma ReverseStep(w: bv32, j: bv5)
    requires w != 0 && NoneAbove(w, j) && !Bit(w, j)
    ensures 0 < j && NoneAbove(w, j - 1)
  {
  }

  /** `log2`, started at a position `j` with no set bit above it: the highest set bit. */
  function ScanReverse(w: bv32, j: bv5): (k: bv5)
    requires w != 0 && NoneAbove(w, j)
    ensures Bit(w, k) && NoneAbove(w, k)
    decreases j as nat
  {
    if Bit(w, j) then j else
      ReverseStep(w, j);
      Predecessor(j);
      ScanReverse(w, j - 1)
  }

  /** A word without set bits is zero. */
  lemma ZeroWord(w: bv32)
    ensures w == 0 <==> forall j: bv5 :: !Bit(w, j)
  {
    hide Bit;
    if w != 0 {
      var j := ScanForward(w, 0);
    } else {
      forall j: bv5
        ensures !Bit(w, j)
      {
        BitOps(w, w, j, j);
      }
    }
  }
}
