/**
 The xorshift64* generator: the step on 64-bit states, its output, and the numbers that words stand for.
 */
module Xorshift {
  import opened Counting

  // ---------------------------------------------------------------- the step

  /** The three xor-shift stages of a step. */
  datatype Stage = Right12 | Left25 | Right27

  function Shift(g: Stage, x: bv64): bv64 {
    match g
    case Right12 => x >> 12
    case Left25 => x << 25
    case Right27 => x >> 27
  }

  function Xor(x: bv64, y: bv64): bv64 {
    x ^ y
  }

  function Mix(g: Stage, x: bv64): bv64 {
    Xor(x, Shift(g, x))
  }

  /** One step of the state. */
  function Next(s: bv64): bv64 {
    Mix(Right27, Mix(Left25, Mix(Right12, s)))
  }

  /** `x` shifted `k` times. */
  function Shifted(g: Stage, x: bv64, k: nat): bv64
    decreases k
  {
    if k == 0 then x else Shifted(g, Shift(g, x), k - 1)
  }

  /** The exclusive or of `x` and its first `k - 1` shifts. */
  function Series(g: Stage, x: bv64, k: nat): bv64
    decreases k
  {
    if k == 0 then 0 else Xor(x, Series(g, Shift(g, x), k - 1))
  }

  /** Six shifts push out all 64 bits, so that six terms undo a stage. */
  function Unmix(g: Stage, x: bv64): bv64 {
    Series(g, x, 6)
  }

  function Previous(s: bv64): bv64 {
    Unmix(Right12, Unmix(Left25, Unmix(Right27, s)))
  }

  lemma ShiftXor(g: Stage, x: bv64, y: bv64)
    ensures Shift(g, Xor(x, y)) == Xor(Shift(g, x), Shift(g, y))
  {
    match g
    case Right12 =>
    case Left25 =>
    case Right27 =>
  }

  lemma XorLaws(x: bv64, y: bv64, z: bv64)
    ensures Xor(Xor(x, y), Xor(y, z)) == Xor(x, z)
    ensures Xor(x, 0) == x
  {
  }

  lemma XorAssociates(x: bv64, y: bv64, z: bv64)
    ensures Xor(Xor(x, y), z) == Xor(x, Xor(y, z))
  {
  }

  lemma XorCommutes(x: bv64, y: bv64)
    ensures Xor(x, y) == Xor(y, x)
  {
  }

  lemma XorSwap(a: bv64, b: bv64, c: bv64, d: bv64)
    ensures Xor(Xor(a, b), Xor(c, d)) == Xor(Xor(a, c), Xor(b, d))
  {
    hide Xor;
    XorAssociates(a, b, Xor(c, d));
    XorAssociates(b, c, d);
    XorCommutes(b, c);
    XorAssociates(c, b, d);
    XorAssociates(a, c, Xor(b, d));
  }

  lemma Vanishes(g: Stage, x: bv64)
    ensures Shifted(g, x, 6) == 0
  {
    hide Shift;
    var three := Shift(g, Shift(g, Shift(g, x)));
    assert Shifted(g, x, 6) == Shifted(g, three, 3);
    assert Shifted(g, three, 3) == Shift(g, Shift(g, Shift(g, three)));
    VanishesSix(g, x);
  }

  lemma VanishesSix(g: Stage, x: bv64)
    ensures Shift(g, Shift(g, Shift(g, Shift(g, Shift(g, Shift(g, x)))))) == 0
  {
    match g
    case Right12 =>
    case Left25 =>
    case Right27 =>
  }

  lemma {:induction false} SeriesOfMix(g: Stage, x: bv64, k: nat)
    ensures Series(g, Mix(g, x), k) == Xor(x, Shifted(g, x, k))
    decreases k
  {
    hide Shift, Xor;
    if k == 0 {
      SameVanishes(x);
    } else {
      var y := Shift(g, x);
      ShiftXor(g, x, y);
      SeriesOfMix(g, y, k - 1);
      XorLaws(x, y, Shifted(g, y, k - 1));
    }
  }

  lemma SameVanishes(x: bv64)
    ensures Xor(x, x) == 0
  {
  }

  lemma NoneShifts(g: Stage)
    ensures Mix(g, 0) == 0
  {
  }

  lemma {:induction false} MixOfSeries(g: Stage, x: bv64, k: nat)
    ensures Mix(g, Series(g, x, k)) == Xor(x, Shifted(g, x, k))
    decreases k
  {
    hide Shift, Xor;
    if k == 0 {
      SameVanishes(x);
      NoneShifts(g);
    } else {
      var y := Shift(g, x);
      var rest := Series(g, y, k - 1);
      MixOfSeries(g, y, k - 1);
      ShiftXor(g, x, rest);
      XorSwap(x, rest, y, Shift(g, rest));
      XorLaws(x, y, Shifted(g, y, k - 1));
    }
  }

  lemma StageIsBijective(g: Stage, x: bv64)
    ensures Unmix(g, Mix(g, x)) == x && Mix(g, Unmix(g, x)) == x
  {
    hide Shift, Xor, Mix, Shifted, Series;
    SeriesOfMix(g, x, 6);
    MixOfSeries(g, x, 6);
    Vanishes(g, x);
    XorLaws(x, 0, 0);
  }

  /** The step is a bijection. */
  lemma StepIsBijective(s: bv64)
    ensures Previous(Next(s)) == s && Next(Previous(s)) == s
  {
    hide Mix, Unmix;
    StageIsBijective(Right12, s);
    StageIsBijective(Left25, Mix(Right12, s));
    StageIsBijective(Right27, Mix(Left25, Mix(Right12, s)));
    StageIsBijective(Right27, s);
    StageIsBijective(Left25, Unmix(Right27, s));
    StageIsBijective(Right12, Unmix(Left25, Unmix(Right27, s)));
  }

  /** The step keeps nonzero states nonzero. */
  lemma NonzeroStays(s: bv64)
    ensures Next(s) == 0 <==> s == 0
  {
    hide Mix, Previous;
    StepIsBijective(s);
    StepIsBijective(0);
    NoneShifts(Right12);
    NoneShifts(Left25);
    NoneShifts(Right27);
  }

  // ---------------------------------------------------------------- words as numbers

  const WORDS64: nat := 0x1_0000_0000_0000_0000
  const TOP: bv64 := 0xFFFF_FFFF_FFFF_FFFF

  function Odd(x: bv64): bool { x & 1 == 1 }
  function Half(x: bv64): bv64 { x >> 1 }
  function Plus1(x: bv64): bv64 { x + 1 }

  /** The number that the low `k` bits of a word stand for. */
  function Low(x: bv64, k: nat): (n: nat)
    ensures n < Power2(k)
    decreases k
  {
    if k == 0 then 0 else 2 * Low(Half(x), k - 1) + if Odd(x) then 1 else 0
  }

  /** The number a word stands for. */
  function Value(x: bv64): nat {
    Low(x, 64)
  }

  function Halved(x: bv64, k: nat): bv64
    decreases k
  {
    if k == 0 then x else Halved(Half(x), k - 1)
  }

  lemma {:induction false} HalvedAdd(x: bv64, j: nat, k: nat)
    ensures Halved(x, j + k) == Halved(Halved(x, j), k)
    decreases j
  {
    if j > 0 {
      HalvedAdd(Half(x), j - 1, k);
    }
  }

  function Byte(x: bv64): bv64 { x >> 8 }

  lemma Halved8(x: bv64)
    ensures Halved(x, 8) == Byte(x)
  {
    assert Halved(x, 8) == Half(Half(Half(Half(Half(Half(Half(Half(x))))))));
  }

  lemma BytesGone(x: bv64)
    ensures Byte(Byte(Byte(Byte(Byte(Byte(Byte(Byte(x)))))))) == 0
  {
  }

  lemma HalvedAway(x: bv64)
    ensures Halved(x, 64) == 0
  {
    hide Halved, Byte;
    HalvedBytes(x, 8);
    assert Bytes(x, 8) == Bytes(Byte(Byte(Byte(Byte(x)))), 4);
    BytesGone(x);
  }

  function Bytes(x: bv64, k: nat): bv64
    decreases k
  {
    if k == 0 then x else Bytes(Byte(x), k - 1)
  }

  lemma {:induction false} HalvedBytes(x: bv64, k: nat)
    ensures Halved(x, 8 * k) == Bytes(x, k)
    decreases k
  {
    hide Halved, Byte;
    if k == 0 {
      NoHalving(x);
    } else {
      HalvedAdd(x, 8, 8 * (k - 1));
      Halved8(x);
      HalvedBytes(Byte(x), k - 1);
    }
  }

  lemma NoHalving(x: bv64)
    ensures Halved(x, 0) == x
  {
  }

  lemma HalfAndBit(x: bv64, y: bv64)
    requires Half(x) == Half(y) && Odd(x) == Odd(y)
    ensures x == y
  {
  }

  lemma {:induction false} LowDetermines(x: bv64, y: bv64, k: nat)
    requires Low(x, k) == Low(y, k) && Halved(x, k) == Halved(y, k)
    ensures x == y
    decreases k
  {
    hide Half, Odd;
    if k > 0 {
      LowDetermines(Half(x), Half(y), k - 1);
      HalfAndBit(x, y);
    }
  }

  /** Different words stand for different numbers. */
  lemma ValueIsInjective(x: bv64, y: bv64)
    requires Value(x) == Value(y)
    ensures x == y
  {
    hide Halved, Low;
    HalvedAway(x);
    HalvedAway(y);
    LowDetermines(x, y, 64);
  }

  lemma Carry(x: bv64)
    ensures !Odd(x) ==> Odd(Plus1(x)) && Half(Plus1(x)) == Half(x)
    ensures Odd(x) && x != TOP ==> !Odd(Plus1(x)) && Half(Plus1(x)) == Plus1(Half(x)) && Half(x) != TOP
  {
  }

  lemma {:induction false} LowPlus1(x: bv64, k: nat)
    requires Low(x, k) < Power2(k) - 1 && x != TOP
    ensures Low(Plus1(x), k) == Low(x, k) + 1
    decreases k
  {
    hide Odd, Half, Plus1;
    Carry(x);
    if Odd(x) {
      LowPlus1(Half(x), k - 1);
    }
  }

  lemma {:induction false} PowerAdd(j: nat, k: nat)
    ensures Power2(j + k) == Power2(j) * Power2(k)
  {
    if j > 0 {
      PowerAdd(j - 1, k);
    }
  }

  lemma PowerIs64()
    ensures Power2(64) == WORDS64
  {
    assert Power2(8) == 256;
    PowerAdd(8, 8);
    PowerAdd(16, 16);
    PowerAdd(32, 32);
  }

  lemma {:induction false} LowOnes(x: bv64, k: nat)
    requires forall j: nat :: j < k ==> Odd(Halved(x, j))
    ensures Low(x, k) == Power2(k) - 1
    decreases k
  {
    hide Odd, Half;
    if k > 0 {
      assert Odd(Halved(x, 0));
      forall j: nat | j < k - 1
        ensures Odd(Halved(Half(x), j))
      {
        assert Odd(Halved(x, j + 1));
      }
      LowOnes(Half(x), k - 1);
    }
  }

  function LowByte(x: bv64): bv64 { x & 0xFF }

  lemma {:induction false} ByteOnes(x: bv64, r: nat)
    requires r < 8 && LowByte(x) == 0xFF
    ensures Odd(Halved(x, r))
  {
    if r < 4 {
      FirstOnes(x);
    } else {
      HalvedAdd(x, 4, r - 4);
      FirstOnes(x);
      FirstOnes(Halved(x, 4));
    }
  }

  lemma FirstOnes(x: bv64)
    ensures Halved(x, 0) == x && Halved(x, 1) == Half(x)
    ensures Halved(x, 2) == Half(Half(x)) && Halved(x, 3) == Half(Half(Half(x)))
    ensures Halved(x, 4) == Half(Half(Half(Half(x))))
  {
  }

  lemma BytesOfTop(q: nat)
    requires q < 8
    ensures LowByte(Bytes(TOP, q)) == 0xFF
  {
    assert Bytes(TOP, 0) == TOP;
    assert Bytes(TOP, 1) == 0x00FF_FFFF_FFFF_FFFF;
    assert Bytes(TOP, 2) == 0x0000_FFFF_FFFF_FFFF;
    assert Bytes(TOP, 3) == 0x0000_00FF_FFFF_FFFF;
    assert Bytes(TOP, 4) == 0x0000_0000_FFFF_FFFF;
    assert Bytes(TOP, 5) == 0x0000_0000_00FF_FFFF;
    assert Bytes(TOP, 6) == 0x0000_0000_0000_FFFF;
    assert Bytes(TOP, 7) == 0x0000_0000_0000_00FF;
  }

  /** The word of all ones stands for the largest number. */
  lemma TopIsLargest()
    ensures Value(TOP) == WORDS64 - 1
  {
    hide Odd, Half, Halved, LowByte;
    forall j: nat | j < 64
      ensures Odd(Halved(TOP, j))
    {
      var q, r := j / 8, j % 8;
      HalvedBytes(TOP, q);
      HalvedAdd(TOP, 8 * q, r);
      BytesOfTop(q);
      ByteOnes(Bytes(TOP, q), r);
    }
    LowOnes(TOP, 64);
    PowerIs64();
  }

  /** The word that stands for `n`. */
  ghost function Word(n: nat): bv64 {
    if n == 0 then 0 else Plus1(Word(n - 1))
  }

  lemma {:induction false} LowOfZero(k: nat)
    ensures Low(0, k) == 0
  {
    if k > 0 {
      LowOfZero(k - 1);
    }
  }

  lemma {:induction false} ValueOfWord(n: nat)
    requires n < WORDS64
    ensures Value(Word(n)) == n
  {
    hide Plus1, Low;
    if n == 0 {
      LowOfZero(64);
    } else {
      ValueOfWord(n - 1);
      TopIsLargest();
      PowerIs64();
      LowPlus1(Word(n - 1), 64);
    }
  }

  /** Words and the numbers below 2^64 correspond one to one. */
  lemma WordOfValue(x: bv64)
    ensures Value(x) < WORDS64 && Word(Value(x)) == x
  {
    hide Low, Word;
    PowerIs64();
    ValueOfWord(Value(x));
    ValueIsInjective(Word(Value(x)), x);
  }
}
