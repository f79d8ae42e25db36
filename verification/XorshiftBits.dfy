/** The xorshift step and the draws bit by bit, number by number, and at concrete states. */
module XorshiftBits {
  import opened Xorshift
  import opened Random

  /** Bit `j` of a state. */
  predicate BitAt(x: bv64, j: bv6) {
    (x >> j) & 1 == 1
  }

  lemma XorBit(x: bv64, y: bv64, j: bv6)
    ensures BitAt(x ^ y, j) == (BitAt(x, j) != BitAt(y, j))
  {
  }

  lemma Right12Bit(x: bv64, j: bv6)
    ensures BitAt(x >> 12, j) == (j < 52 && BitAt(x, j + 12))
  {
    if j < 52 {
      assert (x >> 12) >> j == x >> (j + 12);
    } else {
      assert (x >> 12) >> j == 0;
    }
  }

  lemma Left25Bit(x: bv64, j: bv6)
    ensures BitAt(x << 25, j) == (j >= 25 && BitAt(x, j - 25))
  {
    if j >= 25 {
      assert ((x << 25) >> j) & 1 == (x >> (j - 25)) & 1;
    } else {
      assert ((x << 25) >> j) & 1 == 0;
    }
  }

  lemma Right27Bit(x: bv64, j: bv6)
    ensures BitAt(x >> 27, j) == (j < 37 && BitAt(x, j + 27))
  {
    if j < 37 {
      assert (x >> 27) >> j == x >> (j + 27);
    } else {
      assert (x >> 27) >> j == 0;
    }
  }

  lemma MixBit(g: Stage, x: bv64, j: bv6)
    ensures BitAt(Mix(g, x), j) == (BitAt(x, j) != BitAt(Shift(g, x), j))
  {
    XorBit(x, Shift(g, x), j);
    hide BitAt, Shift;
  }

  lemma ShiftBit(g: Stage, x: bv64, j: bv6)
    ensures BitAt(Shift(g, x), j) ==
            match g
            case Right12 => j < 52 && BitAt(x, j + 12)
            case Left25 => j >= 25 && BitAt(x, j - 25)
            case Right27 => j < 37 && BitAt(x, j + 27)
  {
    hide BitAt;
    Right12Bit(x, j);
    Left25Bit(x, j);
    Right27Bit(x, j);
  }

  /** Every bit of the first word is that of the state, exclusive-or the one twelve above it. */
  ghost predicate FirstMixed(x: bv64, y: bv64) {
    forall j: bv6 :: FirstBit(x, y, j)
  }

  predicate FirstBit(x: bv64, y: bv64, j: bv6) {
    BitAt(y, j) == (BitAt(x, j) != (j < 52 && BitAt(x, j + 12)))
  }

  /** Every bit of the second word is that of the first, exclusive-or the one twenty-five below it. */
  ghost predicate SecondMixed(x: bv64, y: bv64) {
    forall j: bv6 :: SecondBit(x, y, j)
  }

  predicate SecondBit(x: bv64, y: bv64, j: bv6) {
    BitAt(y, j) == (BitAt(x, j) != (j >= 25 && BitAt(x, j - 25)))
  }

  /** Every bit of the result is that of the second word, exclusive-or the one twenty-seven above it. */
  ghost predicate ThirdMixed(x: bv64, y: bv64) {
    forall j: bv6 :: ThirdBit(x, y, j)
  }

  predicate ThirdBit(x: bv64, y: bv64, j: bv6) {
    BitAt(y, j) == (BitAt(x, j) != (j < 37 && BitAt(x, j + 27)))
  }

  lemma FirstStage(x: bv64, y: bv64)
    requires y == Mix(Right12, x)
    ensures FirstMixed(x, y)
  {
    hide BitAt, Shift, Mix;
    forall j: bv6
      ensures FirstBit(x, y, j)
    {
      MixBit(Right12, x, j);
      ShiftBit(Right12, x, j);
    }
  }

  lemma SecondStage(x: bv64, y: bv64)
    requires y == Mix(Left25, x)
    ensures SecondMixed(x, y)
  {
    hide BitAt, Shift, Mix;
    forall j: bv6
      ensures SecondBit(x, y, j)
    {
      MixBit(Left25, x, j);
      ShiftBit(Left25, x, j);
    }
  }

  lemma ThirdStage(x: bv64, y: bv64)
    requires y == Mix(Right27, x)
    ensures ThirdMixed(x, y)
  {
    hide BitAt, Shift, Mix;
    forall j: bv6
      ensures ThirdBit(x, y, j)
    {
      MixBit(Right27, x, j);
      ShiftBit(Right27, x, j);
    }
  }

  /** The step, bit by bit through its two intermediate words. */
  lemma StepBits(s: bv64)
    ensures exists a: bv64, b: bv64 :: FirstMixed(s, a) && SecondMixed(a, b) && ThirdMixed(b, Next(s))
  {
    hide FirstMixed, SecondMixed, ThirdMixed, Mix;
    var a := Mix(Right12, s);
    var b := Mix(Left25, a);
    FirstStage(s, a);
    SecondStage(a, b);
    ThirdStage(b, Next(s));
    assert FirstMixed(s, a) && SecondMixed(a, b) && ThirdMixed(b, Next(s));
  }

  // ---------------------------------------------------------------- at concrete states

  function Digit(x: bv64): nat {
    if Odd(x) then 1 else 0
  }

  /** The number of the low four bits. */
  function NibbleValue(x: bv64): nat {
    Digit(x) + 2 * Digit(Half(x)) + 4 * Digit(Half(Half(x))) + 8 * Digit(Half(Half(Half(x))))
  }

  lemma LowNibble(x: bv64, k: nat)
    ensures Low(x, k + 4) == 16 * Low(Nibble(x), k) + NibbleValue(x)
  {
    hide Odd, Half;
    NibbleIsFourHalves(x);
    var a := Half(x);
    var b := Half(a);
    var c := Half(b);
    assert Low(x, k + 4) == 2 * Low(a, k + 3) + Digit(x);
    assert Low(a, k + 3) == 2 * Low(b, k + 2) + Digit(a);
    assert Low(b, k + 2) == 2 * Low(c, k + 1) + Digit(b);
    assert Low(c, k + 1) == 2 * Low(Half(c), k) + Digit(c);
  }

  function Nibble(x: bv64): bv64 { x >> 4 }

  lemma NibbleIsFourHalves(x: bv64)
    ensures Nibble(x) == Half(Half(Half(Half(x))))
  {
  }

  lemma Peel(x: bv64, y: bv64, d: nat, k: nat)
    requires Nibble(x) == y && NibbleValue(x) == d
    ensures Low(x, k + 4) == 16 * Low(y, k) + d
  {
    hide Nibble, NibbleValue;
    LowNibble(x, k);
  }

  /** Two words that one step takes to the words 1 and 5 + 2^27, and the step of the replacement seed. */
  lemma Steps()
    ensures Next(0x4004006006007) == 1 && Next(4) == 0x800_0005 && Next(1318319) == 0x2839_dc11_1bd5
  {
  }

  lemma ValueOfOne()
    ensures Value(1) == 1
  {
    LowOfZero(63);
    assert Half(1) == 0 && Odd(1);
  }

  /** The draw that returns the multiplier less one. */
  lemma DrawToMultiplier()
    ensures Draw(0x4004006006007) == 2685821657736338716
  {
    hide Value, Next, Draw;
    Steps();
    ValueOfOne();
    DrawFormula(0x4004006006007);
  }

  lemma DefaultLow()
    ensures Low(0x2839_dc11_1bd5, 64) == 4096 * Low(0x2839_dc11_1, 52) + 0xbd5
  {
    hide Low;
    Peel(0x2839_dc11_1bd5, 0x2839_dc11_1bd, 5, 60);
    Peel(0x2839_dc11_1bd, 0x2839_dc11_1b, 13, 56);
    Peel(0x2839_dc11_1b, 0x2839_dc11_1, 11, 52);
  }

  lemma DefaultMiddle()
    ensures Low(0x2839_dc11_1, 52) == 4096 * Low(0x2839_dc, 40) + 0x111
  {
    hide Low;
    Peel(0x2839_dc11_1, 0x2839_dc11, 1, 48);
    Peel(0x2839_dc11, 0x2839_dc1, 1, 44);
    Peel(0x2839_dc1, 0x2839_dc, 1, 40);
  }

  lemma DefaultUpper()
    ensures Low(0x2839_dc, 40) == 4096 * Low(0x283, 28) + 0x9dc
  {
    hide Low;
    Peel(0x2839_dc, 0x2839_d, 12, 36);
    Peel(0x2839_d, 0x2839, 13, 32);
    Peel(0x2839, 0x283, 9, 28);
  }

  lemma DefaultTop()
    ensures Low(0x283, 28) == 0x283
  {
    hide Low;
    Peel(0x283, 0x28, 3, 24);
    Peel(0x28, 0x2, 8, 20);
    Peel(0x2, 0x0, 2, 16);
    LowOfZero(16);
  }

  lemma ValueOfDefault()
    ensures Value(0x2839_dc11_1bd5) == 0x2839_dc11_1bd5
  {
    hide Low;
    DefaultLow();
    DefaultMiddle();
    DefaultUpper();
    DefaultTop();
  }

  lemma DefaultProduct()
    ensures (0x2839_dc11_1bd5 * 2685821657736338717 - 1) % 0x1_0000_0000_0000_0000 == 3724872699576780832
  {
  }

  /** The first draw of a generator with seed 0, which is replaced by 1318319. */
  lemma DrawFromZeroSeed()
    ensures Draw(Seeded(0)) == 3724872699576780832
  {
    hide Value, Next, Draw;
    Steps();
    ValueOfDefault();
    DefaultProduct();
    DrawFormula(1318319);
  }
}
