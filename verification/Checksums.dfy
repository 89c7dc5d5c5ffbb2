/** The checksums of blocks and of the stream: the table-driven step, its
    polynomial, and the combination of block checksums. */
module Checksums {
  import opened Bits
  import opened BitStream

  /** BZ_FINALISE_CRC */
  function Finalised(crc: int): (r: u32) {
    if 0 <= crc <= 0xffff_ffff then 0xffff_ffff - crc else 0
  }

  /** The stream's checksum takes in a block's: rotate left by one, then exclusive or. */
  function Combine(combined: u32, crc: u32): (r: u32)
  {
    CombineFits(combined, crc);
    Xor(Or(Shl32(combined, 1), combined / 0x8000_0000), crc)
  }

  lemma CombineFits(combined: u32, crc: u32)
    ensures Xor(Or(Shl32(combined, 1), combined / 0x8000_0000), crc) < 0x1_0000_0000
  {
    Pow2Values();
    hide Or, Xor, Pow2;
    OrBelow(Shl32(combined, 1), combined / 0x8000_0000, 32);
    XorBelow(Or(Shl32(combined, 1), combined / 0x8000_0000), crc, 32);
  }

  /** A checksum step keeps to 32-bit words. */
  ghost predicate WordStep(step: (int, int) -> int) {
    forall crc, ch :: 0 <= step(crc, ch) <= 0xffff_ffff
  }

  /** BZ_UPDATE_CRC with a table of 256 words. */
  function UpdateCRC(table: seq<u32>, crc: int, ch: int): (r: int)
    requires |table| == 256
  {
    if !(0 <= crc <= 0xffff_ffff && 0 <= ch < 256) then 0 else
      IndexFits(crc, ch);
      Xor(Shl32(crc, 8), table[Xor(crc / 0x100_0000, ch)])
  }

  lemma IndexFits(crc: u32, ch: nat)
    requires ch < 256
    ensures Xor(crc / 0x100_0000, ch) < 256
  {
    Pow2Values();
    XorBelow(crc / 0x100_0000, ch, 8);
  }

  /** The source's checksum step is one of those the model allows. */
  lemma {:induction false} TableStep(table: seq<u32>)
    requires |table| == 256
    ensures WordStep((crc, ch) => UpdateCRC(table, crc, ch))
  {
    forall crc: int, ch: int ensures 0 <= UpdateCRC(table, crc, ch) <= 0xffff_ffff {
      hide Xor, Pow2;
      if 0 <= crc <= 0xffff_ffff && 0 <= ch < 256 {
        IndexFits(crc, ch);
        Pow2Values();
        XorBelow(Shl32(crc, 8), table[Xor(crc / 0x100_0000, ch)], 32);
      }
    }
  }

  // ---- the stream's checksum, digit by digit ----

  lemma {:induction false} BitsOfXor(a: nat, b: nat, n: nat, k: nat)
    requires k < n
    ensures BitsOf(Xor(a, b), n)[k] == (BitsOf(a, n)[k] != BitsOf(b, n)[k])
    decreases n
  {
    if k < n - 1 { BitsOfXor(a / 2, b / 2, n - 1, k); }
    XorParts(a, b);
  }

  lemma {:induction false} BitsOfComplement(x: nat, n: nat, k: nat)
    requires x < Pow2(n) && k < n
    ensures Pow2(n) - 1 - x >= 0 && BitsOf(Pow2(n) - 1 - x, n)[k] == !BitsOf(x, n)[k]
    decreases n
  {
    var p := Pow2(n - 1);
    assert Pow2(n) == 2 * p;
    HalfOfComplement(x, p);
    hide Pow2;
    if k < n - 1 { BitsOfComplement(x / 2, n - 1, k); }
  }

  lemma HalfOfComplement(x: nat, p: nat)
    requires x < 2 * p
    ensures (2 * p - 1 - x) / 2 == p - 1 - x / 2 && x / 2 < p && ((2 * p - 1 - x) % 2 == 1 <==> x % 2 != 1)
  {
  }

  /** Finalising complements every digit. */
  lemma {:induction false} FinalisedDigits(crc: u32, i: nat)
    requires i < 32
    ensures BitsOf(Finalised(crc), 32)[i] == !BitsOf(crc, 32)[i]
  {
    Pow2Values();
    hide Pow2, BitsOf;
    BitsOfComplement(crc, 32, i);
  }

  /** Rotating left by one. */
  lemma {:induction false} RotatedBits(c: u32)
    ensures BitsOf(Or(Shl32(c, 1), c / 0x8000_0000), 32) == BitsOf(c, 32)[1..] + BitsOf(c, 32)[..1]
  {
    Pow2Values();
    hide BitsOf, Or, Pow2, Shl32, Shl, Halve;
    var top := c / 0x8000_0000;
    BitsSplit(c, 1, 31);
    HalveIsDiv(c, 31);
    ShiftedLeft(c);
    LeadingZeros(top, 31, 1);
    OrBits(Shl32(c, 1), top, 32);
    FillLow(BitsOf(Shl32(c, 1), 32), BitsOf(top, 32), BitsOf(Or(Shl32(c, 1), top), 32), BitsOf(c, 31), BitsOf(top, 1));
    assert BitsOf(c, 32)[1..] == BitsOf(c, 31) && BitsOf(c, 32)[..1] == BitsOf(top, 1);
  }

  lemma {:induction false} ShiftedLeft(c: u32)
    ensures BitsOf(Shl32(c, 1), 32) == BitsOf(c, 31) + Zeros(1)
  {
    Pow2Values();
    hide BitsOf, Pow2, Shl;
    ShlIsProduct(c, 1);
    BitsOfShl(c, 31, 1);
    BitsTruncated(Shl(c, 1), 32, 32);
  }

  /** The combined checksum: the old one a place to the left, going round, against the block's. */
  lemma {:induction false} CombineDigits(combined: u32, crc: u32, i: nat)
    requires i < 32
    ensures BitsOf(Combine(combined, crc), 32)[i] == (BitsOf(combined, 32)[(i + 1) % 32] != BitsOf(crc, 32)[i])
  {
    hide BitsOf, Or, Xor, Shl32;
    RotatedBits(combined);
    BitsOfXor(Or(Shl32(combined, 1), combined / 0x8000_0000), crc, 32, i);
  }

  // ---- the polynomial behind the table ----

  const POLYNOMIAL: nat := 0x04c1_1db7

  /** One digit of the division: shift, and take the polynomial off if a one falls out. */
  function PolyStep(c: u32): (r: u32) {
    PolyFits(c);
    if c >= 0x8000_0000 then Xor(Shl32(c, 1), POLYNOMIAL) else Shl32(c, 1)
  }

  lemma PolyFits(c: u32)
    ensures Xor(Shl32(c, 1), POLYNOMIAL) < 0x1_0000_0000
  {
    Pow2Values();
    hide Xor, Pow2;
    XorBelow(Shl32(c, 1), POLYNOMIAL, 32);
  }

  function PolySteps(c: u32, k: nat): (r: u32)
    decreases k
  {
    if k == 0 then c else PolySteps(PolyStep(c), k - 1)
  }

  /** BZ2_crc32Table: eight digits of division for every byte at the top of a word. */
  function CrcTable(): (table: seq<u32>)
    ensures |table| == 256
  {
    seq(256, i requires 0 <= i < 256 => PolySteps(0x100_0000 * i, 8))
  }

  lemma {:induction false} DigitOfDouble(x: nat, k: nat)
    ensures Bit(2 * x, k) == (k > 0 && Bit(x, k - 1))
  {
    assert (2 * x) / 2 == x && (2 * x) % 2 == 0;
  }

  lemma DigitOfJoin(y: nat, b: nat, k: nat)
    requires b < 2
    ensures Bit(2 * y + b, k) == if k == 0 then b == 1 else Bit(y, k - 1)
  {
    assert (2 * y + b) / 2 == y && (2 * y + b) % 2 == b;
  }

  lemma {:induction false} DigitOfRemainder(x: nat, m: nat, k: nat)
    ensures Bit(x % Pow2(m), k) == (k < m && Bit(x, k))
    decreases m
  {
    if m == 0 {
      BitZero(k);
    } else {
      var y := (x / 2) % Pow2(m - 1);
      DivPow2Step(x, m);
      DigitOfJoin(y, x % 2, k);
      DigitOfJoin(x / 2, x % 2, k);
      hide Bit, Pow2;
      if k > 0 { DigitOfRemainder(x / 2, m - 1, k - 1); }
    }
  }

  lemma {:induction false} DigitOfShift(c: u32, k: nat)
    requires k < 32
    ensures Bit(Shl32(c, 1), k) == (k > 0 && Bit(c, k - 1))
  {
    Pow2Values();
    hide Bit, Pow2;
    DigitOfRemainder(2 * c, 32, k);
    DigitOfDouble(c, k);
  }

  lemma {:induction false} TopDigit(c: nat, m: nat)
    requires c < 2 * Pow2(m)
    ensures Bit(c, m) <==> c >= Pow2(m)
  {
    if m > 0 { TopDigit(c / 2, m - 1); }
  }

  lemma {:induction false} DigitOfStep(c: u32, k: nat)
    requires k < 32
    ensures Bit(PolyStep(c), k) == ((k > 0 && Bit(c, k - 1)) != (Bit(c, 31) && Bit(POLYNOMIAL, k)))
  {
    Pow2Values();
    hide Bit, Pow2, Xor, Shl32;
    TopDigit(c, 31);
    DigitOfShift(c, k);
    XorDigit(Shl32(c, 1), POLYNOMIAL, k);
  }

  lemma XorFits(a: u32, b: u32)
    ensures Xor(a, b) < 0x1_0000_0000
  {
    Pow2Values();
    hide Xor, Pow2;
    XorBelow(a, b, 32);
  }

  lemma {:induction false} SameWord(x: u32, y: u32)
    requires forall k: nat :: k < 32 ==> Bit(x, k) == Bit(y, k)
    ensures x == y
  {
    Pow2Values();
    hide Pow2, Bit;
    BitsDetermine(x, y, 32);
  }

  /** The division is linear. */
  lemma {:induction false} StepLinear(a: u32, b: u32)
    ensures Xor(a, b) < 0x1_0000_0000 && Xor(PolyStep(a), PolyStep(b)) < 0x1_0000_0000
    ensures PolyStep(Xor(a, b)) == Xor(PolyStep(a), PolyStep(b))
  {
    XorFits(a, b);
    XorFits(PolyStep(a), PolyStep(b));
    hide Bit, Xor, PolyStep;
    forall k: nat | k < 32 ensures Bit(PolyStep(Xor(a, b)), k) == Bit(Xor(PolyStep(a), PolyStep(b)), k) {
      DigitOfStep(a, k);
      DigitOfStep(b, k);
      DigitOfStep(Xor(a, b), k);
      XorDigit(PolyStep(a), PolyStep(b), k);
      XorDigit(a, b, 31);
      if k > 0 { XorDigit(a, b, k - 1); }
    }
    SameWord(PolyStep(Xor(a, b)), Xor(PolyStep(a), PolyStep(b)));
  }

  lemma {:induction false} StepsLinear(a: u32, b: u32, n: nat)
    ensures Xor(a, b) < 0x1_0000_0000 && PolySteps(Xor(a, b), n) == Xor(PolySteps(a, n), PolySteps(b, n))
    decreases n
  {
    StepLinear(a, b);
    hide Xor, PolyStep;
    if n > 0 { StepsLinear(PolyStep(a), PolyStep(b), n - 1); }
  }

  /** As long as no one falls out, the steps only shift. */
  lemma {:induction false} StepsShift(c: u32, n: nat, p: nat)
    requires p == Pow2(n) && c * p < 0x1_0000_0000
    ensures PolySteps(c, n) == c * p
    decreases n
  {
    if n > 0 {
      var q := Pow2(n - 1);
      assert q >= 1 && c * p == (2 * c) * q;
      assert 2 * c < 0x1_0000_0000 by { if c > 0 { ProductAtLeast(2 * c, q); } }
      assert PolyStep(c) == 2 * c by { Pow2Values(); }
      StepsShift(2 * c, n - 1, q);
    }
  }

  lemma ProductAtLeast(x: nat, q: nat)
    requires q >= 1
    ensures x * q >= x
  {
  }

  lemma {:induction false} DigitOfScaled(x: nat, m: nat, k: nat)
    ensures Bit(x * Pow2(m), k) == (k >= m && Bit(x, k - m))
    decreases m
  {
    if m > 0 {
      assert x * Pow2(m) == 2 * (x * Pow2(m - 1));
      DigitOfDouble(x * Pow2(m - 1), k);
      if k > 0 { DigitOfScaled(x, m - 1, k - 1); }
    }
  }

  lemma {:induction false} DigitOfHalves(x: nat, m: nat, k: nat)
    ensures Bit(Halve(x, m), k) == Bit(x, k + m)
    decreases m
  {
    if m > 0 { DigitOfHalves(x / 2, m - 1, k); }
  }

  /** A word with a byte taken into its top: the top byte against it, and the rest. */
  lemma {:induction false} ByteIntoTop(crc: u32, ch: nat)
    requires ch < 256
    ensures Xor(crc / 0x100_0000, ch) < 256 && Xor(crc, 0x100_0000 * ch) < 0x1_0000_0000
    ensures Xor(crc, 0x100_0000 * ch) == Xor(0x100_0000 * Xor(crc / 0x100_0000, ch), crc % 0x100_0000)
  {
    IndexFits(crc, ch);
    XorFits(crc, 0x100_0000 * ch);
    var top, low := Xor(crc / 0x100_0000, ch), crc % 0x100_0000;
    XorFits(0x100_0000 * top, low);
    Pow2Values();
    HalveIsDiv(crc, 24);
    hide Xor, Bit, Pow2, Halve;
    forall k: nat | k < 32 ensures Bit(Xor(crc, 0x100_0000 * ch), k) == Bit(Xor(0x100_0000 * top, low), k) {
      XorDigit(crc, 0x100_0000 * ch, k);
      XorDigit(0x100_0000 * top, low, k);
      DigitOfScaled(ch, 24, k);
      DigitOfScaled(top, 24, k);
      DigitOfRemainder(crc, 24, k);
      if k >= 24 {
        XorDigit(crc / 0x100_0000, ch, k - 24);
        DigitOfHalves(crc, 24, k - 24);
      }
    }
    SameWord(Xor(crc, 0x100_0000 * ch), Xor(0x100_0000 * top, low));
  }

  lemma {:induction false} StepsJoin(c: u32, j: nat, k: nat)
    ensures PolySteps(c, j + k) == PolySteps(PolySteps(c, j), k)
    decreases j
  {
    hide PolyStep;
    if j > 0 { StepsJoin(PolyStep(c), j - 1, k); }
  }

  lemma {:induction false} XorNothing(a: nat)
    ensures Xor(0, a) == a
  {
    if a > 0 { XorNothing(a / 2); }
  }

  lemma TopStep()
    ensures PolyStep(0x8000_0000) == 0x04c1_1db7 && PolyStep(0x04c1_1db7) == 0x0982_3b6e
  {
    Pow2Values();
    XorNothing(POLYNOMIAL);
    hide Xor;
  }

  /** The table starts as the source's does. */
  lemma {:induction false} TableEntries()
    ensures CrcTable()[0] == 0 && CrcTable()[1] == 0x04c1_1db7 && CrcTable()[2] == 0x0982_3b6e
  {
    TopStep();
    assert Pow2(6) == 64 && Pow2(7) == 128 && Pow2(8) == 256;
    StepsShift(0, 8, 256);
    StepsShift(0x100_0000, 7, 128);
    StepsShift(0x200_0000, 6, 64);
    StepsJoin(0x100_0000, 7, 1);
    StepsJoin(0x200_0000, 6, 2);
    assert PolySteps(0x8000_0000, 1) == 0x04c1_1db7;
    assert PolySteps(0x8000_0000, 2) == PolySteps(0x04c1_1db7, 1) == 0x0982_3b6e;
    hide PolyStep, PolySteps;
  }

  /** The table-driven step is eight digits of division by the polynomial. */
  lemma {:induction false} TableDivides(crc: u32, ch: nat)
    requires ch < 256
    ensures Xor(crc, 0x100_0000 * ch) < 0x1_0000_0000
    ensures UpdateCRC(CrcTable(), crc, ch) == PolySteps(Xor(crc, 0x100_0000 * ch), 8)
  {
    ByteIntoTop(crc, ch);
    var top, low := Xor(crc / 0x100_0000, ch), crc % 0x100_0000;
    StepsLinear(0x100_0000 * top, low, 8);
    Pow2Values();
    StepsShift(low, 8, 256);
    assert CrcTable()[top] == PolySteps(0x100_0000 * top, 8);
    hide Xor, PolySteps, Pow2, CrcTable;
    assert Shl32(crc, 8) == low * 256 by { ShiftByte(crc); }
    XorSwap(PolySteps(0x100_0000 * top, 8), low * 256);
  }

  lemma ShiftByte(crc: u32)
    ensures Shl32(crc, 8) == crc % 0x100_0000 * 256
  {
    Pow2Values();
  }

  lemma {:induction false} XorSwap(a: nat, b: nat)
    ensures Xor(a, b) == Xor(b, a)
    decreases a + b
  {
    if a + b > 0 { XorSwap(a / 2, b / 2); }
  }
}
