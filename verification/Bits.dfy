/** Bitwise arithmetic of the C source on natural numbers.

    `Or` and `And` are the exact bitwise operators, defined digit by digit; the
    lemmas relate them to the division, remainder and sums that proofs need. */
module Bits {

  type u32 = x: int | 0 <= x < 0x1_0000_0000

  function Pow2(k: nat): (p: nat)
    ensures p >= 1
  {
    if k == 0 then 1 else 2 * Pow2(k - 1)
  }

  function Or(a: nat, b: nat): nat
    decreases a + b
  {
    if a == 0 && b == 0 then 0
    else 2 * Or(a / 2, b / 2) + (if a % 2 == 1 || b % 2 == 1 then 1 else 0)
  }

  function Xor(a: nat, b: nat): nat
    decreases a + b
  {
    if a == 0 && b == 0 then 0
    else 2 * Xor(a / 2, b / 2) + (if a % 2 != b % 2 then 1 else 0)
  }

  function And(a: nat, b: nat): nat
  {
    if a == 0 || b == 0 then 0
    else 2 * And(a / 2, b / 2) + (if a % 2 == 1 && b % 2 == 1 then 1 else 0)
  }

  /** Bit k of x, counted from the least significant one. */
  predicate Bit(x: nat, k: nat) {
    if k == 0 then x % 2 == 1 else Bit(x / 2, k - 1)
  }

  /** `x << k` on a 32-bit unsigned word. */
  function Shl32(x: nat, k: nat): (r: u32) {
    (x * Pow2(k)) % 0x1_0000_0000
  }

  lemma {:induction false} Pow2Monotone(j: nat, k: nat)
    requires j <= k
    ensures Pow2(j) <= Pow2(k)
    decreases k
  {
    if j < k { Pow2Monotone(j, k - 1); }
  }

  lemma Pow2Values()
    ensures Pow2(1) == 2 && Pow2(2) == 4 && Pow2(3) == 8 && Pow2(4) == 16 && Pow2(5) == 32 && Pow2(8) == 256
    ensures Pow2(15) == 0x8000 && Pow2(16) == 0x1_0000 && Pow2(20) == 0x10_0000 && Pow2(24) == 0x100_0000
    ensures Pow2(31) == 0x8000_0000 && Pow2(32) == 0x1_0000_0000
  {
    assert Pow2(5) == 32;
    assert Pow2(10) == 1024;
    assert Pow2(15) == 0x8000;
    assert Pow2(20) == 0x10_0000;
    assert Pow2(25) == 0x200_0000;
    assert Pow2(30) == 0x4000_0000;
  }

  lemma DivDouble(x: nat, p: nat)
    requires p > 0
    ensures x / (2 * p) == (x / 2) / p && x % (2 * p) == 2 * ((x / 2) % p) + x % 2
  {
    var q, r := (x / 2) / p, (x / 2) % p;
    assert x / 2 == q * p + r;
    assert 2 * (q * p) == q * (2 * p);
    DivModUnique(x, 2 * p, q, 2 * r + x % 2);
  }

  /** Dividing by 2^k peels k binary digits, whichever end is peeled first. */
  lemma {:induction false} DivPow2Step(x: nat, k: nat)
    requires k > 0
    ensures x / Pow2(k) == (x / 2) / Pow2(k - 1)
    ensures x % Pow2(k) == 2 * ((x / 2) % Pow2(k - 1)) + x % 2
  {
    DivDouble(x, Pow2(k - 1));
  }

  /** The quotient and remainder are the only pair with the defining property. */
  lemma {:induction false} DivModUnique(x: nat, d: nat, q: nat, r: nat)
    requires d > 0 && r < d && x == q * d + r
    ensures x / d == q && x % d == r
  {
    var q', r' := x / d, x % d;
    assert (q - q') * d == r' - r by {
      assert x == q' * d + r';
      assert (q - q') * d == q * d - q' * d;
    }
    if q - q' >= 1 {
      MulAtLeast(q - q', d);
    } else if q' - q >= 1 {
      MulAtLeast(q' - q, d);
    }
  }

  lemma {:induction false} MulAtLeast(a: int, d: nat)
    requires a >= 1
    ensures a * d >= d && -a * d <= 0 - d
  {
    assert a * d == d + (a - 1) * d;
    assert -a * d == -(a * d);
  }

  /** A disjunction of non-overlapping parts is their sum. */
  lemma {:induction false} OrDisjoint(a: nat, k: nat, b: nat)
    requires b < Pow2(k)
    ensures Or(a * Pow2(k), b) == a * Pow2(k) + b
  {
    if k == 0 {
      OrZero(a);
    } else {
      var p := Pow2(k - 1);
      assert a * Pow2(k) == 2 * (a * p);
      OrDisjoint(a, k - 1, b / 2);
    }
  }

  lemma {:induction false} OrZero(a: nat)
    ensures Or(a, 0) == a && Or(0, a) == a
  {
    if a > 0 { OrZero(a / 2); }
  }

  /** Masking with 2^k - 1 keeps the low k digits. */
  lemma {:induction false} AndLowMask(x: nat, k: nat)
    ensures And(x, Pow2(k) - 1) == x % Pow2(k)
  {
    if k > 0 {
      var p := Pow2(k - 1);
      assert Pow2(k) == 2 * p;
      AndLowMask(x / 2, k - 1);
      AndOdd(x, p - 1);
      hide Pow2, And;
      DivDouble(x, p);
    }
  }

  lemma AndOdd(x: nat, m: nat)
    ensures And(x, 2 * m + 1) == 2 * And(x / 2, m) + x % 2
  {
    assert (2 * m + 1) / 2 == m && (2 * m + 1) % 2 == 1;
  }

  /** `x << k` without a word width. */
  function Shl(x: nat, k: nat): nat {
    if k == 0 then x else 2 * Shl(x, k - 1)
  }

  /** Masking with m << k masks the digits from k up. */
  lemma {:induction false} AndHighMask(x: nat, m: nat, k: nat)
    ensures And(x, Shl(m, k)) == Shl(And(Halve(x, k), m), k)
  {
    if k > 0 {
      AndHighMask(x / 2, m, k - 1);
      AndDouble(x, Shl(m, k - 1));
    }
  }

  /** `x >> k`, one digit at a time. */
  function Halve(x: nat, k: nat): nat {
    if k == 0 then x else Halve(x / 2, k - 1)
  }

  lemma {:induction false} HalveIsDiv(x: nat, k: nat)
    ensures Halve(x, k) == x / Pow2(k)
  {
    if k > 0 {
      HalveIsDiv(x / 2, k - 1);
      DivPow2Step(x, k);
    }
  }

  lemma {:induction false} AndDouble(x: nat, y: nat)
    ensures And(x, 2 * y) == 2 * And(x / 2, y)
  {
    assert (2 * y) / 2 == y && (2 * y) % 2 == 0;
  }

  lemma {:induction false} OrDigit(a: nat, b: nat, k: nat)
    ensures Bit(Or(a, b), k) == (Bit(a, k) || Bit(b, k))
  {
    OrParts(a, b);
    if k > 0 { OrDigit(a / 2, b / 2, k - 1); }
    hide Or;
  }

  lemma OrParts(a: nat, b: nat)
    ensures Or(a, b) / 2 == Or(a / 2, b / 2)
    ensures Or(a, b) % 2 == 1 <==> a % 2 == 1 || b % 2 == 1
  {
  }

  lemma {:induction false} XorDigit(a: nat, b: nat, k: nat)
    ensures Bit(Xor(a, b), k) == (Bit(a, k) != Bit(b, k))
  {
    XorParts(a, b);
    if k > 0 { XorDigit(a / 2, b / 2, k - 1); }
    hide Xor;
  }

  lemma XorParts(a: nat, b: nat)
    ensures Xor(a, b) / 2 == Xor(a / 2, b / 2)
    ensures Xor(a, b) % 2 == 1 <==> (a % 2 == 1) != (b % 2 == 1)
  {
  }

  lemma {:induction false} AndDigit(a: nat, b: nat, k: nat)
    ensures Bit(And(a, b), k) == (Bit(a, k) && Bit(b, k))
  {
    if k > 0 { AndDigit(a / 2, b / 2, k - 1); }
    if a == 0 || b == 0 { BitZero(k); }
  }

  lemma {:induction false} BitZero(k: nat)
    ensures !Bit(0, k)
  {
    if k > 0 { BitZero(k - 1); }
  }

  lemma {:induction false} BitPow2(m: nat, k: nat)
    ensures Bit(Pow2(m), k) == (m == k)
  {
    if m == 0 && k > 0 { BitZero(k - 1); }
    if m > 0 && k > 0 { BitPow2(m - 1, k - 1); }
  }

  /** Every digit of 2^m - 1 below m is one, and none above. */
  lemma {:induction false} BitOnes(m: nat, k: nat)
    ensures Bit(Pow2(m) - 1, k) == (k < m)
  {
    if m == 0 {
      BitZero(k);
    } else if k > 0 {
      assert (Pow2(m) - 1) / 2 == Pow2(m - 1) - 1;
      BitOnes(m - 1, k - 1);
    }
  }

  /** Numbers below 2^m with the same m digits are equal. */
  lemma {:induction false} BitsDetermine(x: nat, y: nat, m: nat)
    requires x < Pow2(m) && y < Pow2(m)
    requires forall k: nat :: k < m ==> Bit(x, k) == Bit(y, k)
    ensures x == y
  {
    if m > 0 {
      forall k: nat | k < m - 1 ensures Bit(x / 2, k) == Bit(y / 2, k) {
        assert Bit(x, k + 1) == Bit(y, k + 1);
      }
      BitsDetermine(x / 2, y / 2, m - 1);
      assert Bit(x, 0) == Bit(y, 0);
    }
  }

  /** A digit put above all others. */
  lemma {:induction false} BitHigh(x: nat, m: nat, k: nat)
    requires x < Pow2(m) && k <= m
    ensures Bit(x, m) == false && Bit(x + Pow2(m), k) == (k == m || Bit(x, k))
  {
    if m > 0 {
      assert (x + Pow2(m)) / 2 == x / 2 + Pow2(m - 1) && (x + Pow2(m)) % 2 == x % 2;
      BitHigh(x / 2, m - 1, if k > 0 then k - 1 else 0);
    }
  }

  lemma {:induction false} OrComm(a: nat, b: nat)
    ensures Or(a, b) == Or(b, a)
    decreases a + b
  {
    if a + b > 0 { OrComm(a / 2, b / 2); }
  }

  /** `lo | (v << k)` for a value that fits above the k low digits. */
  lemma {:induction false} OrShifted(lo: nat, v: nat, k: nat, p: nat)
    requires p == Pow2(k) && lo < p && v * p < 0x1_0000_0000
    ensures Or(lo, Shl32(v, k)) == lo + v * p
  {
    hide Or;
    OrDisjoint(v, k, lo);
    OrComm(lo, v * p);
  }

  lemma {:induction false} OrBelow(a: nat, b: nat, m: nat)
    requires a < Pow2(m) && b < Pow2(m)
    ensures Or(a, b) < Pow2(m)
  {
    if m > 0 { OrBelow(a / 2, b / 2, m - 1); }
  }

  lemma {:induction false} XorBelow(a: nat, b: nat, m: nat)
    requires a < Pow2(m) && b < Pow2(m)
    ensures Xor(a, b) < Pow2(m)
  {
    if m > 0 { XorBelow(a / 2, b / 2, m - 1); }
  }

  predicate Bytes(b: seq<int>) {
    forall k :: 0 <= k < |b| ==> 0 <= b[k] < 256
  }
}
