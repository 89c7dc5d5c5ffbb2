/** Bit vectors of any width as integers modulo 2^w: the operators of the
    SMT-LIB bit-vector theory, and the integer meaning LLVM gives to the same
    instructions. */
module BitVectors {
  import opened Bits

  function Mod(w: nat): (m: int)
    ensures m >= 1
  {
    Pow2(w)
  }

  predicate Fits(x: int, w: nat) {
    0 <= x < Mod(w)
  }

  function Wrap(v: int, w: nat): (x: int)
    ensures Fits(x, w)
  {
    v % Mod(w)
  }

  // ---- SMT-LIB operators ----

  predicate Msb(x: int, w: nat) {
    w > 0 && x >= Mod(w - 1)
  }

  function BvNeg(x: int, w: nat): int { Wrap(Mod(w) - x, w) }

  function BvNot(x: int, w: nat): int { Mod(w) - 1 - x }

  function BvUdiv(x: int, y: int, w: nat): int {
    if y == 0 then Mod(w) - 1 else x / y
  }

  function BvUrem(x: int, y: int): int {
    if y == 0 then x else x % y
  }

  function BvSdiv(x: int, y: int, w: nat): int {
    if !Msb(x, w) && !Msb(y, w) then BvUdiv(x, y, w)
    else if Msb(x, w) && !Msb(y, w) then BvNeg(BvUdiv(BvNeg(x, w), y, w), w)
    else if !Msb(x, w) then BvNeg(BvUdiv(x, BvNeg(y, w), w), w)
    else BvUdiv(BvNeg(x, w), BvNeg(y, w), w)
  }

  function BvSrem(x: int, y: int, w: nat): int {
    if !Msb(x, w) && !Msb(y, w) then BvUrem(x, y)
    else if Msb(x, w) && !Msb(y, w) then BvNeg(BvUrem(BvNeg(x, w), y), w)
    else if !Msb(x, w) then BvUrem(x, BvNeg(y, w))
    else BvNeg(BvUrem(BvNeg(x, w), BvNeg(y, w)), w)
  }

  function BvShl(x: int, y: nat, w: nat): int { Wrap(x * Pow2(y), w) }

  function BvLshr(x: int, y: nat): int { x / Pow2(y) }

  function BvAshr(x: int, y: nat, w: nat): int {
    if !Msb(x, w) then BvLshr(x, y) else BvNot(BvLshr(BvNot(x, w), y), w)
  }

  predicate BvSlt(x: int, y: int, w: nat) {
    (Msb(x, w) && !Msb(y, w)) || (Msb(x, w) == Msb(y, w) && x < y)
  }

  function BvSext(x: int, w: nat, w': nat): int {
    if Msb(x, w) then x + (Mod(w') - Mod(w)) else x
  }

  // ---- what the instructions mean on integers ----

  function Signed(x: int, w: nat): int {
    if Msb(x, w) then x - Mod(w) else x
  }

  function Abs(a: int): (m: int)
    ensures m >= 0
  {
    if a < 0 then -a else a
  }

  /** Division rounding toward zero, and its remainder. */
  function TruncDiv(a: int, b: int): int
    requires b != 0
  {
    if (a < 0) == (b < 0) then Abs(a) / Abs(b) else -(Abs(a) / Abs(b))
  }

  function TruncRem(a: int, b: int): int
    requires b != 0
  {
    if a < 0 then -(Abs(a) % Abs(b)) else Abs(a) % Abs(b)
  }

  /** v is representable as a signed w-bit integer. */
  predicate SignedFits(v: int, w: nat) {
    w > 0 && -Mod(w - 1) <= v < Mod(w - 1)
  }

  // ---- the two agree ----

  lemma ModHalf(w: nat)
    requires w > 0
    ensures Mod(w) == 2 * Mod(w - 1)
  {
  }

  lemma {:induction false} WrapSmall(v: int, w: nat)
    ensures 0 <= v < Mod(w) ==> Wrap(v, w) == v
    ensures -Mod(w) <= v < 0 ==> Wrap(v, w) == v + Mod(w)
  {
    var m := Mod(w);
    if 0 <= v < m { DivModUnique(v, m, 0, v); }
    if -m <= v < 0 {
      assert v == -1 * m + (v + m);
      WrapShift(v + m, -1, m);
      DivModUnique(v + m, m, 0, v + m);
    }
  }

  lemma {:induction false} WrapShift(v: int, k: int, m: int)
    requires m > 0
    ensures (v + k * m) % m == v % m
  {
    var q, r := v / m, v % m;
    assert v + k * m == (q + k) * m + r by { assert (q + k) * m == q * m + k * m; }
    EuclidUnique(v + k * m, m, q + k, r);
  }

  lemma {:induction false} EuclidUnique(x: int, d: int, q: int, r: int)
    requires 0 <= r < d && x == q * d + r
    ensures x / d == q && x % d == r
  {
    var q', r' := x / d, x % d;
    assert (q - q') * d == r' - r by { assert (q - q') * d == q * d - q' * d; }
    if q - q' >= 1 { MulAtLeast(q - q', d); } else if q' - q >= 1 { MulAtLeast(q' - q, d); }
  }

  lemma {:induction false} NegIsMagnitude(x: int, w: nat)
    requires Fits(x, w) && Msb(x, w)
    ensures BvNeg(x, w) == Mod(w) - x == Abs(Signed(x, w)) && 0 < BvNeg(x, w) <= Mod(w - 1)
    ensures Signed(x, w) < 0
  {
    ModHalf(w);
    WrapSmall(Mod(w) - x, w);
  }

  lemma {:induction false} NegWraps(q: int, w: nat)
    requires 0 <= q <= Mod(w)
    ensures BvNeg(q, w) == Wrap(-q, w)
  {
    assert Mod(w) - q == -q + 1 * Mod(w);
    WrapShift(-q, 1, Mod(w));
  }

  lemma {:induction false} QuotientSmall(a: int, b: int)
    requires a >= 0 && b > 0
    ensures 0 <= a / b <= a && 0 <= a % b < b
  {
    var q := a / b;
    assert q >= 0 && q * b <= a;
    MulGrows(q, b);
  }

  lemma {:induction false} MulGrows(a: int, b: int)
    requires a >= 0 && b > 0
    ensures a * b >= a
  {
    assert a * b == a + a * (b - 1);
  }

  /** bvsdiv is division rounding toward zero wherever the divisor is not zero;
      the one quotient that does not fit wraps. */
  lemma {:induction false} SdivMeaning(x: int, y: int, w: nat)
    requires w > 0 && Fits(x, w) && Fits(y, w) && y != 0
    ensures Signed(y, w) != 0
    ensures BvSdiv(x, y, w) == Wrap(TruncDiv(Signed(x, w), Signed(y, w)), w)
  {
    ModHalf(w);
    var m := Mod(w);
    var a, b := Abs(Signed(x, w)), Abs(Signed(y, w));
    if Msb(x, w) { NegIsMagnitude(x, w); }
    if Msb(y, w) { NegIsMagnitude(y, w); }
    QuotientSmall(a, b);
    var q := a / b;
    NegWraps(q, w);
    WrapSmall(q, w);
    if Msb(x, w) == Msb(y, w) && q == m { QuotientSmall(a, b); }
  }

  lemma {:induction false} SremMeaning(x: int, y: int, w: nat)
    requires w > 0 && Fits(x, w) && Fits(y, w) && y != 0
    ensures Signed(y, w) != 0
    ensures BvSrem(x, y, w) == Wrap(TruncRem(Signed(x, w), Signed(y, w)), w)
  {
    ModHalf(w);
    var a, b := Abs(Signed(x, w)), Abs(Signed(y, w));
    if Msb(x, w) { NegIsMagnitude(x, w); }
    if Msb(y, w) { NegIsMagnitude(y, w); }
    QuotientSmall(a, b);
    NegWraps(a % b, w);
    WrapSmall(a % b, w);
  }

  /** Signed comparison on bit patterns is comparison of the signed values. */
  lemma {:induction false} SltMeaning(x: int, y: int, w: nat)
    requires Fits(x, w) && Fits(y, w)
    ensures BvSlt(x, y, w) <==> Signed(x, w) < Signed(y, w)
  {
    if w > 0 { ModHalf(w); }
  }

  lemma {:induction false} SextMeaning(x: int, w: nat, w': nat)
    requires 0 < w <= w' && Fits(x, w)
    ensures BvSext(x, w, w') == Wrap(Signed(x, w), w')
  {
    Pow2Monotone(w, w');
    WrapSmall(Signed(x, w), w');
  }

  /** Arithmetic shift right is division by 2^y rounding down. */
  lemma {:induction false} AshrMeaning(x: int, y: nat, w: nat)
    requires Fits(x, w)
    ensures BvAshr(x, y, w) == Wrap(Signed(x, w) / Pow2(y), w)
  {
    var p := Pow2(y);
    var s := Signed(x, w);
    if Msb(x, w) {
      ModHalf(w);
      var n := BvNot(x, w);
      assert s == -1 - n;
      QuotientSmall(n, p);
      var q, r := n / p, n % p;
      assert s == (-1 - q) * p + (p - 1 - r) by { assert (-1 - q) * p == 0 - p - q * p; }
      EuclidUnique(s, p, -1 - q, p - 1 - r);
      WrapSmall(-1 - q, w);
    } else {
      QuotientSmall(x, p);
      WrapSmall(x / p, w);
    }
  }

  lemma {:induction false} BitOpsFit(x: nat, y: nat, w: nat)
    requires Fits(x, w) && Fits(y, w)
    ensures Fits(And(x, y), w) && Fits(Or(x, y), w) && Fits(Xor(x, y), w)
  {
    if w > 0 { BitOpsFit(x / 2, y / 2, w - 1); }
  }

  /** Every operator stays within its width. */
  lemma {:induction false} DivisionFits(x: int, y: int, w: nat)
    requires w > 0 && Fits(x, w) && Fits(y, w)
    ensures Fits(BvUdiv(x, y, w), w) && Fits(BvUrem(x, y), w)
    ensures Fits(BvSdiv(x, y, w), w) && Fits(BvSrem(x, y, w), w)
  {
    ModHalf(w);
    if y > 0 {
      QuotientSmall(x, y);
      SdivMeaning(x, y, w);
      SremMeaning(x, y, w);
    } else {
      WrapSmall(0, w);
      if Msb(x, w) { NegIsMagnitude(x, w); }
    }
  }

  lemma {:induction false} ShiftFits(x: int, y: int, w: nat)
    requires w > 0 && Fits(x, w) && 0 <= y
    ensures Fits(BvShl(x, y, w), w) && Fits(BvLshr(x, y), w) && Fits(BvAshr(x, y, w), w)
  {
    QuotientSmall(x, Pow2(y));
    AshrMeaning(x, y, w);
  }
}
