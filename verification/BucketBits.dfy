/** The bucket-header bit table of the fallback sorter: SET_BH, CLEAR_BH,
    ISSET_BH, WORD_BH, UNALIGNED_BH and the two word-skipping scans. */
module BucketBits {
  import opened Bits
  import opened WordLanes


  /** The table read as one flag per position. */
  ghost function Flags(bh: seq<int>): (f: seq<bool>)
    requires Words(bh)
    ensures |f| == 32 * |bh|
    ensures forall z :: 0 <= z < |f| ==> f[z] == Bit(bh[z / 32], z % 32)
  {
    seq(32 * |bh|, z requires 0 <= z < 32 * |bh| => Bit(bh[z / 32], z % 32))
  }

  lemma {:induction false} AndBound(a: nat, b: nat)
    ensures And(a, b) <= a
  {
    if a > 0 && b > 0 { AndBound(a / 2, b / 2); }
  }

  /** `~x` on m digits. */
  lemma {:induction false} BitNot(x: nat, m: nat, k: nat)
    requires x < Pow2(m) && k < m
    ensures Bit(Pow2(m) - 1 - x, k) == !Bit(x, k)
  {
    var p := Pow2(m - 1);
    assert Pow2(m) == 2 * p;
    HalfNot(x, p);
    BitStep(x, k);
    BitStep(2 * p - 1 - x, k);
    hide Pow2, Bit;
    if k > 0 { BitNot(x / 2, m - 1, k - 1); }
  }

  lemma HalfNot(x: nat, p: nat)
    requires x < 2 * p
    ensures (2 * p - 1 - x) / 2 == p - 1 - x / 2 && x / 2 < p
    ensures (2 * p - 1 - x) % 2 == 1 <==> x % 2 != 1
  {
  }

  lemma BitStep(x: nat, k: nat)
    ensures Bit(x, k) == if k == 0 then x % 2 == 1 else Bit(x / 2, k - 1)
  {
  }

  /** Masking with a single bit is non-zero exactly when the bit is set. */
  lemma {:induction false} AndPow2(x: nat, k: nat)
    ensures And(x, Pow2(k)) != 0 <==> Bit(x, k)
  {
    if k > 0 {
      AndPow2(x / 2, k - 1);
      AndDouble(x, Pow2(k - 1));
    } else if x > 0 {
      AndDouble(x, 0);
    }
  }

  lemma {:induction false} Pow2Word(k: nat)
    requires k < 32
    ensures Pow2(k) < Pow2(32) == WORD
  {
    Pow2Values();
    Pow2Monotone(k, 31);
  }

  lemma {:induction false} FlagsSet(bh: seq<int>, z: nat)
    requires Words(bh) && z < 32 * |bh|
    ensures Words(bh[z / 32 := Or(bh[z / 32], Pow2(z % 32))])
    ensures Flags(bh[z / 32 := Or(bh[z / 32], Pow2(z % 32))]) == Flags(bh)[z := true]
  {
    var w, k := z / 32, z % 32;
    Pow2Word(k);
    OrBelow(bh[w], Pow2(k), 32);
    var bh' := bh[w := Or(bh[w], Pow2(k))];
    hide Or, Pow2, Bit;
    forall y | 0 <= y < 32 * |bh| ensures Flags(bh')[y] == Flags(bh)[z := true][y] {
      if y / 32 == w {
        OrDigit(bh[w], Pow2(k), y % 32);
        BitPow2(k, y % 32);
      }
    }
  }

  lemma {:induction false} FlagsClear(bh: seq<int>, z: nat)
    requires Words(bh) && z < 32 * |bh|
    ensures Pow2(z % 32) < WORD
    ensures Words(bh[z / 32 := And(bh[z / 32], WORD - 1 - Pow2(z % 32))])
    ensures Flags(bh[z / 32 := And(bh[z / 32], WORD - 1 - Pow2(z % 32))]) == Flags(bh)[z := false]
  {
    var w, k := z / 32, z % 32;
    Pow2Word(k);
    var m := WORD - 1 - Pow2(k);
    AndBound(bh[w], m);
    var bh' := bh[w := And(bh[w], m)];
    hide And, Pow2, Bit;
    forall y | 0 <= y < 32 * |bh| ensures Flags(bh')[y] == Flags(bh)[z := false][y] {
      if y / 32 == w {
        AndDigit(bh[w], m, y % 32);
        BitNot(Pow2(k), 32, y % 32);
        BitPow2(k, y % 32);
        assert y % 32 == k <==> y == z;
      }
    }
  }

  method SetBH(bhtab: array<int>, z: nat)
    requires Words(bhtab[..]) && z < 32 * bhtab.Length
    modifies bhtab
    ensures Words(bhtab[..]) && Flags(bhtab[..]) == old(Flags(bhtab[..]))[z := true]
  {
    FlagsSet(bhtab[..], z);
    ghost var bh := bhtab[..];
    bhtab[z / 32] := Or(bhtab[z / 32], Pow2(z % 32));
    assert bhtab[..] == bh[z / 32 := Or(bh[z / 32], Pow2(z % 32))];
  }

  method ClearBH(bhtab: array<int>, z: nat)
    requires Words(bhtab[..]) && z < 32 * bhtab.Length
    modifies bhtab
    ensures Words(bhtab[..]) && Flags(bhtab[..]) == old(Flags(bhtab[..]))[z := false]
  {
    FlagsClear(bhtab[..], z);
    ghost var bh := bhtab[..];
    bhtab[z / 32] := And(bhtab[z / 32], WORD - 1 - Pow2(z % 32));
    assert bhtab[..] == bh[z / 32 := And(bh[z / 32], WORD - 1 - Pow2(z % 32))];
  }

  method IsSetBH(bhtab: array<int>, z: nat) returns (set_: bool)
    requires Words(bhtab[..]) && z < 32 * bhtab.Length
    ensures set_ == Flags(bhtab[..])[z]
  {
    set_ := And(bhtab[z / 32], Pow2(z % 32)) != 0;
    AndPow2(bhtab[z / 32], z % 32);
  }

  /** A word is 0xffffffff (respectively 0) exactly when all its flags are set (clear). */
  lemma {:induction false} WordUniform(bh: seq<int>, w: nat, full: bool)
    requires Words(bh) && w < |bh| && bh[w] == if full then WORD - 1 else 0
    ensures forall z :: 32 * w <= z < 32 * w + 32 ==> Flags(bh)[z] == full
  {
    Pow2Values();
    forall z | 32 * w <= z < 32 * w + 32 ensures Flags(bh)[z] == full {
      assert z / 32 == w && z % 32 == z - 32 * w;
      if full { BitOnes(32, z % 32); } else { BitZero(z % 32); }
    }
  }

  /** The first position from k0 on whose flag is not `flag`: bit steps up to
      a word boundary, then whole words, then bit steps again. */
  method SkipFlags(bhtab: array<int>, k0: nat, flag: bool, ghost e: nat) returns (k: nat)
    requires Words(bhtab[..]) && k0 <= e < 32 * bhtab.Length && Flags(bhtab[..])[e] != flag
    ensures k0 <= k <= e && Flags(bhtab[..])[k] != flag
    ensures forall z :: k0 <= z < k ==> Flags(bhtab[..])[z] == flag
  {
    hide Flags, Words;
    k := k0;
    var b := IsSetBH(bhtab, k);
    while b == flag && k % 32 != 0
      invariant k0 <= k <= e && b == Flags(bhtab[..])[k]
      invariant forall z :: k0 <= z < k ==> Flags(bhtab[..])[z] == flag
      decreases e - k
    {
      k := k + 1;
      b := IsSetBH(bhtab, k);
    }
    if b == flag {
      k := SkipWords(bhtab, k, flag, e);
      b := IsSetBH(bhtab, k);
      while b == flag
        invariant k0 <= k <= e && b == Flags(bhtab[..])[k]
        invariant forall z :: k0 <= z < k ==> Flags(bhtab[..])[z] == flag
        decreases e - k
      {
        k := k + 1;
        b := IsSetBH(bhtab, k);
      }
    }
  }

  method SkipWords(bhtab: array<int>, k0: nat, flag: bool, ghost e: nat) returns (k: nat)
    requires Words(bhtab[..]) && k0 % 32 == 0 && k0 <= e < 32 * bhtab.Length && Flags(bhtab[..])[e] != flag
    ensures k0 <= k <= e
    ensures forall z :: k0 <= z < k ==> Flags(bhtab[..])[z] == flag
  {
    var uniform := if flag then 0xffff_ffff else 0;
    k := k0;
    while bhtab[k / 32] == uniform
      invariant k0 <= k <= e && k % 32 == 0
      invariant forall z :: k0 <= z < k ==> Flags(bhtab[..])[z] == flag
      decreases e - k
    {
      WordUniform(bhtab[..], k / 32, flag);
      k := k + 32;
    }
  }
}
