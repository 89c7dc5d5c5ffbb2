/** Canonical Huffman codes: BZ2_hbAssignCodes, BZ2_hbCreateDecodeTables, and
    the bit-by-bit decoding loop of GET_MTF_VAL. */
module HuffmanCodes {
  import opened Bits
  import opened Counting
  import opened BitStream

  const MAX_LEN: nat := 20
  const MAX_CODE_LEN: nat := 23
  const MAX_ALPHA: nat := 258
  const G_SIZE: int := 50

  /** Code lengths the encoder may produce: 1..20, satisfying Kraft's inequality. */
  ghost predicate Lengths(len: seq<int>) {
    && 0 < |len| <= MAX_ALPHA && (forall i :: 0 <= i < |len| ==> 1 <= len[i] <= MAX_LEN)
    && KraftSum(len, MAX_LEN) <= Pow2(MAX_LEN)
  }

  /** The sum of 2^(m - len[i]) over all symbols of length at most m. */
  ghost function KraftSum(len: seq<int>, m: nat): nat {
    if len == [] then 0 else
      KraftSum(len[..|len| - 1], m)
      + (if 0 <= len[|len| - 1] <= m then Pow2(m - len[|len| - 1]) else 0)
  }

  /** The first code of length n: all shorter codes, doubled. */
  ghost function First(len: seq<int>, n: nat): nat {
    if n == 0 then 0 else 2 * (First(len, n - 1) + Count(len, n - 1))
  }

  ghost function Code(len: seq<int>, i: nat): nat
    requires i < |len| && len[i] >= 0
  {
    First(len, len[i]) + Count(len[..i], len[i])
  }

  lemma {:induction false} KraftZero(len: seq<int>)
    requires forall i :: 0 <= i < |len| ==> len[i] >= 1
    ensures KraftSum(len, 0) == 0 && Count(len, 0) == 0
  {
    if len != [] { KraftZero(len[..|len| - 1]); }
  }

  lemma {:induction false} KraftStep(len: seq<int>, m: nat)
    ensures KraftSum(len, m + 1) == 2 * KraftSum(len, m) + Count(len, m + 1)
  {
    if len != [] { KraftStep(len[..|len| - 1], m); }
  }

  /** After the codes of length n, the next free code is the Kraft sum. */
  lemma {:induction false} FirstIsKraft(len: seq<int>, n: nat)
    requires forall i :: 0 <= i < |len| ==> len[i] >= 1
    ensures First(len, n) + Count(len, n) == KraftSum(len, n)
    ensures n > 0 ==> First(len, n) == 2 * KraftSum(len, n - 1)
  {
    if n == 0 {
      KraftZero(len);
    } else {
      FirstIsKraft(len, n - 1);
      KraftStep(len, n - 1);
    }
  }

  lemma {:induction false} KraftGrows(len: seq<int>, n: nat, m: nat)
    requires n <= m
    ensures Shl(KraftSum(len, n), m - n) <= KraftSum(len, m)
    decreases m - n
  {
    if n < m {
      KraftGrows(len, n, m - 1);
      KraftStep(len, m - 1);
    }
  }

  lemma {:induction false} ShlPow2(n: nat, d: nat)
    ensures Shl(Pow2(n), d) == Pow2(n + d)
  {
    if d > 0 { ShlPow2(n, d - 1); }
  }

  lemma {:induction false} ShlLess(a: nat, b: nat, d: nat)
    requires a < b
    ensures Shl(a, d) < Shl(b, d)
  {
    if d > 0 { ShlLess(a, b, d - 1); }
  }

  /** Dropping d digits compares as appending d zeros to the other side. */
  lemma {:induction false} HalveBounds(x: nat, k: nat, d: nat)
    ensures Halve(x, d) < k <==> x < Shl(k, d)
  {
    if d > 0 {
      HalveBounds(x / 2, k, d - 1);
    }
  }

  lemma {:induction false} KraftFits(len: seq<int>, n: nat)
    requires Lengths(len) && n <= MAX_LEN
    ensures KraftSum(len, n) <= Pow2(n)
  {
    KraftGrows(len, n, MAX_LEN);
    ShlPow2(n, MAX_LEN - n);
    if KraftSum(len, n) > Pow2(n) {
      ShlLess(Pow2(n), KraftSum(len, n), MAX_LEN - n);
    }
  }

  /** A code lies between the first and the next free code of its length. */
  lemma {:induction false} CodeRange(len: seq<int>, i: nat)
    requires Lengths(len) && i < |len|
    ensures First(len, len[i]) <= Code(len, i) < KraftSum(len, len[i]) <= Pow2(len[i])
  {
    FirstIsKraft(len, len[i]);
    CountPrefix(len, i, |len|, len[i]);
    assert len[..|len|] == len;
    KraftFits(len, len[i]);
  }

  /** The first n digits of a longer code exceed every code of length n. */
  lemma {:induction false} PrefixAbove(len: seq<int>, i: nat, n: nat)
    requires Lengths(len) && i < |len| && n < len[i]
    ensures Halve(Code(len, i), len[i] - n) >= KraftSum(len, n)
  {
    CodeRange(len, i);
    FirstIsKraft(len, len[i]);
    KraftGrows(len, n, len[i] - 1);
    HalveBounds(Code(len, i), KraftSum(len, n), len[i] - n);
  }

  /** The first n digits of a code form a number of n digits. */
  lemma {:induction false} PrefixFits(len: seq<int>, i: nat, n: nat)
    requires Lengths(len) && i < |len| && n <= len[i]
    ensures Halve(Code(len, i), len[i] - n) < Pow2(n)
  {
    CodeRange(len, i);
    ShlPow2(n, len[i] - n);
    HalveBounds(Code(len, i), Pow2(n), len[i] - n);
  }

  /** Codes are prefix-free: no code starts a different symbol's code. */
  lemma {:induction false} PrefixFree(len: seq<int>, i: nat, j: nat)
    requires Lengths(len) && i < |len| && j < |len| && i != j && len[i] <= len[j]
    ensures BitsOf(Code(len, j), len[j])[..len[i]] != BitsOf(Code(len, i), len[i])
  {
    assert len[i] >= 1;
    hide *;
    CodeRange(len, i);
    PrefixFits(len, j, len[i]);
    CodesDiffer(len, i, j);
    FirstDigits(Code(len, i), Code(len, j), len[i], len[j] - len[i]);
  }

  /** A number of n digits that is not the first n of n + d digits. */
  lemma {:induction false} FirstDigits(c: nat, c': nat, n: nat, d: nat)
    requires c < Pow2(n) && Halve(c', d) < Pow2(n) && Halve(c', d) != c
    ensures BitsOf(c', n + d)[..n] != BitsOf(c, n)
  {
    hide BitsOf, Halve, Value, Pow2;
    BitsSplit(c', n, d);
    ValueOfBits(Halve(c', d), n);
    ValueOfBits(c, n);
  }

  lemma {:induction false} CodesDiffer(len: seq<int>, i: nat, j: nat)
    requires Lengths(len) && i < |len| && j < |len| && i != j && len[i] <= len[j]
    ensures Halve(Code(len, j), len[j] - len[i]) != Code(len, i)
  {
    CodeRange(len, i);
    if len[i] < len[j] {
      PrefixAbove(len, j, len[i]);
    } else {
      if i < j { CountPrefix(len, i, j, len[i]); } else { CountPrefix(len, j, i, len[i]); }
    }
  }

  // ---- assigning codes ----

  method AssignCodes(len: seq<int>, minLen: nat, maxLen: nat) returns (code: array<int>)
    requires Lengths(len) && minLen <= maxLen <= MAX_LEN && forall i :: 0 <= i < |len| ==> minLen <= len[i] <= maxLen
    ensures fresh(code) && code.Length == |len| && forall i :: 0 <= i < |len| ==> code[i] == Code(len, i)
  {
    code := new int[|len|];
    var vec := 0;
    var n := minLen;
    FirstZero(len, minLen);
    while n <= maxLen
      invariant minLen <= n <= maxLen + 1 && vec == First(len, n)
      invariant forall i :: 0 <= i < |len| && len[i] < n ==> code[i] == Code(len, i)
    {
      var i := 0;
      while i < |len|
        invariant 0 <= i <= |len| && vec == First(len, n) + Count(len[..i], n)
        invariant forall k :: 0 <= k < |len| && (len[k] < n || (len[k] == n && k < i)) ==> code[k] == Code(len, k)
      {
        CountStep(len, i, n);
        if len[i] == n {
          code[i] := vec;
          vec := vec + 1;
        }
        i := i + 1;
      }
      assert len[..i] == len;
      vec := vec * 2;
      n := n + 1;
    }
  }

  lemma {:induction false} FirstZero(len: seq<int>, n: nat)
    requires forall i :: 0 <= i < |len| ==> len[i] >= n
    ensures First(len, n) == 0
  {
    if n > 0 {
      FirstZero(len, n - 1);
      NoneBelow(len, n - 1);
    }
  }

  lemma {:induction false} NoneBelow(len: seq<int>, c: int)
    requires forall i :: 0 <= i < |len| ==> len[i] > c
    ensures Count(len, c) == 0 && Below(len, c) == 0
  {
    if len != [] { NoneBelow(len[..|len| - 1], c); }
  }

  // ---- decoding tables ----

  /** limit, base and perm as the decoder needs them, for lengths minLen..maxLen. */
  ghost predicate Tables(len: seq<int>, limit: seq<int>, base: seq<int>, perm: seq<int>, minLen: nat, maxLen: nat) {
    && |limit| >= MAX_CODE_LEN && |base| >= MAX_CODE_LEN && |perm| >= |len| && 1 <= minLen <= maxLen <= MAX_LEN
    && (forall i :: 0 <= i < |len| ==> minLen <= len[i] <= maxLen)
    && (forall n :: minLen <= n <= maxLen ==> limit[n] == KraftSum(len, n) - 1)
    && (forall n :: minLen <= n <= maxLen ==> base[n] == First(len, n) - Below(len, n))
    && (forall i :: 0 <= i < |len| ==> 0 <= Rank(len, i) < |len| && perm[Rank(len, i)] == i)
  }

  ghost predicate Filled(len: seq<int>, pm: seq<int>, n: int, j: int) {
    && |len| <= |pm|
    && forall k :: 0 <= k < |len| && (len[k] < n || (len[k] == n && k < j)) ==>
       0 <= Rank(len, k) < |len| && pm[Rank(len, k)] == k
  }

  lemma {:induction false} FillStep(len: seq<int>, pm: seq<int>, n: int, j: nat)
    requires Filled(len, pm, n, j) && j < |len|
    ensures len[j] == n ==> 0 <= Rank(len, j) < |len| && Filled(len, pm[Rank(len, j) := j], n, j + 1)
    ensures len[j] != n ==> Filled(len, pm, n, j + 1)
  {
    RanksArePerm(len);
    hide Rank;
    assert Ranks(len)[j] == Rank(len, j);
    forall k | 0 <= k < |len| && k != j ensures Rank(len, k) != Rank(len, j) { assert Ranks(len)[k] == Rank(len, k); }
  }

  method FillPerm(len: seq<int>, minLen: nat, maxLen: nat, perm: array<int>)
    requires perm.Length >= |len| && minLen <= maxLen && forall i :: 0 <= i < |len| ==> minLen <= len[i] <= maxLen
    modifies perm
    ensures Filled(len, perm[..], maxLen + 1, 0)
  {
    var pp := 0;
    var n := minLen;
    NoneBelow(len, minLen - 1);
    BelowStep(len, minLen - 1);
    assert Filled(len, perm[..], minLen, 0);
    hide Filled, Below, Count;
    while n <= maxLen
      invariant minLen <= n <= maxLen + 1 && pp == Below(len, n) && Filled(len, perm[..], n, 0)
    {
      var j := 0;
      assert len[..0] == [];
      CountEmpty(n);
      while j < |len|
        invariant 0 <= j <= |len| && pp == Below(len, n) + Count(len[..j], n) && Filled(len, perm[..], n, j)
      {
        ghost var pm := perm[..];
        FillStep(len, pm, n, j);
        CountStep(len, j, n);
        if len[j] == n {
          assert pp == Rank(len, j);
          perm[pp] := j;
          assert perm[..] == pm[pp := j];
          pp := pp + 1;
        }
        j := j + 1;
      }
      assert len[..j] == len;
      BelowStep(len, n);
      FillNext(len, perm[..], n);
      n := n + 1;
    }
  }

  lemma CountEmpty(c: int)
    ensures Count([], c) == 0
  {
  }

  lemma FillNext(len: seq<int>, pm: seq<int>, n: int)
    requires Filled(len, pm, n, |len|)
    ensures Filled(len, pm, n + 1, 0)
  {
  }

  /** base first counts, then accumulates: base[n] symbols are shorter than n. */
  method CountLengths(len: seq<int>, base: array<int>)
    requires Lengths(len) && base.Length >= MAX_CODE_LEN
    modifies base
    ensures forall n :: 0 <= n < MAX_CODE_LEN ==> base[n] == Below(len, n)
  {
    for i := 0 to MAX_CODE_LEN
      invariant forall n :: 0 <= n < i ==> base[n] == 0
    {
      base[i] := 0;
    }
    for i := 0 to |len|
      invariant forall n :: 0 <= n < MAX_CODE_LEN ==> base[n] == Count(len[..i], n - 1)
    {
      forall c | -1 <= c < MAX_CODE_LEN - 1
        ensures Count(len[..i + 1], c) == Count(len[..i], c) + (if len[i] == c then 1 else 0)
      {
        CountStep(len, i, c);
      }
      base[len[i] + 1] := base[len[i] + 1] + 1;
    }
    assert len[..|len|] == len;
    NoneBelow(len, -1);
    NoneBelow(len, 0);
    BelowStep(len, -1);
    for i := 1 to MAX_CODE_LEN
      invariant forall n :: 0 <= n < MAX_CODE_LEN ==> base[n] == if n < i then Below(len, n) else Count(len, n - 1)
    {
      BelowStep(len, i - 1);
      base[i] := base[i] + base[i - 1];
    }
  }

  method CreateDecodeTables(len: seq<int>, minLen: nat, maxLen: nat, limit: array<int>, base: array<int>,
                            perm: array<int>)
    requires Lengths(len) && limit != base && limit != perm && base != perm
    requires limit.Length >= MAX_CODE_LEN && base.Length >= MAX_CODE_LEN && perm.Length >= |len|
    requires 1 <= minLen <= maxLen <= MAX_LEN && forall i :: 0 <= i < |len| ==> minLen <= len[i] <= maxLen
    modifies limit, base, perm
    ensures Tables(len, limit[..], base[..], perm[..], minLen, maxLen)
  {
    hide Filled, Rank, Below, Count, First, KraftSum, Lengths;
    FillPerm(len, minLen, maxLen, perm);
    CountLengths(len, base);
    ghost var pm := perm[..];
    FillLimits(len, minLen, maxLen, limit, base);
    FinishBase(len, minLen, maxLen, limit, base);
    FilledAll(len, pm, minLen, maxLen);
  }

  lemma FilledAll(len: seq<int>, pm: seq<int>, minLen: nat, maxLen: nat)
    requires Filled(len, pm, maxLen + 1, 0) && forall i :: 0 <= i < |len| ==> minLen <= len[i] <= maxLen
    ensures forall i :: 0 <= i < |len| ==> 0 <= Rank(len, i) < |len| <= |pm| && pm[Rank(len, i)] == i
  {
  }

  /** base entries below i have their final value, the others still count shorter symbols. */
  ghost predicate BaseTo(len: seq<int>, bs: seq<int>, minLen: nat, maxLen: nat, i: nat) {
    && maxLen < |bs|
    && forall n :: minLen <= n <= maxLen ==> bs[n] == if n < i then First(len, n) - Below(len, n) else Below(len, n)
  }

  lemma {:induction false} BaseStart(len: seq<int>, bs: seq<int>, minLen: nat, maxLen: nat)
    requires 1 <= minLen <= maxLen < |bs| && forall i :: 0 <= i < |len| ==> minLen <= len[i] <= maxLen
    requires forall n :: 0 <= n <= maxLen ==> bs[n] == Below(len, n)
    ensures BaseTo(len, bs, minLen, maxLen, minLen + 1)
  {
    FirstZero(len, minLen);
    NoneBelow(len, minLen - 1);
    BelowStep(len, minLen - 1);
  }

  lemma {:induction false} BaseStep(len: seq<int>, bs: seq<int>, minLen: nat, maxLen: nat, i: nat, l: int)
    requires BaseTo(len, bs, minLen, maxLen, i) && minLen < i <= maxLen && l == KraftSum(len, i - 1) - 1
    requires forall i :: 0 <= i < |len| ==> len[i] >= 1
    ensures BaseTo(len, bs[i := (l + 1) * 2 - bs[i]], minLen, maxLen, i + 1)
  {
    hide First, Below, Count, KraftSum;
    FirstIsKraft(len, i);
  }

  /** base[n] becomes what is subtracted from a code of length n to find its place in perm. */
  method FinishBase(len: seq<int>, minLen: nat, maxLen: nat, limit: array<int>, base: array<int>)
    requires limit != base && limit.Length >= MAX_CODE_LEN && base.Length >= MAX_CODE_LEN
    requires 1 <= minLen <= maxLen <= MAX_LEN && forall i :: 0 <= i < |len| ==> minLen <= len[i] <= maxLen
    requires forall n :: minLen <= n <= maxLen ==> limit[n] == KraftSum(len, n) - 1
    requires forall n :: 0 <= n < MAX_CODE_LEN ==> base[n] == Below(len, n)
    modifies base
    ensures BaseTo(len, base[..], minLen, maxLen, maxLen + 1)
  {
    assert MAX_LEN == 20 && MAX_CODE_LEN == 23;
    hide *;
    BaseStart(len, base[..], minLen, maxLen);
    var i := minLen + 1;
    while i <= maxLen
      invariant minLen + 1 <= i <= maxLen + 1 && BaseTo(len, base[..], minLen, maxLen, i)
    {
      ghost var bs := base[..];
      BaseStep(len, bs, minLen, maxLen, i, limit[i - 1]);
      base[i] := (limit[i - 1] + 1) * 2 - base[i];
      assert base[..] == bs[i := (limit[i - 1] + 1) * 2 - bs[i]];
      i := i + 1;
    }
  }

  method FillLimits(len: seq<int>, minLen: nat, maxLen: nat, limit: array<int>, base: array<int>)
    requires Lengths(len) && limit != base && limit.Length >= MAX_CODE_LEN && base.Length >= MAX_CODE_LEN
    requires 1 <= minLen <= maxLen <= MAX_LEN && forall i :: 0 <= i < |len| ==> minLen <= len[i]
    requires forall n :: 0 <= n < MAX_CODE_LEN ==> base[n] == Below(len, n)
    modifies limit
    ensures forall n :: minLen <= n <= maxLen ==> limit[n] == KraftSum(len, n) - 1
  {
    for i := 0 to MAX_CODE_LEN {
      limit[i] := 0;
    }
    FirstZero(len, minLen);
    hide Below, Count, First, KraftSum;
    var vec := 0;
    var i := minLen;
    while i <= maxLen
      invariant minLen <= i <= maxLen + 1 && vec == First(len, i)
      invariant forall n :: minLen <= n < i ==> limit[n] == KraftSum(len, n) - 1
    {
      BelowStep(len, i);
      FirstIsKraft(len, i);
      FirstIsKraft(len, i + 1);
      assert First(len, i + 1) == 2 * KraftSum(len, i);
      vec := vec + (base[i + 1] - base[i]);
      limit[i] := vec - 1;
      vec := vec * 2;
      i := i + 1;
    }
  }

  // ---- decoding ----

  datatype Symbol = DataError | Decoded(sym: int)

  /** The bit-by-bit loop: compare with limit, one bit more each time. */
  method Decode(r: Reader, limit: seq<int>, base: seq<int>, perm: seq<int>, minLen: nat,
                ghost len: seq<int>, ghost maxLen: nat, ghost s: nat, ghost rest: seq<bool>) returns (res: Symbol)
    requires r.Valid() && Lengths(len) && Tables(len, limit, base, perm, minLen, maxLen) && s < |len|
    requires r.Remaining() == BitsOf(Code(len, s), len[s]) + rest
    modifies r
    ensures r.Valid() && res == Decoded(s) && r.Remaining() == rest
  {
    hide BitsOf, ByteBits, Value, KraftSum, First, Count, Below;
    ghost var code := BitsOf(Code(len, s), len[s]);
    assert MAX_LEN == 20;
    var zn := minLen;
    var ok, zvec := r.GetBits(zn);
    ReadPrefix(len, s, zn, rest);
    while true
      invariant minLen <= zn <= len[s] && r.Valid()
      invariant zvec == Halve(Code(len, s), len[s] - zn) && r.Remaining() == (code + rest)[zn..]
      decreases len[s] - zn
    {
      if zn > 20 { return DataError; }
      Compare(len, s, zn);
      if zvec <= limit[zn] { break; }
      zn := zn + 1;
      var zj;
      ok, zj := r.GetBits(1);
      NextBit(len, s, zn, rest);
      zvec := zvec * 2 + zj;
    }
    RankInBucket(len, s);
    var idx := zvec - base[zn];
    assert idx == Rank(len, s);
    if idx < 0 || idx >= 258 { return DataError; }
    res := Decoded(perm[idx]);
    assert (code + rest)[len[s]..] == rest;
  }

  lemma {:induction false} ReadPrefix(len: seq<int>, s: nat, n: nat, rest: seq<bool>)
    requires Lengths(len) && s < |len| && n <= len[s]
    ensures Value((BitsOf(Code(len, s), len[s]) + rest)[..n]) == Halve(Code(len, s), len[s] - n)
  {
    var c, d := Code(len, s), len[s] - n;
    PrefixFits(len, s, n);
    BitsSplit(c, n, d);
    ValueOfBits(Halve(c, d), n);
    hide BitsOf, Value, Halve, Code, Lengths;
    assert (BitsOf(c, n + d) + rest)[..n] == BitsOf(Halve(c, d), n);
  }

  lemma {:induction false} NextBit(len: seq<int>, s: nat, n: nat, rest: seq<bool>)
    requires Lengths(len) && s < |len| && 0 < n <= len[s]
    ensures var all := BitsOf(Code(len, s), len[s]) + rest;
            && Halve(Code(len, s), len[s] - n) == 2 * Halve(Code(len, s), len[s] - (n - 1)) + Value(all[n - 1..][..1])
            && all[n - 1..][1..] == all[n..]
  {
    var c, d := Code(len, s), len[s] - n;
    var all := BitsOf(c, len[s]) + rest;
    ReadPrefix(len, s, n, rest);
    ReadPrefix(len, s, n - 1, rest);
    var t := all[..n];
    assert t[..n - 1] == all[..n - 1];
    assert Value(t) == 2 * Value(t[..n - 1]) + (if t[n - 1] then 1 else 0);
    var u := all[n - 1..][..1];
    assert u[..0] == [] && u[0] == all[n - 1];
    assert Value(u) == 2 * Value(u[..0]) + (if u[0] then 1 else 0);
  }

  /** The test against limit stops exactly at the symbol's own length. */
  lemma {:induction false} Compare(len: seq<int>, s: nat, n: nat)
    requires Lengths(len) && s < |len| && 0 < n <= len[s]
    ensures Halve(Code(len, s), len[s] - n) <= KraftSum(len, n) - 1 <==> n == len[s]
  {
    CodeRange(len, s);
    if n < len[s] { PrefixAbove(len, s, n); }
  }
}
