/** Undoing the block sort in the decompressor: the fast `tt` table, and the
    small-memory table packed into `ll16` and `ll4`. */
module InverseBwt {
  import opened Bits
  import opened Rotations
  import opened Counting
  import opened BwtTheory

  /** Set up cftab: bucket starts from the byte counts. */
  method Cumulate(unzftab: array<int>, ghost l: seq<int>) returns (cftab: array<int>)
    requires unzftab.Length == 256 && InRange(l, 256) && forall c :: 0 <= c < 256 ==> unzftab[c] == Count(l, c)
    ensures fresh(cftab) && cftab.Length == 257 && forall c :: 0 <= c <= 256 ==> cftab[c] == Below(l, c)
  {
    BelowEnds(l, 256);
    cftab := new int[257](i requires 0 <= i < 257 reads unzftab => if i == 0 then 0 else unzftab[i - 1]);
    var i := 1;
    while i <= 256
      invariant 1 <= i <= 257
      invariant forall c :: 0 <= c <= 256 ==> cftab[c] == if c < i then Below(l, c) else Count(l, c - 1)
    {
      BelowStep(l, i - 1);
      cftab[i] := cftab[i] + cftab[i - 1];
      i := i + 1;
    }
  }

  // ---- fast decoding ----

  ghost function Links(tt: seq<int>, n: nat): (t: seq<int>)
    requires n <= |tt|
    ensures |t| == n && forall j :: 0 <= j < n ==> t[j] == tt[j] / 256
  {
    seq(n, j requires 0 <= j < n => tt[j] / 256)
  }

  ghost predicate Chars(tt: seq<int>, l: seq<int>) {
    |l| <= |tt| && InRange(l, 256) && forall j :: 0 <= j < |l| ==> tt[j] >= 0 && tt[j] % 256 == l[j]
  }

  /** The finished table: characters in the low bytes, links above them. */
  ghost predicate FastTable(tt: seq<int>, l: seq<int>) {
    Chars(tt, l) && Unsorts(l, Links(tt, |l|))
  }

  /** The first i links are in place; the other slots hold only characters. */
  ghost predicate Linking(l: seq<int>, tt: seq<int>, cf: seq<int>, i: nat) {
    && Chars(tt, l) && |cf| == 257 && i <= |l| < 0x100_0000
    && (forall c :: 0 <= c < 256 ==> cf[c] == Below(l, c) + Count(l[..i], c))
    && (forall m :: 0 <= m < |l| ==> 0 <= Rank(l, m) < |l| && tt[Rank(l, m)] / 256 == if m < i then m else 0)
  }

  lemma {:induction false} LinkingStart(l: seq<int>, tt: seq<int>, cf: seq<int>)
    requires Chars(tt, l) && |cf| == 257 && |l| < 0x100_0000
    requires forall c :: 0 <= c < 256 ==> cf[c] == Below(l, c)
    requires forall j :: 0 <= j < |l| ==> tt[j] < 256
    ensures Linking(l, tt, cf, 0)
  {
    RanksArePerm(l);
    forall m | 0 <= m < |l| ensures 0 <= Rank(l, m) < |l| { assert Ranks(l)[m] == Rank(l, m); }
  }

  lemma {:induction false} LinkAt(l: seq<int>, tt: seq<int>, cf: seq<int>, i: nat)
    requires Linking(l, tt, cf, i) && i < |l|
    ensures 0 <= tt[i] && And(tt[i], 0xff) == l[i] && 0 <= l[i] < 256
    ensures cf[l[i]] == Rank(l, i) && 0 <= cf[l[i]] < |l| && tt[cf[l[i]]] >= 0
    ensures Or(tt[cf[l[i]]], Shl32(i, 8)) == tt[cf[l[i]]] + 256 * i
  {
    hide And, Or, Count, Below;
    Pow2Values();
    AndLowMask(tt[i], 8);
    OrShifted(tt[Rank(l, i)], i, 8, 256);
  }

  lemma {:induction false} LinkStep(l: seq<int>, tt: seq<int>, cf: seq<int>, i: nat)
    requires Linking(l, tt, cf, i) && i < |l| && cf[l[i]] == Rank(l, i)
    ensures Linking(l, tt[cf[l[i]] := tt[cf[l[i]]] + 256 * i], cf[l[i] := cf[l[i]] + 1], i + 1)
  {
    hide Count, Below, Rank;
    var k := Rank(l, i);
    RanksArePerm(l);
    forall m | 0 <= m < |l| && m != i ensures Rank(l, m) != k {
      assert Ranks(l)[m] == Rank(l, m) && Ranks(l)[i] == k;
    }
    forall c | 0 <= c < 256 ensures Count(l[..i + 1], c) == Count(l[..i], c) + (if l[i] == c then 1 else 0) {
      CountStep(l, i, c);
    }
  }

  lemma {:induction false} LinkingEnd(l: seq<int>, tt: seq<int>, cf: seq<int>)
    requires Linking(l, tt, cf, |l|)
    ensures FastTable(tt, l)
  {
    hide Count, Below, Rank;
    var t, n := Links(tt, |l|), |l|;
    RanksArePerm(l);
    forall j | 0 <= j < n ensures 0 <= t[j] < n && Rank(l, t[j]) == j {
      var m := PermOnto(Ranks(l), n, j);
      assert Rank(l, m) == j;
    }
  }

  /** Compute the T^(-1) vector in place. */
  method BuildFast(tt: array<int>, cftab: array<int>, nblock: nat, ghost l: seq<int>)
    requires tt != cftab && nblock == |l| && Linking(l, tt[..], cftab[..], 0)
    modifies tt, cftab
    ensures FastTable(tt[..], l)
  {
    assert nblock <= tt.Length && cftab.Length == 257;
    hide *;
    var i := 0;
    while i < nblock
      invariant 0 <= i <= nblock && Linking(l, tt[..], cftab[..], i)
    {
      ghost var t, cf := tt[..], cftab[..];
      LinkAt(l, t, cf, i);
      LinkStep(l, t, cf, i);
      var uc := And(tt[i], 0xff);
      var k := cftab[uc];
      tt[k] := Or(tt[k], Shl32(i, 8));
      cftab[uc] := cftab[uc] + 1;
      assert tt[..] == t[k := t[k] + 256 * i] && cftab[..] == cf[uc := cf[uc] + 1];
      i := i + 1;
    }
    LinkingEnd(l, tt[..], cftab[..]);
  }

  /** BZ_GET_FAST: after k characters, it returns character k of the block. */
  method GetFast(tt: array<int>, tPos: int, ghost b: seq<int>, ghost fm: seq<int>, ghost k: nat)
      returns (c: int, tPos': int)
    requires AtRow(b, fm, tPos, k + 1) && FastTable(tt[..], LastColumn(b, fm))
    ensures c == CharAt(b, k) && AtRow(b, fm, tPos', k + 2)
  {
    tPos' := tt[tPos];
    Pow2Values();
    AndLowMask(tPos', 8);
    c := And(tPos', 0xff);
    AtRowLast(b, fm, tPos, k);
    AtRowStep(b, fm, Links(tt[..], |b|), tPos, k + 1);
    tPos' := tPos' / 256;
  }

  /** The walk starts one link after origPtr. */
  method StartFast(tt: array<int>, origPtr: nat, ghost b: seq<int>, ghost fm: seq<int>) returns (tPos: int)
    requires SortedRotations(b, fm) && origPtr < |b| && fm[origPtr] == 0 && FastTable(tt[..], LastColumn(b, fm))
    ensures AtRow(b, fm, tPos, 1)
  {
    tPos := tt[origPtr] / 256;
    assert AtRow(b, fm, origPtr, 0);
    AtRowStep(b, fm, Links(tt[..], |b|), origPtr, 0);
  }

  // ---- the packed table of small-memory decoding ----

  function Nibble(x: int, i: int): int {
    if i % 2 == 0 then x % 16 else x / 16
  }

  ghost predicate Packed(ll16: seq<int>, ll4: seq<int>, n: nat) {
    && n <= |ll16| && (n + 1) / 2 <= |ll4|
    && (forall i :: 0 <= i < n ==> 0 <= ll16[i] < 0x1_0000)
    && (forall i :: 0 <= i < (n + 1) / 2 ==> 0 <= ll4[i] < 256)
  }

  /** The 20-bit links. */
  ghost function Unpacked(ll16: seq<int>, ll4: seq<int>, n: nat): (t: seq<int>)
    requires Packed(ll16, ll4, n)
    ensures |t| == n && forall i :: 0 <= i < n ==> t[i] == ll16[i] + 0x1_0000 * Nibble(ll4[i / 2], i)
  {
    seq(n, i requires 0 <= i < n => ll16[i] + 0x1_0000 * Nibble(ll4[i / 2], i))
  }

  /** The two masked stores of SET_LL4. */
  lemma {:induction false} NibbleLow(x: nat, v: nat)
    requires x < 256 && v < 16
    ensures Or(And(x, 0xf0), v) == x / 16 * 16 + v
  {
    hide And, Or;
    Pow2Values();
    AndLowMask(x / 16, 4);
    AndHighMask(x, 0xf, 4);
    HalveIsDiv(x, 4);
    assert Shl(0xf, 4) == 0xf0;
    var a := x / 16;
    assert Shl(a, 4) == 2 * Shl(a, 3) == 4 * Shl(a, 2) == 8 * Shl(a, 1) == 16 * a;
    OrDisjoint(a, 4, v);
  }

  lemma {:induction false} NibbleHigh(x: nat, v: nat)
    requires x < 256 && v < 16
    ensures Or(And(x, 0x0f), Shl32(v, 4)) == x % 16 + v * 16
  {
    hide And, Or;
    Pow2Values();
    AndLowMask(x, 4);
    OrShifted(x % 16, v, 4, 16);
  }

  /** The read of GET_LL4. */
  lemma {:induction false} NibbleRead(x: nat)
    requires x < 256
    ensures And(x, 0xf) == x % 16 && And(x / 16, 0xf) == x / 16
  {
    hide And;
    Pow2Values();
    AndLowMask(x, 4);
    AndLowMask(x / 16, 4);
  }

  /** Entry i of the packed table became v, and nothing else changed. */
  ghost predicate Stored(s: seq<int>, s4: seq<int>, t: seq<int>, t4: seq<int>, n: nat, i: nat, v: int) {
    && i < n && Packed(s, s4, n) && Packed(t, t4, n) && |t| == |s|
    && Unpacked(t, t4, n) == Unpacked(s, s4, n)[i := v]
    && forall m :: 0 <= m < |s| && m != i ==> t[m] == s[m]
  }

  lemma StoredLinks(s: seq<int>, s4: seq<int>, t: seq<int>, t4: seq<int>, n: nat, i: nat, v: int)
    requires Stored(s, s4, t, t4, n, i, v)
    ensures Packed(s, s4, n) && Packed(t, t4, n) && Unpacked(t, t4, n) == Unpacked(s, s4, n)[i := v]
  {
  }

  /** SET_LL stores any 20-bit link and disturbs no other. */
  method SetLL(ll16: array<int>, ll4: array<int>, ghost n: nat, i: nat, v: int)
    requires ll16 != ll4 && Packed(ll16[..], ll4[..], n) && i < n && 0 <= v < 0x10_0000
    modifies ll16, ll4
    ensures Packed(ll16[..], ll4[..], n)
    ensures Stored(old(ll16[..]), old(ll4[..]), ll16[..], ll4[..], n, i, v)
  {
    ghost var s, s4 := ll16[..], ll4[..];
    AndHalf(v);
    ll16[i] := And(v, 0xffff);
    var h := v / 0x1_0000;
    NibbleLow(ll4[i / 2], h);
    NibbleHigh(ll4[i / 2], h);
    if i % 2 == 0 {
      ll4[i / 2] := Or(And(ll4[i / 2], 0xf0), h);
    } else {
      ll4[i / 2] := Or(And(ll4[i / 2], 0x0f), Shl32(h, 4));
    }
    LinkStored(s, s4, n, i, v, ll16[..], ll4[..]);
  }

  lemma {:induction false} AndHalf(v: nat)
    ensures And(v, 0xffff) == v % 0x1_0000
  {
    Pow2Values();
    AndLowMask(v, 16);
  }

  lemma {:induction false} LinkStored(s: seq<int>, s4: seq<int>, n: nat, i: nat, v: int, t: seq<int>, t4: seq<int>)
    requires Packed(s, s4, n) && i < n && 0 <= v < 0x10_0000
    requires t == s[i := v % 0x1_0000]
    requires t4 == s4[i / 2 := if i % 2 == 0 then s4[i / 2] / 16 * 16 + v / 0x1_0000
                               else s4[i / 2] % 16 + v / 0x1_0000 * 16]
    ensures Packed(t, t4, n) && Unpacked(t, t4, n) == Unpacked(s, s4, n)[i := v]
  {
    hide Nibble;
    var x, h := s4[i / 2], v / 0x1_0000;
    NibbleKept(x, h, i);
    forall j | 0 <= j < n ensures Unpacked(t, t4, n)[j] == Unpacked(s, s4, n)[i := v][j] {
      LinkEntry(s4, t4, i, j, h);
    }
  }

  lemma {:induction false} NibbleKept(x: nat, h: nat, i: nat)
    requires x < 256 && h < 16
    ensures var y := if i % 2 == 0 then x / 16 * 16 + h else x % 16 + h * 16;
            0 <= y < 256 && Nibble(y, i) == h && Nibble(y, i + 1) == Nibble(x, i + 1)
  {
  }

  lemma {:induction false} LinkEntry(s4: seq<int>, t4: seq<int>, i: nat, j: nat, h: nat)
    requires |s4| == |t4| && i / 2 < |s4| && j / 2 < |s4| && (i / 2 != j / 2 ==> t4[j / 2] == s4[j / 2])
    requires Nibble(t4[i / 2], i) == h && Nibble(t4[i / 2], i + 1) == Nibble(s4[i / 2], i + 1)
    ensures Nibble(t4[j / 2], j) == if i == j then h else Nibble(s4[j / 2], j)
  {
  }

  method GetLL(ll16: array<int>, ll4: array<int>, ghost n: nat, i: nat) returns (v: int)
    requires Packed(ll16[..], ll4[..], n) && i < n
    ensures v == Unpacked(ll16[..], ll4[..], n)[i]
  {
    var x := ll4[i / 2];
    NibbleRead(x);
    OrHigh(ll16[i], Nibble(x, i));
    v := Or(ll16[i], Shl32(And(if i % 2 == 0 then x else x / 16, 0xf), 16));
  }

  lemma {:induction false} OrHigh(lo: nat, h: nat)
    requires lo < 0x1_0000 && h < 16
    ensures Or(lo, Shl32(h, 16)) == lo + 0x1_0000 * h
  {
    Pow2Values();
    OrShifted(lo, h, 16, 0x1_0000);
  }

  // ---- small-memory decoding ----

  /** Before the T vector: characters in ll16; after i links, links below i. */
  ghost predicate Forwarding(l: seq<int>, ll16: seq<int>, ll4: seq<int>, cf: seq<int>, i: nat) {
    && Packed(ll16, ll4, |l|) && |cf| == 257 && i <= |l| < 0x10_0000 && InRange(l, 256)
    && (forall c :: 0 <= c < 256 ==> cf[c] == Below(l, c) + Count(l[..i], c))
    && (forall m :: i <= m < |l| ==> ll16[m] == l[m])
    && (forall m :: 0 <= m < i ==> Unpacked(ll16, ll4, |l|)[m] == Rank(l, m))
  }

  lemma {:induction false} ForwardAt(l: seq<int>, ll16: seq<int>, ll4: seq<int>, cf: seq<int>, i: nat)
    requires Forwarding(l, ll16, ll4, cf, i) && i < |l|
    ensures i < |ll16| && ll16[i] == l[i] && 0 <= l[i] < 256 && |cf| == 257 && 0 <= cf[l[i]] < 0x10_0000
    ensures Packed(ll16, ll4, |l|)
  {
    RankInBucket(l, i);
  }

  lemma {:induction false} ForwardStep(l: seq<int>, ll16: seq<int>, ll4: seq<int>, ll16': seq<int>, ll4': seq<int>,
                                       cf: seq<int>, i: nat)
    requires Forwarding(l, ll16, ll4, cf, i) && i < |l|
    requires 0 <= l[i] < 256 && Stored(ll16, ll4, ll16', ll4', |l|, i, cf[l[i]])
    ensures Forwarding(l, ll16', ll4', cf[l[i] := cf[l[i]] + 1], i + 1)
  {
    hide Count, Below, Unpacked;
    assert cf[l[i]] == Rank(l, i);
    forall c | 0 <= c < 256 ensures Count(l[..i + 1], c) == Count(l[..i], c) + (if l[i] == c then 1 else 0) {
      CountStep(l, i, c);
    }
  }

  method ForwardOne(ll16: array<int>, ll4: array<int>, cftabCopy: array<int>, i: nat, ghost l: seq<int>)
    requires ll16 != ll4 && ll16 != cftabCopy && ll4 != cftabCopy && i < |l|
    requires Forwarding(l, ll16[..], ll4[..], cftabCopy[..], i)
    modifies ll16, ll4, cftabCopy
    ensures Forwarding(l, ll16[..], ll4[..], cftabCopy[..], i + 1)
  {
    hide *;
    ghost var s, s4, cf := ll16[..], ll4[..], cftabCopy[..];
    ForwardAt(l, s, s4, cf, i);
    var uc := ll16[i] % 256;
    var v := cftabCopy[uc];
    SetLL(ll16, ll4, |l|, i, v);
    cftabCopy[uc] := v + 1;
    assert cftabCopy[..] == cf[uc := v + 1];
    ForwardStep(l, s, s4, ll16[..], ll4[..], cf, i);
  }

  /** Compute the T vector; every entry i becomes the sorted position of character i. */
  method BuildForward(ll16: array<int>, ll4: array<int>, cftabCopy: array<int>, nblock: nat, ghost l: seq<int>)
    requires ll16 != ll4 && ll16 != cftabCopy && ll4 != cftabCopy && nblock == |l|
    requires Forwarding(l, ll16[..], ll4[..], cftabCopy[..], 0)
    modifies ll16, ll4, cftabCopy
    ensures Forwarded(l, ll16[..], ll4[..])
  {
    hide *;
    var i := 0;
    while i < nblock
      invariant 0 <= i <= nblock && Forwarding(l, ll16[..], ll4[..], cftabCopy[..], i)
    {
      ForwardOne(ll16, ll4, cftabCopy, i, l);
      i := i + 1;
    }
    ForwardEnd(l, ll16[..], ll4[..], cftabCopy[..]);
  }



  lemma ForwardEnd(l: seq<int>, ll16: seq<int>, ll4: seq<int>, cf: seq<int>)
    requires Forwarding(l, ll16, ll4, cf, |l|)
    ensures Forwarded(l, ll16, ll4)
  {
  }

  /** The packed table maps every last-column position to its sorted position. */
  ghost predicate Forwarded(l: seq<int>, ll16: seq<int>, ll4: seq<int>) {
    Packed(ll16, ll4, |l|) && Unpacked(ll16, ll4, |l|) == Ranks(l) && InRange(l, 256) && |l| < 0x10_0000
  }

  /** The orbit of o under p, from o on: each entry is the image of the one before. */
  ghost predicate Orbit(p: seq<int>, o: int, orb: seq<int>) {
    && IsPerm(p, |p|) && 0 <= o < |p| && |orb| > 0 && orb[0] == o
    && (forall k :: 0 <= k < |orb| ==> 0 <= orb[k] < |p|)
    && (forall k :: 0 < k < |orb| ==> orb[k] == p[orb[k - 1]])
    && (forall k, m :: 0 <= k < m < |orb| ==> orb[k] != orb[m])
  }

  /** Pointers along orb after its first entry are reversed; all others are p's. */
  ghost predicate Reversing(p: seq<int>, o: int, orb: seq<int>, t: seq<int>) {
    && Orbit(p, o, orb) && |t| == |p|
    && (forall k :: 0 < k < |orb| ==> t[orb[k]] == orb[k - 1])
    && (forall x :: 0 <= x < |p| && x !in orb[1..] ==> t[x] == p[x])
  }

  /** The finished table inverts p on the cycle through o and equals p elsewhere. */
  ghost predicate Reversed(p: seq<int>, o: int, orb: seq<int>, t: seq<int>) {
    && Orbit(p, o, orb) && |t| == |p|
    && (forall x :: x in orb ==> t[x] in orb && p[t[x]] == x)
    && (forall x :: 0 <= x < |p| && x !in orb ==> t[x] == p[x])
  }

  lemma {:induction false} OrbitShort(p: seq<int>, o: int, orb: seq<int>, t: seq<int>)
    requires Reversing(p, o, orb, t)
    ensures |orb| <= |p| == |t| && 0 <= orb[|orb| - 1] < |p|
  {
    DistinctElements(orb);
    assert Elements(orb) <= Numbers(|p|);
    SubsetSize(Elements(orb), Numbers(|p|));
  }

  /** The image of the last orbit entry is new, or it is o again. */
  lemma {:induction false} OrbitNext(p: seq<int>, o: int, orb: seq<int>)
    requires Orbit(p, o, orb)
    ensures p[orb[|orb| - 1]] != o ==> Orbit(p, o, orb + [p[orb[|orb| - 1]]])
    ensures p[orb[|orb| - 1]] !in orb[1..]
  {
    var x := orb[|orb| - 1];
    forall k | 0 < k < |orb| ensures orb[k] != p[x] {
      assert orb[k - 1] != x;
    }
  }

  lemma {:induction false} ReverseStep(p: seq<int>, o: int, orb: seq<int>, t: seq<int>)
    requires Reversing(p, o, orb, t)
    ensures var i := orb[|orb| - 1]; var j := p[i];
            && 0 <= j < |p| && t[j] == p[j]
            && (j != o ==> Reversing(p, o, orb + [j], t[j := i]))
            && (j == o ==> Reversed(p, o, orb, t[j := i]))
  {
    var i := orb[|orb| - 1];
    var j := p[i];
    OrbitNext(p, o, orb);
    if j != o {
      assert (orb + [j])[1..] == orb[1..] + [j];
    } else {
      var t' := t[j := i];
      forall x | x in orb ensures t'[x] in orb && p[t'[x]] == x {
        var k :| 0 <= k < |orb| && orb[k] == x;
        if k > 0 { assert t'[x] == orb[k - 1]; }
      }
    }
  }

  /** Compute T^(-1) on the cycle through origPtr by pointer reversal. */
  method ReversePointers(ll16: array<int>, ll4: array<int>, origPtr: nat, ghost p: seq<int>)
      returns (ghost orb: seq<int>)
    requires ll16 != ll4 && Packed(ll16[..], ll4[..], |p|) && Unpacked(ll16[..], ll4[..], |p|) == p
    requires IsPerm(p, |p|) && origPtr < |p| < 0x10_0000
    modifies ll16, ll4
    ensures Packed(ll16[..], ll4[..], |p|) && Reversed(p, origPtr, orb, Unpacked(ll16[..], ll4[..], |p|))
  {
    ghost var n := |p|;
    orb := [origPtr];
    assert Reversing(p, origPtr, orb, p);
    hide *;
    var i := origPtr;
    var j := GetLL(ll16, ll4, n, i);
    while true
      invariant Packed(ll16[..], ll4[..], n) && Reversing(p, origPtr, orb, Unpacked(ll16[..], ll4[..], n))
      invariant |orb| > 0 && i == orb[|orb| - 1] && 0 <= i < n && j == p[i]
      decreases n - |orb|
    {
      ghost var t := Unpacked(ll16[..], ll4[..], n);
      ReverseStep(p, origPtr, orb, t);
      OrbitShort(p, origPtr, orb, t);
      var tmp := GetLL(ll16, ll4, n, j);
      ghost var s, s4 := ll16[..], ll4[..];
      SetLL(ll16, ll4, n, j, i);
      StoredLinks(s, s4, ll16[..], ll4[..], n, j, i);
      i := j;
      j := tmp;
      if i == origPtr { break; }
      orb := orb + [i];
      OrbitShort(p, origPtr, orb, Unpacked(ll16[..], ll4[..], n));
    }
  }

  /** BZ2_indexIntoF: the bucket that holds an index, by bisection. */
  method IndexIntoF(indx: int, cftab: array<int>) returns (nb: int)
    requires cftab.Length == 257 && cftab[0] <= indx < cftab[256]
    ensures 0 <= nb < 256 && cftab[nb] <= indx < cftab[nb + 1]
  {
    nb := 0;
    var na := 256;
    while true
      invariant 0 <= nb < na <= 256 && (nb + 2 <= na || nb + 1 == na) && cftab[nb] <= indx < cftab[na]
      invariant nb + 1 < na
      decreases na - nb
    {
      var mid := (nb + na) / 2;
      if indx >= cftab[mid] { nb := mid; } else { na := mid; }
      if na - nb == 1 { break; }
    }
  }

  /** The sorted column: row j starts with the byte whose bucket holds j. */
  lemma {:induction false} FirstColumn(b: seq<int>, fm: seq<int>, t: seq<int>, j: nat, c: int)
    requires SortedRotations(b, fm) && Unsorts(LastColumn(b, fm), t) && j < |b|
    requires Below(LastColumn(b, fm), c) <= j < Below(LastColumn(b, fm), c + 1)
    ensures c == b[fm[j]]
  {
    hide Below, Count, Row, SortedRotations;
    var l := LastColumn(b, fm);
    WalkStep(b, fm, t, j);
    hide Rank;
    RankInBucket(l, t[j]);
    BucketUnique(l, c, l[t[j]], j);
  }

  lemma {:induction false} InverseUnsorts(l: seq<int>) returns (t: seq<int>)
    ensures Unsorts(l, t)
  {
    RanksArePerm(l);
    t := Inverse(Ranks(l));
    forall i, j | 0 <= i < j < |l| ensures t[i] != t[j] { assert Ranks(l)[t[i]] != Ranks(l)[t[j]]; }
  }

  /** What the small-memory walk needs at every step. */
  ghost predicate SmallTable(b: seq<int>, fm: seq<int>, orb: seq<int>, ll16: seq<int>, ll4: seq<int>, cf: seq<int>) {
    && SortedRotations(b, fm) && Packed(ll16, ll4, |b|) && |cf| == 257 && |orb| > 0
    && Reversed(Ranks(LastColumn(b, fm)), orb[0], orb, Unpacked(ll16, ll4, |b|))
    && (forall c :: 0 <= c <= 256 ==> cf[c] == Below(LastColumn(b, fm), c)) && InRange(LastColumn(b, fm), 256)
  }

  lemma {:induction false} SmallStep(b: seq<int>, fm: seq<int>, orb: seq<int>, ll16: seq<int>, ll4: seq<int>,
                                     cf: seq<int>, tPos: int, k: nat, c: int)
    requires SmallTable(b, fm, orb, ll16, ll4, cf) && AtRow(b, fm, tPos, k) && tPos in orb
    requires 0 <= c < 256 && cf[c] <= tPos < cf[c + 1]
    ensures c == b[Adv(|b|, 0, k)]
    ensures AtRow(b, fm, Unpacked(ll16, ll4, |b|)[tPos], k + 1) && Unpacked(ll16, ll4, |b|)[tPos] in orb
  {
    hide *;
    AtRowParts(b, fm, tPos, k);
    SmallParts(b, fm, orb, ll16, ll4, cf, c);
    var l := LastColumn(b, fm);
    var t := InverseUnsorts(l);
    FirstColumn(b, fm, t, tPos, c);
    AtRowStep(b, fm, t, tPos, k);
    LinkIs(l, t, orb, Unpacked(ll16, ll4, |b|), tPos);
  }

  lemma SmallParts(b: seq<int>, fm: seq<int>, orb: seq<int>, ll16: seq<int>, ll4: seq<int>, cf: seq<int>, c: int)
    requires SmallTable(b, fm, orb, ll16, ll4, cf) && 0 <= c < 256
    ensures SortedRotations(b, fm) && Packed(ll16, ll4, |b|) && |cf| == 257 && |orb| > 0
    ensures Reversed(Ranks(LastColumn(b, fm)), orb[0], orb, Unpacked(ll16, ll4, |b|)) && |LastColumn(b, fm)| == |b|
    ensures cf[c] == Below(LastColumn(b, fm), c) && cf[c + 1] == Below(LastColumn(b, fm), c + 1)
  {
    hide Packed, Reversed, SortedRotations, Below, Ranks, Unpacked, InRange;
  }

  lemma AtRowParts(b: seq<int>, fm: seq<int>, tPos: int, k: nat)
    requires AtRow(b, fm, tPos, k)
    ensures SortedRotations(b, fm) && 0 <= tPos < |b| == |fm| && forall i :: 0 <= i < |fm| ==> 0 <= fm[i] < |b|
  {
    hide Row;
  }

  /** On the orbit the reversed link is where the stable sort of the column says. */
  lemma {:induction false} LinkIs(l: seq<int>, t: seq<int>, orb: seq<int>, u: seq<int>, x: int)
    requires Unsorts(l, t) && |orb| > 0 && Reversed(Ranks(l), orb[0], orb, u) && x in orb && 0 <= x < |l|
    ensures |u| == |l| == |t| && u[x] == t[x] && u[x] in orb
  {
    RanksArePerm(l);
    hide Rank, Count, Below;
    assert Ranks(l)[u[x]] == x;
    assert Ranks(l)[t[x]] == x;
  }

  lemma {:induction false} SmallBounds(b: seq<int>, fm: seq<int>, orb: seq<int>, ll16: seq<int>, ll4: seq<int>,
                                       cf: seq<int>, tPos: int, k: nat)
    requires SmallTable(b, fm, orb, ll16, ll4, cf) && AtRow(b, fm, tPos, k)
    ensures |cf| == 257 && cf[0] <= tPos < cf[256] && 0 <= tPos < |b| && Packed(ll16, ll4, |b|)
  {
    BelowEnds(LastColumn(b, fm), 256);
  }

  /** The small-memory walk after k characters. */
  ghost predicate SmallAt(b: seq<int>, fm: seq<int>, orb: seq<int>, ll16: seq<int>, ll4: seq<int>, cf: seq<int>,
                          tPos: int, k: nat) {
    SmallTable(b, fm, orb, ll16, ll4, cf) && AtRow(b, fm, tPos, k) && tPos in orb
  }

  lemma {:induction false} SmallAtStep(b: seq<int>, fm: seq<int>, orb: seq<int>, ll16: seq<int>, ll4: seq<int>,
                                       cf: seq<int>, tPos: int, k: nat, c: int, u: int)
    requires SmallAt(b, fm, orb, ll16, ll4, cf, tPos, k) && Packed(ll16, ll4, |b|) && 0 <= tPos < |b|
    requires |cf| == 257 && 0 <= c < 256 && cf[c] <= tPos < cf[c + 1] && u == Unpacked(ll16, ll4, |b|)[tPos]
    ensures |b| > 0 && c == CharAt(b, k) && SmallAt(b, fm, orb, ll16, ll4, cf, u, k + 1)
  {
    SmallStep(b, fm, orb, ll16, ll4, cf, tPos, k, c);
  }

  lemma {:induction false} SmallAtBounds(b: seq<int>, fm: seq<int>, orb: seq<int>, ll16: seq<int>, ll4: seq<int>,
                                         cf: seq<int>, tPos: int, k: nat)
    requires SmallAt(b, fm, orb, ll16, ll4, cf, tPos, k)
    ensures |cf| == 257 && cf[0] <= tPos < cf[256] && 0 <= tPos < |b| && Packed(ll16, ll4, |b|)
  {
    SmallBounds(b, fm, orb, ll16, ll4, cf, tPos, k);
  }

  /** BZ_GET_SMALL: after k characters, it returns character k of the block. */
  method GetSmall(ll16: array<int>, ll4: array<int>, cftab: array<int>, tPos: int,
                  ghost b: seq<int>, ghost fm: seq<int>, ghost orb: seq<int>, ghost k: nat) returns (c: int, tPos': int)
    requires |b| > 0 && SmallAt(b, fm, orb, ll16[..], ll4[..], cftab[..], tPos, k)
    ensures c == CharAt(b, k) && SmallAt(b, fm, orb, ll16[..], ll4[..], cftab[..], tPos', k + 1)
  {
    hide *;
    SmallAtBounds(b, fm, orb, ll16[..], ll4[..], cftab[..], tPos, k);
    c := IndexIntoF(tPos, cftab);
    tPos' := GetLL(ll16, ll4, |b|, tPos);
    SmallAtStep(b, fm, orb, ll16[..], ll4[..], cftab[..], tPos, k, c, tPos');
  }

  /** Bytes of the last column in ll16, and its bucket starts in cftab. */
  ghost predicate SmallInput(b: seq<int>, fm: seq<int>, ll16: seq<int>, ll4: seq<int>, cf: seq<int>) {
    && SortedRotations(b, fm) && |b| < 0x10_0000 && Packed(ll16, ll4, |b|)
    && InRange(LastColumn(b, fm), 256) && ll16[..|b|] == LastColumn(b, fm)
    && |cf| == 257 && forall c :: 0 <= c <= 256 ==> cf[c] == Below(LastColumn(b, fm), c)
  }

  lemma {:induction false} SmallForward(b: seq<int>, fm: seq<int>, ll16: seq<int>, ll4: seq<int>, cf: seq<int>)
    requires SmallInput(b, fm, ll16, ll4, cf)
    ensures Forwarding(LastColumn(b, fm), ll16, ll4, cf, 0) && IsPerm(Ranks(LastColumn(b, fm)), |b|)
  {
    assert forall m :: 0 <= m < |b| ==> ll16[..|b|][m] == ll16[m];
    RanksArePerm(LastColumn(b, fm));
  }

  lemma {:induction false} SmallReady(b: seq<int>, fm: seq<int>, orb: seq<int>, s: seq<int>, s4: seq<int>,
                                      ll16: seq<int>, ll4: seq<int>, cf: seq<int>, o: nat)
    requires SmallInput(b, fm, s, s4, cf) && o < |b| && fm[o] == 0 && Packed(ll16, ll4, |b|)
    requires Reversed(Ranks(LastColumn(b, fm)), o, orb, Unpacked(ll16, ll4, |b|))
    ensures SmallAt(b, fm, orb, ll16, ll4, cf, o, 0)
  {
    hide Row, Below, Unpacked, Packed, Rank;
    OrbitStart(Ranks(LastColumn(b, fm)), o, orb, Unpacked(ll16, ll4, |b|));
  }

  /** The whole small-memory preparation: T, then T^(-1) on the cycle of origPtr. */
  method BuildSmall(ll16: array<int>, ll4: array<int>, cftab: array<int>, nblock: nat, origPtr: nat, ghost b: seq<int>,
                    ghost fm: seq<int>)
    returns (ghost orb: seq<int>)
    requires ll16 != ll4 && ll16 != cftab && ll4 != cftab && cftab.Length == 257
    requires SmallInput(b, fm, ll16[..], ll4[..], cftab[..]) && nblock == |b| && origPtr < nblock && fm[origPtr] == 0
    modifies ll16, ll4
    ensures SmallAt(b, fm, orb, ll16[..], ll4[..], cftab[..], origPtr, 0)
  {
    ghost var l, s, s4, cf := LastColumn(b, fm), ll16[..], ll4[..], cftab[..];
    assert |b| < 0x10_0000;
    hide *;
    var cftabCopy := new int[257](i requires 0 <= i < 257 reads cftab => cftab[i]);
    assert cftabCopy[..] == cf;
    SmallForward(b, fm, s, s4, cf);
    BuildForward(ll16, ll4, cftabCopy, nblock, l);
    ForwardedIs(l, ll16[..], ll4[..]);
    orb := ReversePointers(ll16, ll4, origPtr, Ranks(l));
    SmallReady(b, fm, orb, s, s4, ll16[..], ll4[..], cf, origPtr);
  }

  lemma ForwardedIs(l: seq<int>, ll16: seq<int>, ll4: seq<int>)
    requires Forwarded(l, ll16, ll4)
    ensures Packed(ll16, ll4, |l|) && Unpacked(ll16, ll4, |l|) == Ranks(l)
  {
  }

  lemma OrbitStart(p: seq<int>, o: int, orb: seq<int>, t: seq<int>)
    requires Reversed(p, o, orb, t)
    ensures |orb| > 0 && orb[0] == o && o in orb
  {
  }
}
