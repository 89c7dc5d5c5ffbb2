/** Cyclic rotations of a block and their lexicographic order. */
module Rotations {

  function Next(n: nat, r: nat): (q: nat)
    requires r < n
    ensures q < n
  {
    if r + 1 == n then 0 else r + 1
  }

  /** The position h steps after r, going round. */
  function Adv(n: nat, r: nat, h: nat): (q: nat)
    requires r < n
    ensures q < n
    decreases h
  {
    if h == 0 then r else Adv(n, Next(n, r), h - 1)
  }

  /** The first h characters of the rotation of b that starts at r. */
  ghost function Pre(b: seq<int>, r: nat, h: nat): (p: seq<int>)
    requires r < |b|
    ensures |p| == h
    decreases h
  {
    if h == 0 then [] else [b[r]] + Pre(b, Next(|b|, r), h - 1)
  }

  ghost predicate LexLe(s: seq<int>, t: seq<int>)
    requires |s| == |t|
  {
    s == [] || s[0] < t[0] || (s[0] == t[0] && LexLe(s[1..], t[1..]))
  }

  lemma {:induction false} AdvClosed(n: nat, r: nat, h: nat)
    requires r < n && h <= n
    ensures Adv(n, r, h) == if r + h < n then r + h else r + h - n
    decreases h
  {
    if h > 0 { AdvClosed(n, Next(n, r), h - 1); }
  }

  lemma {:induction false} AdvAdd(n: nat, r: nat, h: nat, k: nat)
    requires r < n
    ensures Adv(n, r, h + k) == Adv(n, Adv(n, r, h), k)
    decreases h
  {
    if h > 0 { AdvAdd(n, Next(n, r), h - 1, k); }
  }

  lemma {:induction false} PreSplit(b: seq<int>, r: nat, h: nat, k: nat)
    requires r < |b|
    ensures Pre(b, r, h + k) == Pre(b, r, h) + Pre(b, Adv(|b|, r, h), k)
    decreases h
  {
    if h > 0 {
      PreSplit(b, Next(|b|, r), h - 1, k);
      assert Pre(b, r, h + k) == [b[r]] + Pre(b, Next(|b|, r), h - 1 + k);
    }
  }

  /** The full rotation read from its second character is the next rotation. */
  lemma {:induction false} PreShift(b: seq<int>, r: nat)
    requires r < |b|
    ensures Pre(b, Next(|b|, r), |b|) == Pre(b, r, |b|)[1..] + [b[r]]
  {
    var n := |b|;
    PreSplit(b, Next(n, r), n - 1, 1);
    AdvClosed(n, r, n);
    assert Adv(n, Next(n, r), n - 1) == Adv(n, r, n) == r;
    assert Pre(b, r, 1) == [b[r]] by { assert Pre(b, Next(n, r), 0) == []; }
    assert Pre(b, r, n)[1..] == Pre(b, Next(n, r), n - 1);
  }

  lemma {:induction false} LexRefl(s: seq<int>)
    ensures LexLe(s, s)
  {
    if s != [] { LexRefl(s[1..]); }
  }

  lemma {:induction false} LexAntisym(s: seq<int>, t: seq<int>)
    requires |s| == |t| && LexLe(s, t) && LexLe(t, s)
    ensures s == t
  {
    if s != [] {
      LexAntisym(s[1..], t[1..]);
      assert s == [s[0]] + s[1..] && t == [t[0]] + t[1..];
    }
  }

  lemma {:induction false} LexTrans(s: seq<int>, t: seq<int>, u: seq<int>)
    requires |s| == |t| == |u| && LexLe(s, t) && LexLe(t, u)
    ensures LexLe(s, u)
  {
    if s != [] && s[0] == t[0] == u[0] { LexTrans(s[1..], t[1..], u[1..]); }
  }

  /** Comparing concatenations compares the heads, then the tails. */
  lemma {:induction false} LexConcat(s: seq<int>, t: seq<int>, s': seq<int>, t': seq<int>)
    requires |s| == |t| && |s'| == |t'|
    ensures LexLe(s + s', t + t') <==> if s == t then LexLe(s', t') else LexLe(s, t)
  {
    if s == [] {
      assert s + s' == s' && t + t' == t';
    } else {
      assert (s + s')[1..] == s[1..] + s' && (t + t')[1..] == t[1..] + t';
      LexConcat(s[1..], t[1..], s', t');
      assert s == [s[0]] + s[1..] && t == [t[0]] + t[1..];
    }
  }

  /** fm lists every rotation start exactly once. */
  ghost predicate IsPerm(fm: seq<int>, n: nat) {
    && |fm| == n
    && (forall i :: 0 <= i < n ==> 0 <= fm[i] < n)
    && (forall i, j :: 0 <= i < j < n ==> fm[i] != fm[j])
  }

  ghost predicate RotationOk(b: seq<int>, fm: seq<int>) {
    |fm| == |b| && forall i :: 0 <= i < |fm| ==> 0 <= fm[i] < |b|
  }

  /** The rotations listed by fm do not decrease when cut to h characters. */
  ghost predicate SortedTo(b: seq<int>, fm: seq<int>, h: nat)
    requires RotationOk(b, fm)
  {
    forall i, j :: 0 <= i < j < |fm| ==> LexLe(Pre(b, fm[i], h), Pre(b, fm[j], h))
  }

  lemma {:induction false} SortedShorter(b: seq<int>, fm: seq<int>, h: nat, k: nat)
    requires RotationOk(b, fm) && SortedTo(b, fm, h) && k <= h
    ensures SortedTo(b, fm, k)
  {
    forall i, j | 0 <= i < j < |fm| ensures LexLe(Pre(b, fm[i], k), Pre(b, fm[j], k)) {
      PreSplit(b, fm[i], k, h - k);
      PreSplit(b, fm[j], k, h - k);
      LexConcat(Pre(b, fm[i], k), Pre(b, fm[j], k), Pre(b, Adv(|b|, fm[i], k), h - k),
        Pre(b, Adv(|b|, fm[j], k), h - k));
      LexRefl(Pre(b, fm[i], k));
    }
  }

  /** Adjacent order is enough. */
  lemma {:induction false} SortedFromAdjacent(b: seq<int>, fm: seq<int>, h: nat, i: int, j: int)
    requires RotationOk(b, fm) && 0 <= i <= j < |fm|
    requires forall k :: 0 < k < |fm| ==> LexLe(Pre(b, fm[k - 1], h), Pre(b, fm[k], h))
    ensures LexLe(Pre(b, fm[i], h), Pre(b, fm[j], h))
    decreases j - i
  {
    if i == j {
      LexRefl(Pre(b, fm[i], h));
    } else {
      SortedFromAdjacent(b, fm, h, i, j - 1);
      LexTrans(Pre(b, fm[i], h), Pre(b, fm[j - 1], h), Pre(b, fm[j], h));
    }
  }
}
