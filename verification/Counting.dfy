/** Occurrence counts, bucket starts and counting-sort positions. */
module Counting {
  import opened Rotations

  /** How often c occurs in s. */
  function Count(s: seq<int>, c: int): (n: nat)
    ensures n <= |s|
  {
    if s == [] then 0 else Count(s[..|s| - 1], c) + (if s[|s| - 1] == c then 1 else 0)
  }

  /** How many elements of s are smaller than c. */
  function Below(s: seq<int>, c: int): (n: nat)
    ensures n <= |s|
  {
    if s == [] then 0 else Below(s[..|s| - 1], c) + (if s[|s| - 1] < c then 1 else 0)
  }

  predicate InRange(s: seq<int>, m: nat) {
    forall i :: 0 <= i < |s| ==> 0 <= s[i] < m
  }

  /** The position of element i in the stable sort of s by value. */
  ghost function Rank(s: seq<int>, i: nat): int
    requires i < |s|
  {
    Below(s, s[i]) + Count(s[..i], s[i])
  }

  lemma {:induction false} CountStep(s: seq<int>, i: nat, c: int)
    requires i < |s|
    ensures Count(s[..i + 1], c) == Count(s[..i], c) + (if s[i] == c then 1 else 0)
  {
    assert s[..i + 1][..i] == s[..i];
  }

  lemma {:induction false} BelowStep(s: seq<int>, c: int)
    ensures Below(s, c + 1) == Below(s, c) + Count(s, c)
  {
    if s != [] { BelowStep(s[..|s| - 1], c); }
  }

  lemma {:induction false} BelowMonotone(s: seq<int>, c: int, d: int)
    requires c <= d
    ensures Below(s, c) <= Below(s, d)
    decreases d - c
  {
    if c < d {
      BelowStep(s, c);
      BelowMonotone(s, c + 1, d);
    }
  }

  lemma {:induction false} BelowEnds(s: seq<int>, m: nat)
    requires InRange(s, m)
    ensures Below(s, 0) == 0 && Below(s, m) == |s|
  {
    if s != [] {
      assert InRange(s[..|s| - 1], m);
      BelowEnds(s[..|s| - 1], m);
      assert 0 <= s[|s| - 1] < m;
    }
  }

  lemma {:induction false} CountPrefix(s: seq<int>, i: nat, j: nat, c: int)
    requires i <= j <= |s|
    ensures Count(s[..i], c) <= Count(s[..j], c)
    ensures i < j && s[i] == c ==> Count(s[..i], c) < Count(s[..j], c)
    decreases j - i
  {
    if i < j {
      CountStep(s, i, c);
      CountPrefix(s, i + 1, j, c);
    }
  }

  lemma {:induction false} BucketUnique(s: seq<int>, c: int, d: int, k: int)
    requires Below(s, c) <= k < Below(s, c + 1) && Below(s, d) <= k < Below(s, d + 1)
    ensures c == d
  {
    if c < d { BelowMonotone(s, c + 1, d); }
    if d < c { BelowMonotone(s, d + 1, c); }
  }

  /** The sorting position falls into the bucket of the element. */
  lemma {:induction false} RankInBucket(s: seq<int>, i: nat)
    requires i < |s|
    ensures Below(s, s[i]) <= Rank(s, i) < Below(s, s[i] + 1) <= |s|
  {
    BelowStep(s, s[i]);
    CountPrefix(s, i, |s|, s[i]);
    assert s[..|s|] == s;
  }

  /** Positions order elements by value, and equal values by index. */
  lemma {:induction false} RankOrder(s: seq<int>, i: nat, j: nat)
    requires i < |s| && j < |s|
    requires s[i] < s[j] || (s[i] == s[j] && i < j)
    ensures Rank(s, i) < Rank(s, j)
  {
    RankInBucket(s, i);
    RankInBucket(s, j);
    if s[i] < s[j] {
      BelowMonotone(s, s[i] + 1, s[j]);
    } else {
      CountPrefix(s, i, j, s[i]);
    }
  }

  ghost function Ranks(s: seq<int>): (r: seq<int>)
    ensures |r| == |s| && forall i :: 0 <= i < |s| ==> r[i] == Rank(s, i)
  {
    seq(|s|, i requires 0 <= i < |s| => Rank(s, i))
  }

  lemma {:induction false} RanksArePerm(s: seq<int>)
    ensures IsPerm(Ranks(s), |s|)
  {
    var r := Ranks(s);
    forall i | 0 <= i < |s| ensures 0 <= r[i] < |s| { RankInBucket(s, i); }
    forall i, j | 0 <= i < j < |s| ensures r[i] != r[j] {
      if s[i] <= s[j] { RankOrder(s, i, j); } else { RankOrder(s, j, i); }
    }
  }

  // ---- permutations are onto ----

  function Numbers(n: nat): (s: set<int>)
    ensures |s| == n && forall v :: v in s <==> 0 <= v < n
  {
    if n == 0 then {} else Numbers(n - 1) + {n - 1}
  }

  ghost function Elements(p: seq<int>): (s: set<int>)
    ensures forall v :: v in s <==> v in p
  {
    set v | v in p
  }

  lemma {:induction false} DistinctElements(p: seq<int>)
    requires forall i, j :: 0 <= i < j < |p| ==> p[i] != p[j]
    ensures |Elements(p)| == |p|
  {
    if p != [] {
      var q, x := p[..|p| - 1], p[|p| - 1];
      DistinctElements(q);
      assert p == q + [x];
      assert x !in q;
      assert Elements(p) == Elements(q) + {x};
    }
  }

  lemma {:induction false} SubsetFull(a: set<int>, b: set<int>)
    requires a <= b && |a| == |b|
    ensures a == b
  {
    assert b == a + (b - a);
    assert |b - a| == 0;
  }

  lemma {:induction false} SubsetSize(a: set<int>, b: set<int>)
    requires a <= b
    ensures |a| <= |b|
  {
    assert b == a + (b - a);
  }

  lemma {:induction false} PermOnto(p: seq<int>, n: nat, v: int) returns (i: nat)
    requires IsPerm(p, n) && 0 <= v < n
    ensures i < n && p[i] == v
  {
    DistinctElements(p);
    SubsetFull(Elements(p), Numbers(n));
    assert v in Elements(p);
    i :| i < n && p[i] == v;
  }

  lemma PermHits(p: seq<int>)
    requires IsPerm(p, |p|)
    ensures forall v :: 0 <= v < |p| ==> v in p
  {
    forall v | 0 <= v < |p| ensures v in p {
      var i := PermOnto(p, |p|, v);
    }
  }

  ghost function Inverse(p: seq<int>): (t: seq<int>)
    requires IsPerm(p, |p|)
    ensures |t| == |p| && forall j :: 0 <= j < |p| ==> 0 <= t[j] < |p| && p[t[j]] == j
  {
    PermHits(p);
    seq(|p|, j requires 0 <= j < |p| => assert j in p; var i :| 0 <= i < |p| && p[i] == j; i)
  }
}
