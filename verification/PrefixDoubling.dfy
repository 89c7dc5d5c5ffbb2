/** Why one round of the fallback sorter doubles the sorted depth.

    `fm` lists rotation starts, `fl` flags the bucket starts, and at depth h two
    neighbours share a bucket exactly when their rotations agree on h characters. */
module PrefixDoubling {
  import opened Rotations
  import QuickSort

  /** Position z starts a bucket of rotations that agree on h characters. */
  ghost predicate Head(b: seq<int>, fm: seq<int>, h: nat, z: int)
    requires RotationOk(b, fm) && 0 <= z < |fm|
  {
    z == 0 || Pre(b, fm[z - 1], h) != Pre(b, fm[z], h)
  }

  ghost predicate InOrder(b: seq<int>, fm: seq<int>, h: nat, z: int)
    requires RotationOk(b, fm) && 0 <= z < |fm|
  {
    z == 0 || LexLe(Pre(b, fm[z - 1], h), Pre(b, fm[z], h))
  }

  /** Entries up to r are sorted and flagged to depth 2h, the others to depth h;
      the two flags after the last position stop the scans. */
  ghost predicate Refining(b: seq<int>, fm: seq<int>, fl: seq<bool>, h: nat, r: int) {
    && |fm| == |b| && IsPerm(fm, |b|) && |fl| > |b| + 1 && -1 <= r < |b|
    && fl[|b|] && !fl[|b| + 1]
    && (forall z :: 0 <= z < |b| ==> InOrder(b, fm, h, z))
    && (forall z :: 0 <= z <= r ==> InOrder(b, fm, 2 * h, z))
    && (forall z :: 0 <= z <= r ==> fl[z] == Head(b, fm, 2 * h, z))
    && (forall z :: r < z < |b| ==> fl[z] == Head(b, fm, h, z))
    && (r + 1 < |b| ==> fl[r + 1])
  }

  /** The state between rounds. */
  ghost predicate Level(b: seq<int>, fm: seq<int>, fl: seq<bool>, h: nat) {
    && |fm| == |b| && IsPerm(fm, |b|) && |fl| > |b| + 1
    && fl[|b|] && !fl[|b| + 1]
    && (forall z :: 0 <= z < |b| ==> InOrder(b, fm, h, z))
    && (forall z :: 0 <= z < |b| ==> fl[z] == Head(b, fm, h, z))
  }

  /** The start of the bucket that holds position i. */
  ghost function Start(fl: seq<bool>, i: nat): (j: nat)
    requires i < |fl|
    ensures j <= i
  {
    if i == 0 || fl[i] then i else Start(fl, i - 1)
  }

  /** ec ranks rotations by their characters h .. 2h-1. */
  ghost predicate RankOk(b: seq<int>, ec: seq<int>, h: nat) {
    && |ec| >= |b|
    && forall x, y :: 0 <= x < |b| && 0 <= y < |b| ==>
         (ec[x] <= ec[y] <==> LexLe(Pre(b, Adv(|b|, x, h), h), Pre(b, Adv(|b|, y, h), h)))
  }

  lemma {:induction false} LevelSorted(b: seq<int>, fm: seq<int>, fl: seq<bool>, h: nat, i: nat, j: nat)
    requires Level(b, fm, fl, h) && i <= j < |b|
    ensures LexLe(Pre(b, fm[i], h), Pre(b, fm[j], h))
  {
    forall k | 0 < k < |fm| ensures LexLe(Pre(b, fm[k - 1], h), Pre(b, fm[k], h)) {
      assert InOrder(b, fm, h, k);
    }
    SortedFromAdjacent(b, fm, h, i, j);
  }

  ghost predicate Agree(b: seq<int>, x: int, y: int, h: nat) {
    0 <= x < |b| && 0 <= y < |b| && Pre(b, x, h) == Pre(b, y, h)
  }

  /** Two positions have the same bucket start exactly when their rotations agree on h characters. */
  lemma {:induction false} StartsAgree(b: seq<int>, fm: seq<int>, fl: seq<bool>, h: nat, i: nat, j: nat)
    requires Level(b, fm, fl, h) && i <= j < |b|
    ensures (Start(fl, i) == Start(fl, j)) == Agree(b, fm[i], fm[j], h)
    ensures Start(fl, i) <= Start(fl, j)
    decreases j - i
  {
    hide *;
    LevelRange(b, fm, fl, h);
    if i < j {
      AgreeChain(b, fm[i], fm[j - 1], fm[j], h);
      StartsAgree(b, fm, fl, h, i, j - 1);
      if fl[j] {
        HeadDiffers(b, fm, fl, h, i, j);
      } else {
        SameBucket(b, fm, fl, h, j);
      }
    } else {
      AgreeRefl(b, fm, fl, h, i);
    }
  }

  lemma AgreeRefl(b: seq<int>, fm: seq<int>, fl: seq<bool>, h: nat, i: nat)
    requires Level(b, fm, fl, h) && i < |b|
    ensures Agree(b, fm[i], fm[i], h)
  {
  }

  lemma AgreeChain(b: seq<int>, x: int, y: int, z: int, h: nat)
    ensures Agree(b, y, z, h) ==> Agree(b, x, y, h) == Agree(b, x, z, h)
  {
  }

  lemma LevelRange(b: seq<int>, fm: seq<int>, fl: seq<bool>, h: nat)
    requires Level(b, fm, fl, h)
    ensures |fm| == |b| && |b| < |fl|
  {
  }

  lemma {:induction false} SameBucket(b: seq<int>, fm: seq<int>, fl: seq<bool>, h: nat, j: nat)
    requires Level(b, fm, fl, h) && 0 < j < |b| && !fl[j]
    ensures Agree(b, fm[j - 1], fm[j], h) && Start(fl, j) == Start(fl, j - 1)
  {
    assert fl[j] == Head(b, fm, h, j);
  }

  lemma {:induction false} HeadDiffers(b: seq<int>, fm: seq<int>, fl: seq<bool>, h: nat, i: nat, j: nat)
    requires Level(b, fm, fl, h) && i < j < |b| && fl[j]
    ensures !Agree(b, fm[i], fm[j], h) && Start(fl, j) == j
  {
    if Pre(b, fm[i], h) == Pre(b, fm[j], h) {
      LevelSorted(b, fm, fl, h, i, j - 1);
      LevelSorted(b, fm, fl, h, j - 1, j);
      LexAntisym(Pre(b, fm[j - 1], h), Pre(b, fm[j], h));
    }
  }

  /** ec ranks position x by the bucket of the rotation h steps on. */
  ghost predicate RankedBy(b: seq<int>, fm: seq<int>, fl: seq<bool>, ec: seq<int>, h: nat, x: int)
    requires |fm| == |b| && |b| <= |fl| && |b| <= |ec| && 0 <= x < |b|
  {
    exists i :: 0 <= i < |b| && fm[i] == Adv(|b|, x, h) && ec[x] == Start(fl, i)
  }

  /** The bucket starts, stored at the position h steps back, rank by the next h characters. */
  lemma {:induction false} StartsRank(b: seq<int>, fm: seq<int>, fl: seq<bool>, ec: seq<int>, h: nat)
    requires Level(b, fm, fl, h) && |ec| >= |b|
    requires forall x :: 0 <= x < |b| ==> RankedBy(b, fm, fl, ec, h, x)
    ensures RankOk(b, ec, h)
  {
    forall x, y | 0 <= x < |b| && 0 <= y < |b|
      ensures ec[x] <= ec[y] <==> LexLe(Pre(b, Adv(|b|, x, h), h), Pre(b, Adv(|b|, y, h), h))
    {
      assert RankedBy(b, fm, fl, ec, h, x) && RankedBy(b, fm, fl, ec, h, y);
      var i :| 0 <= i < |b| && fm[i] == Adv(|b|, x, h) && ec[x] == Start(fl, i);
      var j :| 0 <= j < |b| && fm[j] == Adv(|b|, y, h) && ec[y] == Start(fl, j);
      RankPair(b, fm, fl, h, i, j);
    }
  }

  lemma {:induction false} RankPair(b: seq<int>, fm: seq<int>, fl: seq<bool>, h: nat, i: nat, j: nat)
    requires Level(b, fm, fl, h) && i < |b| && j < |b|
    ensures Start(fl, i) <= Start(fl, j) <==> LexLe(Pre(b, fm[i], h), Pre(b, fm[j], h))
  {
    if i <= j {
      StartsAgree(b, fm, fl, h, i, j);
      LevelSorted(b, fm, fl, h, i, j);
    } else {
      StartsAgree(b, fm, fl, h, j, i);
      LevelSorted(b, fm, fl, h, j, i);
      if LexLe(Pre(b, fm[i], h), Pre(b, fm[j], h)) {
        LexAntisym(Pre(b, fm[i], h), Pre(b, fm[j], h));
      } else {
        LexRefl(Pre(b, fm[i], h));
      }
    }
  }

  /** Among rotations that agree on h characters, rank order is order to depth 2h. */
  lemma {:induction false} RankWithin(b: seq<int>, ec: seq<int>, h: nat, x: nat, y: nat)
    requires RankOk(b, ec, h) && x < |b| && y < |b| && Pre(b, x, h) == Pre(b, y, h)
    ensures ec[x] <= ec[y] <==> LexLe(Pre(b, x, 2 * h), Pre(b, y, 2 * h))
    ensures ec[x] == ec[y] <==> Pre(b, x, 2 * h) == Pre(b, y, 2 * h)
  {
    var p, q, q' := Pre(b, x, h), Pre(b, Adv(|b|, x, h), h), Pre(b, Adv(|b|, y, h), h);
    PreSplit(b, x, h, h);
    PreSplit(b, y, h, h);
    assert h + h == 2 * h;
    LexConcat(p, p, q, q');
    assert (p + q)[h..] == q && (p + q')[h..] == q';
    if ec[x] == ec[y] { LexAntisym(q, q'); }
    if q == q' { LexRefl(q); }
  }

  /** A position that is a bucket of its own at depth h stays one at any greater depth. */
  lemma {:induction false} HeadDeeper(b: seq<int>, fm: seq<int>, h: nat, k: nat, z: int)
    requires RotationOk(b, fm) && 0 <= z < |fm| && h <= k && Head(b, fm, h, z) && InOrder(b, fm, h, z)
    ensures Head(b, fm, k, z) && InOrder(b, fm, k, z)
  {
    if z > 0 {
      var x, y := fm[z - 1], fm[z];
      PreSplit(b, x, h, k - h);
      PreSplit(b, y, h, k - h);
      LexConcat(Pre(b, x, h), Pre(b, y, h), Pre(b, Adv(|b|, x, h), k - h), Pre(b, Adv(|b|, y, h), k - h));
      assert (Pre(b, x, h) + Pre(b, Adv(|b|, x, h), k - h))[..h] == Pre(b, x, h);
      assert (Pre(b, y, h) + Pre(b, Adv(|b|, y, h), k - h))[..h] == Pre(b, y, h);
    }
  }

  lemma {:induction false} RefineStart(b: seq<int>, fm: seq<int>, fl: seq<bool>, h: nat)
    requires Level(b, fm, fl, h) && |b| > 0
    ensures Refining(b, fm, fl, h, -1)
  {
  }

  /** Single-entry buckets need no work. */
  lemma {:induction false} SkipSingles(b: seq<int>, fm: seq<int>, fl: seq<bool>, h: nat, r: int, l: int)
    requires Refining(b, fm, fl, h, r) && r < l < |b| && forall z :: r < z <= l + 1 && z < |b| ==> fl[z]
    ensures Refining(b, fm, fl, h, l)
  {
    forall z | r < z <= l ensures InOrder(b, fm, 2 * h, z) && Head(b, fm, 2 * h, z) {
      assert fl[z] == Head(b, fm, h, z);
      HeadDeeper(b, fm, h, 2 * h, z);
    }
  }

  lemma {:induction false} RefineEnd(b: seq<int>, fm: seq<int>, fl: seq<bool>, h: nat, r: int)
    requires Refining(b, fm, fl, h, r) && forall z :: r < z < |b| ==> fl[z]
    ensures Level(b, fm, fl, 2 * h)
  {
    if r + 1 < |b| { SkipSingles(b, fm, fl, h, r, |b| - 1); }
  }

  /** Entries of one bucket agree on h characters. */
  lemma {:induction false} BucketAgrees(b: seq<int>, fm: seq<int>, fl: seq<bool>, h: nat, r: int, l: int, i: int)
    requires Refining(b, fm, fl, h, r) && r < l <= i < |b| && forall z :: l < z <= i ==> !fl[z]
    ensures Pre(b, fm[i], h) == Pre(b, fm[l], h)
    decreases i - l
  {
    if l < i {
      BucketAgrees(b, fm, fl, h, r, l, i - 1);
      assert fl[i] == Head(b, fm, h, i);
    }
  }

  /** Reordering inside a bucket changes no rotation's first h characters. */
  lemma {:induction false} SortKeepsPrefix(b: seq<int>, fm: seq<int>, fm': seq<int>, fl: seq<bool>, h: nat, l: int,
                                           r: int, i: int)
    requires Refining(b, fm, fl, h, l - 1) && 0 <= l <= r < |b| && forall z :: l < z <= r ==> !fl[z]
    requires QuickSort.Rearranged(fm, fm', l, r) && 0 <= i < |b|
    ensures 0 <= fm'[i] < |b| && Pre(b, fm'[i], h) == Pre(b, fm[i], h)
  {
    hide Pre, Head, InOrder;
    if l <= i <= r {
      QuickSort.RearrangedSource(fm, fm', l, r, i);
      var k :| l <= k <= r && fm[k] == fm'[i];
      BucketAgrees(b, fm, fl, h, l - 1, l, k);
      BucketAgrees(b, fm, fl, h, l - 1, l, i);
    }
  }

  lemma {:induction false} PermKept(s: seq<int>, t: seq<int>, n: nat)
    requires IsPerm(s, n) && multiset(s) == multiset(t) && |t| == n
    ensures IsPerm(t, n)
  {
    forall i | 0 <= i < n ensures 0 <= t[i] < n { assert t[i] in multiset(s); }
    forall i, j | 0 <= i < j < n ensures t[i] != t[j] {
      DistinctMultiset(s, t[i]);
      if t[i] == t[j] { RepeatedMultiset(t, i, j); }
    }
  }

  lemma {:induction false} RepeatedMultiset(t: seq<int>, i: nat, j: nat)
    requires i < j < |t| && t[i] == t[j]
    ensures multiset(t)[t[i]] >= 2
  {
    assert t == t[..i] + [t[i]] + t[i + 1..j] + [t[j]] + t[j + 1..];
  }

  lemma {:induction false} DistinctMultiset(s: seq<int>, x: int)
    requires forall i, j :: 0 <= i < j < |s| ==> s[i] != s[j]
    ensures multiset(s)[x] <= 1
  {
    if s != [] {
      var q := s[..|s| - 1];
      assert s == q + [s[|s| - 1]];
      DistinctMultiset(q, x);
      assert s[|s| - 1] !in q;
    }
  }

  /** The rescan marks position z of the sorted bucket when the rank changes. */
  ghost predicate Remarked(fl: seq<bool>, fl': seq<bool>, fm: seq<int>, ec: seq<int>, l: int, r: int) {
    && |fl| == |fl'| && 0 <= l <= r < |fm| && r < |fl| && (forall z :: l <= z <= r ==> 0 <= fm[z] < |ec|)
    && (forall z :: 0 <= z < |fl| && !(l < z <= r) ==> fl'[z] == fl[z])
    && (forall z :: l < z <= r ==> fl'[z] == (ec[fm[z - 1]] != ec[fm[z]]))
  }

  /** Sorting a bucket by rank and remarking it refines it to depth 2h. */
  lemma {:induction false} RefineBucket(b: seq<int>, fm: seq<int>, fm': seq<int>, fl: seq<bool>, fl': seq<bool>,
                                        ec: seq<int>, h: nat, l: int, r: int)
    requires Refining(b, fm, fl, h, l - 1) && RankOk(b, ec, h)
    requires 0 <= l <= r < |b| && fl[r + 1] && forall z :: l < z <= r ==> !fl[z]
    requires QuickSort.Rearranged(fm, fm', l, r) && QuickSort.Keyed(fm', ec, l, r) && QuickSort.SortedOn(fm', ec, l, r)
    requires Remarked(fl, fl', fm', ec, l, r)
    ensures Refining(b, fm', fl', h, r)
    ensures forall i :: 0 <= i < |b| ==> 0 <= fm'[i] < |b| && Pre(b, fm'[i], h) == Pre(b, fm[i], h)
  {
    PermKept(fm, fm', |b|);
    forall i | 0 <= i < |b| ensures 0 <= fm'[i] < |b| && Pre(b, fm'[i], h) == Pre(b, fm[i], h) {
      SortKeepsPrefix(b, fm, fm', fl, h, l, r, i);
    }
    SamePrefixes(b, fm, fm', h);
    forall z | 0 <= z <= r
      ensures InOrder(b, fm', 2 * h, z) && fl'[z] == Head(b, fm', 2 * h, z)
    {
      if z < l {
        assert InOrder(b, fm, 2 * h, z) && fl[z] == Head(b, fm, 2 * h, z);
      } else if z == l {
        assert fl[l] && fl[l] == Head(b, fm, h, l);
        HeadDeeper(b, fm', h, 2 * h, l);
      } else {
        assert fl[z] == Head(b, fm, h, z);
        RankWithin(b, ec, h, fm'[z - 1], fm'[z]);
      }
    }
  }

  lemma {:induction false} SamePrefixes(b: seq<int>, fm: seq<int>, fm': seq<int>, h: nat)
    requires RotationOk(b, fm) && RotationOk(b, fm')
    requires forall i :: 0 <= i < |b| ==> Pre(b, fm'[i], h) == Pre(b, fm[i], h)
    ensures forall z :: 0 <= z < |b| ==> Head(b, fm', h, z) == Head(b, fm, h, z) && InOrder(b, fm', h, z) ==
                                         InOrder(b, fm, h, z)
  {
  }

  /** When every position is a bucket, the order is final. */
  lemma {:induction false} AllSingles(b: seq<int>, fm: seq<int>, fl: seq<bool>, h: nat)
    requires Level(b, fm, fl, h) && h <= |b| && forall z :: 0 <= z < |b| ==> fl[z]
    ensures SortedTo(b, fm, |b|)
  {
    forall z | 0 < z < |fm| ensures LexLe(Pre(b, fm[z - 1], |b|), Pre(b, fm[z], |b|)) {
      assert fl[z] == Head(b, fm, h, z);
      HeadDeeper(b, fm, h, |b|, z);
    }
    forall i, j | 0 <= i < j < |fm| ensures LexLe(Pre(b, fm[i], |b|), Pre(b, fm[j], |b|)) {
      SortedFromAdjacent(b, fm, |b|, i, j);
    }
  }

  /** Once the depth exceeds the block length, the order is final. */
  lemma {:induction false} DeepEnough(b: seq<int>, fm: seq<int>, fl: seq<bool>, h: nat)
    requires Level(b, fm, fl, h) && h >= |b|
    ensures SortedTo(b, fm, |b|)
  {
    forall i, j | 0 <= i < j < |fm| ensures LexLe(Pre(b, fm[i], h), Pre(b, fm[j], h)) {
      LevelSorted(b, fm, fl, h, i, j);
    }
    SortedShorter(b, fm, h, |b|);
  }
}
