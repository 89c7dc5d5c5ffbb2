/** What the leaf depths of a Huffman tree mean for the frequencies it was built
    over: no other lengths that fit a code space make a shorter text. */
module OptimalLengths {
  import opened Bits
  import opened HuffmanLengths
  import opened HuffmanTree
  import opened HuffmanDepth
  import opened HuffmanOptimal
  import HuffmanCodes

  /** The leaves weigh the frequencies f, above an empty depth byte. */
  ghost predicate Carries(w: seq<int>, f: seq<int>) {
    |f| < |w| && forall i :: 0 <= i < |f| ==> w[i + 1] == 256 * f[i]
  }

  /** p links a Huffman tree of the frequencies f. */
  ghost predicate HuffmanFor(f: seq<int>, p: seq<int>) {
    exists w: seq<int>, kids: Kids :: HuffmanOver(f, p, w, kids)
  }

  ghost predicate HuffmanOver(f: seq<int>, p: seq<int>, w: seq<int>, kids: Kids) {
    Weighed(w, p, |f|, 2 * |f| - 1, kids) && Carries(w, f)
  }

  /** The bits of a text with k symbols f[i] times each, in codes of length l[i]. */
  ghost function Total(f: seq<int>, l: seq<int>, k: nat): int
    requires k <= |f| && k <= |l|
  {
    if k == 0 then 0 else Total(f, l, k - 1) + Times(f[k - 1], l[k - 1])
  }

  /** Lengths of n codes that share a code space of 2^m. */
  ghost predicate FitsIn(l: seq<int>, n: int, m: nat) {
    |l| == n && (forall i :: 0 <= i < n ==> 0 <= l[i] <= m) && HuffmanCodes.KraftSum(l, m) <= Pow2(m)
  }

  /** No lengths that fit any code space make a shorter text. */
  ghost predicate Optimal(f: seq<int>, len: seq<int>) {
    |len| == |f| && forall l: seq<int>, m: nat :: FitsIn(l, |f|, m) ==> Total(f, len, |f|) <= Total(f, l, |f|)
  }

  // ---- lengths as lengths of the leaves ----

  /** The length of symbol i as that of node i + 1. */
  ghost function Lift(l: seq<int>, N: int): (r: seq<int>)
    requires N >= 0
    ensures |r| == N + 1 && forall i :: 1 <= i <= N && i <= |l| ==> r[i] == l[i - 1]
  {
    seq(N + 1, i => if 1 <= i <= |l| then l[i - 1] else 0)
  }

  lemma {:induction false} LeafStands(p: seq<int>, n: int, N: int, kids: Kids, i: int)
    requires Tree(p, n, N, kids) && 1 <= i <= n
    ensures i <= N && Unopened(p, N, n, i)
  {
    if i < N { assert ChildOf(p[i], i, n, N, kids); }
  }

  lemma {:induction false} LiftCost(f: seq<int>, w: seq<int>, p: seq<int>, N: int, kids: Kids, l: seq<int>,
                                    v: seq<int>, k: nat)
    requires Tree(p, |f|, N, kids) && Carries(w, f) && k <= |f| <= |l| && N < |v| && |f| <= N
    requires forall i :: 1 <= i <= |f| ==> v[i] == l[i - 1]
    ensures Cost(w, p, N, |f|, v, k) == Total(f, l, k)
  {
    if k > 0 {
      LiftCost(f, w, p, N, kids, l, v, k - 1);
      LeafStands(p, |f|, N, kids, k);
      hide Tree, Unopened, Times;
      assert w[k - 1 + 1] == 256 * f[k - 1];
    }
  }

  lemma {:induction false} LiftSpace(p: seq<int>, n: int, N: int, kids: Kids, l: seq<int>, v: seq<int>, m: nat, k: nat)
    requires Tree(p, n, N, kids) && k <= n == |l| && n <= N < |v|
    requires forall i :: 1 <= i <= n ==> v[i] == l[i - 1]
    ensures Space(p, N, n, v, m, k) == HuffmanCodes.KraftSum(l[..k], m)
  {
    if k > 0 {
      LiftSpace(p, n, N, kids, l, v, m, k - 1);
      LeafStands(p, n, N, kids, k);
      hide Tree, Unopened, Pow2;
      assert l[..k][..k - 1] == l[..k - 1];
    }
  }

  lemma LiftWithin(p: seq<int>, N: int, l: seq<int>, v: seq<int>, n: int, m: nat)
    requires FitsIn(l, n, m) && n < |v| && forall i :: 1 <= i <= n ==> v[i] == l[i - 1]
    ensures Within(p, N, n, v, m) && HuffmanCodes.KraftSum(l[..n], m) <= Pow2(m)
  {
    assert l[..n] == l;
    hide HuffmanCodes.KraftSum, Pow2;
  }

  lemma CarriesPlain(w: seq<int>, f: seq<int>)
    requires Carries(w, f)
    ensures Plain(w, |f|)
  {
    forall k | 1 <= k <= |f| ensures w[k] % 256 == 0 { assert w[k - 1 + 1] == 256 * f[k - 1]; }
  }

  lemma {:induction false} AtLeastMerges(f: seq<int>, p: seq<int>, w: seq<int>, kids: Kids, l: seq<int>, m: nat)
    requires HuffmanOver(f, p, w, kids) && FitsIn(l, |f|, m)
    ensures 0 <= |f| <= 2 * |f| - 1 < |w| && |l| == |f|
    ensures Total(f, l, |f|) >= Rest(w, |f|, 2 * |f| - 1)
  {
    var n, N := |f|, 2 * |f| - 1;
    hide Cost, Space, Total, Rest, Weighed, Tree, Carries, Within, HuffmanCodes.KraftSum, Pow2;
    WeighedTree(w, p, n, N, kids);
    CarriesPlain(w, f);
    var v := Lift(l, N);
    LiftCost(f, w, p, N, kids, l, v, n);
    LiftSpace(p, n, N, kids, l, v, m, n);
    LiftWithin(p, N, l, v, n, m);
    Best(w, p, n, N, kids, n, v, m);
  }

  lemma {:induction false} DepthsTotal(f: seq<int>, p: seq<int>, w: seq<int>, kids: Kids, len: seq<int>)
    requires HuffmanOver(f, p, w, kids) && LeafDepths(len, p, |f|, 2 * |f| - 1)
    ensures 0 <= |f| <= 2 * |f| - 1 < |w| && |len| == |f|
    ensures Total(f, len, |f|) == Rest(w, |f|, 2 * |f| - 1)
  {
    var n, N := |f|, 2 * |f| - 1;
    hide Cost, Total, Rest, Weighed, Tree, Carries, Depth;
    WeighedTree(w, p, n, N, kids);
    CarriesPlain(w, f);
    LiftCost(f, w, p, N, kids, len, Depths(p, N), n);
    DepthCost(w, p, n, N, kids, n);
  }

  /** The leaf depths of a Huffman tree are optimal. */
  lemma {:induction false} TreeOptimal(f: seq<int>, p: seq<int>, len: seq<int>)
    requires HuffmanFor(f, p) && LeafDepths(len, p, |f|, 2 * |f| - 1)
    ensures Optimal(f, len)
  {
    var w, kids :| HuffmanOver(f, p, w, kids);
    hide HuffmanOver, FitsIn, Total, Rest, HuffmanFor;
    DepthsTotal(f, p, w, kids, len);
    forall l: seq<int>, m: nat | FitsIn(l, |f|, m) ensures Total(f, len, |f|) <= Total(f, l, |f|) {
      AtLeastMerges(f, p, w, kids, l, m);
    }
  }

  // ---- the more frequent symbol never has the longer code ----

  lemma {:induction false} TotalSet(f: seq<int>, l: seq<int>, k: nat, x: nat, v: int)
    requires k <= |f| && k <= |l| && x < |l| && x < |f|
    ensures Total(f, l[x := v], k) == Total(f, l, k) + (if x < k then Times(f[x], v - l[x]) else 0)
  {
    hide Times;
    if k > 0 {
      TotalSet(f, l, k - 1, x, v);
      if k - 1 == x { TimesSum(f[x], l[x], v - l[x]); }
    }
  }

  lemma {:induction false} KraftSet(l: seq<int>, m: nat, x: nat, v: int)
    requires x < |l| && 0 <= v <= m && 0 <= l[x] <= m
    ensures HuffmanCodes.KraftSum(l[x := v], m) == HuffmanCodes.KraftSum(l, m) + Pow2(m - v) - Pow2(m - l[x])
  {
    var k := |l| - 1;
    hide Pow2;
    if x < k {
      KraftSet(l[..k], m, x, v);
      assert l[x := v][..k] == l[..k][x := v];
    } else {
      assert l[x := v][..k] == l[..k];
    }
  }

  /** Optimal lengths never give the more frequent symbol the longer code. */
  lemma {:induction false} FrequentShorter(f: seq<int>, len: seq<int>, m: nat, i: nat, j: nat)
    requires Optimal(f, len) && FitsIn(len, |f|, m) && i < |f| && j < |f| && f[i] > f[j]
    ensures |len| == |f| && len[i] <= len[j]
  {
    hide FitsIn, Total;
    if len[i] > len[j] { SwapShorter(f, len, m, i, j); }
  }

  /** Handing the shorter code to the more frequent symbol makes the text shorter. */
  lemma {:induction false} SwapShorter(f: seq<int>, len: seq<int>, m: nat, i: nat, j: nat)
    requires FitsIn(len, |f|, m) && i < |f| && j < |f| && f[i] > f[j] && len[i] > len[j]
    ensures |len| == |f| && FitsIn(len[i := len[j]][j := len[i]], |f|, m)
    ensures Total(f, len[i := len[j]][j := len[i]], |f|) < Total(f, len, |f|)
  {
    var l1 := len[i := len[j]];
    hide Total, Times, Pow2, HuffmanCodes.KraftSum;
    TotalSet(f, len, |f|, i, len[j]);
    TotalSet(f, l1, |f|, j, len[i]);
    KraftSet(len, m, i, len[j]);
    KraftSet(l1, m, j, len[i]);
    SwapGain(f[i], f[j], len[i] - len[j]);
  }

  lemma SwapGain(a: int, b: int, d: int)
    requires a > b && d > 0
    ensures Times(a, -d) + Times(b, d) < 0
  {
    assert a * (-d) + b * d == (b - a) * d;
  }
}
