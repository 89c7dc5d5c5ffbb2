/** The finished tree of BZ2_hbMakeCodeLengths: the walk up the parent links,
    and why the leaf depths fill the code space exactly. */
module HuffmanTree {
  import opened Bits
  import opened HuffmanHeap
  import opened HuffmanLengths
  import HuffmanCodes

  /** All 2n-1 nodes made: node N = 2n-1 is the only root. */
  ghost predicate Tree(p: seq<int>, n: int, N: int, kids: Kids) {
    Forest(p, n, N, kids) && p[N] == -1 && forall k :: 1 <= k < N ==> k < p[k] <= N
  }

  lemma {:induction false} FinishedTree(h: seq<int>, w: seq<int>, p: seq<int>, n: int, kids: Kids)
    requires Building(h, w, p, n, 2 * n - 1, 1, kids)
    ensures Tree(p, n, 2 * n - 1, kids)
  {
    var N := 2 * n - 1;
    hide Ordered, Bounded, Siblings;
    assert p[N] == -1;
    assert N in Live(h, 1);
    assert Live(h, 1) == {h[1]};
    forall k | 1 <= k < N ensures k < p[k] <= N {
      assert k !in Live(h, 1);
      assert ChildOf(p[k], k, n, N, kids);
    }
  }

  /** How many links lead from node k to the root. */
  ghost function Depth(p: seq<int>, N: int, k: int): nat
    decreases N - k
  {
    if 1 <= k < N && k < |p| && k < p[k] <= N then 1 + Depth(p, N, p[k]) else 0
  }

  /** The part of the code space a node of depth d owns, out of 2^D. */
  ghost function Share(D: nat, d: nat): nat {
    if d <= D then Pow2(D - d) else 0
  }

  /** Node k still stands for its subtree once all nodes above j are opened. */
  ghost predicate Unopened(p: seq<int>, N: int, j: int, k: int) {
    k == N || (0 <= k < |p| && p[k] > j)
  }

  ghost function Frontier(p: seq<int>, N: int, D: nat, j: int, k: int): nat {
    if k <= 0 then 0 else
      Frontier(p, N, D, j, k - 1) + (if Unopened(p, N, j, k) then Share(D, Depth(p, N, k)) else 0)
  }

  /** Every internal node lies above a leaf. */
  lemma {:induction false} NodeDepths(p: seq<int>, n: int, N: int, kids: Kids, D: nat, k: int)
    requires Tree(p, n, N, kids) && 1 <= k <= N
    requires forall i :: 1 <= i <= n ==> Depth(p, N, i) <= D
    ensures Depth(p, N, k) <= D
    ensures k > n ==> Depth(p, N, k) < D
    decreases k
  {
    if k > n {
      var c := kids[k].0;
      assert p[c] == k;
      NodeDepths(p, n, N, kids, D, c);
      assert Depth(p, N, c) == 1 + Depth(p, N, k);
    }
  }

  /** Opening node j adds its two children to the frontier. */
  lemma {:induction false} OpenStep(p: seq<int>, n: int, N: int, kids: Kids, D: nat, j: int, k: int)
    requires Tree(p, n, N, kids) && n < j <= N && 0 <= k < j
    ensures Frontier(p, N, D, j - 1, k)
         == Frontier(p, N, D, j, k) + (if kids[j].0 <= k then Share(D, Depth(p, N, j) + 1) else 0) +
           (if kids[j].1 <= k then Share(D, Depth(p, N, j) + 1) else 0)
  {
    if k > 0 {
      OpenStep(p, n, N, kids, D, j, k - 1);
      hide Share;
      if k == kids[j].0 || k == kids[j].1 {
        assert p[k] == j && Depth(p, N, k) == 1 + Depth(p, N, j);
      } else {
        assert p[k] == -1 || ChildOf(p[k], k, n, N, kids);
      }
    }
  }

  lemma {:induction false} SameFrontier(p: seq<int>, n: int, N: int, kids: Kids, D: nat, j: int)
    requires Tree(p, n, N, kids) && n < j <= N && Depth(p, N, j) < D
    ensures Frontier(p, N, D, j - 1, j - 1) == Frontier(p, N, D, j, j)
  {
    OpenStep(p, n, N, kids, D, j, j - 1);
    assert Share(D, Depth(p, N, j)) == 2 * Share(D, Depth(p, N, j) + 1);
    hide Share;
    assert Unopened(p, N, j, j);
  }

  lemma {:induction false} NoneAbove(p: seq<int>, N: int, D: nat, k: int)
    requires 0 <= k < N < |p| && forall i :: 1 <= i < N ==> p[i] <= N
    ensures Frontier(p, N, D, N, k) == 0
  {
    if k > 0 { NoneAbove(p, N, D, k - 1); }
  }

  /** The frontier always owns the whole code space. */
  lemma {:induction false} FrontierFull(p: seq<int>, n: int, N: int, kids: Kids, D: nat, j: int)
    requires Tree(p, n, N, kids) && n <= j <= N
    requires forall i :: 1 <= i <= n ==> Depth(p, N, i) <= D
    ensures Frontier(p, N, D, j, j) == Pow2(D)
    decreases N - j
  {
    if j == N {
      NoneAbove(p, N, D, N - 1);
      assert Unopened(p, N, N, N) && Depth(p, N, N) == 0;
    } else {
      FrontierFull(p, n, N, kids, D, j + 1);
      NodeDepths(p, n, N, kids, D, j + 1);
      SameFrontier(p, n, N, kids, D, j + 1);
    }
  }

  /** len[i] is the depth of leaf i+1. */
  ghost predicate LeafDepths(len: seq<int>, p: seq<int>, n: int, N: int) {
    |len| == n && forall i :: 0 <= i < n ==> len[i] == Depth(p, N, i + 1)
  }

  lemma {:induction false} LeavesAreFrontier(p: seq<int>, n: int, N: int, kids: Kids, D: nat, len: seq<int>)
    requires Tree(p, n, N, kids) && |len| <= n && forall i :: 0 <= i < |len| ==> len[i] == Depth(p, N, i + 1)
    ensures HuffmanCodes.KraftSum(len, D) == Frontier(p, N, D, n, |len|)
  {
    if len != [] {
      var k := |len|;
      LeavesAreFrontier(p, n, N, kids, D, len[..k - 1]);
      assert p[k] == -1 || ChildOf(p[k], k, n, N, kids);
      assert Unopened(p, N, n, k);
    }
  }

  /** The code is complete: the leaf depths fill the code space exactly. */
  lemma {:induction false} CompleteCode(p: seq<int>, n: int, N: int, kids: Kids, len: seq<int>, D: nat)
    requires Tree(p, n, N, kids) && LeafDepths(len, p, n, N) && forall i :: 0 <= i < n ==> len[i] <= D
    ensures HuffmanCodes.KraftSum(len, D) == Pow2(D)
    ensures N > n ==> forall i :: 0 <= i < n ==> len[i] >= 1
  {
    forall i | 1 <= i <= n ensures Depth(p, N, i) <= D { assert len[i - 1] == Depth(p, N, i); }
    LeavesAreFrontier(p, n, N, kids, D, len);
    FrontierFull(p, n, N, kids, D, n);
  }
}
