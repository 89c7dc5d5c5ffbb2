/** Why rescaling ends: once every weight but the last is 1 or 2, the Fibonacci
    numbers bound how many links a leaf can be below the root. */
module HuffmanDepth {
  import opened HuffmanLengths
  import opened HuffmanTree

  ghost function Fib(k: nat): nat {
    if k < 2 then k else Fib(k - 2) + Fib(k - 1)
  }

  /** What a finished tree knows of its weights. */
  ghost predicate Weighed(w: seq<int>, p: seq<int>, n: int, N: int, kids: Kids) {
    Tree(p, n, N, kids) && N < |w| && Siblings(w, n, N, kids, p) && Merges(w, n, N, kids) &&
      forall k :: 1 <= k <= N ==> 256 <= w[k] < 0x8000_0000
  }

  lemma {:induction false} FinishedWeights(h: seq<int>, w: seq<int>, p: seq<int>, n: int, kids: Kids)
    requires Building(h, w, p, n, 2 * n - 1, 1, kids)
    ensures Weighed(w, p, n, 2 * n - 1, kids)
  {
    FinishedTree(h, w, p, n, kids);
    hide HuffmanHeap.Ordered;
  }

  lemma {:induction false} MergedPair(w: seq<int>, p: seq<int>, n: int, N: int, kids: Kids, j: int)
    requires Weighed(w, p, n, N, kids) && n < j <= N
    ensures 1 <= n && N < |kids| && N < |p| && N < |w|
    ensures var a, b := kids[j].0, kids[j].1; 1 <= a < j && 1 <= b < j && a != b && p[a] == j == p[b] &&
                                              w[a] <= w[b] && 0 <= w[j] / 256 - w[a] / 256 - w[b] / 256 <= 1
    ensures w[j] >= 256
  {
  }

  lemma {:induction false} LinkUp(w: seq<int>, p: seq<int>, n: int, N: int, kids: Kids, k: int)
    requires Weighed(w, p, n, N, kids) && 1 <= k < N
    ensures 1 <= n && N < |kids| && N < |p| && N < |w| && w[k] >= 256
    ensures k < p[k] <= N && n < p[k] && (kids[p[k]].0 == k || kids[p[k]].1 == k)
  {
    assert ChildOf(p[k], k, n, N, kids);
  }

  // ---- weights grow at least like the Fibonacci numbers on the way up ----

  lemma {:induction false} LaterHeavier(w: seq<int>, p: seq<int>, n: int, N: int, kids: Kids, j: int, m: int)
    requires Weighed(w, p, n, N, kids) && n < j < m <= N
    ensures w[kids[j].0] <= w[kids[j].1] <= w[kids[m].0] <= w[kids[m].1]
    decreases m - j
  {
    if j + 1 < m { LaterHeavier(w, p, n, N, kids, j + 1, m); }
  }

  /** The node t links above k. */
  ghost function Up(p: seq<int>, N: int, k: int, t: nat): int
    decreases t
  {
    if t == 0 then k
    else if 1 <= k < N && k < |p| then Up(p, N, p[k], t - 1) else k
  }

  lemma {:induction false} UpNext(p: seq<int>, n: int, N: int, kids: Kids, k: int, t: nat)
    requires Tree(p, n, N, kids) && 1 <= k <= N && t < Depth(p, N, k)
    ensures 1 <= Up(p, N, k, t) < N && Up(p, N, k, t + 1) == p[Up(p, N, k, t)]
    ensures t + 1 == Depth(p, N, k) ==> Up(p, N, k, t + 1) == N
    decreases t
  {
    if t > 0 { UpNext(p, n, N, kids, p[k], t - 1); }
  }

  /** Both children of the node t + 1 links above a leaf weigh at least Fib(t + 1). */
  lemma {:induction false} GrowsUp(w: seq<int>, p: seq<int>, n: int, N: int, kids: Kids, k: int, t: nat)
    requires Weighed(w, p, n, N, kids) && 1 <= k <= n && t < Depth(p, N, k)
    ensures 1 <= Up(p, N, k, t) < N && n < p[Up(p, N, k, t)] <= N
    ensures w[Up(p, N, k, t)] / 256 >= Fib(t + 2)
    ensures var j := p[Up(p, N, k, t)]; w[kids[j].0] / 256 >= Fib(t + 1) && w[kids[j].1] / 256 >= Fib(t + 1)
  {
    hide *;
    WeighedTree(w, p, n, N, kids);
    UpNext(p, n, N, kids, k, t);
    var x := Up(p, N, k, t);
    LinkUp(w, p, n, N, kids, x);
    var j := p[x];
    MergedPair(w, p, n, N, kids, j);
    if t > 0 {
      GrowsUp(w, p, n, N, kids, k, t - 1);
      StepUp(w, p, n, N, kids, k, t - 1);
    } else {
      UpNone(p, N, k);
      BothHeavy(w, p, n, N, kids, j);
    }
  }

  lemma UpNone(p: seq<int>, N: int, k: int)
    ensures Up(p, N, k, 0) == k && Fib(1) == 1 == Fib(2)
  {
  }

  lemma {:induction false} WeighedTree(w: seq<int>, p: seq<int>, n: int, N: int, kids: Kids)
    requires Weighed(w, p, n, N, kids)
    ensures Tree(p, n, N, kids) && 1 <= n <= N < |w| && N < |p| && N < |kids|
  {
  }

  lemma {:induction false} BothHeavy(w: seq<int>, p: seq<int>, n: int, N: int, kids: Kids, j: int)
    requires Weighed(w, p, n, N, kids) && n < j <= N
    ensures j < |kids| && 1 <= kids[j].0 < |w| && 1 <= kids[j].1 < |w| && w[kids[j].0] >= 256 && w[kids[j].1] >= 256
  {
  }

  lemma {:induction false} StepUp(w: seq<int>, p: seq<int>, n: int, N: int, kids: Kids, k: int, t: nat)
    requires Weighed(w, p, n, N, kids) && 1 <= k <= n && t + 1 < Depth(p, N, k)
    requires 1 <= Up(p, N, k, t) < N && n < p[Up(p, N, k, t)] <= N && w[Up(p, N, k, t)] / 256 >= Fib(t + 2)
    requires var j := p[Up(p, N, k, t)]; w[kids[j].0] / 256 >= Fib(t + 1) && w[kids[j].1] / 256 >= Fib(t + 1)
    ensures 1 <= Up(p, N, k, t + 1) < N && n < p[Up(p, N, k, t + 1)] <= N
    ensures w[Up(p, N, k, t + 1)] / 256 >= Fib(t + 3)
    ensures var j := p[Up(p, N, k, t + 1)]; w[kids[j].0] / 256 >= Fib(t + 2) && w[kids[j].1] / 256 >= Fib(t + 2)
  {
    UpNext(p, n, N, kids, k, t);
    UpNext(p, n, N, kids, k, t + 1);
    var y, x := Up(p, N, k, t), Up(p, N, k, t + 1);
    assert Fib(t + 3) == Fib(t + 1) + Fib(t + 2);
    hide Weighed, Depth, Up, Fib;
    LinkUp(w, p, n, N, kids, y);
    LinkUp(w, p, n, N, kids, x);
    MergedPair(w, p, n, N, kids, x);
    MergedPair(w, p, n, N, kids, p[x]);
    LaterHeavier(w, p, n, N, kids, x, p[x]);
  }

  // ---- without the last leaf, the tree is light ----

  /** Node i is on the way from x to the root. */
  ghost predicate OnWay(p: seq<int>, N: int, x: int, i: int)
    decreases N - x
  {
    x == i || (1 <= x < N && x < |p| && x < p[x] <= N && OnWay(p, N, p[x], i))
  }

  lemma {:induction false} WayGoesOn(p: seq<int>, n: int, N: int, kids: Kids, x: int, i: int)
    requires Tree(p, n, N, kids) && 1 <= x <= N && OnWay(p, N, x, i) && i < N
    ensures x <= i && OnWay(p, N, x, p[i])
    decreases N - x
  {
    if x == i {
      assert OnWay(p, N, p[x], p[x]);
    } else {
      WayGoesOn(p, n, N, kids, p[x], i);
    }
  }

  lemma {:induction false} OneWayIn(p: seq<int>, n: int, N: int, kids: Kids, x: int, a: int, b: int)
    requires Tree(p, n, N, kids) && 1 <= x <= N && OnWay(p, N, x, a) && OnWay(p, N, x, b) && 1 <= a < N &&
             1 <= b < N && p[a] == p[b] == N
    ensures a == b
    decreases N - x
  {
    if x != a && x != b { OneWayIn(p, n, N, kids, p[x], a, b); }
  }

  /** The frequencies of leaves 1..k. */
  ghost function LeafSum(w: seq<int>, k: int): int
    requires k < |w|
  {
    if k <= 0 then 0 else LeafSum(w, k - 1) + w[k] / 256
  }

  /** The frequencies of the unopened nodes up to k that are not on the way from leaf n. */
  ghost function Light(w: seq<int>, p: seq<int>, n: int, N: int, j: int, k: int): int
    requires k < |w|
  {
    if k <= 0 then 0 else
      Light(w, p, n, N, j, k - 1) + (if Unopened(p, N, j, k) && !OnWay(p, N, n, k) then w[k] / 256 else 0)
  }

  ghost function Weight(w: seq<int>, p: seq<int>, n: int, N: int, i: int): int
    requires 0 <= i < |w|
  {
    if OnWay(p, N, n, i) then 0 else w[i] / 256
  }

  lemma {:induction false} CloseStep(w: seq<int>, p: seq<int>, n: int, N: int, kids: Kids, j: int, k: int)
    requires Weighed(w, p, n, N, kids) && n < j <= N && 0 <= k < j
    ensures Light(w, p, n, N, j - 1, k) == Light(w, p, n, N, j, k)
      + (if kids[j].0 <= k then Weight(w, p, n, N, kids[j].0) else 0) +
        (if kids[j].1 <= k then Weight(w, p, n, N, kids[j].1) else 0)
  {
    hide OnWay, Weighed, Tree, Siblings, Forest;
    MergedPair(w, p, n, N, kids, j);
    if k > 0 {
      LinkUp(w, p, n, N, kids, k);
      CloseStep(w, p, n, N, kids, j, k - 1);
    }
  }

  lemma {:induction false} LightAtLeaves(w: seq<int>, p: seq<int>, n: int, N: int, kids: Kids, k: int)
    requires Weighed(w, p, n, N, kids) && 0 <= k < n
    ensures Light(w, p, n, N, n, k) <= LeafSum(w, k)
  {
    hide OnWay, Weighed, Tree, Siblings, Forest;
    WeighedTree(w, p, n, N, kids);
    if k > 0 {
      LightAtLeaves(w, p, n, N, kids, k - 1);
      LinkOrRoot(w, p, n, N, kids, k);
    }
  }

  lemma {:induction false} LightBound(w: seq<int>, p: seq<int>, n: int, N: int, kids: Kids, j: int)
    requires Weighed(w, p, n, N, kids) && n <= j <= N
    ensures Light(w, p, n, N, j, j) <= LeafSum(w, n - 1) + j - n
  {
    hide *;
    WeighedTree(w, p, n, N, kids);
    LightTop(w, p, n, N, kids, j);
    if j == n {
      LightAtLeaves(w, p, n, N, kids, n - 1);
    } else {
      LightBound(w, p, n, N, kids, j - 1);
      CloseStep(w, p, n, N, kids, j, j - 1);
      OpenPair(w, p, n, N, kids, j);
    }
  }

  lemma {:induction false} LightTop(w: seq<int>, p: seq<int>, n: int, N: int, kids: Kids, j: int)
    requires Weighed(w, p, n, N, kids) && n <= j <= N
    ensures j < |w| && Light(w, p, n, N, j, j) <= Light(w, p, n, N, j, j - 1) + Weight(w, p, n, N, j) &&
            Weight(w, p, n, N, n) == 0
  {
    assert OnWay(p, N, n, n);
    hide OnWay, Weighed, Tree, Siblings, Forest;
    WeighedTree(w, p, n, N, kids);
    LinkOrRoot(w, p, n, N, kids, j);
  }

  /** A node off the way has both children off it. */
  lemma {:induction false} OpenPair(w: seq<int>, p: seq<int>, n: int, N: int, kids: Kids, j: int)
    requires Weighed(w, p, n, N, kids) && n < j <= N
    ensures 1 <= kids[j].0 < j && 1 <= kids[j].1 < j
    ensures Weight(w, p, n, N, j) <= Weight(w, p, n, N, kids[j].0) + Weight(w, p, n, N, kids[j].1) + 1
  {
    MergedPair(w, p, n, N, kids, j);
    BothHeavy(w, p, n, N, kids, j);
    var a, b := kids[j].0, kids[j].1;
    if OnWay(p, N, n, a) { WayGoesOn(p, n, N, kids, n, a); }
    if OnWay(p, N, n, b) { WayGoesOn(p, n, N, kids, n, b); }
    hide OnWay, Weighed;
  }

  lemma {:induction false} LinkOrRoot(w: seq<int>, p: seq<int>, n: int, N: int, kids: Kids, k: int)
    requires Weighed(w, p, n, N, kids) && 1 <= k <= N
    ensures 1 <= n <= N < |w| && w[k] >= 256
  {
  }

  lemma {:induction false} LightHolds(w: seq<int>, p: seq<int>, n: int, N: int, kids: Kids, j: int, k: int, c: int)
    requires Weighed(w, p, n, N, kids) && k <= N && 1 <= c <= N && Unopened(p, N, j, c) && !OnWay(p, N, n, c)
    ensures 1 <= N < |w| && Light(w, p, n, N, j, k) >= (if c <= k then w[c] / 256 else 0)
  {
    hide OnWay, Siblings, Unopened, Weighed, Tree, Forest;
    LinkOrRoot(w, p, n, N, kids, c);
    if k > 0 {
      LinkOrRoot(w, p, n, N, kids, k);
      LightHolds(w, p, n, N, kids, j, k - 1, c);
    }
  }

  /** No leaf is deeper than the total weight of the others allows. */
  lemma {:induction false} DepthBound(w: seq<int>, p: seq<int>, n: int, N: int, kids: Kids, k: int)
    requires Weighed(w, p, n, N, kids) && 1 <= k <= n < N
    ensures Depth(p, N, k) >= 1 && Fib(Depth(p, N, k)) <= LeafSum(w, n - 1) + N - 1 - n
  {
    hide *;
    WeighedTree(w, p, n, N, kids);
    var d := Depth(p, N, k);
    LeafBelow(p, n, N, kids, k);
    GrowsUp(w, p, n, N, kids, k, d - 1);
    UpNext(p, n, N, kids, k, d - 1);
    MergedPair(w, p, n, N, kids, N);
    var c := OffTheWay(w, p, n, N, kids);
    LightHolds(w, p, n, N, kids, N - 1, N - 1, c);
    LightBound(w, p, n, N, kids, N - 1);
  }

  lemma LeafBelow(p: seq<int>, n: int, N: int, kids: Kids, k: int)
    requires Tree(p, n, N, kids) && 1 <= k <= n < N
    ensures Depth(p, N, k) >= 1 && forall c :: 1 <= c < N && p[c] == N ==> Unopened(p, N, N - 1, c)
  {
  }

  /** One child of the root is off the way. */
  lemma {:induction false} OffTheWay(w: seq<int>, p: seq<int>, n: int, N: int, kids: Kids) returns (c: int)
    requires Weighed(w, p, n, N, kids) && n < N
    ensures (c == kids[N].0 || c == kids[N].1) && 1 <= c < N && p[c] == N && !OnWay(p, N, n, c)
  {
    MergedPair(w, p, n, N, kids, N);
    var a, b := kids[N].0, kids[N].1;
    if OnWay(p, N, n, a) && OnWay(p, N, n, b) { OneWayIn(p, n, N, kids, n, a, b); }
    c := if OnWay(p, N, n, a) then b else a;
  }

  lemma {:induction false} FibGrows(a: nat, b: nat)
    requires a <= b
    ensures Fib(a) <= Fib(b)
  {
    if a < b { FibGrows(a, b - 1); }
  }

  lemma {:induction false} SmallSum(w: seq<int>, k: int)
    requires 0 <= k < |w| && forall i :: 1 <= i <= k ==> w[i] / 256 <= 2
    ensures LeafSum(w, k) <= 2 * k
  {
    if k > 0 { SmallSum(w, k - 1); }
  }

  lemma SumNeedsHeavy(w: seq<int>, n: int)
    requires 1 <= n <= |w| && LeafSum(w, n - 1) > 2 * (n - 1)
    ensures exists i :: 1 <= i < n && w[i] / 256 > 2
  {
    if !(exists i :: 1 <= i < n && w[i] / 256 > 2) { SmallSum(w, n - 1); }
  }

  /** The limit m leaves room for every tree of n leaves that weigh 1 or 2, but for the last. */
  ghost predicate Roomy(n: int, m: nat) {
    Fib(m + 1) > 3 * n - 4
  }

  /** The alphabet of a block is small enough for every limit from 15 on. */
  lemma {:induction false} RoomyFrom15(n: int, m: nat)
    requires n <= 258 && m >= 15
    ensures Roomy(n, m)
  {
    FibValue();
    FibGrows(16, m + 1);
    hide Fib;
  }

  /** A leaf deeper than the limit means some weight can still shrink. */
  lemma {:induction false} DeepMeansHeavy(w: seq<int>, p: seq<int>, n: int, N: int, kids: Kids, k: int, m: nat)
    requires Weighed(w, p, n, N, kids) && 1 <= k <= n < N == 2 * n - 1 && Roomy(n, m) && Depth(p, N, k) > m
    ensures exists i :: 1 <= i < n && w[i] / 256 > 2
  {
    assert Fib(m + 1) > 3 * n - 4;
    hide *;
    WeighedTree(w, p, n, N, kids);
    DepthBound(w, p, n, N, kids, k);
    FibGrows(m + 1, Depth(p, N, k));
    SumNeedsHeavy(w, n);
  }

  lemma FibValue()
    ensures Fib(16) == 987
  {
    assert Fib(8) == 21 && Fib(9) == 34;
    assert Fib(10) == 55 && Fib(11) == 89;
    assert Fib(12) == 144 && Fib(13) == 233;
  }
}
