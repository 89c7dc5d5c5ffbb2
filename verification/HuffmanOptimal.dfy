/** Why the tree of BZ2_hbMakeCodeLengths is a Huffman tree: merged frequencies
    are exact sums, and no other code costs less for the weights it was built over. */
module HuffmanOptimal {
  import opened Bits
  import opened HuffmanLengths
  import opened HuffmanTree
  import opened HuffmanDepth

  // ---- the depth byte never spills over ----

  /** Leaf weights carry no depth. */
  ghost predicate Plain(w: seq<int>, n: int) {
    n < |w| && forall k :: 1 <= k <= n ==> w[k] % 256 == 0
  }

  lemma FibLimit()
    ensures Fib(35) > 0x80_0000
  {
    FibValue();
    assert Fib(14) == 377 && Fib(15) == 610 && Fib(16) == 987 && Fib(17) == 1597;
    assert Fib(18) == 2584 && Fib(19) == 4181 && Fib(20) == 6765 && Fib(21) == 10946;
    assert Fib(22) == 17711 && Fib(23) == 28657 && Fib(24) == 46368 && Fib(25) == 75025;
    assert Fib(26) == 121393 && Fib(27) == 196418 && Fib(28) == 317811 && Fib(29) == 514229;
    assert Fib(30) == 832040 && Fib(31) == 1346269 && Fib(32) == 2178309 && Fib(33) == 3524578;
  }

  /** Weights below 2^31 keep every leaf within 33 links of the root. */
  lemma {:induction false} DepthCap(w: seq<int>, p: seq<int>, n: int, N: int, kids: Kids, x: int)
    requires Weighed(w, p, n, N, kids) && 1 <= x <= n
    ensures Depth(p, N, x) <= 33
  {
    var d := Depth(p, N, x);
    if d > 33 {
      hide *;
      WeighedTree(w, p, n, N, kids);
      GrowsUp(w, p, n, N, kids, x, d - 1);
      WeightBelow(w, p, n, N, kids, Up(p, N, x, d - 1));
      FibGrows(35, d + 1);
      FibLimit();
    }
  }

  lemma WeightBelow(w: seq<int>, p: seq<int>, n: int, N: int, kids: Kids, k: int)
    requires Weighed(w, p, n, N, kids) && 1 <= k <= N
    ensures 1 <= n <= N < |w| && N < |p| && N < |kids| && 256 <= w[k] < 0x8000_0000 && w[k] / 256 < 0x80_0000
  {
  }

  lemma {:induction false} MergedIs(w: seq<int>, p: seq<int>, n: int, N: int, kids: Kids, j: int)
    requires Weighed(w, p, n, N, kids) && n < j <= N
    ensures 1 <= n && N < |w| && N < |kids| && N < |p|
    ensures 1 <= kids[j].0 < j && 1 <= kids[j].1 < j && kids[j].0 != kids[j].1 && p[kids[j].0] == j == p[kids[j].1]
    ensures w[kids[j].0] >= 0 && w[kids[j].1] >= 0 && w[j] == AddWeights(w[kids[j].0], w[kids[j].1])
  {
    hide AddWeights, Siblings;
    assert IsMerged(w, j, kids[j].0, kids[j].1);
  }

  lemma {:induction false} KidDepth(p: seq<int>, n: int, N: int, kids: Kids, j: int)
    requires Tree(p, n, N, kids) && n < j <= N
    ensures 1 <= kids[j].0 < j && 1 <= kids[j].1 < j
    ensures Depth(p, N, kids[j].0) == 1 + Depth(p, N, j) == Depth(p, N, kids[j].1)
  {
    assert p[kids[j].0] == j && p[kids[j].1] == j;
  }

  /** The depth byte of a node is its height: some leaf lies that many links below. */
  lemma {:induction false} LowByte(w: seq<int>, p: seq<int>, n: int, N: int, kids: Kids, k: int) returns (x: int)
    requires Weighed(w, p, n, N, kids) && Plain(w, n) && 1 <= k <= N
    ensures 1 <= x <= n && k < |w| && Depth(p, N, x) == w[k] % 256 + Depth(p, N, k) && w[k] % 256 <= 33
    ensures k > n ==> w[k] / 256 == w[kids[k].0] / 256 + w[kids[k].1] / 256
    decreases k
  {
    WeightBelow(w, p, n, N, kids, k);
    if k <= n {
      x := k;
      assert w[k] % 256 == 0;
      DepthCap(w, p, n, N, kids, x);
    } else {
      hide *;
      WeighedTree(w, p, n, N, kids);
      MergedIs(w, p, n, N, kids, k);
      var a, b := kids[k].0, kids[k].1;
      var xa := LowByte(w, p, n, N, kids, a);
      var xb := LowByte(w, p, n, N, kids, b);
      KidDepth(p, n, N, kids, k);
      WeightBelow(w, p, n, N, kids, a);
      WeightBelow(w, p, n, N, kids, b);
      MergedExactly(w[a], w[b]);
      x := if w[a] % 256 > w[b] % 256 then xa else xb;
      DepthCap(w, p, n, N, kids, x);
    }
  }

  lemma {:induction false} MergedExactly(a: nat, b: nat)
    requires 256 <= a < 0x8000_0000 && 256 <= b < 0x8000_0000 && a % 256 <= 33 && b % 256 <= 33
    ensures AddWeights(a, b) / 256 == a / 256 + b / 256
    ensures AddWeights(a, b) % 256 == 1 + if a % 256 > b % 256 then a % 256 else b % 256
  {
    var q, d := a / 256 + b / 256, 1 + Max(a % 256, b % 256);
    assert d <= 34;
    hide AddWeights, Or;
    AddWeightsIs(a, b);
    OrByte(q, d);
  }

  /** A merged frequency is the sum of its parts. */
  lemma {:induction false} ExactSum(w: seq<int>, p: seq<int>, n: int, N: int, kids: Kids, j: int)
    requires Weighed(w, p, n, N, kids) && Plain(w, n) && n < j <= N
    ensures 1 <= n && N < |w| && N < |kids| && 1 <= kids[j].0 < j && 1 <= kids[j].1 < j
    ensures w[j] / 256 == w[kids[j].0] / 256 + w[kids[j].1] / 256
  {
    hide *;
    MergedIs(w, p, n, N, kids, j);
    var x := LowByte(w, p, n, N, kids, j);
  }

  // ---- costs and code space of the roots at one stage ----

  ghost function Times(f: int, d: int): int {
    f * d
  }

  lemma TimesSum(f: int, d: int, e: int)
    ensures Times(f, d + e) == Times(f, d) + Times(f, e)
  {
  }

  /** What the roots among nodes 1..k cost with lengths l, when the nodes above j are opened. */
  ghost function Cost(w: seq<int>, p: seq<int>, N: int, j: int, l: seq<int>, k: int): int
    requires k < |w| && k < |l|
  {
    if k <= 0 then 0
    else Cost(w, p, N, j, l, k - 1) + (if Unopened(p, N, j, k) then Times(w[k] / 256, l[k]) else 0)
  }

  /** The part of a code space of 2^m that they take. */
  ghost function Space(p: seq<int>, N: int, j: int, l: seq<int>, m: nat, k: int): nat
    requires k < |l|
  {
    if k <= 0 then 0
    else Space(p, N, j, l, m, k - 1) + (if Unopened(p, N, j, k) && 0 <= l[k] <= m then Pow2(m - l[k]) else 0)
  }

  /** All of their lengths are at most m. */
  ghost predicate Within(p: seq<int>, N: int, j: int, l: seq<int>, m: nat) {
    j < |l| && forall i :: 1 <= i <= j && Unopened(p, N, j, i) ==> 0 <= l[i] <= m
  }

  /** The frequencies of all merges above j. */
  ghost function Rest(w: seq<int>, j: int, N: int): int
    requires 0 <= j && N < |w|
    decreases N - j
  {
    if j >= N then 0 else w[j + 1] / 256 + Rest(w, j + 1, N)
  }

  lemma {:induction false} CostSet(w: seq<int>, p: seq<int>, N: int, j: int, l: seq<int>, k: int, x: int, v: int)
    requires k < |w| && k < |l| && 1 <= x < |l|
    ensures Cost(w, p, N, j, l[x := v], k)
         == Cost(w, p, N, j, l, k) + (if x <= k && Unopened(p, N, j, x) then Times(w[x] / 256, v - l[x]) else 0)
  {
    hide Unopened, Times;
    if k > 0 {
      CostSet(w, p, N, j, l, k - 1, x, v);
      if k == x { TimesSum(w[x] / 256, l[x], v - l[x]); }
    }
  }

  lemma {:induction false} SpaceSet(p: seq<int>, N: int, j: int, l: seq<int>, m: nat, k: int, x: int, v: int)
    requires k < |l| && 1 <= x < |l| && 0 <= l[x] <= m && 0 <= v <= m
    ensures Space(p, N, j, l[x := v], m, k)
         == Space(p, N, j, l, m, k) + (if x <= k && Unopened(p, N, j, x) then Pow2(m - v) - Pow2(m - l[x]) else 0)
  {
    hide Unopened, Pow2;
    if k > 0 { SpaceSet(p, N, j, l, m, k - 1, x, v); }
  }

  /** In a space twice as large everything takes twice as much. */
  lemma {:induction false} SpaceHalf(p: seq<int>, N: int, j: int, l: seq<int>, m: nat, k: int)
    requires k < |l| && m > 0 && forall i :: 1 <= i <= k && Unopened(p, N, j, i) ==> 0 <= l[i] <= m - 1
    ensures Space(p, N, j, l, m, k) == 2 * Space(p, N, j, l, m - 1, k)
  {
    hide Unopened;
    if k > 0 { SpaceHalf(p, N, j, l, m, k - 1); }
  }

  /** Two roots may trade lengths when the lighter gets the longer one. */
  lemma {:induction false} Trade(w: seq<int>, p: seq<int>, N: int, j: int, l: seq<int>, m: nat, x: int, y: int)
    requires j < |w| && Within(p, N, j, l, m) && 1 <= x <= j && 1 <= y <= j && x != y
    requires Unopened(p, N, j, x) && Unopened(p, N, j, y) && w[x] / 256 <= w[y] / 256 && l[x] <= l[y]
    ensures Within(p, N, j, l[x := l[y]][y := l[x]], m)
    ensures Space(p, N, j, l[x := l[y]][y := l[x]], m, j) == Space(p, N, j, l, m, j)
    ensures Cost(w, p, N, j, l[x := l[y]][y := l[x]], j) <= Cost(w, p, N, j, l, j)
  {
    hide Cost, Space, Unopened, Pow2, Times;
    var l1 := l[x := l[y]];
    CostSet(w, p, N, j, l, j, x, l[y]);
    CostSet(w, p, N, j, l1, j, y, l[x]);
    SpaceSet(p, N, j, l, m, j, x, l[y]);
    SpaceSet(p, N, j, l1, m, j, y, l[x]);
    TradeGain(w[x] / 256, w[y] / 256, l[y] - l[x]);
  }

  lemma TradeGain(a: int, b: int, d: int)
    requires a <= b && d >= 0
    ensures Times(a, d) + Times(b, -d) <= 0
  {
    assert a * d + b * (-d) == (a - b) * d;
  }

  // ---- from one stage to the next ----

  /** Closing node c takes its children's places. */
  lemma {:induction false} CostClose(w: seq<int>, p: seq<int>, n: int, N: int, kids: Kids, c: int, l: seq<int>, k: int)
    requires Tree(p, n, N, kids) && n < c <= N && k < c && N < |w| && N < |l|
    ensures Cost(w, p, N, c - 1, l, k) == Cost(w, p, N, c, l, k)
              + (if kids[c].0 <= k then Times(w[kids[c].0] / 256, l[kids[c].0]) else 0)
              + (if kids[c].1 <= k then Times(w[kids[c].1] / 256, l[kids[c].1]) else 0)
  {
    if k > 0 {
      CostClose(w, p, n, N, kids, c, l, k - 1);
      ClosedOnly(p, n, N, kids, c, k);
      hide Unopened, Tree, Times;
    }
  }

  /** Between two stages only the new node's children are closed. */
  lemma {:induction false} ClosedOnly(p: seq<int>, n: int, N: int, kids: Kids, c: int, k: int)
    requires Tree(p, n, N, kids) && n < c <= N && 1 <= k < c
    ensures N < |kids| && kids[c].0 != kids[c].1 && 1 <= kids[c].0 < c && 1 <= kids[c].1 < c
    ensures Unopened(p, N, c - 1, k) <==> Unopened(p, N, c, k) || k == kids[c].0 || k == kids[c].1
    ensures k == kids[c].0 || k == kids[c].1 ==> !Unopened(p, N, c, k)
  {
    if k == kids[c].0 || k == kids[c].1 {
      assert p[k] == c;
    } else {
      assert ChildOf(p[k], k, n, N, kids);
    }
  }

  lemma {:induction false} SpaceClose(p: seq<int>, n: int, N: int, kids: Kids, c: int, l: seq<int>, m: nat, k: int)
    requires Tree(p, n, N, kids) && n < c <= N && k < c && N < |l|
    requires 0 <= l[kids[c].0] <= m && 0 <= l[kids[c].1] <= m
    ensures Space(p, N, c - 1, l, m, k) == Space(p, N, c, l, m, k)
              + (if kids[c].0 <= k then Pow2(m - l[kids[c].0]) else 0)
              + (if kids[c].1 <= k then Pow2(m - l[kids[c].1]) else 0)
  {
    if k > 0 {
      SpaceClose(p, n, N, kids, c, l, m, k - 1);
      ClosedOnly(p, n, N, kids, c, k);
      hide Unopened, Tree, Pow2;
    }
  }

  lemma NodeStands(p: seq<int>, n: int, N: int, kids: Kids, c: int)
    requires Tree(p, n, N, kids) && n <= c <= N
    ensures 1 <= n <= N < |p| && N < |kids| && Unopened(p, N, c, c)
  {
  }

  /** The children of the next node are the lightest roots. */
  lemma {:induction false} Lightest(w: seq<int>, p: seq<int>, n: int, N: int, kids: Kids, c: int, i: int)
    requires Weighed(w, p, n, N, kids) && n < c <= N && 1 <= i < c && Unopened(p, N, c - 1, i)
    ensures N < |kids| && N < |w| && 1 <= kids[c].0 < c && 1 <= kids[c].1 < c
    ensures i != kids[c].0 ==> w[kids[c].0] / 256 <= w[i] / 256
    ensures i != kids[c].0 && i != kids[c].1 ==> w[kids[c].1] / 256 <= w[i] / 256
  {
    hide *;
    WeighedTree(w, p, n, N, kids);
    MergedPair(w, p, n, N, kids, c);
    LinkUp(w, p, n, N, kids, i);
    StillUp(p, N, c, i);
    if p[i] > c { LaterHeavier(w, p, n, N, kids, c, p[i]); }
  }

  lemma StillUp(p: seq<int>, N: int, c: int, i: int)
    requires Unopened(p, N, c - 1, i) && i < c <= N
    ensures i < |p| && p[i] >= c
  {
  }

  /** The two children stand before they are merged. */
  lemma {:induction false} PairStands(w: seq<int>, p: seq<int>, n: int, N: int, kids: Kids, c: int)
    requires Weighed(w, p, n, N, kids) && n < c <= N
    ensures N < |kids| && N < |w| && N < |p| && 1 <= kids[c].0 < c && 1 <= kids[c].1 < c && kids[c].0 != kids[c].1
    ensures Unopened(p, N, c - 1, kids[c].0) && Unopened(p, N, c - 1, kids[c].1)
  {
    MergedPair(w, p, n, N, kids, c);
    hide Weighed;
  }

  lemma {:induction false} SpaceHolds(p: seq<int>, N: int, j: int, l: seq<int>, m: nat, k: int, x: int)
    requires k < |l| && 1 <= x < |l|
    ensures Space(p, N, j, l, m, k) >= if x <= k && Unopened(p, N, j, x) && 0 <= l[x] <= m then Pow2(m - l[x]) else 0
  {
    hide Unopened, Pow2;
    if k > 0 { SpaceHolds(p, N, j, l, m, k - 1, x); }
  }

  /** Two roots do not fit in a space of one. */
  lemma {:induction false} SpaceTwo(p: seq<int>, N: int, j: int, l: seq<int>, m: nat, k: int, x: int, y: int)
    requires k < |l| && 1 <= x < y <= k && Unopened(p, N, j, x) && Unopened(p, N, j, y)
    requires 0 <= l[x] <= m && 0 <= l[y] <= m
    ensures Space(p, N, j, l, m, k) >= 2
  {
    hide Unopened, Pow2;
    if y < k {
      SpaceTwo(p, N, j, l, m, k - 1, x, y);
    } else {
      SpaceHolds(p, N, j, l, m, k - 1, x);
    }
  }

  lemma {:induction false} CostPositive(w: seq<int>, p: seq<int>, N: int, j: int, l: seq<int>, k: int)
    requires k < |w| && k < |l| && forall i :: 1 <= i <= k ==> w[i] >= 0 && (Unopened(p, N, j, i) ==> l[i] >= 0)
    ensures Cost(w, p, N, j, l, k) >= 0
  {
    hide Unopened;
    if k > 0 {
      CostPositive(w, p, N, j, l, k - 1);
      if Unopened(p, N, j, k) { assert (w[k] / 256) * l[k] >= 0; }
    }
  }

  /** With two longest lengths, the two lightest roots can have them. */
  lemma {:induction false} GiveLongest(w: seq<int>, p: seq<int>, n: int, N: int, kids: Kids, c: int, l: seq<int>,
                                       m: nat, x: int, y: int) returns (l': seq<int>)
    requires Weighed(w, p, n, N, kids) && n < c <= N < |l| && Within(p, N, c - 1, l, m)
    requires 1 <= x < c && 1 <= y < c && x != y && Unopened(p, N, c - 1, x) && Unopened(p, N, c - 1, y)
    requires l[x] == m == l[y]
    ensures N < |kids| && N < |w| && 1 <= kids[c].0 < c && 1 <= kids[c].1 < c
    ensures |l'| == |l| && l'[kids[c].0] == m == l'[kids[c].1] && Within(p, N, c - 1, l', m)
    ensures Space(p, N, c - 1, l', m, c - 1) == Space(p, N, c - 1, l, m, c - 1)
    ensures Cost(w, p, N, c - 1, l', c - 1) <= Cost(w, p, N, c - 1, l, c - 1)
  {
    hide *;
    PairStands(w, p, n, N, kids, c);
    var a, b := kids[c].0, kids[c].1;
    WithinAt(p, N, c - 1, l, m, a);
    Lightest(w, p, n, N, kids, c, x);
    l' := l;
    var other := if x == a then y else x;
    if l[a] < m {
      Trade(w, p, N, c - 1, l, m, a, x);
      l' := l[a := l[x]][x := l[a]];
      other := y;
    }
    WithinAt(p, N, c - 1, l', m, b);
    if l'[b] < m {
      Lightest(w, p, n, N, kids, c, other);
      Trade(w, p, N, c - 1, l', m, b, other);
      l' := l'[b := l'[other]][other := l'[b]];
    }
  }

  lemma WithinAt(p: seq<int>, N: int, j: int, l: seq<int>, m: nat, i: int)
    requires Within(p, N, j, l, m)
    ensures j < |l| && (1 <= i <= j && Unopened(p, N, j, i) ==> 0 <= l[i] <= m)
  {
  }

  /** Merging the two into one root a place up: as much space, and cheaper by the merged frequency. */
  lemma {:induction false} MergeLengths(w: seq<int>, p: seq<int>, n: int, N: int, kids: Kids, c: int, l: seq<int>,
                                        m: nat)
    requires Weighed(w, p, n, N, kids) && Plain(w, n) && n < c <= N < |l| && Within(p, N, c - 1, l, m) && m > 0
    requires N < |kids| && 0 <= kids[c].0 < |l| && 0 <= kids[c].1 < |l| && l[kids[c].0] == m == l[kids[c].1]
    ensures N < |w| && Within(p, N, c, l[c := m - 1], m)
    ensures Space(p, N, c, l[c := m - 1], m, c) == Space(p, N, c - 1, l, m, c - 1)
    ensures Cost(w, p, N, c, l[c := m - 1], c) == Cost(w, p, N, c - 1, l, c - 1) - w[c] / 256
  {
    MergedWithin(w, p, n, N, kids, c, l, m);
    hide *;
    WeighedTree(w, p, n, N, kids);
    MergeSpace(p, n, N, kids, c, l, l[c := m - 1], m);
    ExactSum(w, p, n, N, kids, c);
    MergeCost(w, p, n, N, kids, c, l, l[c := m - 1], m);
  }

  lemma {:induction false} MergeSpace(p: seq<int>, n: int, N: int, kids: Kids, c: int, l: seq<int>, l': seq<int>,
                                      m: nat)
    requires Tree(p, n, N, kids) && n < c <= N < |l| && m > 0 && l' == l[c := m - 1]
    requires 0 <= kids[c].0 < |l| && 0 <= kids[c].1 < |l| && l[kids[c].0] == m == l[kids[c].1]
    ensures Space(p, N, c, l', m, c) == Space(p, N, c - 1, l, m, c - 1)
  {
    hide *;
    NodeStands(p, n, N, kids, c);
    KidDepth(p, n, N, kids, c);
    SpaceClose(p, n, N, kids, c, l', m, c - 1);
    SpaceSame(p, N, c - 1, l, l', m, c - 1);
    LastSpace(p, N, c, l', m);
  }

  lemma {:induction false} MergeCost(w: seq<int>, p: seq<int>, n: int, N: int, kids: Kids, c: int, l: seq<int>,
                                     l': seq<int>, m: nat)
    requires Tree(p, n, N, kids) && n < c <= N < |l| && N < |w| && l' == l[c := m - 1]
    requires 0 <= kids[c].0 < |l| && 0 <= kids[c].1 < |l| && l[kids[c].0] == m == l[kids[c].1]
    requires kids[c].0 < |w| && kids[c].1 < |w| && w[c] / 256 == w[kids[c].0] / 256 + w[kids[c].1] / 256
    ensures Cost(w, p, N, c, l', c) == Cost(w, p, N, c - 1, l, c - 1) - w[c] / 256
  {
    hide *;
    NodeStands(p, n, N, kids, c);
    KidDepth(p, n, N, kids, c);
    CostClose(w, p, n, N, kids, c, l', c - 1);
    CostSame(w, p, N, c - 1, l, l', c - 1);
    CostLast(w, p, N, c, l');
    MergeGain(w[kids[c].0] / 256, w[kids[c].1] / 256, m);
  }

  lemma MergeGain(fa: int, fb: int, m: int)
    ensures Times(fa, m) + Times(fb, m) == Times(fa + fb, m - 1) + (fa + fb)
  {
    assert fa * m + fb * m == (fa + fb) * m;
  }

  lemma LastSpace(p: seq<int>, N: int, c: int, l: seq<int>, m: nat)
    requires 1 <= c < |l| && Unopened(p, N, c, c) && m > 0 && l[c] == m - 1
    ensures Space(p, N, c, l, m, c) == Space(p, N, c, l, m, c - 1) + 2 && Pow2(m - m) == 1
  {
    assert Pow2(1) == 2;
  }

  lemma {:induction false} CostSame(w: seq<int>, p: seq<int>, N: int, j: int, l: seq<int>, l': seq<int>, k: int)
    requires k < |w| && k < |l| == |l'| && forall i :: 0 <= i <= k ==> l[i] == l'[i]
    ensures Cost(w, p, N, j, l, k) == Cost(w, p, N, j, l', k)
  {
    if k > 0 { CostSame(w, p, N, j, l, l', k - 1); }
  }

  lemma {:induction false} SpaceSame(p: seq<int>, N: int, j: int, l: seq<int>, l': seq<int>, m: nat, k: int)
    requires k < |l| == |l'| && forall i :: 0 <= i <= k ==> l[i] == l'[i]
    ensures Space(p, N, j, l, m, k) == Space(p, N, j, l', m, k)
  {
    hide Pow2;
    if k > 0 { SpaceSame(p, N, j, l, l', m, k - 1); }
  }

  lemma {:induction false} MergedWithin(w: seq<int>, p: seq<int>, n: int, N: int, kids: Kids, c: int, l: seq<int>,
                                        m: nat)
    requires Weighed(w, p, n, N, kids) && n < c <= N < |l| && Within(p, N, c - 1, l, m) && m > 0
    ensures Within(p, N, c, l[c := m - 1], m)
  {
    WeighedTree(w, p, n, N, kids);
    hide Weighed;
    forall i | 1 <= i <= c && Unopened(p, N, c, i) ensures 0 <= l[c := m - 1][i] <= m {
      if i < c { ClosedOnly(p, n, N, kids, c, i); }
    }
  }

  // ---- no code is cheaper ----

  /** Lengths that fit a code space cost at least all merges still to come. */
  lemma {:induction false} Best(w: seq<int>, p: seq<int>, n: int, N: int, kids: Kids, j: int, l: seq<int>, m: nat)
    requires Weighed(w, p, n, N, kids) && Plain(w, n) && 1 <= n <= j <= N < |l| && N < |w|
    requires Within(p, N, j, l, m) && Space(p, N, j, l, m, j) <= Pow2(m)
    ensures Cost(w, p, N, j, l, j) >= Rest(w, j, N)
    decreases N - j, m
  {
    hide *;
    if j == N {
      BestRoot(w, p, n, N, kids, l, m);
    } else {
      var c := j + 1;
      PairStands(w, p, n, N, kids, c);
      RoomForTwo(p, N, j, l, m, kids[c].0, kids[c].1);
      if x :| 1 <= x <= j && Unopened(p, N, j, x) && l[x] == m {
        if y :| 1 <= y <= j && y != x && Unopened(p, N, j, y) && l[y] == m {
          var l1 := GiveLongest(w, p, n, N, kids, c, l, m, x, y);
          MergeLengths(w, p, n, N, kids, c, l1, m);
          Best(w, p, n, N, kids, c, l1[c := m - 1], m);
          RestNext(w, j, N);
        } else {
          OneLongest(w, p, n, N, kids, j, l, m, x);
          Best(w, p, n, N, kids, j, l[x := m - 1], m - 1);
        }
      } else {
        NoLongest(p, N, j, l, m);
        Best(w, p, n, N, kids, j, l, m - 1);
      }
    }
  }

  lemma BestRoot(w: seq<int>, p: seq<int>, n: int, N: int, kids: Kids, l: seq<int>, m: nat)
    requires Weighed(w, p, n, N, kids) && 0 <= N < |l| && N < |w| && Within(p, N, N, l, m)
    ensures Cost(w, p, N, N, l, N) >= 0 == Rest(w, N, N)
  {
    WeightsPositive(w, p, n, N, kids);
    hide Weighed, Unopened;
    CostPositive(w, p, N, N, l, N);
  }

  lemma WeightsPositive(w: seq<int>, p: seq<int>, n: int, N: int, kids: Kids)
    requires Weighed(w, p, n, N, kids)
    ensures N < |w| && forall i :: 1 <= i <= N ==> w[i] >= 0
  {
  }

  lemma RestNext(w: seq<int>, j: int, N: int)
    requires 0 <= j < N < |w|
    ensures Rest(w, j, N) == w[j + 1] / 256 + Rest(w, j + 1, N)
  {
  }

  lemma RoomForTwo(p: seq<int>, N: int, j: int, l: seq<int>, m: nat, a: int, b: int)
    requires Within(p, N, j, l, m) && Space(p, N, j, l, m, j) <= Pow2(m)
    requires 1 <= a <= j && 1 <= b <= j && a != b && Unopened(p, N, j, a) && Unopened(p, N, j, b)
    ensures m > 0 && j < |l|
  {
    if a < b { SpaceTwo(p, N, j, l, m, j, a, b); } else { SpaceTwo(p, N, j, l, m, j, b, a); }
  }

  /** No root has the longest length: half the space will do. */
  lemma NoLongest(p: seq<int>, N: int, j: int, l: seq<int>, m: nat)
    requires Within(p, N, j, l, m) && Space(p, N, j, l, m, j) <= Pow2(m) && m > 0
    requires forall x :: 1 <= x <= j && Unopened(p, N, j, x) ==> l[x] != m
    ensures Within(p, N, j, l, m - 1) && Space(p, N, j, l, m - 1, j) <= Pow2(m - 1)
  {
    hide Unopened, Space;
    SpaceHalf(p, N, j, l, m, j);
  }

  /** A single root with the longest length leaves room to shorten it. */
  lemma {:induction false} OneLongest(w: seq<int>, p: seq<int>, n: int, N: int, kids: Kids, j: int, l: seq<int>, m: nat,
                                      x: int)
    requires Weighed(w, p, n, N, kids) && 0 <= j <= N < |l| && N < |w| && m > 0
    requires Within(p, N, j, l, m) && Space(p, N, j, l, m, j) <= Pow2(m)
    requires 1 <= x <= j && Unopened(p, N, j, x) && l[x] == m
    requires forall y :: 1 <= y <= j && y != x && Unopened(p, N, j, y) ==> l[y] != m
    ensures Within(p, N, j, l[x := m - 1], m - 1) && Space(p, N, j, l[x := m - 1], m - 1, j) <= Pow2(m - 1)
    ensures Cost(w, p, N, j, l[x := m - 1], j) <= Cost(w, p, N, j, l, j)
  {
    hide *;
    ShortenedWithin(p, N, j, l, m, x);
    ShortenedSpace(p, N, j, l, m, x);
    WeightsPositive(w, p, n, N, kids);
    CostSet(w, p, N, j, l, j, x, m - 1);
    Gain(w[x] / 256, m - 1 - l[x]);
  }

  lemma {:induction false} ShortenedSpace(p: seq<int>, N: int, j: int, l: seq<int>, m: nat, x: int)
    requires j < |l| && m > 0 && Space(p, N, j, l, m, j) <= Pow2(m)
    requires 1 <= x <= j && Unopened(p, N, j, x) && l[x] == m
    requires forall i :: 1 <= i <= j && Unopened(p, N, j, i) ==> 0 <= l[x := m - 1][i] <= m - 1
    ensures Space(p, N, j, l[x := m - 1], m - 1, j) <= Pow2(m - 1)
  {
    hide *;
    SpaceSet(p, N, j, l, m, j, x, m - 1);
    SpaceHalf(p, N, j, l[x := m - 1], m, j);
    Doubles(m);
    EvenRoom(Space(p, N, j, l[x := m - 1], m - 1, j), Pow2(m - 1), Space(p, N, j, l, m, j));
  }

  lemma EvenRoom(s: int, room: int, before: int)
    requires 2 * s == before + 1 && before <= 2 * room
    ensures s <= room
  {
  }

  lemma Gain(f: int, d: int)
    requires f >= 0 && d <= 0
    ensures Times(f, d) <= 0
  {
  }

  lemma Doubles(m: nat)
    requires m > 0
    ensures Pow2(m - m) == 1 && Pow2(m - (m - 1)) == 2 && Pow2(m) == 2 * Pow2(m - 1)
  {
    assert Pow2(1) == 2;
  }

  lemma ShortenedWithin(p: seq<int>, N: int, j: int, l: seq<int>, m: nat, x: int)
    requires Within(p, N, j, l, m) && m > 0 && 1 <= x <= j && Unopened(p, N, j, x) && l[x] == m
    requires forall y :: 1 <= y <= j && y != x && Unopened(p, N, j, y) ==> l[y] != m
    ensures Within(p, N, j, l[x := m - 1], m - 1)
    ensures forall i :: 1 <= i <= j && Unopened(p, N, j, i) ==> 0 <= l[x := m - 1][i] <= m - 1
  {
    hide Unopened;
  }

  // ---- what the tree itself costs ----

  /** The depths of all nodes. */
  ghost function Depths(p: seq<int>, N: int): (d: seq<int>)
    requires N >= 0
    ensures |d| == N + 1 && forall i :: 0 <= i <= N ==> d[i] == Depth(p, N, i)
  {
    seq(N + 1, i => Depth(p, N, i))
  }

  /** With their depths, the roots of a stage cost exactly the merges still to come. */
  lemma {:induction false} DepthCost(w: seq<int>, p: seq<int>, n: int, N: int, kids: Kids, j: int)
    requires Weighed(w, p, n, N, kids) && Plain(w, n) && 1 <= n <= j <= N < |w|
    ensures Cost(w, p, N, j, Depths(p, N), j) == Rest(w, j, N)
    decreases N - j
  {
    hide *;
    WeighedTree(w, p, n, N, kids);
    var d := Depths(p, N);
    if j == N {
      RootCost(w, p, n, N, kids);
    } else {
      var c := j + 1;
      DepthCost(w, p, n, N, kids, c);
      RestNext(w, j, N);
      NodeStands(p, n, N, kids, c);
      CostClose(w, p, n, N, kids, c, d, j);
      ExactSum(w, p, n, N, kids, c);
      KidDepth(p, n, N, kids, c);
      CostLast(w, p, N, c, d);
      var fa, fb, e := w[kids[c].0] / 256, w[kids[c].1] / 256, d[c];
      assert d[kids[c].0] == e + 1 == d[kids[c].1];
      SplitCost(fa, fb, e);
    }
  }

  lemma SplitCost(fa: int, fb: int, e: int)
    ensures Times(fa, e + 1) + Times(fb, e + 1) == Times(fa + fb, e) + (fa + fb)
  {
  }

  lemma CostLast(w: seq<int>, p: seq<int>, N: int, c: int, l: seq<int>)
    requires 1 <= c < |w| && c < |l| && Unopened(p, N, c, c)
    ensures Cost(w, p, N, c, l, c) == Cost(w, p, N, c, l, c - 1) + Times(w[c] / 256, l[c])
  {
    hide Unopened;
  }

  lemma {:induction false} RootCost(w: seq<int>, p: seq<int>, n: int, N: int, kids: Kids)
    requires Tree(p, n, N, kids) && N < |w|
    ensures Cost(w, p, N, N, Depths(p, N), N) == 0 == Rest(w, N, N)
  {
    OnlyRoot(w, p, n, N, kids, N - 1);
    assert Depth(p, N, N) == 0;
  }

  lemma {:induction false} OnlyRoot(w: seq<int>, p: seq<int>, n: int, N: int, kids: Kids, k: int)
    requires Tree(p, n, N, kids) && N < |w| && k < N
    ensures Cost(w, p, N, N, Depths(p, N), k) == 0
  {
    if k > 0 {
      OnlyRoot(w, p, n, N, kids, k - 1);
      assert p[k] <= N;
    }
  }
}
