/** BZ2_hbMakeCodeLengths: repeatedly merge the two lightest trees, then read
    each leaf's depth off the parent links. */
module HuffmanLengths {
  import opened Bits
  import opened HuffmanHeap

  /** ADDWEIGHTS: frequencies add up in the high bits, depths take 1 + max in the low byte. */
  function AddWeights(a: nat, b: nat): nat {
    Or(And(a, 0xffff_ff00) + And(b, 0xffff_ff00), 1 + Max(And(a, 0xff), And(b, 0xff)))
  }

  function Max(x: nat, y: nat): nat { if x > y then x else y }

  lemma {:induction false} AddWeightsIs(a: nat, b: nat)
    requires a < 0x8000_0000 && b < 0x8000_0000
    ensures AddWeights(a, b) == Or(256 * (a / 256 + b / 256), 1 + Max(a % 256, b % 256))
  {
    HighPart(a);
    HighPart(b);
  }

  /** A merged tree is heavier than either part, and its frequency is their sum,
      or one more in the case that the depth count spills over. */
  lemma {:induction false} MergedHeavier(a: nat, b: nat)
    requires 256 <= a < 0x8000_0000 && 256 <= b < 0x8000_0000
    ensures AddWeights(a, b) > a && AddWeights(a, b) > b
    ensures a / 256 + b / 256 <= AddWeights(a, b) / 256 <= a / 256 + b / 256 + 1
  {
    hide *;
    AddWeightsIs(a, b);
    var q, d := a / 256 + b / 256, 1 + Max(a % 256, b % 256);
    MaxBounds(a % 256, b % 256);
    if d < 256 {
      OrByte(q, d);
    } else {
      OrAtLeast(256 * q, d);
      OrAtMost(256 * q, d);
    }
    HeavierBounds(a, b, d, AddWeights(a, b));
  }

  lemma HeavierBounds(a: nat, b: nat, d: nat, v: nat)
    requires 256 <= a && 256 <= b && a % 256 < d <= 256 && b % 256 < d
    requires 256 * (a / 256 + b / 256) <= v <= 256 * (a / 256 + b / 256) + d
    requires d < 256 ==> v == 256 * (a / 256 + b / 256) + d
    ensures v > a && v > b && a / 256 + b / 256 <= v / 256 <= a / 256 + b / 256 + 1
  {
    var x, y := a / 256, b / 256;
    assert a == 256 * x + a % 256 && b == 256 * y + b % 256 && x >= 1 && y >= 1;
  }

  lemma MaxBounds(x: nat, y: nat)
    ensures Max(x, y) >= x && Max(x, y) >= y && (Max(x, y) == x || Max(x, y) == y)
  {
  }

  lemma {:induction false} OrByte(q: nat, d: nat)
    requires d < 256
    ensures Or(256 * q, d) == 256 * q + d
  {
    hide Or;
    assert Pow2(8) == 256 by { Pow2Values(); }
    OrDisjoint(q, 8, d);
  }

  lemma {:induction false} OrAtMost(a: nat, b: nat)
    ensures Or(a, b) <= a + b
    decreases a + b
  {
    if a + b > 0 { OrAtMost(a / 2, b / 2); }
  }

  lemma {:induction false} HighPart(a: nat)
    requires a < 0x1_0000_0000
    ensures And(a, 0xffff_ff00) == 256 * (a / 256) && And(a, 0xff) == a % 256
  {
    hide And, Shl, Halve;
    Pow2Values();
    AndLowMask(a, 8);
    AndHighMask(a, 0xff_ffff, 8);
    HalveIsDiv(a, 8);
    AndLowMask(a / 256, 24);
    ShlBy8(0xff_ffff);
    ShlBy8(a / 256);
  }

  lemma ShlBy8(x: nat)
    ensures Shl(x, 8) == 256 * x
  {
    assert Shl(x, 8) == 2 * Shl(x, 7) == 4 * Shl(x, 6) == 8 * Shl(x, 5) == 16 * Shl(x, 4);
    assert Shl(x, 4) == 2 * Shl(x, 3) == 4 * Shl(x, 2) == 8 * Shl(x, 1) == 16 * x;
  }

  lemma {:induction false} OrAtLeast(a: nat, b: nat)
    ensures Or(a, b) >= a
    decreases a + b
  {
    if a + b > 0 { OrAtLeast(a / 2, b / 2); }
  }

  /** The two children of each internal node, by node number. */
  type Kids = seq<(int, int)>

  /** Nodes 1..n are leaves, n+1..N were made by merging two earlier roots each. */
  ghost predicate Forest(parent: seq<int>, n: int, N: int, kids: Kids) {
    && 1 <= n <= N < |parent| && N < |kids|
    && (forall k :: 1 <= k <= N ==> parent[k] == -1 || ChildOf(parent[k], k, n, N, kids))
    && (forall j :: n < j <= N ==> 1 <= kids[j].0 < j && 1 <= kids[j].1 < j && kids[j].0 != kids[j].1)
    && (forall j :: n < j <= N ==> parent[kids[j].0] == j && parent[kids[j].1] == j)
  }

  ghost predicate ChildOf(p: int, k: int, n: int, N: int, kids: Kids)
    requires N < |kids|
  {
    1 <= n < p <= N && k < p && (kids[p].0 == k || kids[p].1 == k)
  }

  /** The heap lists exactly the roots. */
  ghost predicate RootsInHeap(h: seq<int>, parent: seq<int>, N: int, nHeap: int) {
    && 0 <= nHeap < |h| && 0 <= N < |parent|
    && forall x :: x in Live(h, nHeap) <==> 1 <= x <= N && parent[x] == -1
  }

  /** Merges happened in order of weight: siblings are adjacent in a list of all
      merged nodes by weight, and no root is lighter than a merged node. A merged
      frequency is the sum of its parts, or one more. */
  ghost predicate Siblings(w: seq<int>, n: int, N: int, kids: Kids, parent: seq<int>)
    requires Forest(parent, n, N, kids) && N < |w|
  {
    && (forall j :: n < j <= N ==> w[kids[j].0] <= w[kids[j].1])
    && (forall j :: n < j < N ==> w[kids[j].1] <= w[kids[j + 1].0])
    && (N > n ==> forall k :: 1 <= k <= N && parent[k] == -1 ==> w[kids[N].1] <= w[k])
    && (forall j :: n < j <= N ==> 0 <= w[j] / 256 - w[kids[j].0] / 256 - w[kids[j].1] / 256 <= 1)
  }

  /** Every inner node weighs what ADDWEIGHTS makes of its children. */
  ghost predicate Merges(w: seq<int>, n: int, N: int, kids: Kids) {
    && N < |w| && N < |kids|
    && forall j :: n < j <= N ==> 0 <= j && IsMerged(w, j, kids[j].0, kids[j].1)
  }

  ghost predicate IsMerged(w: seq<int>, j: int, a: int, b: int)
    requires 0 <= j < |w|
  {
    0 <= a < |w| && 0 <= b < |w| && w[a] >= 0 && w[b] >= 0 && w[j] == AddWeights(w[a], w[b])
  }

  lemma {:induction false} MergesNext(w: seq<int>, n: int, N: int, kids: Kids, n1: int, n2: int, v: int)
    requires Merges(w, n, N, kids) && 0 <= n <= N && N + 1 < |w| && N + 1 < |kids|
    requires forall j :: n < j <= N ==> kids[j].0 <= N && kids[j].1 <= N
    requires 0 <= n1 <= N && 0 <= n2 <= N && w[n1] >= 0 && w[n2] >= 0 && v == AddWeights(w[n1], w[n2])
    ensures Merges(w[N + 1 := v], n, N + 1, kids[N + 1 := (n1, n2)])
  {
    hide AddWeights;
    var w', kids' := w[N + 1 := v], kids[N + 1 := (n1, n2)];
    forall j | n < j <= N + 1 ensures IsMerged(w', j, kids'[j].0, kids'[j].1) {
      if j <= N { assert IsMerged(w, j, kids[j].0, kids[j].1); }
    }
  }

  /** The frequencies of all roots among nodes 1..k. */
  ghost function RootSum(w: seq<int>, parent: seq<int>, k: int): int
    requires k < |w| && |w| == |parent|
  {
    if k <= 0 then 0 else RootSum(w, parent, k - 1) + (if parent[k] == -1 then w[k] / 256 else 0)
  }

  /** Total frequencies stay below 2^23, so weights stay within 32 bits. */
  ghost predicate Bounded(w: seq<int>, parent: seq<int>, n: int, N: int) {
    && N < |w| == |parent| && (forall k :: 1 <= k <= N ==> 256 <= w[k] < 0x8000_0000)
    && RootSum(w, parent, N) - N < 0x80_0000 - 2 * n
  }

  ghost predicate Building(h: seq<int>, w: seq<int>, parent: seq<int>, n: int, N: int, nHeap: int, kids: Kids) {
    && Forest(parent, n, N, kids) && 2 * n - 1 < |w| && |parent| == |w| && 2 * n <= |kids| && |h| >= n + 2
    && nHeap == 2 * n - N && nHeap >= 1 && Ordered(h, w, nHeap) && RootsInHeap(h, parent, N, nHeap)
    && Bounded(w, parent, n, N) && Siblings(w, n, N, kids, parent) && Merges(w, n, N, kids)
  }

  // ---- taking the lightest root ----

  /** h' is h without its top entry. */
  ghost predicate Popped(h: seq<int>, h': seq<int>, n: int) {
    1 <= n < |h| && |h'| == |h| && Live(h', n - 1) == Live(h, n) - {h[1]}
  }

  lemma {:induction false} PopMoves(h: seq<int>, w: seq<int>, t: seq<int>, n: int)
    requires 1 <= n < |h| && Entries(h, w, n) && SameNodes(h[1 := h[n]], t, n - 1)
    ensures Popped(h, t, n)
  {
    var g := h[1 := h[n]];
    SameLive(g, t, n - 1);
    forall x ensures x in Live(g, n - 1) <==> x in Live(h, n) && x != h[1] {
      if k :| 1 <= k <= n && h[k] == x && x != h[1] {
        if k == n { assert g[1] == x && 1 <= n - 1; } else { assert g[k] == x; }
      }
      if k :| 1 <= k <= n - 1 && g[k] == x {
        if k == 1 { assert h[n] == x; } else { assert h[k] == x; }
      }
    }
  }

  lemma {:induction false} PopOrder(h: seq<int>, w: seq<int>, n: int)
    requires Ordered(h, w, n) && n >= 1
    ensures Entries(h[1 := h[n]], w, n - 1)
    ensures forall k :: 4 <= k <= n - 1 ==> Wt(h[1 := h[n]], w, k / 2) <= Wt(h[1 := h[n]], w, k)
  {
    assert forall k :: 2 <= k < n ==> Wt(h[1 := h[n]], w, k) == Wt(h, w, k);
    forall k | 4 <= k <= n - 1 ensures Wt(h[1 := h[n]], w, k / 2) <= Wt(h[1 := h[n]], w, k) {
      assert Wt(h, w, k / 2) <= Wt(h, w, k);
    }
  }

  /** n1 = heap[1]; heap[1] = heap[nHeap]; nHeap--; DOWNHEAP(1). */
  method Pop(heap: array<int>, weight: array<int>, nHeap: int) returns (top: int)
    requires heap != weight && nHeap >= 1 && Ordered(heap[..], weight[..], nHeap)
    modifies heap
    ensures Ordered(heap[..], weight[..], nHeap - 1) && Popped(old(heap[..]), heap[..], nHeap)
    ensures nHeap < heap.Length && top == old(heap[1])
  {
    ghost var h, w := heap[..], weight[..];
    assert nHeap < |h|;
    hide *;
    top := heap[1];
    heap[1] := heap[nHeap];
    assert heap[..] == h[1 := h[nHeap]];
    PopOrder(h, w, nHeap);
    DownHeap(heap, weight, nHeap - 1);
    OrderedEntries(h, w, nHeap);
    PopMoves(h, w, heap[..], nHeap);
  }

  lemma OrderedEntries(h: seq<int>, w: seq<int>, n: int)
    requires Ordered(h, w, n)
    ensures Entries(h, w, n)
  {
  }

  /** n1 and n2, popped in turn, were the two lightest roots. */
  lemma {:induction false} TwoLightest(h0: seq<int>, h1: seq<int>, h2: seq<int>, w: seq<int>, nHeap: int, n1: int,
                                       n2: int)
    requires nHeap >= 2 && Ordered(h0, w, nHeap) && Ordered(h1, w, nHeap - 1) && Popped(h0, h1, nHeap) &&
             Popped(h1, h2, nHeap - 1)
    requires n1 == h0[1] && n2 == h1[1]
    ensures n1 in Live(h0, nHeap) && n2 in Live(h0, nHeap) && n1 != n2
    ensures Live(h2, nHeap - 2) == Live(h0, nHeap) - {n1, n2}
    ensures 0 <= n1 < |w| && 0 <= n2 < |w| && w[n1] <= w[n2]
    ensures forall x :: x in Live(h2, nHeap - 2) ==> 0 <= x < |w| && w[n2] <= w[x]
  {
    assert n2 in Live(h1, nHeap - 1);
    LightestIn(h0, w, nHeap, n2);
    forall x | x in Live(h2, nHeap - 2) ensures 0 <= x < |w| && w[n2] <= w[x] {
      LightestIn(h1, w, nHeap - 1, x);
    }
  }

  lemma {:induction false} LightestIn(h: seq<int>, w: seq<int>, n: int, x: int)
    requires Ordered(h, w, n) && n >= 1 && x in Live(h, n)
    ensures 0 <= h[1] < |w| && 0 <= x < |w| && w[h[1]] <= w[x]
  {
    var k :| 1 <= k <= n && h[k] == x;
    TopLightest(h, w, n, k);
  }

  // ---- one merge ----

  lemma {:induction false} RootSumSame(w: seq<int>, p: seq<int>, w': seq<int>, p': seq<int>, k: int)
    requires k < |w| == |p| && k < |w'| == |p'|
    requires forall i :: 1 <= i <= k ==> w[i] == w'[i] && p[i] == p'[i]
    ensures RootSum(w, p, k) == RootSum(w', p', k)
  {
    if k > 0 { RootSumSame(w, p, w', p', k - 1); }
  }

  /** Giving one root a parent takes its frequency out of the sum. */
  lemma {:induction false} RootSumDrop(w: seq<int>, p: seq<int>, k: int, x: int, v: int)
    requires k < |w| == |p| && 1 <= x <= k && p[x] == -1 && v != -1
    ensures RootSum(w, p[x := v], k) == RootSum(w, p, k) - w[x] / 256
  {
    if x < k {
      RootSumDrop(w, p, k - 1, x, v);
    } else {
      RootSumSame(w, p, w, p[x := v], k - 1);
    }
  }

  lemma {:induction false} RootSumAtLeast(w: seq<int>, p: seq<int>, k: int, x: int)
    requires k < |w| == |p| && forall i :: 1 <= i <= k ==> w[i] >= 0
    ensures RootSum(w, p, k) >= 0
    ensures 1 <= x <= k && p[x] == -1 ==> RootSum(w, p, k) >= w[x] / 256
  {
    if k > 0 { RootSumAtLeast(w, p, k - 1, x); }
  }

  ghost function Linked(p: seq<int>, N: int, n1: int, n2: int): seq<int>
    requires 0 <= n1 < |p| && 0 <= n2 < |p| && 0 <= N + 1 < |p|
  {
    p[n1 := N + 1][n2 := N + 1][N + 1 := -1]
  }

  lemma {:induction false} MergeForest(p: seq<int>, n: int, N: int, kids: Kids, n1: int, n2: int)
    requires Forest(p, n, N, kids) && N + 1 < |p| && N + 1 < |kids|
    requires 1 <= n1 <= N && 1 <= n2 <= N && n1 != n2 && p[n1] == -1 && p[n2] == -1
    ensures Forest(Linked(p, N, n1, n2), n, N + 1, kids[N + 1 := (n1, n2)])
  {
    var p', kids' := Linked(p, N, n1, n2), kids[N + 1 := (n1, n2)];
    forall j | n < j <= N + 1 ensures p'[kids'[j].0] == j && p'[kids'[j].1] == j {
      if j <= N {
        assert p[kids[j].0] == j && p[kids[j].1] == j;
        assert kids[j].0 != n1 && kids[j].0 != n2 && kids[j].1 != n1 && kids[j].1 != n2;
      }
    }
    forall k | 1 <= k <= N + 1 ensures p'[k] == -1 || ChildOf(p'[k], k, n, N + 1, kids') {
      if k <= N && k != n1 && k != n2 && p[k] != -1 { assert ChildOf(p[k], k, n, N, kids); }
    }
  }

  lemma {:induction false} MergeBounded(w: seq<int>, p: seq<int>, n: int, N: int, n1: int, n2: int)
    requires Bounded(w, p, n, N) && n <= N < 2 * n - 1 < |w|
    requires 1 <= n1 <= N && 1 <= n2 <= N && n1 != n2 && p[n1] == -1 && p[n2] == -1
    ensures 256 <= w[n1] < 0x8000_0000 && 256 <= w[n2] < 0x8000_0000
    ensures AddWeights(w[n1], w[n2]) > w[n1] && AddWeights(w[n1], w[n2]) > w[n2]
    ensures 0 <= AddWeights(w[n1], w[n2]) / 256 - w[n1] / 256 - w[n2] / 256 <= 1
    ensures Bounded(w[N + 1 := AddWeights(w[n1], w[n2])], Linked(p, N, n1, n2), n, N + 1)
  {
    hide AddWeights;
    RootSumAtLeast(w, p, N, n1);
    RootSumAtLeast(w, p, N, n2);
    MergedHeavier(w[n1], w[n2]);
    var p1 := p[n1 := N + 1];
    var p2 := p1[n2 := N + 1];
    RootSumDrop(w, p, N, n1, N + 1);
    RootSumDrop(w, p1, N, n2, N + 1);
    var w' := w[N + 1 := AddWeights(w[n1], w[n2])];
    RootSumSame(w, p2, w', p2[N + 1 := -1], N);
    RootSumAtLeast(w', p2[N + 1 := -1], N + 1, N + 1);
  }

  lemma {:induction false} MergeSiblings(w: seq<int>, p: seq<int>, n: int, N: int, kids: Kids, n1: int, n2: int, v: int)
    requires Forest(p, n, N, kids) && N + 1 < |p| == |w| && N + 1 < |kids| && Siblings(w, n, N, kids, p)
    requires 1 <= n1 <= N && 1 <= n2 <= N && n1 != n2 && p[n1] == -1 && p[n2] == -1 && w[n1] <= w[n2] < v
    requires 0 <= v / 256 - w[n1] / 256 - w[n2] / 256 <= 1
    requires forall k :: 1 <= k <= N && p[k] == -1 && k != n1 && k != n2 ==> w[n2] <= w[k]
    ensures Forest(Linked(p, N, n1, n2), n, N + 1, kids[N + 1 := (n1, n2)])
    ensures Siblings(w[N + 1 := v], n, N + 1, kids[N + 1 := (n1, n2)], Linked(p, N, n1, n2))
  {
    MergeForest(p, n, N, kids, n1, n2);
  }

  /** The heap with the new node appended. */
  lemma {:induction false} MergeHeap(h: seq<int>, w: seq<int>, N: int, m: int, v: int)
    requires Ordered(h, w, m) && m + 1 < |h| && 0 <= N && N + 1 < |w| && v >= 0 &&
             (forall x :: x in Live(h, m) ==> 1 <= x <= N)
    ensures Entries(h[m + 1 := N + 1], w[N + 1 := v], m + 1) && Ordered(h[m + 1 := N + 1], w[N + 1 := v], m)
    ensures Live(h[m + 1 := N + 1], m + 1) == Live(h, m) + {N + 1}
  {
    var h', w' := h[m + 1 := N + 1], w[N + 1 := v];
    assert forall k :: 1 <= k <= m ==> h[k] in Live(h, m) && h'[k] == h[k];
    assert forall k :: 1 <= k <= m ==> Wt(h', w', k) == Wt(h, w, k);
    forall x ensures x in Live(h', m + 1) <==> x in Live(h, m) || x == N + 1 {
      if k :| 1 <= k <= m && h[k] == x { assert h'[k] == x; }
      if x == N + 1 { assert h'[m + 1] == x; }
    }
  }

  /** All of one merge on the array contents: h2 is the heap after both pops, h4 after UPHEAP. */
  lemma {:induction false} MergeStep(h0: seq<int>, h1: seq<int>, h2: seq<int>, h4: seq<int>, w: seq<int>, p: seq<int>,
                                     n: int, N: int, nHeap: int, kids: Kids, n1: int, n2: int)
    requires Building(h0, w, p, n, N, nHeap, kids) && nHeap >= 2
    requires Ordered(h1, w, nHeap - 1) && Popped(h0, h1, nHeap) && Popped(h1, h2, nHeap - 1) && n1 == h0[1] &&
             n2 == h1[1]
    requires 0 <= n1 < |w| && 0 <= n2 < |w| && w[n1] >= 0 && w[n2] >= 0 && N + 1 < |w| && nHeap - 1 < |h2|
    requires Ordered(h4, w[N + 1 := AddWeights(w[n1], w[n2])], nHeap - 1) &&
             SameNodes(h2[nHeap - 1 := N + 1], h4, nHeap - 1)
    requires Ordered(h2, w, nHeap - 2)
    ensures Building(h4, w[N + 1 := AddWeights(w[n1], w[n2])], Linked(p, N, n1, n2), n, N + 1, nHeap - 1,
            kids[N + 1 := (n1, n2)])
  {
    hide AddWeights, Ordered, Entries, Forest, Bounded, Siblings, RootSum, SameNodes, Popped,
         Merges;
    TwoLightest(h0, h1, h2, w, nHeap, n1, n2);
    ForestShape(p, n, N, kids);
    MergeBounded(w, p, n, N, n1, n2);
    var v := AddWeights(w[n1], w[n2]);
    MergeForest(p, n, N, kids, n1, n2);
    MergeSiblings(w, p, n, N, kids, n1, n2, v);
    ForestKids(p, n, N, kids);
    MergesNext(w, n, N, kids, n1, n2, v);
    MergeHeap(h2, w, N, nHeap - 2, v);
    SameLive(h2[nHeap - 1 := N + 1], h4, nHeap - 1);
    PoppedSizes(h0, h1, nHeap);
    PoppedSizes(h1, h2, nHeap - 1);
    SameSizes(h2[nHeap - 1 := N + 1], h4, nHeap - 1);
  }

  lemma ForestKids(p: seq<int>, n: int, N: int, kids: Kids)
    requires Forest(p, n, N, kids)
    ensures forall j :: n < j <= N ==> kids[j].0 <= N && kids[j].1 <= N
  {
  }

  lemma ForestShape(p: seq<int>, n: int, N: int, kids: Kids)
    requires Forest(p, n, N, kids)
    ensures 1 <= n <= N < |p| && N < |kids|
  {
  }

  lemma PoppedSizes(h: seq<int>, h': seq<int>, n: int)
    requires Popped(h, h', n)
    ensures |h'| == |h| && 1 <= n < |h|
  {
  }

  lemma SameSizes(s: seq<int>, t: seq<int>, n: int)
    requires SameNodes(s, t, n)
    ensures |s| == |t|
  {
  }

  /** Before a merge: what the code reads is in range. */
  lemma {:induction false} MergeReady(h0: seq<int>, h1: seq<int>, h2: seq<int>, w: seq<int>, p: seq<int>, n: int,
                                      N: int, nHeap: int, kids: Kids, n1: int, n2: int)
    requires Building(h0, w, p, n, N, nHeap, kids) && nHeap >= 2
    requires Ordered(h1, w, nHeap - 1) && Ordered(h2, w, nHeap - 2) && Popped(h0, h1, nHeap) &&
             Popped(h1, h2, nHeap - 1)
    requires n1 == h0[1] && n2 == h1[1]
    ensures 0 <= n1 < |w| && 0 <= n2 < |w| && n1 < |p| && n2 < |p| && w[n1] >= 0 && w[n2] >= 0 && N + 1 < |w| == |p| &&
            N >= 1 && nHeap - 1 < |h2|
    ensures Entries(h2[nHeap - 1 := N + 1], w[N + 1 := AddWeights(w[n1], w[n2])], nHeap - 1)
    ensures Ordered(h2[nHeap - 1 := N + 1], w[N + 1 := AddWeights(w[n1], w[n2])], nHeap - 2)
  {
    hide AddWeights, Ordered, Entries, Forest, Bounded, Siblings, RootSum;
    TwoLightest(h0, h1, h2, w, nHeap, n1, n2);
    ForestShape(p, n, N, kids);
    MergeBounded(w, p, n, N, n1, n2);
    MergeHeap(h2, w, N, nHeap - 2, AddWeights(w[n1], w[n2]));
  }

  lemma BuildingHeap(h: seq<int>, w: seq<int>, p: seq<int>, n: int, N: int, nHeap: int, kids: Kids)
    requires Building(h, w, p, n, N, nHeap, kids)
    ensures Ordered(h, w, nHeap) && nHeap == 2 * n - N >= 1 && 1 <= n <= N && 2 * n <= |kids|
  {
  }

  method Merge(heap: array<int>, weight: array<int>, parent: array<int>, n: int, N: int, nHeap: int, ghost kids: Kids)
    returns (N': int, nHeap': int, ghost kids': Kids)
    requires heap != weight && heap != parent && weight != parent
    requires Building(heap[..], weight[..], parent[..], n, N, nHeap, kids) && nHeap >= 2
    modifies heap, weight, parent
    ensures N' == N + 1 < weight.Length && N >= 1 && nHeap' == nHeap - 1
    ensures Building(heap[..], weight[..], parent[..], n, N', nHeap', kids')
    ensures weight[..] == old(weight[..])[N + 1 := weight[N + 1]]
  {
    hide *;
    ghost var h0, w, p := heap[..], weight[..], parent[..];
    BuildingHeap(h0, w, p, n, N, nHeap, kids);
    var n1 := Pop(heap, weight, nHeap);
    ghost var h1 := heap[..];
    var n2 := Pop(heap, weight, nHeap - 1);
    ghost var h2 := heap[..];
    MergeReady(h0, h1, h2, w, p, n, N, nHeap, kids, n1, n2);
    N' := N + 1;
    parent[n1] := N';
    parent[n2] := N';
    weight[N'] := AddWeights(weight[n1], weight[n2]);
    parent[N'] := -1;
    nHeap' := nHeap - 1;
    heap[nHeap'] := N';
    assert heap[..] == h2[nHeap - 1 := N + 1];
    assert weight[..] == w[N + 1 := AddWeights(w[n1], w[n2])];
    assert parent[..] == p[n1 := N + 1][n2 := N + 1][N + 1 := -1];
    UpHeap(heap, weight, nHeap');
    LinkedIs(p, N, n1, n2);
    MergeStep(h0, h1, h2, heap[..], w, p, n, N, nHeap, kids, n1, n2);
    kids' := kids[N + 1 := (n1, n2)];
  }

  lemma LinkedIs(p: seq<int>, N: int, n1: int, n2: int)
    requires 0 <= n1 < |p| && 0 <= n2 < |p| && 0 <= N + 1 < |p|
    ensures Linked(p, N, n1, n2) == p[n1 := N + 1][n2 := N + 1][N + 1 := -1]
  {
  }
}
