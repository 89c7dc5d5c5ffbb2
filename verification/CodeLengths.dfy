/** BZ2_hbMakeCodeLengths as a whole: build a tree, read the leaf depths, and
    flatten the weights until no code is too long. */
module CodeLengths {
  import opened Bits
  import opened HuffmanHeap
  import opened HuffmanLengths
  import opened HuffmanTree
  import opened HuffmanDepth
  import opened OptimalLengths
  import HuffmanCodes

  /** Leaf weights: a frequency of at least 1 above a depth byte, in total below 2^23. */
  ghost predicate Leaves(w: seq<int>, n: int) {
    && 1 <= n <= 258 && 2 * n - 1 < |w| && (forall k :: 1 <= k <= n ==> w[k] >= 256 && w[k] % 256 == 0)
    && LeafSum(w, n) < 0x80_0000 - n
  }

  /** The leaf weights are the same in both. */
  ghost predicate SameLeaves(w: seq<int>, v: seq<int>, n: int) {
    n < |w| == |v| && forall k :: 1 <= k <= n ==> w[k] == v[k]
  }

  /** Leaves 1..i are in the heap, none with a parent. */
  ghost predicate Inserted(h: seq<int>, w: seq<int>, p: seq<int>, i: int) {
    && Ordered(h, w, i) && i < |p| && (forall x :: x in Live(h, i) <==> 1 <= x <= i)
    && forall k :: 1 <= k <= i ==> p[k] == -1
  }

  lemma {:induction false} InsertStep(h: seq<int>, w: seq<int>, p: seq<int>, i: int)
    requires Inserted(h, w, p, i - 1) && i < |h| && 1 <= i < |w| && i < |p| && w[i] >= 0
    ensures Entries(h[i := i], w, i) && Ordered(h[i := i], w, i - 1)
    ensures forall t :: Ordered(t, w, i) && SameNodes(h[i := i], t, i) ==> Inserted(t, w, p[i := -1], i)
  {
    assert w[i := w[i]] == w;
    MergeHeap(h, w, i - 1, i - 1, w[i]);
    hide Ordered, Entries, SameNodes;
    forall t | Ordered(t, w, i) && SameNodes(h[i := i], t, i) ensures Inserted(t, w, p[i := -1], i) {
      OrderedEntries(t, w, i);
      EntriesSize(t, w, i);
      SameLive(h[i := i], t, i);
    }
  }

  lemma EntriesSize(h: seq<int>, w: seq<int>, n: int)
    requires Entries(h, w, n)
    ensures 0 <= n < |h|
  {
  }

  lemma LeafWeight(w: seq<int>, n: int, i: int)
    requires Leaves(w, n)
    ensures 1 <= n <= 258 && 2 * n - 1 < |w| && (1 <= i <= n ==> w[i] >= 256)
  {
  }

  lemma {:induction false} StartEmpty(h: seq<int>, w: seq<int>, p: seq<int>)
    requires |h| > 0 && |w| > 0 && |p| > 0 && h[0] == 0 && w[0] == 0
    ensures Inserted(h, w, p, 0)
  {
    assert Live(h, 0) == {};
  }

  method FillHeap(heap: array<int>, weight: array<int>, parent: array<int>, n: int)
    requires heap != weight && heap != parent && weight != parent && Leaves(weight[..], n)
    requires heap.Length >= n + 2 && parent.Length == weight.Length
    modifies heap, weight, parent
    ensures Inserted(heap[..], weight[..], parent[..], n) && weight[..] == old(weight[..])[0 := 0]
  {
    hide *;
    ghost var w0 := weight[..];
    LeafWeight(w0, n, 0);
    heap[0] := 0;
    weight[0] := 0;
    parent[0] := -2;
    ghost var w := weight[..];
    assert w == w0[0 := 0];
    StartEmpty(heap[..], w, parent[..]);
    for i := 1 to n + 1
      invariant weight[..] == w && Inserted(heap[..], w, parent[..], i - 1)
    {
      LeafWeight(w0, n, i);
      ghost var h, p := heap[..], parent[..];
      InsertStep(h, w, p, i);
      parent[i] := -1;
      heap[i] := i;
      assert heap[..] == h[i := i] && parent[..] == p[i := -1];
      UpHeap(heap, weight, i);
    }
  }

  lemma {:induction false} LeafRootSum(w: seq<int>, p: seq<int>, k: int)
    requires 0 <= k < |w| == |p| && forall i :: 1 <= i <= k ==> p[i] == -1
    ensures RootSum(w, p, k) == LeafSum(w, k)
  {
    if k > 0 { LeafRootSum(w, p, k - 1); }
  }

  lemma {:induction false} SameLeafSum(w: seq<int>, v: seq<int>, k: int)
    requires 0 <= k < |w| == |v| && forall i :: 1 <= i <= k ==> w[i] == v[i]
    ensures LeafSum(w, k) == LeafSum(v, k)
  {
    if k > 0 { SameLeafSum(w, v, k - 1); }
  }

  lemma {:induction false} LeavesKept(w: seq<int>, v: seq<int>, n: int)
    requires Leaves(w, n) && SameLeaves(w, v, n)
    ensures Leaves(v, n)
  {
    SameLeafSum(w, v, n);
  }

  lemma {:induction false} StartBuilding(h: seq<int>, w: seq<int>, p: seq<int>, n: int, kids: Kids)
    requires Inserted(h, w, p, n) && Leaves(w, n) && |p| == |w| && |h| >= n + 2 && |kids| == 2 * n
    ensures Building(h, w, p, n, n, n, kids)
  {
    LeafRootSum(w, p, n);
    forall k | 1 <= k <= n ensures w[k] < 0x8000_0000 { RootSumAtLeast(w, p, n, k); }
    hide Ordered;
    assert Forest(p, n, n, kids);
  }

  /** One round: the tree over the current leaf weights. */
  method BuildTree(heap: array<int>, weight: array<int>, parent: array<int>, n: int) returns (ghost kids: Kids)
    requires heap != weight && heap != parent && weight != parent && Leaves(weight[..], n)
    requires heap.Length >= n + 2 && parent.Length == weight.Length
    modifies heap, weight, parent
    ensures Building(heap[..], weight[..], parent[..], n, 2 * n - 1, 1, kids) &&
            SameLeaves(old(weight[..]), weight[..], n)
  {
    hide *;
    ghost var w0 := weight[..];
    LeafWeight(w0, n, 0);
    FillHeap(heap, weight, parent, n);
    ZeroKept(w0, n);
    LeavesKept(w0, weight[..], n);
    kids := seq(2 * n, _ => (0, 0));
    StartBuilding(heap[..], weight[..], parent[..], n, kids);
    var nNodes, nHeap := n, n;
    while nHeap > 1
      invariant 1 <= nHeap == 2 * n - nNodes && nNodes >= n &&
                Building(heap[..], weight[..], parent[..], n, nNodes, nHeap, kids)
      invariant SameLeaves(w0, weight[..], n)
    {
      ghost var w := weight[..];
      nNodes, nHeap, kids := Merge(heap, weight, parent, n, nNodes, nHeap, kids);
      MergeKeeps(w0, w, n, nNodes, weight[nNodes]);
    }
  }

  lemma ZeroKept(w: seq<int>, n: int)
    requires 0 <= n < |w|
    ensures SameLeaves(w, w[0 := 0], n)
  {
  }

  lemma MergeKeeps(w0: seq<int>, w: seq<int>, n: int, N: int, v: int)
    requires SameLeaves(w0, w, n) && 0 <= n < N < |w|
    ensures SameLeaves(w0, w[N := v], n)
  {
  }

  // ---- reading the depths ----

  lemma WalkStep(p: seq<int>, n: int, N: int, kids: Kids, k: int)
    requires Tree(p, n, N, kids) && 1 <= k <= N
    ensures 1 <= n <= N < |p| && (p[k] >= 0 <==> k < N) && (k < N ==> k < p[k] <= N)
    ensures Depth(p, N, k) == (if k < N then 1 + Depth(p, N, p[k]) else 0)
  {
  }

  /** One leaf's depth, by following parent links. */
  method WalkUp(parent: array<int>, i: int, ghost n: int, ghost N: int, ghost kids: Kids) returns (j: int)
    requires Tree(parent[..], n, N, kids) && 1 <= i <= n
    ensures j == Depth(parent[..], N, i)
  {
    hide *;
    ghost var p := parent[..];
    j := 0;
    var k := i;
    TreeSize(p, n, N, kids);
    WalkStep(p, n, N, kids, k);
    while parent[k] >= 0
      invariant 1 <= k <= N < parent.Length && j + Depth(p, N, k) == Depth(p, N, i)
      decreases N - k
    {
      WalkStep(p, n, N, kids, k);
      k := parent[k];
      j := j + 1;
    }
    WalkStep(p, n, N, kids, k);
  }

  lemma TreeSize(p: seq<int>, n: int, N: int, kids: Kids)
    requires Tree(p, n, N, kids)
    ensures 1 <= n <= N < |p|
  {
  }

  /** Some leaf is more than m links below the root. */
  ghost predicate TooDeep(p: seq<int>, n: int, N: int, m: int) {
    exists i :: 1 <= i <= n && Depth(p, N, i) > m
  }

  /** The bytes stored in len. */
  ghost predicate DepthBytes(len: seq<int>, p: seq<int>, n: int, N: int) {
    |len| == n && forall i :: 0 <= i < n ==> len[i] == Depth(p, N, i + 1) % 256
  }

  /** The bytes stored in len, and whether a depth exceeds maxLen. */
  method ReadDepths(parent: array<int>, len: array<int>, n: int, maxLen: int, ghost N: int, ghost kids: Kids)
      returns (tooLong: bool)
    requires parent != len && len.Length == n && Tree(parent[..], n, N, kids)
    modifies len
    ensures DepthBytes(len[..], parent[..], n, N) && (tooLong <==> TooDeep(parent[..], n, N, maxLen))
  {
    hide Depth, Tree;
    ghost var p := parent[..];
    tooLong := false;
    TreeSize(p, n, N, kids);
    for i := 1 to n + 1
      invariant parent[..] == p
      invariant forall m :: 0 <= m < i - 1 ==> len[m] == Depth(p, N, m + 1) % 256
      invariant tooLong <==> TooDeep(p, i - 1, N, maxLen)
    {
      var j := WalkUp(parent, i, n, N, kids);
      len[i - 1] := j % 256;
      DeepStep(p, i, N, maxLen);
      if j > maxLen { tooLong := true; }
    }
  }

  lemma DeepStep(p: seq<int>, i: int, N: int, m: int)
    requires i >= 1
    ensures TooDeep(p, i, N, m) <==> TooDeep(p, i - 1, N, m) || Depth(p, N, i) > m
  {
    hide Depth;
    if TooDeep(p, i - 1, N, m) {
      var k :| 1 <= k <= i - 1 && Depth(p, N, k) > m;
    }
  }

  // ---- flattening ----

  ghost predicate Rescaled(w: seq<int>, v: seq<int>, n: int) {
    && 1 <= n < |w| == |v| && v[n] == w[n]
    && forall k :: 1 <= k < n ==> v[k] == 256 * (1 + w[k] / 256 / 2)
  }

  /** Every weight but the last is about halved. */
  method Rescale(weight: array<int>, n: int)
    requires 1 <= n < weight.Length && forall k :: 1 <= k <= n ==> weight[k] >= 256
    modifies weight
    ensures Rescaled(old(weight[..]), weight[..], n)
  {
    for i := 1 to n
      invariant weight[n] == old(weight[n])
      invariant forall k :: 1 <= k < i ==> weight[k] == 256 * (1 + old(weight[k]) / 256 / 2)
      invariant forall k :: i <= k < n ==> weight[k] == old(weight[k])
    {
      var j := weight[i] / 256;
      j := 1 + j / 2;
      weight[i] := 256 * j;
    }
  }

  /** A round of rescaling never adds weight, and removes some unless all are 1 or 2. */
  lemma {:induction false} RescaleShrinks(w: seq<int>, v: seq<int>, n: int, k: int)
    requires Rescaled(w, v, n) && 0 <= k < n && forall i :: 1 <= i <= n ==> w[i] >= 256
    ensures LeafSum(v, k) <= LeafSum(w, k)
    ensures (exists i :: 1 <= i <= k && w[i] / 256 > 2) ==> LeafSum(v, k) < LeafSum(w, k)
  {
    if k > 0 {
      RescaleShrinks(w, v, n, k - 1);
      assert v[k] / 256 == 1 + w[k] / 256 / 2;
    }
  }

  lemma {:induction false} RescaleStep(w: seq<int>, v: seq<int>, n: int)
    requires Leaves(w, n) && Rescaled(w, v, n)
    ensures Leaves(v, n) && 0 <= LeafSum(v, n - 1)
    ensures (exists i :: 1 <= i < n && w[i] / 256 > 2) ==> LeafSum(v, n - 1) < LeafSum(w, n - 1)
  {
    RescaleShrinks(w, v, n, n - 1);
    LeafSumPositive(v, n - 1);
  }

  lemma {:induction false} LeafSumPositive(w: seq<int>, k: int)
    requires 0 <= k < |w| && forall i :: 1 <= i <= k ==> w[i] >= 256
    ensures LeafSum(w, k) >= 0
  {
    if k > 0 { LeafSumPositive(w, k - 1); }
  }

  // ---- the frequencies behind the weights ----

  /** The frequencies as the first tree weighs them, each at least 1. */
  ghost function AtLeastOne(freq: seq<int>): (f: seq<int>)
    ensures |f| == |freq| && forall i :: 0 <= i < |f| ==> f[i] == if freq[i] == 0 then 1 else freq[i]
  {
    seq(|freq|, i requires 0 <= i < |freq| => if freq[i] == 0 then 1 else freq[i])
  }

  /** All but the last about halved. */
  ghost function Flat(f: seq<int>): (g: seq<int>)
    ensures |g| == |f| && forall i :: 0 <= i < |f| ==> g[i] == if i < |f| - 1 then 1 + f[i] / 2 else f[i]
  {
    seq(|f|, i requires 0 <= i < |f| => if i < |f| - 1 then 1 + f[i] / 2 else f[i])
  }

  ghost function Flattened(f: seq<int>, k: nat): (g: seq<int>)
    ensures |g| == |f|
  {
    if k == 0 then f else Flat(Flattened(f, k - 1))
  }

  /** Huffman trees of the frequencies, of the frequencies flattened once, twice and so on, all too deep. */
  ghost predicate DeepRounds(f: seq<int>, deep: seq<seq<int>>, maxLen: int) {
    forall k :: 0 <= k < |deep| ==> DeepRound(f, k, deep[k], maxLen)
  }

  ghost predicate DeepRound(f: seq<int>, k: nat, p: seq<int>, maxLen: int) {
    HuffmanFor(Flattened(f, k), p) && TooDeep(p, |f|, 2 * |f| - 1, maxLen)
  }

  /** The lengths are the leaf depths of a Huffman tree of the frequencies, flattened
      as often as the tree of the round before was too deep. */
  ghost predicate LengthsVia(freq: seq<int>, len: seq<int>, maxLen: int, deep: seq<seq<int>>, last: seq<int>) {
    var f, n := AtLeastOne(freq), |freq|;
    && DeepRounds(f, deep, maxLen) && HuffmanFor(Flattened(f, |deep|), last)
    && !TooDeep(last, n, 2 * n - 1, maxLen) && LeafDepths(len, last, n, 2 * n - 1)
  }

  /** Lengths BZ2_hbMakeCodeLengths may give these frequencies. */
  ghost predicate LengthsOf(freq: seq<int>, len: seq<int>, maxLen: int) {
    exists deep: seq<seq<int>>, last: seq<int> :: LengthsVia(freq, len, maxLen, deep, last)
  }

  lemma CarriesKept(w: seq<int>, v: seq<int>, f: seq<int>)
    requires Carries(w, f) && SameLeaves(w, v, |f|)
    ensures Carries(v, f)
  {
  }

  lemma CarriesFlat(w: seq<int>, v: seq<int>, f: seq<int>)
    requires Carries(w, f) && Rescaled(w, v, |f|)
    ensures Carries(v, Flat(f))
  {
    forall i | 0 <= i < |f| ensures v[i + 1] == 256 * Flat(f)[i] { assert w[i + 1] == 256 * f[i]; }
  }

  lemma FoundTree(w: seq<int>, p: seq<int>, f: seq<int>, kids: Kids)
    requires Weighed(w, p, |f|, 2 * |f| - 1, kids) && Carries(w, f)
    ensures HuffmanFor(f, p)
  {
    assert HuffmanOver(f, p, w, kids);
  }

  lemma DeepNext(f: seq<int>, deep: seq<seq<int>>, p: seq<int>, maxLen: int)
    requires DeepRounds(f, deep, maxLen) && DeepRound(f, |deep|, p, maxLen)
    ensures DeepRounds(f, deep + [p], maxLen)
  {
    hide DeepRound;
  }

  lemma IsDeep(f: seq<int>, k: nat, p: seq<int>, maxLen: int)
    requires HuffmanFor(Flattened(f, k), p) && TooDeep(p, |f|, 2 * |f| - 1, maxLen)
    ensures DeepRound(f, k, p, maxLen)
  {
  }

  /** The lengths are optimal for the frequencies flattened as often as a tree was too deep. */
  lemma {:induction false} LengthsOptimal(freq: seq<int>, len: seq<int>, maxLen: int, deep: seq<seq<int>>,
                                          last: seq<int>)
    requires LengthsVia(freq, len, maxLen, deep, last)
    ensures Optimal(Flattened(AtLeastOne(freq), |deep|), len)
  {
    hide HuffmanFor, Optimal, LeafDepths, Flattened;
    TreeOptimal(Flattened(AtLeastOne(freq), |deep|), last, len);
  }

  /** So is the more frequent symbol's code never the longer one. */
  lemma {:induction false} MoreFrequent(freq: seq<int>, len: seq<int>, maxLen: nat, deep: seq<seq<int>>,
                                        last: seq<int>, i: nat, j: nat)
    requires LengthsVia(freq, len, maxLen, deep, last) && Complete(len, maxLen) && i < |freq| && j < |freq|
    requires Flattened(AtLeastOne(freq), |deep|)[i] > Flattened(AtLeastOne(freq), |deep|)[j]
    ensures |len| == |freq| && len[i] <= len[j]
  {
    var f := Flattened(AtLeastOne(freq), |deep|);
    LengthsOptimal(freq, len, maxLen, deep, last);
    hide HuffmanFor, Optimal, LeafDepths, Flattened, HuffmanCodes.KraftSum, Pow2;
    assert FitsIn(len, |f|, maxLen);
    FrequentShorter(f, len, maxLen, i, j);
  }

  // ---- the whole ----

  /** The sum of the frequencies, each counted at least once. */
  ghost function FreqSum(freq: seq<int>): int {
    if freq == [] then 0 else FreqSum(freq[..|freq| - 1]) + (if freq[|freq| - 1] == 0 then 1 else freq[|freq| - 1])
  }

  lemma {:induction false} FreqLeafSum(freq: seq<int>, w: seq<int>, k: int)
    requires 0 <= k <= |freq| && k < |w| && forall i :: 0 <= i < k ==>
             w[i + 1] == 256 * (if freq[i] == 0 then 1 else freq[i])
    ensures LeafSum(w, k) == FreqSum(freq[..k])
  {
    if k > 0 {
      FreqLeafSum(freq, w, k - 1);
      assert freq[..k][..k - 1] == freq[..k - 1];
    }
  }

  method SetWeights(freq: seq<int>, weight: array<int>)
    requires 1 <= |freq| <= 258 && weight.Length == 516 && FreqSum(freq) < 0x80_0000 - |freq|
    requires forall i :: 0 <= i < |freq| ==> freq[i] >= 0
    modifies weight
    ensures Leaves(weight[..], |freq|) && Carries(weight[..], AtLeastOne(freq))
  {
    hide FreqSum, Leaves;
    for i := 0 to |freq|
      invariant forall k :: 0 <= k < i ==> weight[k + 1] == 256 * (if freq[k] == 0 then 1 else freq[k])
    {
      weight[i + 1] := (if freq[i] == 0 then 1 else freq[i]) * 256;
    }
    FreqLeafSum(freq, weight[..], |freq|);
    assert freq[..|freq|] == freq;
    LeavesStart(freq, weight[..]);
  }

  lemma LeavesStart(freq: seq<int>, w: seq<int>)
    requires 1 <= |freq| <= 258 && |w| == 516 && LeafSum(w, |freq|) < 0x80_0000 - |freq|
    requires forall i :: 0 <= i < |freq| ==> freq[i] >= 0 && w[i + 1] == 256 * (if freq[i] == 0 then 1 else freq[i])
    ensures Leaves(w, |freq|)
  {
    forall k | 1 <= k <= |freq| ensures w[k] >= 256 &&
      w[k] % 256 == 0 { assert freq[k - 1] >= 0 && w[k - 1 + 1] == w[k]; }
  }

  /** Lengths of a complete code: 1..m, filling the code space 2^m exactly. */
  ghost predicate Complete(len: seq<int>, m: nat) {
    (forall i :: 0 <= i < |len| ==> 1 <= len[i] <= m) && HuffmanCodes.KraftSum(len, m) == Pow2(m)
  }

  /** What the encoder needs of its length tables. */
  lemma CompleteIsLengths(len: seq<int>)
    requires Complete(len, 20) && 1 <= |len| <= 258
    ensures HuffmanCodes.Lengths(len)
  {
  }

  lemma {:induction false} FinishedLengths(len: seq<int>, p: seq<int>, n: int, kids: Kids, maxLen: nat)
    requires Tree(p, n, 2 * n - 1, kids) && n >= 2 && |len| == n && maxLen <= 255
    requires DepthBytes(len, p, n, 2 * n - 1) && !TooDeep(p, n, 2 * n - 1, maxLen)
    ensures LeafDepths(len, p, n, 2 * n - 1) && Complete(len, maxLen)
  {
    var N := 2 * n - 1;
    forall i | 0 <= i < n ensures len[i] == Depth(p, N, i + 1) <= maxLen { assert 1 <= i + 1 <= n; }
    CompleteCode(p, n, N, kids, len, maxLen);
  }

  lemma DeepLeaf(p: seq<int>, n: int, N: int, m: int) returns (i: int)
    requires TooDeep(p, n, N, m)
    ensures 1 <= i <= n && Depth(p, N, i) > m
  {
    i :| 1 <= i <= n && Depth(p, N, i) > m;
  }

  lemma {:induction false} TooLongShrinks(h: seq<int>, w: seq<int>, p: seq<int>, n: int, kids: Kids, maxLen: nat)
    requires Building(h, w, p, n, 2 * n - 1, 1, kids) && 2 <= n && Roomy(n, maxLen)
    requires TooDeep(p, n, 2 * n - 1, maxLen)
    ensures exists i :: 1 <= i < n && i < |w| && w[i] / 256 > 2
  {
    hide *;
    FinishedWeights(h, w, p, n, kids);
    WeighedTree(w, p, n, 2 * n - 1, kids);
    var i := DeepLeaf(p, n, 2 * n - 1, maxLen);
    DeepMeansHeavy(w, p, n, 2 * n - 1, kids, i, maxLen);
  }

  /** A complete code with lengths up to m has at most 2^m symbols. */
  lemma {:induction false} CompleteFits(len: seq<int>, m: nat)
    requires Complete(len, m)
    ensures |len| <= Pow2(m)
  {
    KraftCounts(len, m);
  }

  lemma {:induction false} KraftCounts(len: seq<int>, m: nat)
    requires forall i :: 0 <= i < |len| ==> 1 <= len[i] <= m
    ensures |len| <= HuffmanCodes.KraftSum(len, m)
  {
    if len != [] { KraftCounts(len[..|len| - 1], m); }
  }

  /** What a round leaves when it is the last: the tree's depths are a complete code. */
  ghost predicate Finished(len: seq<int>, parents: seq<int>, n: int, kids: Kids, maxLen: nat) {
    Tree(parents, n, 2 * n - 1, kids) && LeafDepths(len, parents, n, 2 * n - 1) && Complete(len, maxLen)
  }

  lemma FinishedFits(len: seq<int>, parents: seq<int>, n: int, kids: Kids, maxLen: nat)
    requires Finished(len, parents, n, kids, maxLen)
    ensures |len| == n <= Pow2(maxLen)
  {
    CompleteFits(len, maxLen);
    hide Complete, Tree, Depth;
  }

  /** One turn of the outer loop, for any limit: the code is complete, or a
      depth is too long and the weights are flattened.  For an alphabet larger
      than 2^maxLen it is always the second; where the limit is roomy the
      second lowers the weights. */
  method Round(heap: array<int>, weight: array<int>, parent: array<int>, len: array<int>, n: int, maxLen: nat,
               ghost f: seq<int>)
      returns (tooLong: bool, ghost parents: seq<int>, ghost kids: Kids)
    requires heap != weight && heap != parent && heap != len && weight != parent && weight != len && parent != len
    requires Carries(weight[..], f) && |f| == n
    requires Leaves(weight[..], n) && 2 <= n && heap.Length >= n + 2 && parent.Length == weight.Length > n &&
             len.Length == n && maxLen <= 255
    modifies heap, weight, parent, len
    ensures HuffmanFor(f, parents) && (tooLong <==> TooDeep(parents, n, 2 * n - 1, maxLen))
    ensures !tooLong ==> Finished(len[..], parents, n, kids, maxLen)
    ensures tooLong ==> Leaves(weight[..], n) && Carries(weight[..], Flat(f))
    ensures tooLong && Roomy(n, maxLen) ==> 0 <= LeafSum(weight[..], n - 1) < old(LeafSum(weight[..], n - 1))
    ensures n > Pow2(maxLen) ==> tooLong
  {
    hide *;
    ghost var w := weight[..];
    kids := BuildTree(heap, weight, parent, n);
    ghost var v := weight[..];
    parents := parent[..];
    FinishedTree(heap[..], v, parents, n, kids);
    LeavesKept(w, v, n);
    CarriesKept(w, v, f);
    FinishedWeights(heap[..], v, parents, n, kids);
    FoundTree(v, parents, f, kids);
    SameSum(w, v, n);
    tooLong := ReadDepths(parent, len, n, maxLen, 2 * n - 1, kids);
    if tooLong {
      if Roomy(n, maxLen) { TooLongShrinks(heap[..], v, parents, n, kids, maxLen); }
      LeafWeights(v, n);
      Rescale(weight, n);
      RescaleStep(v, weight[..], n);
      CarriesFlat(v, weight[..], f);
    } else {
      FinishedLengths(len[..], parents, n, kids, maxLen);
      FinishedIs(len[..], parents, n, kids, maxLen);
      FinishedFits(len[..], parents, n, kids, maxLen);
    }
  }

  lemma FinishedIs(len: seq<int>, parents: seq<int>, n: int, kids: Kids, maxLen: nat)
    ensures Finished(len, parents, n, kids, maxLen) <==>
      Tree(parents, n, 2 * n - 1, kids) && LeafDepths(len, parents, n, 2 * n - 1) && Complete(len, maxLen)
  {
    hide Tree, LeafDepths, Complete;
  }

  /** Huffman lengths of at most maxLen, as a complete code: optimal for the frequencies, flattened
      as long as the Huffman tree is too deep.  They are not flattened exactly if the first tree is not. */
  method MakeCodeLengths(freq: seq<int>, maxLen: int)
      returns (len: array<int>, ghost deep: seq<seq<int>>, ghost parents: seq<int>, ghost kids: Kids)
    requires 2 <= |freq| <= 258 && 0 <= maxLen <= 255 && Roomy(|freq|, maxLen)
    requires (forall i :: 0 <= i < |freq| ==> freq[i] >= 0) && FreqSum(freq) < 0x80_0000 - |freq|
    ensures fresh(len) && len.Length == |freq| && Complete(len[..], maxLen)
    ensures Tree(parents, |freq|, 2 * |freq| - 1, kids) && LeafDepths(len[..], parents, |freq|, 2 * |freq| - 1)
    ensures LengthsVia(freq, len[..], maxLen, deep, parents)
    ensures Optimal(Flattened(AtLeastOne(freq), |deep|), len[..])
  {
    hide *;
    var n := |freq|;
    len := new int[n];
    var heap, weight, parent := new int[260], new int[516], new int[516];
    SetWeights(freq, weight);
    ghost var f := AtLeastOne(freq);
    deep := [];
    NoRounds(f, maxLen);
    while true
      invariant weight.Length == parent.Length == 516 && heap.Length == 260 && len.Length == n == |f|
      invariant Leaves(weight[..], n) && 0 <= n - 1 < weight.Length
      invariant DeepRounds(f, deep, maxLen) && Carries(weight[..], Flattened(f, |deep|))
      decreases LeafSum(weight[..], n - 1)
    {
      var tooLong;
      tooLong, parents, kids := Round(heap, weight, parent, len, n, maxLen, Flattened(f, |deep|));
      if !tooLong {
        FinishedIs(len[..], parents, n, kids, maxLen);
        ViaIs(freq, len[..], maxLen, deep, parents);
        LengthsOptimal(freq, len[..], maxLen, deep, parents);
        break;
      }
      IsDeep(f, |deep|, parents, maxLen);
      DeepNext(f, deep, parents, maxLen);
      deep := deep + [parents];
      FlattenedNext(f, |deep|);
    }
  }

  lemma NoRounds(f: seq<int>, maxLen: int)
    ensures DeepRounds(f, [], maxLen) && Flattened(f, 0) == f
  {
  }

  lemma FlattenedNext(f: seq<int>, k: nat)
    requires k > 0
    ensures Flattened(f, k) == Flat(Flattened(f, k - 1))
  {
  }

  lemma ViaIs(freq: seq<int>, len: seq<int>, maxLen: int, deep: seq<seq<int>>, last: seq<int>)
    requires DeepRounds(AtLeastOne(freq), deep, maxLen) && HuffmanFor(Flattened(AtLeastOne(freq), |deep|), last)
    requires !TooDeep(last, |freq|, 2 * |freq| - 1, maxLen) && LeafDepths(len, last, |freq|, 2 * |freq| - 1)
    ensures LengthsVia(freq, len, maxLen, deep, last)
  {
  }

  lemma SameSum(w: seq<int>, v: seq<int>, n: int)
    requires SameLeaves(w, v, n) && n >= 1
    ensures |w| == |v| && n - 1 < |w| && LeafSum(w, n - 1) == LeafSum(v, n - 1)
  {
    SameLeafSum(w, v, n - 1);
  }

  lemma LeafWeights(w: seq<int>, n: int)
    requires Leaves(w, n)
    ensures forall k :: 1 <= k <= n ==> w[k] >= 256
  {
  }
}
