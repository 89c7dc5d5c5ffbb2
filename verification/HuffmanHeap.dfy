/** The binary heap of BZ2_hbMakeCodeLengths: entries heap[1..nHeap] are node
    numbers ordered by weight; heap[0] = 0 with weight 0 is a sentinel. */
module HuffmanHeap {

  /** Entries 1..n are nodes with non-negative weights, no node twice. */
  ghost predicate Entries(h: seq<int>, w: seq<int>, n: int) {
    && 0 <= n < |h| && |w| > 0 && h[0] == 0 && w[0] == 0
    && (forall k :: 1 <= k <= n ==> 1 <= h[k] < |w| && w[h[k]] >= 0)
    && (forall k, m :: 1 <= k < m <= n ==> h[k] != h[m])
  }

  /** The weight of entry k. */
  ghost function Wt(h: seq<int>, w: seq<int>, k: int): int {
    if 0 <= k < |h| && 0 <= h[k] < |w| then w[h[k]] else 0
  }

  ghost predicate Ordered(h: seq<int>, w: seq<int>, n: int) {
    Entries(h, w, n) && forall k :: 2 <= k <= n ==> Wt(h, w, k / 2) <= Wt(h, w, k)
  }

  /** t holds the same nodes as s in places 1..n. */
  ghost predicate SameNodes(s: seq<int>, t: seq<int>, n: int) {
    && 0 <= n < |s| && |s| == |t|
    && multiset(s[1..n + 1]) == multiset(t[1..n + 1])
    && forall k :: n < k < |s| ==> s[k] == t[k]
  }

  /** The nodes in places 1..n. */
  ghost function Live(h: seq<int>, n: int): (s: set<int>)
    requires 0 <= n < |h|
  {
    set k | 1 <= k <= n :: h[k]
  }

  lemma {:induction false} SameLive(s: seq<int>, t: seq<int>, n: int)
    requires SameNodes(s, t, n)
    ensures Live(s, n) == Live(t, n)
  {
    SliceLive(s, n);
    SliceLive(t, n);
    var p, q := s[1..n + 1], t[1..n + 1];
    forall x ensures x in Live(s, n) <==> x in Live(t, n) {
      assert x in p <==> x in multiset(p);
      assert x in q <==> x in multiset(q);
    }
  }

  lemma {:induction false} SliceLive(s: seq<int>, n: int)
    requires 0 <= n < |s|
    ensures forall x :: x in Live(s, n) <==> x in s[1..n + 1]
  {
    var p := s[1..n + 1];
    forall x ensures x in Live(s, n) <==> x in p {
      if x in p {
        var k :| 0 <= k < n && p[k] == x;
        assert s[k + 1] == x;
      }
      if k :| 1 <= k <= n && s[k] == x { assert p[k - 1] == x; }
    }
  }

  lemma {:induction false} SwapSame(s: seq<int>, a: seq<int>, n: int, x: int, y: int)
    requires SameNodes(s, a, n) && 1 <= x <= n && 1 <= y <= n
    ensures SameNodes(s, a[x := a[y]][y := a[x]], n)
  {
    var b := a[x := a[y]][y := a[x]];
    var p, q := a[1..n + 1], b[1..n + 1];
    assert q == p[x - 1 := p[y - 1]][y - 1 := p[x - 1]];
  }

  /** Exchanging two entries keeps them entries. */
  lemma {:induction false} SwapEntries(a: seq<int>, w: seq<int>, n: int, x: int, y: int)
    requires Entries(a, w, n) && 1 <= x <= n && 1 <= y <= n
    ensures Entries(a[x := a[y]][y := a[x]], w, n)
  {
  }

  // ---- UPHEAP: the entry at z may be lighter than its parent ----

  ghost predicate Rising(a: seq<int>, w: seq<int>, n: int, z: int) {
    && Entries(a, w, n) && 1 <= z <= n
    && (forall k :: 2 <= k <= n && k != z ==> Wt(a, w, k / 2) <= Wt(a, w, k))
    && (z >= 2 ==> forall k :: 2 <= k <= n && k / 2 == z ==> Wt(a, w, z / 2) <= Wt(a, w, k))
  }

  lemma {:induction false} RiseStep(a: seq<int>, w: seq<int>, n: int, z: int)
    requires Rising(a, w, n, z) && z >= 2 && Wt(a, w, z) < Wt(a, w, z / 2)
    ensures Rising(a[z := a[z / 2]][z / 2 := a[z]], w, n, z / 2)
  {
    SwapEntries(a, w, n, z, z / 2);
    var b := a[z := a[z / 2]][z / 2 := a[z]];
    hide Entries;
    forall k | 1 <= k <= n ensures Wt(b, w, k) == Wt(a, w, if k == z then z / 2 else if k == z / 2 then z else k) { }
    hide Wt;
    forall k | 2 <= k <= n && k != z / 2 ensures Wt(b, w, k / 2) <= Wt(b, w, k) {
      if k / 2 == z / 2 && k != z { assert Wt(a, w, k / 2) <= Wt(a, w, k); }
    }
    if z / 2 >= 2 {
      forall k | 2 <= k <= n && k / 2 == z / 2 ensures Wt(b, w, z / 2 / 2) <= Wt(b, w, k) {
        assert Wt(a, w, z / 2 / 2) <= Wt(a, w, z / 2);
        if k != z { assert Wt(a, w, k / 2) <= Wt(a, w, k); }
      }
    }
  }

  lemma {:induction false} RiseEnd(a: seq<int>, w: seq<int>, n: int, z: int)
    requires Rising(a, w, n, z) && Wt(a, w, z / 2) <= Wt(a, w, z)
    ensures Ordered(a, w, n)
  {
  }

  /** The heap array while tmp has not been stored: place z is stale. */
  ghost predicate Holding(h: seq<int>, a: seq<int>, z: int) {
    |h| == |a| && 0 <= z < |a| && h[z := a[z]] == a
  }

  /** What the loops read. */
  lemma EntryWeights(h: seq<int>, a: seq<int>, w: seq<int>, n: int, z: int, k: int)
    requires Entries(a, w, n) && Holding(h, a, z) && 0 <= k <= n && 1 <= z <= n
    ensures |h| == |a| && n < |h| && 0 <= a[z] < |w| && w[a[z]] == Wt(a, w, z)
    ensures k != z ==> h[k] == a[k] && 0 <= h[k] < |w| && w[h[k]] == Wt(a, w, k)
  {
  }

  /** The sentinel stops the climb at the top. */
  lemma TopStops(a: seq<int>, w: seq<int>, n: int)
    requires Entries(a, w, n) && n >= 1
    ensures Wt(a, w, 0) <= Wt(a, w, 1)
  {
  }

  lemma HoldingMoves(h: seq<int>, a: seq<int>, z: int, y: int)
    requires Holding(h, a, z) && 0 <= y < |a| && y != z
    ensures Holding(h[z := h[y]], a[z := a[y]][y := a[z]], y)
  {
  }

  lemma RiseStart(s: seq<int>, w: seq<int>, n: int)
    requires n >= 1 && Entries(s, w, n) && Ordered(s, w, n - 1)
    ensures Rising(s, w, n, n) && SameNodes(s, s, n) && Holding(s, s, n)
  {
  }

  lemma RisingEntries(a: seq<int>, w: seq<int>, n: int, z: int)
    requires Rising(a, w, n, z)
    ensures Entries(a, w, n)
  {
  }

  method UpHeap(heap: array<int>, weight: array<int>, n: int)
    requires heap != weight && n >= 1 && Entries(heap[..], weight[..], n) && Ordered(heap[..], weight[..], n - 1)
    modifies heap
    ensures Ordered(heap[..], weight[..], n) && SameNodes(old(heap[..]), heap[..], n)
  {
    hide *;
    ghost var s, w := heap[..], weight[..];
    ghost var a := s;
    var zz := n;
    RiseStart(s, w, n);
    EntryWeights(s, a, w, n, zz, zz / 2);
    var tmp := heap[zz];
    while weight[tmp] < weight[heap[zz / 2]]
      invariant 1 <= zz <= n < |a| == heap.Length && weight[..] == w && tmp == a[zz] && 0 <= tmp < |w|
      invariant Rising(a, w, n, zz) && Holding(heap[..], a, zz) && SameNodes(s, a, n)
      invariant 0 <= heap[zz / 2] < |w| && w[tmp] == Wt(a, w, zz) && w[heap[zz / 2]] == Wt(a, w, zz / 2)
      decreases zz
    {
      RisingEntries(a, w, n, zz);
      TopStops(a, w, n);
      RiseStep(a, w, n, zz);
      SwapSame(s, a, n, zz, zz / 2);
      ghost var h := heap[..];
      HoldingMoves(h, a, zz, zz / 2);
      heap[zz] := heap[zz / 2];
      assert heap[..] == h[zz := h[zz / 2]];
      a := a[zz := a[zz / 2]][zz / 2 := a[zz]];
      zz := zz / 2;
      RisingEntries(a, w, n, zz);
      EntryWeights(heap[..], a, w, n, zz, zz / 2);
    }
    RiseEnd(a, w, n, zz);
    HoldingEnds(heap[..], a, zz);
    ghost var h := heap[..];
    heap[zz] := tmp;
    assert heap[..] == h[zz := tmp];
  }

  lemma HoldingEnds(h: seq<int>, a: seq<int>, z: int)
    requires Holding(h, a, z)
    ensures |h| == |a| && 0 <= z < |a| && h[z := a[z]] == a
  {
  }

  // ---- DOWNHEAP(1): the entry at z may be heavier than its children ----

  ghost predicate Sinking(a: seq<int>, w: seq<int>, n: int, z: int) {
    && Entries(a, w, n) && 1 <= z <= n
    && (forall k :: 2 <= k <= n && k / 2 != z ==> Wt(a, w, k / 2) <= Wt(a, w, k))
    && (z >= 2 ==> forall k :: 2 <= k <= n && k / 2 == z ==> Wt(a, w, z / 2) <= Wt(a, w, k))
  }

  lemma {:induction false} SinkStep(a: seq<int>, w: seq<int>, n: int, z: int, y: int)
    requires Sinking(a, w, n, z) && 2 <= y <= n && y / 2 == z && Wt(a, w, y) <= Wt(a, w, z)
    requires forall k :: 2 <= k <= n && k / 2 == z ==> Wt(a, w, y) <= Wt(a, w, k)
    ensures Sinking(a[z := a[y]][y := a[z]], w, n, y)
  {
    SwapEntries(a, w, n, z, y);
    var b := a[z := a[y]][y := a[z]];
    hide Entries;
    forall k | 1 <= k <= n ensures Wt(b, w, k) == Wt(a, w, if k == z then y else if k == y then z else k) { }
    hide Wt;
    forall k | 2 <= k <= n && k / 2 != y ensures Wt(b, w, k / 2) <= Wt(b, w, k) {
      if k == z { assert Wt(a, w, z / 2) <= Wt(a, w, y); }
    }
    forall k | 2 <= k <= n && k / 2 == y ensures Wt(b, w, y / 2) <= Wt(b, w, k) {
      assert Wt(a, w, k / 2) <= Wt(a, w, k);
    }
  }

  lemma {:induction false} SinkEnd(a: seq<int>, w: seq<int>, n: int, z: int)
    requires Sinking(a, w, n, z) && forall k :: 2 <= k <= n && k / 2 == z ==> Wt(a, w, z) <= Wt(a, w, k)
    ensures Ordered(a, w, n)
  {
  }

  /** The lighter child of z. */
  method LightChild(heap: array<int>, weight: array<int>, n: int, z: int, ghost a: seq<int>) returns (y: int)
    requires heap != weight && 1 <= z <= n && 2 * z <= n && Entries(a, weight[..], n) && Holding(heap[..], a, z)
    ensures 2 <= y <= n && y / 2 == z && y < heap.Length && 0 <= heap[y] < weight.Length && weight[heap[y]] ==
            Wt(a, weight[..], y)
    ensures forall k :: 2 <= k <= n && k / 2 == z ==> Wt(a, weight[..], y) <= Wt(a, weight[..], k)
  {
    hide *;
    y := 2 * z;
    EntryWeights(heap[..], a, weight[..], n, z, y);
    if y < n {
      EntryWeights(heap[..], a, weight[..], n, z, y + 1);
      if weight[heap[y + 1]] < weight[heap[y]] { y := y + 1; }
    }
  }

  lemma SinkStart(s: seq<int>, w: seq<int>, n: int)
    requires 1 <= n && Entries(s, w, n) && forall k :: 4 <= k <= n ==> Wt(s, w, k / 2) <= Wt(s, w, k)
    ensures Sinking(s, w, n, 1) && SameNodes(s, s, n) && Holding(s, s, 1)
  {
  }

  lemma SinkingEntries(a: seq<int>, w: seq<int>, n: int, z: int)
    requires Sinking(a, w, n, z)
    ensures Entries(a, w, n)
  {
  }

  method DownHeap(heap: array<int>, weight: array<int>, n: int)
    requires heap != weight && Entries(heap[..], weight[..], n) && heap.Length > 1
    requires forall k :: 4 <= k <= n ==> Wt(heap[..], weight[..], k / 2) <= Wt(heap[..], weight[..], k)
    modifies heap
    ensures Ordered(heap[..], weight[..], n) && SameNodes(old(heap[..]), heap[..], n)
  {
    if n == 0 {
      // the loop leaves at once and stores the entry back
      return;
    }
    hide *;
    ghost var s, w := heap[..], weight[..];
    ghost var a := s;
    SinkStart(s, w, n);
    EntryWeights(s, a, w, n, 1, 1);
    var zz, tmp := 1, heap[1];
    while 2 * zz <= n
      invariant 1 <= zz <= n < |a| == heap.Length && weight[..] == w && tmp == a[zz]
      invariant Sinking(a, w, n, zz) && Holding(heap[..], a, zz) && SameNodes(s, a, n)
      decreases n - zz
    {
      SinkingEntries(a, w, n, zz);
      var yy := LightChild(heap, weight, n, zz, a);
      EntryWeights(heap[..], a, w, n, zz, yy);
      if weight[tmp] < weight[heap[yy]] { break; }
      SinkStep(a, w, n, zz, yy);
      SwapSame(s, a, n, zz, yy);
      ghost var h := heap[..];
      HoldingMoves(h, a, zz, yy);
      heap[zz] := heap[yy];
      assert heap[..] == h[zz := h[yy]];
      a := a[zz := a[yy]][yy := a[zz]];
      zz := yy;
    }
    SinkEnd(a, w, n, zz);
    HoldingEnds(heap[..], a, zz);
    ghost var h := heap[..];
    heap[zz] := tmp;
    assert heap[..] == h[zz := tmp];
  }

  /** The top entry is lightest. */
  lemma {:induction false} TopLightest(h: seq<int>, w: seq<int>, n: int, k: int)
    requires Ordered(h, w, n) && 1 <= k <= n
    ensures Wt(h, w, 1) <= Wt(h, w, k)
    decreases k
  {
    if k > 1 { TopLightest(h, w, n, k / 2); }
  }
}
