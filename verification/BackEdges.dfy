/** backEdgeAnalysis: for every block, the other blocks reachable from it. */
module BackEdges {
  import opened Reachability
  import Counting

  /** What the analysis records for a block: all blocks other than it that it leads to. */
  ghost predicate Exact(next: Arrows, b: nat, found: set<nat>) {
    forall c :: c in found <==> c != b && Leads(next, b, c)
  }

  /** The search from b: found blocks are reachable, and every block whose
      edges are not all covered is still waiting. */
  ghost predicate Searching(next: Arrows, b: nat, found: set<nat>, work: seq<nat>) {
    && b < |next| && found <= Blocks(|next|) && b !in found
    && (forall c :: c in found ==> Leads(next, b, c))
    && (forall k :: 0 <= k < |work| ==> work[k] == b || work[k] in found)
    && (forall c, d :: (c == b || c in found) && c !in work && c < |next| && d in next[c] ==> d == b || d in found)
  }

  /** While the edges of `at` are being scanned, its first k edges are covered. */
  ghost predicate Scanning(next: Arrows, b: nat, found: set<nat>, work: seq<nat>, at: nat, k: nat) {
    && b < |next| && found <= Blocks(|next|) && b !in found && at < |next| && k <= |next[at]| &&
       (at == b || at in found)
    && (forall c :: c in found ==> Leads(next, b, c))
    && (forall m :: 0 <= m < |work| ==> work[m] == b || work[m] in found)
    && (forall c, d :: (c == b || c in found) && c !in work && c != at && c < |next| && d in next[c] ==>
       d == b || d in found)
    && (forall m :: 0 <= m < k ==> next[at][m] == b || next[at][m] in found)
  }

  lemma {:induction false} ScanStep(next: Arrows, b: nat, found: set<nat>, work: seq<nat>, at: nat, k: nat)
    requires Closed(next) && Scanning(next, b, found, work, at, k) && k < |next[at]|
    ensures var s := next[at][k];
            if s != b && s !in found then Scanning(next, b, found + {s}, work + [s], at, k + 1)
            else Scanning(next, b, found, work, at, k + 1)
  {
    var s := next[at][k];
    if s != b && s !in found {
      LeadsEdge(next, at, s);
      if at != b { LeadsTrans(next, b, at, s); }
    }
  }

  lemma {:induction false} SearchDone(next: Arrows, b: nat, found: set<nat>)
    requires Closed(next) && Searching(next, b, found, [])
    ensures Exact(next, b, found)
  {
    forall c | c != b && Leads(next, b, c) ensures c in found {
      var p :| IsWalk(next, p) && |p| > 1 && p[0] == b && p[|p| - 1] == c;
      WalkStays(next, found + {b}, p);
    }
  }

  class RangePass {
    /** The member map, kept across calls. */
    var backEdges: map<nat, set<nat>>

    ghost predicate Correct(next: Arrows)
      reads this
    {
      forall b :: b in backEdges && b < |next| ==> Exact(next, b, backEdges[b])
    }

    constructor ()
      ensures backEdges == map[]
    {
      backEdges := map[];
    }

    /** The blocks other than b that b leads to, by a worklist. */
    method Search(next: Arrows, b: nat)
      requires Closed(next) && b < |next|
      modifies this
      ensures b in backEdges && Exact(next, b, backEdges[b])
      ensures backEdges - {b} == old(backEdges) - {b}
    {
      backEdges := backEdges[b := {}];
      var work := [b];
      while work != []
        invariant b in backEdges && Searching(next, b, backEdges[b], work)
        invariant backEdges - {b} == old(backEdges) - {b}
        decreases |next| - |backEdges[b]|, |work|
      {
        var at := work[|work| - 1];
        work := work[..|work| - 1];
        var n0, w0 := |backEdges[b]|, |work|;
        var k := 0;
        while k < |next[at]|
          invariant 0 <= k <= |next[at]|
          invariant b in backEdges && Scanning(next, b, backEdges[b], work, at, k)
          invariant backEdges - {b} == old(backEdges) - {b}
          invariant |backEdges[b]| - n0 == |work| - w0 >= 0
        {
          ScanStep(next, b, backEdges[b], work, at, k);
          var s := next[at][k];
          if s != b && s !in backEdges[b] {
            backEdges := backEdges[b := backEdges[b] + {s}];
            work := work + [s];
          }
          k := k + 1;
        }
        Counting.SubsetSize(backEdges[b], Blocks(|next|));
      }
      SearchDone(next, b, backEdges[b]);
    }

    /** backEdgeAnalysis: blocks already in the map are left as they are. */
    method BackEdgeAnalysis(next: Arrows)
      requires Closed(next) && Correct(next)
      modifies this
      ensures Correct(next) && forall b: nat :: b < |next| ==> b in backEdges
      ensures forall b :: b in old(backEdges) ==> b in backEdges && backEdges[b] == old(backEdges[b])
    {
      for b := 0 to |next|
        invariant Correct(next) && forall c: nat :: c < b ==> c in backEdges
        invariant forall c :: c in old(backEdges) ==> c in backEdges && backEdges[c] == old(backEdges[c])
      {
        if b !in backEdges {
          ghost var before := backEdges;
          Search(next, b);
          forall c | c in before && c != b ensures c in backEdges && backEdges[c] == before[c] {
            assert c in before - {b} && c in backEdges - {b};
            assert (before - {b})[c] == (backEdges - {b})[c];
          }
          forall c | c in backEdges && c != b ensures c in before {
            assert c in backEdges - {b};
          }
        }
      }
    }
  }

  // ---- what dropping those edges leaves ----

  /** The edge p -> b survives: range analysis skips predecessors recorded for b. */
  ghost predicate Kept(next: Arrows, edges: map<nat, set<nat>>, p: nat, b: nat) {
    p < |next| && b in next[p] && b in edges && p !in edges[b]
  }

  ghost predicate KeptWalk(next: Arrows, edges: map<nat, set<nat>>, path: seq<nat>) {
    IsWalk(next, path) && forall k :: 0 < k < |path| ==> Kept(next, edges, path[k - 1], path[k])
  }

  lemma {:induction false} CycleLeadsBack(next: Arrows, path: seq<nat>, k: nat)
    requires IsWalk(next, path) && |path| > 1 && path[0] == path[|path| - 1] && 0 < k < |path|
    ensures Leads(next, path[k], path[k - 1])
  {
    var tail, head := path[k..], path[..k];
    if k == |path| - 1 && k == 1 {
      assert Leads(next, path[0], path[1]) by { assert path == [path[0], path[1]]; }
    } else {
      if k < |path| - 1 {
        assert IsWalk(next, tail);
        assert Leads(next, path[k], path[|path| - 1]);
      }
      if k > 1 {
        assert IsWalk(next, head);
        assert Leads(next, path[0], path[k - 1]);
      }
      if 1 < k < |path| - 1 { LeadsTrans(next, path[k], path[0], path[k - 1]); }
    }
  }

  /** With exact sets, the only cycles left are self-loops. */
  lemma {:induction false} OnlySelfLoops(next: Arrows, edges: map<nat, set<nat>>, path: seq<nat>, k: nat)
    requires forall b: nat :: b < |next| ==> b in edges && Exact(next, b, edges[b])
    requires KeptWalk(next, edges, path) && path[0] == path[|path| - 1] && k < |path|
    ensures path[k] == path[0]
  {
    if k > 0 {
      OnlySelfLoops(next, edges, path, k - 1);
      CycleLeadsBack(next, path, k);
      assert Kept(next, edges, path[k - 1], path[k]);
    }
  }

  /** Every edge on no cycle survives, and so does every self-loop. */
  lemma {:induction false} KeptExactly(next: Arrows, edges: map<nat, set<nat>>, p: nat, b: nat)
    requires p < |next| && b < |next| && b in next[p]
    requires b in edges && Exact(next, b, edges[b])
    ensures Kept(next, edges, p, b) <==> p == b || !Leads(next, b, p)
  {
  }
}
