/** Finite directed graphs, and the worklist search both passes use. */
module Reachability {

  /** next[b] lists where b's edges lead. */
  type Arrows = seq<seq<nat>>

  ghost predicate Closed(next: Arrows) {
    forall b, k :: 0 <= b < |next| && 0 <= k < |next[b]| ==> next[b][k] < |next|
  }

  ghost predicate IsWalk(next: Arrows, path: seq<nat>) {
    && |path| > 0 && (forall k :: 0 <= k < |path| ==> path[k] < |next|)
    && forall k :: 0 < k < |path| ==> path[k] in next[path[k - 1]]
  }

  /** A walk of at least one edge leads from a to b. */
  ghost predicate Leads(next: Arrows, a: nat, b: nat) {
    exists path :: IsWalk(next, path) && |path| > 1 && path[0] == a && path[|path| - 1] == b
  }

  lemma {:induction false} LeadsEdge(next: Arrows, a: nat, b: nat)
    requires a < |next| && b < |next| && b in next[a]
    ensures Leads(next, a, b)
  {
    assert IsWalk(next, [a, b]);
  }

  lemma {:induction false} LeadsTrans(next: Arrows, a: nat, b: nat, c: nat)
    requires Leads(next, a, b) && Leads(next, b, c)
    ensures Leads(next, a, c)
  {
    var p :| IsWalk(next, p) && |p| > 1 && p[0] == a && p[|p| - 1] == b;
    var q :| IsWalk(next, q) && |q| > 1 && q[0] == b && q[|q| - 1] == c;
    var r := p + q[1..];
    forall k | 0 < k < |r| ensures r[k] in next[r[k - 1]] {
      if k >= |p| { assert r[k] == q[k - |p| + 1] && r[k - 1] == q[k - |p|]; }
    }
    assert IsWalk(next, r);
  }

  /** A set that contains the start and is closed under edges contains every walk from it. */
  lemma {:induction false} WalkStays(next: Arrows, s: set<nat>, path: seq<nat>)
    requires IsWalk(next, path) && path[0] in s
    requires forall b, c :: b in s && b < |next| && c in next[b] ==> c in s
    ensures path[|path| - 1] in s
  {
    if |path| > 1 {
      assert IsWalk(next, path[..|path| - 1]);
      WalkStays(next, s, path[..|path| - 1]);
    }
  }

  function Blocks(n: nat): (s: set<nat>)
    ensures |s| == n && forall b: nat :: b in s <==> b < n
  {
    if n == 0 then {} else
      var s := Blocks(n - 1);
      assert n - 1 !in s;
      s + {n - 1}
  }

}
