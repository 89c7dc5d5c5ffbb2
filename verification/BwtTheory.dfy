/** Why the last column of the sorted rotations determines the block, also
    when some rotations are equal. */
module BwtTheory {
  import opened Rotations
  import opened Counting
  import PrefixDoubling


  /** fm lists all rotations of b in non-decreasing order. */
  ghost predicate SortedRotations(b: seq<int>, fm: seq<int>) {
    |b| > 0 && IsPerm(fm, |b|) && RotationOk(b, fm) && SortedTo(b, fm, |b|)
  }

  function Prev(n: nat, r: int): int {
    if r - 1 < 0 then r - 1 + n else r - 1
  }

  /** The character before each listed rotation. */
  ghost function LastColumn(b: seq<int>, fm: seq<int>): (l: seq<int>)
    requires SortedRotations(b, fm)
    ensures |l| == |b|
    ensures forall i :: 0 <= i < |b| ==> 0 <= Prev(|b|, fm[i]) < |b| && l[i] == b[Prev(|b|, fm[i])]
  {
    seq(|b|, i requires 0 <= i < |b| => b[Prev(|b|, fm[i])])
  }

  ghost function Row(b: seq<int>, r: int): (p: seq<int>)
    requires 0 <= r < |b|
    ensures |p| == |b|
  {
    Pre(b, r, |b|)
  }

  lemma {:induction false} RowEnds(b: seq<int>, r: nat)
    requires r < |b|
    ensures 0 <= Prev(|b|, r) < |b| && Next(|b|, Prev(|b|, r)) == r
    ensures Row(b, r)[0] == b[r] && Row(b, r)[|b| - 1] == b[Prev(|b|, r)]
    ensures Row(b, Prev(|b|, r)) == [b[Prev(|b|, r)]] + Row(b, r)[..|b| - 1]
    ensures Row(b, Next(|b|, r)) == Row(b, r)[1..] + [b[r]]
  {
    var q := Prev(|b|, r);
    PreShift(b, q);
    PreShift(b, r);
  }

  /** The sorting rows, each turned back by one character and picked in the
      stable order of that character. */
  ghost function Turned(b: seq<int>, fm: seq<int>, t: seq<int>): (s: seq<seq<int>>)
    requires SortedRotations(b, fm) && IsPerm(t, |b|)
    ensures |s| == |b|
    ensures forall j :: 0 <= j < |b| ==> 0 <= Prev(|b|, fm[t[j]]) < |b| && s[j] == Row(b, Prev(|b|, fm[t[j]]))
  {
    seq(|b|, j requires 0 <= j < |b| => Row(b, Prev(|b|, fm[t[j]])))
  }

  ghost function Rows(b: seq<int>, p: seq<int>): (s: seq<seq<int>>)
    requires forall i :: 0 <= i < |p| ==> 0 <= p[i] < |b|
    ensures |s| == |p| && forall i :: 0 <= i < |p| ==> s[i] == Row(b, p[i])
  {
    seq(|p|, i requires 0 <= i < |p| => Row(b, p[i]))
  }

  /** t undoes the stable sort of the last column: row t[j] holds the character that sorts to j. */
  ghost predicate Unsorts(l: seq<int>, t: seq<int>) {
    IsPerm(t, |l|) && forall j :: 0 <= j < |l| ==> Rank(l, t[j]) == j
  }

  lemma {:induction false} UnsortsOrder(l: seq<int>, t: seq<int>, i: nat, j: nat)
    requires Unsorts(l, t) && i < j < |l|
    ensures l[t[i]] < l[t[j]] || (l[t[i]] == l[t[j]] && t[i] < t[j])
  {
    var x, y := t[i], t[j];
    assert Rank(l, x) == i && Rank(l, y) == j;
    if l[x] > l[y] || (l[x] == l[y] && y < x) { RankOrder(l, y, x); }
  }

  /** Turning two ordered rows back by one character keeps them ordered. */
  lemma {:induction false} TurnLe(c: int, d: int, p: seq<int>, q: seq<int>)
    requires |p| == |q| > 0 && (c < d || (c == d && LexLe(p, q)))
    ensures LexLe([c] + p[..|p| - 1], [d] + q[..|q| - 1])
  {
    var n := |p|;
    if c == d {
      assert p == p[..n - 1] + [p[n - 1]] && q == q[..n - 1] + [q[n - 1]];
      LexConcat(p[..n - 1], q[..n - 1], [p[n - 1]], [q[n - 1]]);
      LexRefl(p[..n - 1]);
    }
    LexConcat([c], [d], p[..n - 1], q[..n - 1]);
  }

  lemma {:induction false} TurnedSorted(b: seq<int>, fm: seq<int>, t: seq<int>, i: nat, j: nat)
    requires SortedRotations(b, fm) && Unsorts(LastColumn(b, fm), t) && i < j < |b|
    ensures LexLe(Turned(b, fm, t)[i], Turned(b, fm, t)[j])
  {
    UnsortsOrder(LastColumn(b, fm), t, i, j);
    if t[i] < t[j] { RowsOrdered(b, fm, t[i], t[j]); }
    TurnedPair(b, fm, t[i], t[j]);
  }

  lemma RowsOrdered(b: seq<int>, fm: seq<int>, x: nat, y: nat)
    requires SortedRotations(b, fm) && x < y < |b|
    ensures LexLe(Row(b, fm[x]), Row(b, fm[y]))
  {
  }

  lemma {:induction false} TurnedPair(b: seq<int>, fm: seq<int>, x: nat, y: nat)
    requires SortedRotations(b, fm) && x < |b| && y < |b|
    requires LastColumn(b, fm)[x] < LastColumn(b, fm)[y]
          || (LastColumn(b, fm)[x] == LastColumn(b, fm)[y] && LexLe(Row(b, fm[x]), Row(b, fm[y])))
    ensures LexLe(Row(b, Prev(|b|, fm[x])), Row(b, Prev(|b|, fm[y])))
  {
    hide Row, LexLe;
    RowEnds(b, fm[x]);
    RowEnds(b, fm[y]);
    TurnLe(b[Prev(|b|, fm[x])], b[Prev(|b|, fm[y])], Row(b, fm[x]), Row(b, fm[y]));
  }

  // ---- sorted sequences with the same elements are equal ----

  ghost predicate SortedRows(s: seq<seq<int>>, n: nat) {
    && (forall i :: 0 <= i < |s| ==> |s[i]| == n)
    && forall i, j :: 0 <= i < j < |s| ==> LexLe(s[i], s[j])
  }

  lemma {:induction false} RestMultiset<T>(s: seq<T>, k: nat)
    requires k < |s|
    ensures multiset(s) == multiset(s[..k] + s[k + 1..]) + multiset{s[k]}
  {
    assert s == s[..k] + [s[k]] + s[k + 1..];
  }

  lemma {:induction false} SortedSame(s: seq<seq<int>>, t: seq<seq<int>>, n: nat)
    requires SortedRows(s, n) && SortedRows(t, n) && multiset(s) == multiset(t)
    ensures s == t
  {
    hide *;
    assert |multiset(s)| == |multiset(t)|;
    if s != [] {
      LeastFirst(s, t, n);
      LeastFirst(t, s, n);
      LexAntisym(s[0], t[0]);
      TailsAgree(s, t);
      TailSorted(s, n);
      TailSorted(t, n);
      SortedSame(s[1..], t[1..], n);
      assert s == [s[0]] + s[1..] && t == [t[0]] + t[1..];
    }
  }

  lemma {:induction false} TailsAgree<T>(s: seq<T>, t: seq<T>)
    requires |s| > 0 && |t| > 0 && s[0] == t[0] && multiset(s) == multiset(t)
    ensures multiset(s[1..]) == multiset(t[1..])
  {
    hide *;
    HeadMultiset(s);
    HeadMultiset(t);
    DropSame(multiset(s[1..]), multiset(t[1..]), s[0]);
  }

  lemma HeadMultiset<T>(s: seq<T>)
    requires |s| > 0
    ensures multiset(s) == multiset(s[1..]) + multiset{s[0]}
  {
    RestMultiset(s, 0);
    assert s[..0] + s[1..] == s[1..];
  }

  lemma {:induction false} DropSame<T>(a: multiset<T>, b: multiset<T>, x: T)
    requires a + multiset{x} == b + multiset{x}
    ensures a == b
  {
    forall y ensures a[y] == b[y] {
      assert (a + multiset{x})[y] == a[y] + multiset{x}[y];
      assert (b + multiset{x})[y] == b[y] + multiset{x}[y];
    }
  }

  lemma TailSorted(s: seq<seq<int>>, n: nat)
    requires SortedRows(s, n) && s != []
    ensures SortedRows(s[1..], n)
  {
  }

  lemma {:induction false} LeastFirst(s: seq<seq<int>>, t: seq<seq<int>>, n: nat)
    requires SortedRows(s, n) && SortedRows(t, n) && multiset(s) == multiset(t) && |s| > 0 && |t| > 0
    ensures |s[0]| == |t[0]| == n && LexLe(s[0], t[0])
  {
    assert t[0] in multiset(s);
    var k :| 0 <= k < |s| && s[k] == t[0];
    if k == 0 { LexRefl(s[0]); }
  }

  lemma {:induction false} PermMultiset(p: seq<int>, q: seq<int>, n: nat)
    requires IsPerm(p, n) && IsPerm(q, n)
    ensures multiset(p) == multiset(q)
  {
    forall v ensures multiset(p)[v] == multiset(q)[v] {
      PrefixDoubling.DistinctMultiset(p, v);
      PrefixDoubling.DistinctMultiset(q, v);
      if 0 <= v < n {
        var i := PermOnto(p, n, v);
        var j := PermOnto(q, n, v);
        assert v in multiset(p) && v in multiset(q);
      } else {
        assert v !in p && v !in q;
      }
    }
  }

  /** Rows of rearranged starts are rearranged rows. */
  lemma {:induction false} RowsMultiset(b: seq<int>, p: seq<int>, q: seq<int>)
    requires forall i :: 0 <= i < |p| ==> 0 <= p[i] < |b|
    requires forall i :: 0 <= i < |q| ==> 0 <= q[i] < |b|
    requires multiset(p) == multiset(q)
    ensures multiset(Rows(b, p)) == multiset(Rows(b, q))
  {
    assert |multiset(p)| == |multiset(q)|;
    if p != [] {
      var k := Partner(p, q);
      hide Rows, Row;
      RowsRest(b, p, 0);
      RowsRest(b, q, k);
      RowsMultiset(b, p[..0] + p[1..], q[..k] + q[k + 1..]);
    }
  }

  /** An element equal to the first, and what is left on both sides without them. */
  lemma {:induction false} Partner(p: seq<int>, q: seq<int>) returns (k: nat)
    requires multiset(p) == multiset(q) && p != []
    ensures k < |q| && q[k] == p[0] && multiset(p[..0] + p[1..]) == multiset(q[..k] + q[k + 1..])
  {
    assert p[0] in multiset(q);
    k :| 0 <= k < |q| && q[k] == p[0];
    RestMultiset(p, 0);
    RestMultiset(q, k);
    DropSame(multiset(p[..0] + p[1..]), multiset(q[..k] + q[k + 1..]), p[0]);
  }

  lemma {:induction false} RowsRest(b: seq<int>, p: seq<int>, k: nat)
    requires k < |p| && forall i :: 0 <= i < |p| ==> 0 <= p[i] < |b|
    ensures multiset(Rows(b, p)) == multiset(Rows(b, p[..k] + p[k + 1..])) + multiset{Row(b, p[k])}
  {
    RestMultiset(Rows(b, p), k);
    assert Rows(b, p[..k] + p[k + 1..]) == Rows(b, p)[..k] + Rows(b, p)[k + 1..];
  }

  lemma {:induction false} TurnedMultiset(b: seq<int>, fm: seq<int>, t: seq<int>)
    requires SortedRotations(b, fm) && IsPerm(t, |b|)
    ensures multiset(Turned(b, fm, t)) == multiset(Rows(b, fm))
  {
    var n := |b|;
    var p := seq(n, j requires 0 <= j < n => Prev(n, fm[t[j]]));
    assert forall j :: 0 <= j < n ==> 0 <= fm[t[j]] < n;
    forall i, j | 0 <= i < j < n ensures p[i] != p[j] {
      assert fm[t[i]] != fm[t[j]];
    }
    assert IsPerm(p, n);
    PermMultiset(p, fm, n);
    RowsMultiset(b, p, fm);
    assert Turned(b, fm, t) == Rows(b, p);
  }

  /** Row t[j] is row j turned by one character: the step of the decoding walk. */
  lemma {:induction false} WalkStep(b: seq<int>, fm: seq<int>, t: seq<int>, j: nat)
    requires SortedRotations(b, fm) && Unsorts(LastColumn(b, fm), t) && j < |b|
    ensures Row(b, fm[t[j]]) == Row(b, Next(|b|, fm[j]))
    ensures LastColumn(b, fm)[t[j]] == b[fm[j]]
  {
    forall x, y | 0 <= x < y < |b| ensures LexLe(Turned(b, fm, t)[x], Turned(b, fm, t)[y]) {
      TurnedSorted(b, fm, t, x, y);
    }
    TurnedMultiset(b, fm, t);
    SortedSame(Turned(b, fm, t), Rows(b, fm), |b|);
    var n, x := |b|, fm[t[j]];
    assert Row(b, Prev(n, x)) == Row(b, fm[j]);
    RowEnds(b, x);
    RowEnds(b, fm[j]);
    RowEnds(b, Prev(n, x));
  }

  /** Character k of the block, going round. */
  ghost function CharAt(b: seq<int>, k: nat): int
    requires |b| > 0
  {
    b[Adv(|b|, 0, k)]
  }

  /** tPos is a row that spells the block from character k on. */
  ghost predicate AtRow(b: seq<int>, fm: seq<int>, tPos: int, k: nat) {
    SortedRotations(b, fm) && 0 <= tPos < |b| && Row(b, fm[tPos]) == Row(b, Adv(|b|, 0, k))
  }

  lemma {:induction false} AtRowStep(b: seq<int>, fm: seq<int>, t: seq<int>, tPos: int, k: nat)
    requires AtRow(b, fm, tPos, k) && Unsorts(LastColumn(b, fm), t)
    ensures AtRow(b, fm, t[tPos], k + 1)
    ensures b[fm[tPos]] == b[Adv(|b|, 0, k)] == LastColumn(b, fm)[t[tPos]]
  {
    WalkStep(b, fm, t, tPos);
    var r, s := fm[tPos], Adv(|b|, 0, k);
    RowEnds(b, r);
    RowEnds(b, s);
    AdvAdd(|b|, 0, k, 1);
    assert Adv(|b|, s, 1) == Next(|b|, s) by { assert Adv(|b|, Next(|b|, s), 0) == Next(|b|, s); }
  }

  /** The last character of the row reached one step too far is character k. */
  lemma {:induction false} AtRowLast(b: seq<int>, fm: seq<int>, tPos: int, k: nat)
    requires AtRow(b, fm, tPos, k + 1)
    ensures LastColumn(b, fm)[tPos] == b[Adv(|b|, 0, k)]
  {
    var r, s := fm[tPos], Adv(|b|, 0, k + 1);
    RowEnds(b, r);
    RowEnds(b, s);
    AdvAdd(|b|, 0, k, 1);
    var q := Adv(|b|, 0, k);
    assert s == Next(|b|, q) by { assert Adv(|b|, Next(|b|, q), 0) == Next(|b|, q); }
    assert Prev(|b|, s) == q;
  }
}
