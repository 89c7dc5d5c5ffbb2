/** The fallback sorter's three-way quicksort with an explicit stack
    (fallbackSimpleSort and fallbackQSort3).  Entries of `fmap` are ordered by
    their key `eclass[fmap[i]]`. */
module QuickSort {
  import opened Bits

  /** Entries lo..hi of fm index into the key table. */
  ghost predicate Keyed(fm: seq<int>, ec: seq<int>, lo: int, hi: int) {
    && 0 <= lo <= hi + 1 <= |fm|
    && forall i :: lo <= i <= hi ==> 0 <= fm[i] < |ec|
  }

  ghost predicate SortedOn(fm: seq<int>, ec: seq<int>, lo: int, hi: int)
    requires Keyed(fm, ec, lo, hi)
  {
    forall i, j :: lo <= i < j <= hi ==> ec[fm[i]] <= ec[fm[j]]
  }

  /** t permutes entries lo..hi of s and keeps all others in place. */
  ghost predicate Rearranged(s: seq<int>, t: seq<int>, lo: int, hi: int) {
    && |s| == |t|
    && multiset(s) == multiset(t)
    && forall i :: 0 <= i < |s| && !(lo <= i <= hi) ==> s[i] == t[i]
  }

  /** What a rearrangement puts between lo and hi was there before. */
  lemma {:induction false} RearrangedSource(s: seq<int>, t: seq<int>, lo: int, hi: int, i: int)
    requires Rearranged(s, t, lo, hi) && 0 <= lo <= i <= hi < |s|
    ensures exists k :: lo <= k <= hi && s[k] == t[i]
  {
    var a, b, b', c := s[..lo], s[lo..hi + 1], t[lo..hi + 1], s[hi + 1..];
    assert s == a + b + c;
    assert t == a + b' + c;
    MultisetCancel(multiset(a), multiset(b), multiset(b'), multiset(c));
    assert b'[i - lo] in multiset(b);
    var k :| 0 <= k < |b| && b[k] == t[i];
    assert s[lo + k] == t[i];
  }

  lemma {:induction false} MultisetCancel<T>(a: multiset<T>, b: multiset<T>, b': multiset<T>, c: multiset<T>)
    requires a + b + c == a + b' + c
    ensures b == b'
  {
    forall x ensures b[x] == b'[x] {
      assert (a + b + c)[x] == a[x] + b[x] + c[x];
      assert (a + b' + c)[x] == a[x] + b'[x] + c[x];
    }
  }

  /** An insertion in progress: the hole is at j - step, entries before it moved down. */
  ghost predicate Inserting(s: seq<int>, t: seq<int>, ec: seq<int>, i: int, hi: int, step: int, j: int) {
    && 0 <= i && step >= 1 && i + step <= j <= hi + step && Keyed(s, ec, i, hi) && |t| == |s|
    && multiset(t[j - step := s[i]]) == multiset(s)
    && (forall k :: 0 <= k < |s| && !(i <= k <= j - 2 * step) ==> t[k] == s[k])
    && (forall k :: i <= k <= hi ==> 0 <= t[k] < |ec|)
    && (step == 1 ==> MovedDown(s, t, ec, i, j))
  }

  ghost predicate MovedDown(s: seq<int>, t: seq<int>, ec: seq<int>, i: int, j: int)
    requires 0 <= i < j <= |s| && |s| == |t| && forall k :: i <= k < j ==> 0 <= s[k] < |ec|
  {
    && (forall k :: i <= k < j - 1 ==> t[k] == s[k + 1])
    && (forall k :: i < k < j ==> ec[s[k]] < ec[s[i]])
  }

  lemma {:induction false} InsertStep(s: seq<int>, t: seq<int>, ec: seq<int>, i: int, hi: int, step: int, j: int)
    requires Inserting(s, t, ec, i, hi, step, j) && j <= hi && ec[t[j]] < ec[s[i]]
    ensures Inserting(s, t[j - step := t[j]], ec, i, hi, step, j + step)
  {
    hide MovedDown;
    assert t[j] == s[j];
    InsertShiftsHole(s, t, i, j - step, j);
    if step == 1 { MoveOne(s, t, ec, i, j); }
  }

  lemma {:induction false} MoveOne(s: seq<int>, t: seq<int>, ec: seq<int>, i: int, j: int)
    requires 0 <= i < j < |s| && |s| == |t| && forall k :: i <= k <= j ==> 0 <= s[k] < |ec|
    requires MovedDown(s, t, ec, i, j) && t[j] == s[j] && ec[s[j]] < ec[s[i]]
    ensures MovedDown(s, t[j - 1 := t[j]], ec, i, j + 1)
  {
  }

  lemma {:induction false} InsertShiftsHole(s: seq<int>, t: seq<int>, i: int, hole: int, j: int)
    requires 0 <= hole < j < |t| && 0 <= i < |s| && multiset(t[hole := s[i]]) == multiset(s)
    ensures multiset(t[hole := t[j]][j := s[i]]) == multiset(s)
  {
    assert t[hole := t[j]][j := s[i]] == t[hole := s[i]][hole := t[j]][j := s[i]];
  }

  lemma {:induction false} InsertInit(s: seq<int>, ec: seq<int>, i: int, hi: int, step: int)
    requires step >= 1 && 0 <= i && i + step <= hi + 1 && Keyed(s, ec, i, hi)
    ensures Inserting(s, s, ec, i, hi, step, i + step)
  {
    assert s[i := s[i]] == s;
  }

  lemma {:induction false} InsertHead(s: seq<int>, t: seq<int>, ec: seq<int>, i: int, hi: int, step: int, j: int)
    requires Inserting(s, t, ec, i, hi, step, j)
    ensures 0 <= i <= j - step <= hi < |s| && |s| == |t| && 0 <= s[i] < |ec|
    ensures j <= hi ==> 0 <= t[j] < |ec| && t[j] == s[j]
  {
  }

  lemma {:induction false} InsertDone(s: seq<int>, t: seq<int>, ec: seq<int>, i: int, hi: int, step: int, j: int)
    requires Inserting(s, t, ec, i, hi, step, j) && (j <= hi ==> ec[s[i]] <= ec[s[j]])
    ensures Rearranged(s, t[j - step := s[i]], i, hi)
    ensures Keyed(t[j - step := s[i]], ec, i, hi)
    ensures step == 1 && SortedOn(s, ec, i + 1, hi) ==> SortedOn(t[j - step := s[i]], ec, i, hi)
  {
    var r := t[j - step := s[i]];
    if step == 1 && SortedOn(s, ec, i + 1, hi) {
      forall a, b | i <= a < b <= hi ensures ec[r[a]] <= ec[r[b]] {
        var a', b' := if a < j - 1 then a + 1 else a, if b < j - 1 then b + 1 else b;
        if a == j - 1 {
          assert r[a] == s[i] && r[b] == s[b];
          if b > j { assert ec[s[j]] <= ec[s[b]]; }
        } else if b == j - 1 {
          assert r[b] == s[i] && r[a] == s[a + 1];
        } else {
          assert r[a] == s[a'] && r[b] == s[b'];
          assert i + 1 <= a' < b' <= hi;
        }
      }
    }
  }

  /** One insertion of the shell or plain insertion pass. */
  method Insert(fmap: array<int>, eclass: array<int>, i: int, hi: int, step: int)
    requires fmap != eclass && step >= 1 && 0 <= i && i + step <= hi + 1
    requires Keyed(fmap[..], eclass[..], i, hi)
    modifies fmap
    ensures Rearranged(old(fmap[..]), fmap[..], i, hi)
    ensures Keyed(fmap[..], eclass[..], i, hi)
    ensures step == 1 && SortedOn(old(fmap[..]), eclass[..], i + 1, hi) ==> SortedOn(fmap[..], eclass[..], i, hi)
  {
    hide *;
    ghost var s, ec := fmap[..], eclass[..];
    InsertInit(s, ec, i, hi, step);
    InsertHead(s, s, ec, i, hi, step, i + step);
    var tmp := fmap[i];
    var key := eclass[tmp];
    var j := i + step;
    while j <= hi && key > eclass[fmap[j]]
      invariant eclass[..] == ec && Inserting(s, fmap[..], ec, i, hi, step, j)
      invariant i <= j - step <= hi && (j <= hi ==> fmap[j] == s[j] && 0 <= s[j] < |ec|)
    {
      ghost var t := fmap[..];
      assert ec[t[j]] < ec[s[i]];
      InsertStep(s, t, ec, i, hi, step, j);
      fmap[j - step] := fmap[j];
      assert fmap[..] == t[j - step := t[j]];
      j := j + step;
      InsertHead(s, fmap[..], ec, i, hi, step, j);
    }
    ghost var t := fmap[..];
    assert j <= hi ==> ec[s[i]] <= ec[s[j]];
    InsertDone(s, t, ec, i, hi, step, j);
    fmap[j - step] := tmp;
    assert fmap[..] == t[j - step := tmp];
  }

  method InsertionPass(fmap: array<int>, eclass: array<int>, lo: int, hi: int, step: int)
    requires fmap != eclass && step >= 1
    requires Keyed(fmap[..], eclass[..], lo, hi)
    modifies fmap
    ensures Rearranged(old(fmap[..]), fmap[..], lo, hi)
    ensures Keyed(fmap[..], eclass[..], lo, hi)
    ensures step == 1 ==> SortedOn(fmap[..], eclass[..], lo, hi)
  {
    var i := hi - step;
    while i >= lo
      invariant i <= hi - step
      invariant Rearranged(old(fmap[..]), fmap[..], lo, hi)
      invariant Keyed(fmap[..], eclass[..], lo, hi)
      invariant step == 1 && lo <= i + 1 ==> SortedOn(fmap[..], eclass[..], i + 1, hi)
      invariant step == 1 ==> lo - 1 <= i || hi <= lo
      decreases i - lo
    {
      Insert(fmap, eclass, i, hi, step);
      i := i - 1;
    }
  }

  /** fallbackSimpleSort: a stride-four shell pass, then insertion sort. */
  method SimpleSort(fmap: array<int>, eclass: array<int>, lo: int, hi: int)
    requires fmap != eclass
    requires Keyed(fmap[..], eclass[..], lo, hi)
    modifies fmap
    ensures Rearranged(old(fmap[..]), fmap[..], lo, hi)
    ensures Keyed(fmap[..], eclass[..], lo, hi)
    ensures SortedOn(fmap[..], eclass[..], lo, hi)
  {
    if lo == hi { return; }
    if hi - lo > 3 {
      InsertionPass(fmap, eclass, lo, hi, 4);
    }
    InsertionPass(fmap, eclass, lo, hi, 1);
  }

  method Swap(fmap: array<int>, i: int, j: int)
    requires 0 <= i < fmap.Length && 0 <= j < fmap.Length
    modifies fmap
    ensures fmap[..] == old(fmap[..])[i := old(fmap[j])][j := old(fmap[i])]
    ensures multiset(fmap[..]) == multiset(old(fmap[..]))
  {
    fmap[i], fmap[j] := fmap[j], fmap[i];
    assert fmap[..] == old(fmap[..])[i := old(fmap[j])][j := old(fmap[i])];
  }

  /** fvswap: exchange two blocks of n entries. */
  method BlockSwap(fmap: array<int>, p1: int, p2: int, n: int)
    requires 0 <= n && 0 <= p1 <= p1 + n <= p2 && p2 + n <= fmap.Length
    modifies fmap
    ensures multiset(fmap[..]) == multiset(old(fmap[..]))
    ensures forall k :: p1 <= k < p1 + n ==> fmap[k] == old(fmap[k - p1 + p2])
    ensures forall k :: p2 <= k < p2 + n ==> fmap[k] == old(fmap[k - p2 + p1])
    ensures forall k :: 0 <= k < fmap.Length && !(p1 <= k < p1 + n) && !(p2 <= k < p2 + n) ==> fmap[k] == old(fmap[k])
  {
    var d := 0;
    while d < n
      invariant 0 <= d <= n
      invariant multiset(fmap[..]) == multiset(old(fmap[..]))
      invariant forall k :: p1 <= k < p1 + d ==> fmap[k] == old(fmap[k - p1 + p2])
      invariant forall k :: p2 <= k < p2 + d ==> fmap[k] == old(fmap[k - p2 + p1])
      invariant forall k :: 0 <= k < fmap.Length && !(p1 <= k < p1 + d) && !(p2 <= k < p2 + d) ==>
                fmap[k] == old(fmap[k])
    {
      Swap(fmap, p1 + d, p2 + d);
      d := d + 1;
    }
  }

  /** The partition in progress: equal | less | unseen | greater | equal. */
  ghost predicate Split(fm: seq<int>, ec: seq<int>, med: int, lo: int, ltLo: int, unLo: int, unHi: int, gtHi: int,
                        hi: int) {
    && Keyed(fm, ec, lo, hi)
    && lo <= ltLo <= unLo <= unHi + 1 <= gtHi + 1 <= hi + 1
    && (forall i :: lo <= i < ltLo ==> ec[fm[i]] == med)
    && (forall i :: ltLo <= i < unLo ==> ec[fm[i]] < med)
    && (forall i :: unHi < i <= gtHi ==> ec[fm[i]] > med)
    && (forall i :: gtHi < i <= hi ==> ec[fm[i]] == med)
  }

  method ScanUp(fmap: array<int>, eclass: array<int>, med: int, lo: int, ltLo0: int, unLo0: int, unHi: int, gtHi: int,
                hi: int)
    returns (ltLo: int, unLo: int)
    requires fmap != eclass && Split(fmap[..], eclass[..], med, lo, ltLo0, unLo0, unHi, gtHi, hi)
    modifies fmap
    ensures Split(fmap[..], eclass[..], med, lo, ltLo, unLo, unHi, gtHi, hi)
    ensures Rearranged(old(fmap[..]), fmap[..], lo, hi)
    ensures unLo0 <= unLo && (unLo <= unHi ==> eclass[fmap[unLo]] > med)
  {
    ltLo, unLo := ltLo0, unLo0;
    while unLo <= unHi
      invariant Split(fmap[..], eclass[..], med, lo, ltLo, unLo, unHi, gtHi, hi)
      invariant Rearranged(old(fmap[..]), fmap[..], lo, hi)
      invariant unLo0 <= unLo
    {
      var n := eclass[fmap[unLo]] - med;
      if n == 0 {
        Swap(fmap, unLo, ltLo);
        ltLo, unLo := ltLo + 1, unLo + 1;
      } else if n > 0 {
        break;
      } else {
        unLo := unLo + 1;
      }
    }
  }

  method ScanDown(fmap: array<int>, eclass: array<int>, med: int, lo: int, ltLo: int, unLo: int, unHi0: int,
                  gtHi0: int, hi: int)
    returns (unHi: int, gtHi: int)
    requires fmap != eclass && Split(fmap[..], eclass[..], med, lo, ltLo, unLo, unHi0, gtHi0, hi)
    modifies fmap
    ensures Split(fmap[..], eclass[..], med, lo, ltLo, unLo, unHi, gtHi, hi)
    ensures Rearranged(old(fmap[..]), fmap[..], lo, hi)
    ensures unHi <= unHi0 && (unLo <= unHi ==> eclass[fmap[unHi]] < med)
    ensures unLo <= unHi0 ==> fmap[unLo] == old(fmap[unLo]) || unHi < unLo
  {
    unHi, gtHi := unHi0, gtHi0;
    hide *;
    SplitBounds(fmap[..], eclass[..], med, lo, ltLo, unLo, unHi, gtHi, hi);
    NotMoved(fmap[..], lo, hi);
    while unLo <= unHi
      invariant Split(fmap[..], eclass[..], med, lo, ltLo, unLo, unHi, gtHi, hi)
      invariant Rearranged(old(fmap[..]), fmap[..], lo, hi)
      invariant unHi <= unHi0
      invariant unLo <= unHi ==> 0 <= unLo < fmap.Length && fmap[unLo] == old(fmap[unLo])
    {
      SplitBounds(fmap[..], eclass[..], med, lo, ltLo, unLo, unHi, gtHi, hi);
      ghost var s := fmap[..];
      var n := eclass[fmap[unHi]] - med;
      if n == 0 {
        SplitEqual(s, eclass[..], med, lo, ltLo, unLo, unHi, gtHi, hi);
        MovedTwo(old(fmap[..]), s, lo, hi, unHi, gtHi);
        Swap(fmap, unHi, gtHi);
        gtHi, unHi := gtHi - 1, unHi - 1;
      } else if n < 0 {
        break;
      } else {
        SplitGreater(s, eclass[..], med, lo, ltLo, unLo, unHi, gtHi, hi);
        unHi := unHi - 1;
      }
    }
  }

  lemma NotMoved(s: seq<int>, lo: int, hi: int)
    ensures Rearranged(s, s, lo, hi)
  {
  }

  lemma MovedTwo(r: seq<int>, s: seq<int>, lo: int, hi: int, i: int, j: int)
    requires Rearranged(r, s, lo, hi) && 0 <= lo <= i <= hi < |s| && lo <= j <= hi
    ensures forall t :: t == s[i := s[j]][j := s[i]] && multiset(t) == multiset(s) ==> Rearranged(r, t, lo, hi)
  {
  }

  lemma {:induction false} SplitEqual(s: seq<int>, ec: seq<int>, med: int, lo: int, ltLo: int, unLo: int, unHi: int,
                                      gtHi: int, hi: int)
    requires Split(s, ec, med, lo, ltLo, unLo, unHi, gtHi, hi) && unLo <= unHi && ec[s[unHi]] == med
    ensures Split(s[unHi := s[gtHi]][gtHi := s[unHi]], ec, med, lo, ltLo, unLo, unHi - 1, gtHi - 1, hi)
  {
  }

  lemma {:induction false} SplitGreater(s: seq<int>, ec: seq<int>, med: int, lo: int, ltLo: int, unLo: int, unHi: int,
                                        gtHi: int, hi: int)
    requires Split(s, ec, med, lo, ltLo, unLo, unHi, gtHi, hi) && unLo <= unHi && ec[s[unHi]] > med
    ensures Split(s, ec, med, lo, ltLo, unLo, unHi - 1, gtHi, hi)
  {
  }

  lemma {:induction false} SplitSwap(s: seq<int>, t: seq<int>, ec: seq<int>, med: int, lo: int, ltLo: int, unLo: int,
                                     unHi: int, gtHi: int, hi: int)
    requires Split(s, ec, med, lo, ltLo, unLo, unHi, gtHi, hi) && unLo <= unHi
    requires ec[s[unLo]] > med && ec[s[unHi]] < med
    requires t == s[unLo := s[unHi]][unHi := s[unLo]] && multiset(s) == multiset(t)
    ensures unLo < unHi && Split(t, ec, med, lo, ltLo, unLo + 1, unHi - 1, gtHi, hi)
    ensures Rearranged(s, t, lo, hi)
  {
  }

  lemma {:induction false} RearrangedTrans(s: seq<int>, t: seq<int>, u: seq<int>, lo: int, hi: int)
    requires Rearranged(s, t, lo, hi) && Rearranged(t, u, lo, hi)
    ensures Rearranged(s, u, lo, hi)
  {
  }

  lemma {:induction false} SplitBounds(s: seq<int>, ec: seq<int>, med: int, lo: int, ltLo: int, unLo: int, unHi: int,
                                       gtHi: int, hi: int)
    requires Split(s, ec, med, lo, ltLo, unLo, unHi, gtHi, hi)
    ensures 0 <= lo <= ltLo <= unLo <= unHi + 1 <= gtHi + 1 <= hi + 1 <= |s|
    ensures forall i :: lo <= i <= hi ==> 0 <= s[i] < |ec|
  {
  }

  /** The partition loop; it ends with unHi == unLo - 1. */
  method Partition(fmap: array<int>, eclass: array<int>, med: int, lo: int, hi: int)
    returns (ltLo: int, unLo: int, gtHi: int)
    requires fmap != eclass && Keyed(fmap[..], eclass[..], lo, hi)
    modifies fmap
    ensures Split(fmap[..], eclass[..], med, lo, ltLo, unLo, unLo - 1, gtHi, hi)
    ensures Rearranged(old(fmap[..]), fmap[..], lo, hi)
  {
    ltLo, unLo := lo, lo;
    var unHi := hi;
    gtHi := hi;
    assert Split(fmap[..], eclass[..], med, lo, ltLo, unLo, unHi, gtHi, hi);
    assert Rearranged(old(fmap[..]), fmap[..], lo, hi);
    hide *;
    while true
      invariant Split(fmap[..], eclass[..], med, lo, ltLo, unLo, unHi, gtHi, hi)
      invariant Rearranged(old(fmap[..]), fmap[..], lo, hi)
      decreases unHi - unLo + 1
    {
      ghost var s0 := fmap[..];
      ltLo, unLo := ScanUp(fmap, eclass, med, lo, ltLo, unLo, unHi, gtHi, hi);
      ghost var s1 := fmap[..];
      RearrangedTrans(old(fmap[..]), s0, s1, lo, hi);
      SplitBounds(s1, eclass[..], med, lo, ltLo, unLo, unHi, gtHi, hi);
      unHi, gtHi := ScanDown(fmap, eclass, med, lo, ltLo, unLo, unHi, gtHi, hi);
      ghost var s2 := fmap[..];
      SplitBounds(s2, eclass[..], med, lo, ltLo, unLo, unHi, gtHi, hi);
      RearrangedTrans(old(fmap[..]), s1, s2, lo, hi);
      if unLo > unHi { break; }
      Swap(fmap, unLo, unHi);
      SplitSwap(s2, fmap[..], eclass[..], med, lo, ltLo, unLo, unHi, gtHi, hi);
      RearrangedTrans(old(fmap[..]), s2, fmap[..], lo, hi);
      unLo, unHi := unLo + 1, unHi - 1;
    }
  }

  /** After the two block swaps: less | equal | greater. */
  ghost predicate Gathered(fm: seq<int>, ec: seq<int>, med: int, lo: int, n: int, m: int, hi: int) {
    && Keyed(fm, ec, lo, hi)
    && lo <= n + 1 <= m <= hi + 1
    && (forall i :: lo <= i <= n ==> ec[fm[i]] < med)
    && (forall i :: n < i < m ==> ec[fm[i]] == med)
    && (forall i :: m <= i <= hi ==> ec[fm[i]] > med)
  }

  /** Where fvswap of the shorter of [lo, mid) and [mid, hi) takes entry i from. */
  function Source(lo: int, mid: int, hi: int, i: int): int
  {
    var n := if mid - lo < hi - mid then mid - lo else hi - mid;
    if i < lo + n then i - lo + hi - n else if i >= hi - n then i - (hi - n) + lo else i
  }

  lemma SourceParts(lo: int, mid: int, hi: int, i: int)
    requires lo <= mid <= hi && lo <= i < hi
    ensures i < lo + (hi - mid) ==> mid <= Source(lo, mid, hi, i) < hi
    ensures i >= lo + (hi - mid) ==> lo <= Source(lo, mid, hi, i) < mid
  {
  }

  /** The fmin / fvswap pair: bring [mid, hi) in front of [lo, mid). */
  method Rotate(fmap: array<int>, lo: int, mid: int, hi: int)
    requires 0 <= lo <= mid <= hi <= fmap.Length
    modifies fmap
    ensures multiset(fmap[..]) == multiset(old(fmap[..]))
    ensures forall k :: 0 <= k < fmap.Length && !(lo <= k < hi) ==> fmap[k] == old(fmap[k])
    ensures forall k :: lo <= k < hi ==> lo <= Source(lo, mid, hi, k) < hi &&
                                         fmap[k] == old(fmap[..])[Source(lo, mid, hi, k)]
  {
    var n := if mid - lo < hi - mid then mid - lo else hi - mid;
    BlockSwap(fmap, lo, hi - n, n);
  }

  lemma {:induction false} GatherParts(s: seq<int>, t: seq<int>, u: seq<int>, ec: seq<int>, med: int, lo: int,
                                       ltLo: int, unLo: int, gtHi: int, hi: int)
    requires Split(s, ec, med, lo, ltLo, unLo, unLo - 1, gtHi, hi)
    requires |t| == |s| == |u|
    requires forall k :: 0 <= k < |s| && !(lo <= k < unLo) ==> t[k] == s[k]
    requires forall k :: lo <= k < unLo ==> lo <= Source(lo, ltLo, unLo, k) < unLo &&
                                            t[k] == s[Source(lo, ltLo, unLo, k)]
    requires forall k :: 0 <= k < |s| && !(unLo <= k < hi + 1) ==> u[k] == t[k]
    requires forall k :: unLo <= k < hi + 1 ==> unLo <= Source(unLo, gtHi + 1, hi + 1, k) < hi + 1 &&
                                                u[k] == t[Source(unLo, gtHi + 1, hi + 1, k)]
    ensures Gathered(u, ec, med, lo, lo + unLo - ltLo - 1, hi - (gtHi - (unLo - 1)) + 1, hi)
  {
    hide Source;
    var n, m := lo + unLo - ltLo - 1, hi - (gtHi - (unLo - 1)) + 1;
    forall i | lo <= i <= hi
      ensures 0 <= u[i] < |ec|
      ensures if i <= n then ec[u[i]] < med else if i < m then ec[u[i]] == med else ec[u[i]] > med
    {
      if i < unLo { SourceParts(lo, ltLo, unLo, i); } else { SourceParts(unLo, gtHi + 1, hi + 1, i); }
    }
  }

  method Gather(fmap: array<int>, eclass: array<int>, med: int, lo: int, ltLo: int, unLo: int, gtHi: int, hi: int)
    returns (n: int, m: int)
    requires fmap != eclass && Split(fmap[..], eclass[..], med, lo, ltLo, unLo, unLo - 1, gtHi, hi)
    modifies fmap
    ensures Gathered(fmap[..], eclass[..], med, lo, n, m, hi)
    ensures Rearranged(old(fmap[..]), fmap[..], lo, hi)
    ensures n == lo + unLo - ltLo - 1 && m == hi - (gtHi - (unLo - 1)) + 1
  {
    hide Split, Gathered, Source, Keyed;
    ghost var s := fmap[..];
    SplitBounds(s, eclass[..], med, lo, ltLo, unLo, unLo - 1, gtHi, hi);
    var unHi := unLo - 1;
    Rotate(fmap, lo, ltLo, unLo);
    ghost var t := fmap[..];
    Rotate(fmap, unLo, gtHi + 1, hi + 1);
    GatherParts(s, t, fmap[..], eclass[..], med, lo, ltLo, unLo, gtHi, hi);
    n := lo + unLo - ltLo - 1;
    m := hi - (gtHi - unHi) + 1;
  }

  // ---- the explicit stack ----

  const STACK_SIZE: nat := 100
  const SMALL_THRESH: nat := 10

  /** Positions i and j lie in one interval still on the stack. */
  ghost predicate Together(sl: seq<int>, sh: seq<int>, i: int, j: int)
    requires |sl| == |sh|
  {
    exists k :: 0 <= k < |sl| && sl[k] <= i && j <= sh[k]
  }

  /** All pairs are in order, except those waiting together on the stack. */
  ghost predicate SortedBut(fm: seq<int>, ec: seq<int>, lo: int, hi: int, sl: seq<int>, sh: seq<int>)
    requires |sl| == |sh| && Keyed(fm, ec, lo, hi)
  {
    forall i, j :: lo <= i < j <= hi ==> Together(sl, sh, i, j) || ec[fm[i]] <= ec[fm[j]]
  }

  /** The stacked intervals are disjoint parts of lo..hi ... */
  ghost predicate StackParts(sl: seq<int>, sh: seq<int>, lo: int, hi: int) {
    && |sl| == |sh|
    && (forall k :: 0 <= k < |sl| ==> lo <= sl[k] <= sh[k] + 1 <= hi + 1)
    && (forall k, l :: 0 <= k < l < |sl| ==> sh[k] < sl[l] || sh[l] < sl[k])
  }

  /** ... and the k-th has at most (hi - lo + 1) / 2^k entries, since the larger
      part is always pushed first. */
  ghost predicate StackHalves(sl: seq<int>, sh: seq<int>, lo: int, hi: int) {
    && |sl| == |sh|
    && (forall k :: 0 <= k < |sl| ==> (sh[k] - sl[k] + 1) * Pow2(k) <= hi - lo + 1)
  }

  ghost function Work(sl: seq<int>, sh: seq<int>): int
    requires |sl| == |sh|
  {
    if sl == [] then 0 else
      Work(sl[..|sl| - 1], sh[..|sl| - 1]) + 2 * (sh[|sl| - 1] - sl[|sl| - 1] + 1) + 1
  }

  lemma {:induction false} WorkNonNegative(sl: seq<int>, sh: seq<int>, lo: int, hi: int)
    requires StackParts(sl, sh, lo, hi)
    ensures Work(sl, sh) >= 0
  {
    if sl != [] { WorkNonNegative(sl[..|sl| - 1], sh[..|sl| - 1], lo, hi); }
  }

  /** An interval of eleven entries cannot sit deep in the stack. */
  lemma {:induction false} StackDepth(sl: seq<int>, sh: seq<int>, lo: int, hi: int, k: nat)
    requires StackHalves(sl, sh, lo, hi) && k < |sl|
    requires hi - lo + 1 < Pow2(32) && sh[k] - sl[k] + 1 >= 1
    ensures k < 32
  {
    if k >= 32 {
      Pow2Monotone(32, k);
      MulAtLeast(sh[k] - sl[k] + 1, Pow2(k));
    }
  }

  /** Rearranging the popped interval keeps everything else in order. */
  lemma {:induction false} PopStep(fm: seq<int>, fm': seq<int>, ec: seq<int>, lo: int, hi: int,
                                   sl: seq<int>, sh: seq<int>, l: int, h: int, sl': seq<int>, sh': seq<int>)
    requires |sl| == |sh| && |sl'| == |sh'| && Keyed(fm, ec, lo, hi) && Keyed(fm', ec, lo, hi)
    requires SortedBut(fm, ec, lo, hi, sl + [l], sh + [h])
    requires lo <= l <= h + 1 <= hi + 1 && Rearranged(fm, fm', l, h)
    requires forall k :: 0 <= k < |sl| ==> sh[k] < l || h < sl[k]
    requires sl <= sl' && sh <= sh'
    requires forall i, j :: l <= i < j <= h ==> Together(sl', sh', i, j) || ec[fm'[i]] <= ec[fm'[j]]
    ensures SortedBut(fm', ec, lo, hi, sl', sh')
  {
    forall i, j | lo <= i < j <= hi && !(l <= i && j <= h)
      ensures Together(sl', sh', i, j) || ec[fm'[i]] <= ec[fm'[j]]
    {
      var i', j' := i, j;
      if l <= i <= h {
        RearrangedSource(fm, fm', l, h, i);
        i' :| l <= i' <= h && fm[i'] == fm'[i];
      }
      if l <= j <= h {
        RearrangedSource(fm, fm', l, h, j);
        j' :| l <= j' <= h && fm[j'] == fm'[j];
      }
      assert i' < j' && fm[i'] == fm'[i] && fm[j'] == fm'[j];
      if Together(sl + [l], sh + [h], i', j') {
        var k :| 0 <= k < |sl| + 1 && (sl + [l])[k] <= i' && j' <= (sh + [h])[k];
        assert k < |sl| && sl[k] == sl'[k] && sh[k] == sh'[k];
        assert sl'[k] <= i && j <= sh'[k];
      }
    }
  }

  lemma {:induction false} PushParts(sl: seq<int>, sh: seq<int>, lo: int, hi: int, l: int, h: int, a: int, b: int,
                                     c: int, d: int)
    requires StackParts(sl + [l], sh + [h], lo, hi) && |sl| == |sh|
    requires l <= a <= b + 1 <= h + 1 && l <= c <= d + 1 <= h + 1 && (b < c || d < a)
    ensures StackParts(sl + [a, c], sh + [b, d], lo, hi)
  {
    var n := |sl|;
    var sl0, sh0, sl1, sh1 := sl + [l], sh + [h], sl + [a, c], sh + [b, d];
    assert sl0[n] == l && sh0[n] == h;
    assert sl1[n] == a && sl1[n + 1] == c && sh1[n] == b && sh1[n + 1] == d;
    forall k | 0 <= k < n
      ensures sl1[k] == sl0[k] && sh1[k] == sh0[k] && (sh1[k] < l || h < sl1[k])
    {
      assert sh0[k] < sl0[n] || sh0[n] < sl0[k];
    }
  }

  /** Pushing the larger part first halves the interval on top. */
  lemma {:induction false} PushHalves(sl: seq<int>, sh: seq<int>, lo: int, hi: int, l: int, h: int, a: int, b: int,
                                      c: int, d: int)
    requires StackHalves(sl + [l], sh + [h], lo, hi) && |sl| == |sh|
    requires d - c <= b - a && (b - a + 1) + (d - c + 1) <= h - l && d - c + 1 >= 0
    ensures StackHalves(sl + [a, c], sh + [b, d], lo, hi)
  {
    var n := |sl|;
    var sl0, sh0, sl1, sh1 := sl + [l], sh + [h], sl + [a, c], sh + [b, d];
    HalfSlots(h - l + 1, b - a + 1, d - c + 1, Pow2(n));
    assert (sh0[n] - sl0[n] + 1) * Pow2(n) <= hi - lo + 1;
    forall k | 0 <= k < n + 2 ensures (sh1[k] - sl1[k] + 1) * Pow2(k) <= hi - lo + 1 {
      if k < n { assert sl1[k] == sl0[k] && sh1[k] == sh0[k]; }
    }
  }

  lemma {:induction false} HalfSlots(s: int, x: int, y: int, p: nat)
    requires x <= s && 2 * y <= s
    ensures x * p <= s * p && y * (2 * p) <= s * p
  {
    MulLe(x, s, p);
    MulLe(2 * y, s, p);
    assert y * (2 * p) == (2 * y) * p;
  }

  lemma {:induction false} WorkShrinks(sl: seq<int>, sh: seq<int>, l: int, h: int, a: int, b: int, c: int, d: int)
    requires |sl| == |sh| && (b - a + 1) + (d - c + 1) <= h - l
    ensures Work(sl + [a, c], sh + [b, d]) < Work(sl + [l], sh + [h])
  {
    var n := |sl|;
    assert (sl + [a, c])[..n + 1] == sl + [a] && (sh + [b, d])[..n + 1] == sh + [b];
    assert (sl + [a])[..n] == sl && (sh + [b])[..n] == sh;
    assert (sl + [l])[..n] == sl && (sh + [h])[..n] == sh;
  }

  lemma {:induction false} MulLe(a: int, b: int, p: nat)
    requires a <= b
    ensures a * p <= b * p
  {
    assert b * p - a * p == (b - a) * p;
  }

  /** Some entry equals the pivot, so the two parts lose at least one entry. */
  lemma {:induction false} PivotPresent(fm: seq<int>, fm': seq<int>, ec: seq<int>, med: int, l: int, n: int, m: int,
                                        h: int, p: int)
    requires Keyed(fm, ec, l, h) && Rearranged(fm, fm', l, h) && l <= p <= h && ec[fm[p]] == med
    requires Gathered(fm', ec, med, l, n, m, h)
    ensures n + 1 < m
  {
    RearrangedSource(fm', fm, l, h, p);
    var k :| l <= k <= h && fm'[k] == fm[p];
  }

  /** The pivot choice: the pseudo-random r is reduced modulo 3. */
  method Pivot(fmap: array<int>, eclass: array<int>, lo: int, hi: int, r0: nat) returns (r: nat, p: int)
    requires Keyed(fmap[..], eclass[..], lo, hi) && lo <= hi
    ensures lo <= p <= hi && r == (r0 * 7621 + 1) % 32768
  {
    r := (r0 * 7621 + 1) % 32768;
    var r3 := r % 3;
    p := if r3 == 0 then lo else if r3 == 1 then (lo + hi) / 2 else hi;
  }

  /** One step of the stack loop: the popped interval l..h is either finished
      (a > b and c > d are empty parts), or split into a..b and c..d with the
      larger one first. */
  method Split3(fmap: array<int>, eclass: array<int>, lo: int, hi: int, r0: nat)
    returns (r: nat, done: bool, a: int, b: int, c: int, d: int)
    requires fmap != eclass && Keyed(fmap[..], eclass[..], lo, hi) && lo <= hi
    modifies fmap
    ensures Rearranged(old(fmap[..]), fmap[..], lo, hi)
    ensures Keyed(fmap[..], eclass[..], lo, hi)
    ensures done ==> SortedOn(fmap[..], eclass[..], lo, hi)
    ensures !done ==> lo <= a <= b + 1 <= hi + 1 && lo <= c <= d + 1 <= hi + 1 && (b < c || d < a)
    ensures !done ==> d - c <= b - a && (b - a + 1) + (d - c + 1) <= hi - lo
    ensures !done ==> forall i, j :: lo <= i < j <= hi ==>
                        (a <= i && j <= b) || (c <= i && j <= d) || eclass[fmap[i]] <= eclass[fmap[j]]
  {
    a, b, c, d := 0, 0, 0, 0;
    var p;
    r, p := Pivot(fmap, eclass, lo, hi, r0);
    var med := eclass[fmap[p]];
    var ltLo, unLo, gtHi := Partition(fmap, eclass, med, lo, hi);
    if gtHi < ltLo {
      done := true;
      return;
    }
    done := false;
    var n, m := Gather(fmap, eclass, med, lo, ltLo, unLo, gtHi, hi);
    PivotPresent(old(fmap[..]), fmap[..], eclass[..], med, lo, n, m, hi, p);
    if n - lo > hi - m {
      a, b, c, d := lo, n, m, hi;
    } else {
      a, b, c, d := m, hi, lo, n;
    }
  }


  /** The invariant of the stack loop. */
  ghost predicate Sorting(fm0: seq<int>, fm: seq<int>, ec: seq<int>, lo: int, hi: int, sl: seq<int>, sh: seq<int>) {
    && Rearranged(fm0, fm, lo, hi) && Keyed(fm, ec, lo, hi)
    && StackParts(sl, sh, lo, hi) && StackHalves(sl, sh, lo, hi)
    && SortedBut(fm, ec, lo, hi, sl, sh)
  }

  lemma {:induction false} SortingStart(fm: seq<int>, ec: seq<int>, lo: int, hi: int)
    requires Keyed(fm, ec, lo, hi)
    ensures Sorting(fm, fm, ec, lo, hi, [lo], [hi])
  {
    assert Pow2(0) == 1;
    forall i, j | lo <= i < j <= hi ensures Together([lo], [hi], i, j) {
      assert [lo][0] <= i && j <= [hi][0];
    }
  }

  /** What the popped interval satisfies. */
  lemma {:induction false} SortingTop(fm0: seq<int>, fm: seq<int>, ec: seq<int>, lo: int, hi: int, sl: seq<int>,
                                      sh: seq<int>)
    requires Sorting(fm0, fm, ec, lo, hi, sl, sh) && |sl| > 0
    ensures |sl| == |sh| && lo <= sl[|sl| - 1] <= sh[|sl| - 1] + 1 <= hi + 1
    ensures Keyed(fm, ec, sl[|sl| - 1], sh[|sl| - 1])
    ensures hi - lo + 1 < Pow2(32) && sh[|sl| - 1] - sl[|sl| - 1] >= 0 ==> |sl| <= 32
    ensures Work(sl, sh) >= 0
  {
    if hi - lo + 1 < Pow2(32) && sh[|sl| - 1] - sl[|sl| - 1] >= 0 {
      StackDepth(sl, sh, lo, hi, |sl| - 1);
    }
    WorkNonNegative(sl, sh, lo, hi);
  }

  lemma {:induction false} SortingRearrange(fm0: seq<int>, fm: seq<int>, fm': seq<int>, ec: seq<int>, lo: int, hi: int,
                                            l: int, h: int)
    requires Rearranged(fm0, fm, lo, hi) && Keyed(fm, ec, lo, hi) && lo <= l <= h + 1 <= hi + 1
    requires Rearranged(fm, fm', l, h) && Keyed(fm', ec, l, h)
    ensures Rearranged(fm0, fm', lo, hi) && Keyed(fm', ec, lo, hi)
  {
  }

  lemma {:induction false} SortingPopped(fm0: seq<int>, fm: seq<int>, fm': seq<int>, ec: seq<int>, lo: int, hi: int,
                                         sl: seq<int>, sh: seq<int>, l: int, h: int)
    requires |sl| == |sh| && Sorting(fm0, fm, ec, lo, hi, sl + [l], sh + [h])
    requires Rearranged(fm, fm', l, h) && Keyed(fm', ec, l, h) && SortedOn(fm', ec, l, h)
    ensures Sorting(fm0, fm', ec, lo, hi, sl, sh)
    ensures Work(sl, sh) < Work(sl + [l], sh + [h])
  {
    hide Rearranged;
    PopParts(sl, sh, lo, hi, l, h);
    SortingRearrange(fm0, fm, fm', ec, lo, hi, l, h);
    PopStep(fm, fm', ec, lo, hi, sl, sh, l, h, sl, sh);
    assert (sl + [l])[..|sl|] == sl && (sh + [h])[..|sl|] == sh;
  }

  lemma {:induction false} PopParts(sl: seq<int>, sh: seq<int>, lo: int, hi: int, l: int, h: int)
    requires |sl| == |sh| && StackParts(sl + [l], sh + [h], lo, hi) && StackHalves(sl + [l], sh + [h], lo, hi)
    ensures StackParts(sl, sh, lo, hi) && StackHalves(sl, sh, lo, hi)
    ensures lo <= l <= h + 1 <= hi + 1
    ensures forall k :: 0 <= k < |sl| ==> sh[k] < l || h < sl[k]
  {
    var sl0, sh0, n := sl + [l], sh + [h], |sl|;
    assert sl0[n] == l && sh0[n] == h;
    forall k | 0 <= k < n
      ensures sl[k] == sl0[k] && sh[k] == sh0[k] && (sh[k] < l || h < sl[k])
    {
      assert sh0[k] < sl0[n] || sh0[n] < sl0[k];
    }
  }

  lemma {:induction false} SortingSplit(fm0: seq<int>, fm: seq<int>, fm': seq<int>, ec: seq<int>, lo: int, hi: int,
                                        sl: seq<int>, sh: seq<int>, l: int, h: int, a: int, b: int, c: int, d: int)
    requires |sl| == |sh| && Sorting(fm0, fm, ec, lo, hi, sl + [l], sh + [h])
    requires Rearranged(fm, fm', l, h) && Keyed(fm', ec, l, h)
    requires l <= a <= b + 1 <= h + 1 && l <= c <= d + 1 <= h + 1 && (b < c || d < a)
    requires d - c <= b - a && (b - a + 1) + (d - c + 1) <= h - l
    requires forall i, j :: l <= i < j <= h ==> (a <= i && j <= b) || (c <= i && j <= d) || ec[fm'[i]] <= ec[fm'[j]]
    ensures Sorting(fm0, fm', ec, lo, hi, sl + [a, c], sh + [b, d])
    ensures Work(sl + [a, c], sh + [b, d]) < Work(sl + [l], sh + [h])
  {
    hide Rearranged, StackParts, StackHalves, Work;
    PopParts(sl, sh, lo, hi, l, h);
    SortingRearrange(fm0, fm, fm', ec, lo, hi, l, h);
    PushParts(sl, sh, lo, hi, l, h, a, b, c, d);
    PushHalves(sl, sh, lo, hi, l, h, a, b, c, d);
    WorkShrinks(sl, sh, l, h, a, b, c, d);
    var sl1, sh1, n := sl + [a, c], sh + [b, d], |sl|;
    forall i, j | l <= i < j <= h ensures Together(sl1, sh1, i, j) || ec[fm'[i]] <= ec[fm'[j]] {
      if a <= i && j <= b { assert sl1[n] <= i && j <= sh1[n]; }
      if c <= i && j <= d { assert sl1[n + 1] <= i && j <= sh1[n + 1]; }
    }
    PopStep(fm, fm', ec, lo, hi, sl, sh, l, h, sl1, sh1);
  }

  lemma {:induction false} SortingEnd(fm0: seq<int>, fm: seq<int>, ec: seq<int>, lo: int, hi: int)
    requires Sorting(fm0, fm, ec, lo, hi, [], [])
    ensures Rearranged(fm0, fm, lo, hi) && Keyed(fm, ec, lo, hi) && SortedOn(fm, ec, lo, hi)
  {
    forall i, j | lo <= i < j <= hi ensures ec[fm[i]] <= ec[fm[j]] {
      assert !Together([], [], i, j);
    }
  }

  /** fpush. */
  method Push(stackLo: array<int>, stackHi: array<int>, sp: int, lz: int, hz: int) returns (sp': int)
    requires stackLo != stackHi && 0 <= sp < stackLo.Length == stackHi.Length
    modifies stackLo, stackHi
    ensures sp' == sp + 1
    ensures stackLo[..sp'] == old(stackLo[..sp]) + [lz] && stackHi[..sp'] == old(stackHi[..sp]) + [hz]
  {
    stackLo[sp], stackHi[sp] := lz, hz;
    sp' := sp + 1;
  }

  method PushBoth(stackLo: array<int>, stackHi: array<int>, sp: int, a: int, b: int, c: int, d: int) returns (sp': int)
    requires stackLo != stackHi && 0 <= sp && sp + 1 < stackLo.Length == stackHi.Length
    modifies stackLo, stackHi
    ensures sp' == sp + 2
    ensures stackLo[..sp'] == old(stackLo[..sp]) + [a, c] && stackHi[..sp'] == old(stackHi[..sp]) + [b, d]
  {
    sp' := Push(stackLo, stackHi, sp, a, b);
    sp' := Push(stackLo, stackHi, sp', c, d);
    ghost var sl, sh := old(stackLo[..sp]), old(stackHi[..sp]);
    assert sl + [a] + [c] == sl + [a, c] && sh + [b] + [d] == sh + [b, d];
  }

  /** fpop. */
  method Pop(stackLo: array<int>, stackHi: array<int>, sp: int) returns (sp': int, lz: int, hz: int)
    requires 0 < sp <= stackLo.Length == stackHi.Length
    ensures sp' == sp - 1
    ensures stackLo[..sp] == stackLo[..sp'] + [lz] && stackHi[..sp] == stackHi[..sp'] + [hz]
  {
    sp' := sp - 1;
    lz, hz := stackLo[sp'], stackHi[sp'];
  }

  /** One turn of fallbackQSort3's stack loop. */
  method SortTurn(fmap: array<int>, eclass: array<int>, loSt: int, hiSt: int,
                  stackLo: array<int>, stackHi: array<int>, sp0: int, r0: nat, ghost fm0: seq<int>)
    returns (sp: int, r: nat)
    requires fmap != eclass && fmap != stackLo && fmap != stackHi && eclass != stackLo && eclass != stackHi
    requires stackLo != stackHi && stackLo.Length == stackHi.Length == STACK_SIZE
    requires 0 < sp0 < STACK_SIZE && hiSt - loSt + 1 < Pow2(32)
    requires Sorting(fm0, fmap[..], eclass[..], loSt, hiSt, stackLo[..sp0], stackHi[..sp0])
    modifies fmap, stackLo, stackHi
    ensures 0 <= sp <= 33 || sp < sp0
    ensures 0 <= sp <= STACK_SIZE
    ensures Sorting(fm0, fmap[..], eclass[..], loSt, hiSt, stackLo[..sp], stackHi[..sp])
    ensures Work(stackLo[..sp], stackHi[..sp]) < Work(old(stackLo[..sp0]), old(stackHi[..sp0]))
  {
    assert STACK_SIZE == 100 && SMALL_THRESH == 10;
    hide *;
    ghost var fm, ec := fmap[..], eclass[..];
    SortingTop(fm0, fm, ec, loSt, hiSt, stackLo[..sp0], stackHi[..sp0]);
    var lo, hi;
    sp, lo, hi := Pop(stackLo, stackHi, sp0);
    r := r0;
    ghost var sl, sh := stackLo[..sp], stackHi[..sp];
    if hi - lo < SMALL_THRESH {
      SimpleSort(fmap, eclass, lo, hi);
      SortingPopped(fm0, fm, fmap[..], ec, loSt, hiSt, sl, sh, lo, hi);
      return;
    }
    var done, a, b, c, d;
    r, done, a, b, c, d := Split3(fmap, eclass, lo, hi, r);
    if done {
      SortingPopped(fm0, fm, fmap[..], ec, loSt, hiSt, sl, sh, lo, hi);
      return;
    }
    SortingSplit(fm0, fm, fmap[..], ec, loSt, hiSt, sl, sh, lo, hi, a, b, c, d);
    sp := PushBoth(stackLo, stackHi, sp, a, b, c, d);
  }

  /** fallbackQSort3.  The stack arrays are never written beyond their bound:
      at most 33 of the 100 slots are used on any block a 32-bit index can address. */
  method Sort(fmap: array<int>, eclass: array<int>, loSt: int, hiSt: int)
    requires fmap != eclass && Keyed(fmap[..], eclass[..], loSt, hiSt) && hiSt - loSt + 1 < Pow2(32)
    modifies fmap
    ensures Rearranged(old(fmap[..]), fmap[..], loSt, hiSt)
    ensures Keyed(fmap[..], eclass[..], loSt, hiSt)
    ensures SortedOn(fmap[..], eclass[..], loSt, hiSt)
  {
    assert STACK_SIZE == 100;
    hide *;
    ghost var fm0 := fmap[..];
    var stackLo := new int[STACK_SIZE];
    var stackHi := new int[STACK_SIZE];
    var r := 0;
    var sp := Push(stackLo, stackHi, 0, loSt, hiSt);
    assert stackLo[..sp] == [loSt] && stackHi[..sp] == [hiSt];
    SortingStart(fm0, eclass[..], loSt, hiSt);
    while sp > 0
      invariant 0 <= sp <= 33
      invariant Sorting(fm0, fmap[..], eclass[..], loSt, hiSt, stackLo[..sp], stackHi[..sp])
      decreases Work(stackLo[..sp], stackHi[..sp])
    {
      SortingTop(fm0, fmap[..], eclass[..], loSt, hiSt, stackLo[..sp], stackHi[..sp]);
      assert sp < STACK_SIZE;
      sp, r := SortTurn(fmap, eclass, loSt, hiSt, stackLo, stackHi, sp, r, fm0);
    }
    assert stackLo[..sp] == [] && stackHi[..sp] == [];
    SortingEnd(fm0, fmap[..], eclass[..], loSt, hiSt);
  }
}
