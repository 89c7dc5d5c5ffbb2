/** The decoder's move-to-front list: 16 sublists of 16 entries that slide down
    in the 4096 slots of mtfa, their starts held in mtfbase. */
module TwoLevelMtf {
  import opened MoveToFront

  const SLOTS: nat := 4096

  ghost predicate Shape(m: seq<int>, b: seq<int>) {
    Laid(m, b) && b[0] >= 1
  }

  /** The sublists lie in order, apart from each other, with room above for a rebuild. */
  ghost predicate Laid(m: seq<int>, b: seq<int>) {
    && |m| == 4096 && |b| == 16
    && (forall k :: 0 <= k < 16 ==> 0 <= b[k] <= 3840 + 16 * k)
    && (forall j, k :: 0 <= j < k < 16 ==> b[j] + 16 <= b[k])
  }

  /** Entry i of a sublist that starts at base. */
  ghost function Slot(m: seq<int>, base: int, i: int): int {
    if 0 <= base + i < |m| then m[base + i] else -1
  }

  /** The list that the sublists make up, one after the other. */
  ghost function List(m: seq<int>, b: seq<int>): (s: seq<int>)
    requires |b| == 16
    ensures |s| == 256
  {
    seq(256, q requires 0 <= q < 256 => Slot(m, b[q / 16], q % 16))
  }

  lemma ListAt(m: seq<int>, b: seq<int>, k: int, i: int)
    requires |b| == 16 && 0 <= k < 16 && 0 <= i < 16
    ensures List(m, b)[16 * k + i] == Slot(m, b[k], i)
  {
    assert (16 * k + i) / 16 == k && (16 * k + i) % 16 == i;
  }

  lemma SlotsOfList(m: seq<int>, b: seq<int>)
    requires |b| == 16
    ensures forall k, i :: 0 <= k < 16 && 0 <= i < 16 ==> Slot(m, b[k], i) == List(m, b)[16 * k + i]
  {
    forall k, i | 0 <= k < 16 && 0 <= i < 16 ensures Slot(m, b[k], i) == List(m, b)[16 * k + i] { ListAt(m, b, k, i); }
  }

  /** Two structures with the same slots hold the same list. */
  lemma {:induction false} ListFromSlots(m: seq<int>, b: seq<int>, s: seq<int>)
    requires |b| == 16 && |s| == 256
    requires forall k, i :: 0 <= k < 16 && 0 <= i < 16 ==> Slot(m, b[k], i) == s[16 * k + i]
    ensures List(m, b) == s
  {
    forall q | 0 <= q < 256 ensures List(m, b)[q] == s[q] {
      ListAt(m, b, q / 16, q % 16);
    }
  }

  // ---- positions below 16: shift inside the first sublist ----

  /** The entries of the first sublist from c to n have moved up by one, with slot c open. */
  ghost predicate Opened(m0: seq<int>, m: seq<int>, pp: int, n: int, c: int) {
    && |m| == |m0| && 0 <= c <= n < 16 && 0 <= pp && pp + 16 <= |m|
    && (forall i :: c < i <= n ==> Slot(m, pp, i) == Slot(m0, pp, i - 1))
    && (forall x :: 0 <= x < |m| && !(pp + c < x <= pp + n) ==> m[x] == m0[x])
  }

  lemma OpenedStart(m: seq<int>, b: seq<int>, n: int)
    requires Shape(m, b) && 0 <= n < 16
    ensures Opened(m, m, b[0], n, n)
  {
  }

  lemma {:induction false} OpenedStep(m0: seq<int>, m: seq<int>, pp: int, n: int, c: int)
    requires Opened(m0, m, pp, n, c) && c > 0
    ensures 0 < pp + c < |m| && Opened(m0, m[pp + c := m[pp + c - 1]], pp, n, c - 1)
  {
    var m' := m[pp + c := m[pp + c - 1]];
    forall i | c - 1 < i <= n ensures Slot(m', pp, i) == Slot(m0, pp, i - 1) {
      if i > c { assert Slot(m, pp, i) == Slot(m0, pp, i - 1); }
    }
  }

  lemma {:induction false} OpenedEnd(m0: seq<int>, m: seq<int>, b: seq<int>, n: int)
    requires Shape(m0, b) && Opened(m0, m, b[0], n, 0)
    ensures Shape(m[b[0] := Slot(m0, b[0], n)], b)
    ensures List(m[b[0] := Slot(m0, b[0], n)], b) == Front(List(m0, b), n)
  {
    var m', s := m[b[0] := Slot(m0, b[0], n)], List(m0, b);
    hide List;
    forall k, i | 0 <= k < 16 && 0 <= i < 16 ensures Slot(m', b[k], i) == Front(s, n)[16 * k + i] {
      FrontAt(s, n, 16 * k + i);
      ListAt(m0, b, k, i);
      ListAt(m0, b, 0, n);
      hide Front;
      if k == 0 {
        if i > 0 { ListAt(m0, b, 0, i - 1); }
        if 0 < i <= n { assert Slot(m, b[0], i) == Slot(m0, b[0], i - 1); }
      } else {
        assert b[0] + 16 <= b[k];
      }
    }
    ListFromSlots(m', b, Front(s, n));
  }

  lemma OpenedSize(m0: seq<int>, m: seq<int>, pp: int, n: int, c: int)
    requires Opened(m0, m, pp, n, c)
    ensures |m| == |m0| && 0 <= pp && pp + 16 <= |m| && 0 <= c <= n < 16
  {
  }

  lemma ShapeFacts(m: seq<int>, b: seq<int>)
    requires Shape(m, b)
    ensures |m| == 4096 && |b| == 16 && forall k :: 0 <= k < 16 ==> 0 <= b[k] <= 3840 + 16 * k
    ensures b[0] >= 1
  {
  }

  /** The four copies of one turn of the unrolled loop. */
  method ShiftFour(mtfa: array<int>, pp: int, nn: int, ghost m0: seq<int>, ghost n: int)
    requires Opened(m0, mtfa[..], pp, n, nn) && nn > 3
    modifies mtfa
    ensures Opened(m0, mtfa[..], pp, n, nn - 4)
  {
    hide *;
    var z := pp + nn;
    ShiftOne(mtfa, z, m0, pp, n);
    ShiftOne(mtfa, z - 1, m0, pp, n);
    ShiftOne(mtfa, z - 2, m0, pp, n);
    ShiftOne(mtfa, z - 3, m0, pp, n);
  }

  method ShiftOne(mtfa: array<int>, z: int, ghost m0: seq<int>, ghost pp: int, ghost n: int)
    requires Opened(m0, mtfa[..], pp, n, z - pp) && z > pp
    modifies mtfa
    ensures Opened(m0, mtfa[..], pp, n, z - 1 - pp)
  {
    hide *;
    ghost var m := mtfa[..];
    OpenedSize(m0, m, pp, n, z - pp);
    OpenedStep(m0, m, pp, n, z - pp);
    mtfa[z] := mtfa[z - 1];
    assert mtfa[..] == m[z := m[z - 1]];
  }

  method MoveNear(mtfa: array<int>, mtfbase: array<int>, n: int) returns (uc: int)
    requires mtfa != mtfbase && Shape(mtfa[..], mtfbase[..]) && 0 <= n < 16
    modifies mtfa
    ensures Shape(mtfa[..], mtfbase[..]) && uc == List(old(mtfa[..]), mtfbase[..])[n]
    ensures List(mtfa[..], mtfbase[..]) == Front(List(old(mtfa[..]), mtfbase[..]), n)
  {
    hide *;
    ghost var m0, b := mtfa[..], mtfbase[..];
    ShapeFacts(m0, b);
    var nn := n;
    var pp := mtfbase[0];
    uc := mtfa[pp + nn];
    ListAt(m0, b, 0, n);
    SlotIs(m0, pp, n);
    OpenedStart(m0, b, n);
    while nn > 3
      invariant nn >= 0 && Opened(m0, mtfa[..], pp, n, nn) && mtfbase[..] == b
    {
      ShiftFour(mtfa, pp, nn, m0, n);
      nn := nn - 4;
    }
    while nn > 0
      invariant nn >= 0 && Opened(m0, mtfa[..], pp, n, nn) && mtfbase[..] == b
    {
      ShiftOne(mtfa, pp + nn, m0, pp, n);
      nn := nn - 1;
    }
    ghost var m := mtfa[..];
    OpenedSize(m0, m, pp, n, 0);
    OpenedEnd(m0, m, b, n);
    mtfa[pp] := uc;
    assert mtfa[..] == m[pp := uc];
  }

  lemma SlotIs(m: seq<int>, base: int, i: int)
    requires 0 <= base + i < |m|
    ensures Slot(m, base, i) == m[base + i]
  {
  }

  // ---- other positions: take from one sublist, pass one entry down each boundary below it ----

  /** Sublists above l have handed on their places; sublist l still lacks its last entry, or lno its first. */
  ghost predicate Passing(m0: seq<int>, b0: seq<int>, m: seq<int>, b: seq<int>, lno: int, off: int, l: int) {
    && Laid(m0, b0) && |m| == 4096 && |b| == 16 && 0 <= l <= lno < 16 && 1 <= lno && 0 <= off < 16
    && Bases(b0, b, lno, l) && Upper(m0, b0, m, lno, off, l) && Lower(m0, b0, m, lno, l)
  }

  /** Where entry i of the shifted sublist came from. */
  ghost function Source(i: int, off: int): int {
    if i <= off then i - 1 else i
  }

  ghost predicate Bases(b0: seq<int>, b: seq<int>, lno: int, l: int)
    requires |b0| == 16 == |b|
  {
    forall k :: 0 <= k < 16 ==> b[k] == b0[k] + (if k == lno && l == lno then 1 else if l < k < lno then -1 else 0)
  }

  ghost predicate Upper(m0: seq<int>, b0: seq<int>, m: seq<int>, lno: int, off: int, l: int)
    requires |b0| == 16 && 1 <= lno < 16
  {
    && (forall k, i :: lno < k < 16 && 0 <= i < 16 ==> Slot(m, b0[k], i) == Slot(m0, b0[k], i))
    && (forall i :: 1 <= i < 16 ==> Slot(m, b0[lno], i) == Slot(m0, b0[lno], Source(i, off)))
    && (l < lno ==> Slot(m, b0[lno], 0) == Slot(m0, b0[lno - 1], 15))
  }

  ghost predicate Lower(m0: seq<int>, b0: seq<int>, m: seq<int>, lno: int, l: int)
    requires |b0| == 16 && 1 <= lno < 16 && l >= 0
  {
    && (forall k, i :: 0 <= k < lno && 0 <= i < 15 ==> Slot(m, b0[k], i) == Slot(m0, b0[k], i))
    && (forall k :: 0 <= k < lno && k < l ==> Slot(m, b0[k], 15) == Slot(m0, b0[k], 15))
    && (forall k :: l < k < lno ==> Slot(m, b0[k] - 1, 0) == Slot(m0, b0[k - 1], 15))
  }

  /** Storing at one place leaves the slots of other places alone. */
  lemma SlotKept(m: seq<int>, x: int, v: int, base: int, i: int)
    requires 0 <= x < |m|
    ensures Slot(m[x := v], base, i) == if base + i == x then v else Slot(m, base, i)
  {
  }

  lemma {:induction false} PassingStart(m0: seq<int>, m: seq<int>, b0: seq<int>, lno: int, off: int)
    requires Shape(m0, b0) && 1 <= lno < 16 && 0 <= off < 16 && Opened(m0, m, b0[lno], off, 0)
    ensures Passing(m0, b0, m, b0[lno := b0[lno] + 1], lno, off, lno)
  {
    forall k, i | 0 <= k < 16 && 0 <= i < 16 && k != lno ensures Slot(m, b0[k], i) == Slot(m0, b0[k], i) {
      if k < lno { assert b0[k] + 16 <= b0[lno]; } else { assert b0[lno] + 16 <= b0[k]; }
    }
    forall i | 1 <= i < 16 ensures Slot(m, b0[lno], i) == Slot(m0, b0[lno], Source(i, off)) { }
  }

  lemma {:induction false} PassPlaces(m0: seq<int>, b0: seq<int>, m: seq<int>, b: seq<int>, lno: int, off: int, l: int)
    requires Passing(m0, b0, m, b, lno, off, l) && l > 0
    ensures 0 < b[l] < 4096 && 0 <= b[l - 1] && b[l - 1] == b0[l - 1] && b[l - 1] + 15 < 4096 &&
            b[l] - 1 == (if l == lno then b0[l] else b0[l] - 1)
    ensures m[b[l - 1] + 15] == Slot(m0, b0[l - 1], 15)
    ensures forall k :: 0 <= k < l ==> b0[k] + 16 <= b0[l]
    ensures forall k :: l < k < 16 ==> b0[l] + 16 <= b0[k]
  {
    hide Upper;
    assert b0[l - 1] + 16 <= b0[l];
    assert Slot(m, b0[l - 1], 15) == Slot(m0, b0[l - 1], 15);
  }

  lemma {:induction false} PassUpper(m0: seq<int>, b0: seq<int>, m: seq<int>, b: seq<int>, lno: int, off: int, l: int,
                                     x: int, v: int)
    requires Passing(m0, b0, m, b, lno, off, l) && l > 0 && x == b[l] - 1 && v == Slot(m0, b0[l - 1], 15) &&
             0 <= x < 4096
    ensures Upper(m0, b0, m[x := v], lno, off, l - 1)
  {
    PassPlaces(m0, b0, m, b, lno, off, l);
    hide Lower, Laid, Bases;
    forall k, i | lno < k < 16 && 0 <= i < 16 ensures Slot(m[x := v], b0[k], i) == Slot(m0, b0[k], i) {
      SlotKept(m, x, v, b0[k], i);
      assert Slot(m, b0[k], i) == Slot(m0, b0[k], i);
      hide Slot;
    }
    forall i | 1 <= i < 16 ensures Slot(m[x := v], b0[lno], i) == Slot(m0, b0[lno], Source(i, off)) {
      SlotKept(m, x, v, b0[lno], i);
      assert Slot(m, b0[lno], i) == Slot(m0, b0[lno], Source(i, off));
      hide Slot;
    }
    SlotKept(m, x, v, b0[lno], 0);
  }

  lemma {:induction false} PassLower(m0: seq<int>, b0: seq<int>, m: seq<int>, b: seq<int>, lno: int, off: int, l: int,
                                     x: int, v: int)
    requires Passing(m0, b0, m, b, lno, off, l) && l > 0 && x == b[l] - 1 && v == Slot(m0, b0[l - 1], 15) &&
             0 <= x < 4096
    ensures Lower(m0, b0, m[x := v], lno, l - 1)
  {
    PassPlaces(m0, b0, m, b, lno, off, l);
    hide Upper, Laid, Bases;
    forall k, i | 0 <= k < lno && 0 <= i < 15 ensures Slot(m[x := v], b0[k], i) == Slot(m0, b0[k], i) {
      SlotKept(m, x, v, b0[k], i);
      assert Slot(m, b0[k], i) == Slot(m0, b0[k], i);
    }
    forall k | 0 <= k < lno && k < l - 1 ensures Slot(m[x := v], b0[k], 15) == Slot(m0, b0[k], 15) {
      SlotKept(m, x, v, b0[k], 15);
      assert Slot(m, b0[k], 15) == Slot(m0, b0[k], 15);
    }
    forall k | l - 1 < k < lno ensures Slot(m[x := v], b0[k] - 1, 0) == Slot(m0, b0[k - 1], 15) {
      SlotKept(m, x, v, b0[k] - 1, 0);
      if k > l { assert Slot(m, b0[k] - 1, 0) == Slot(m0, b0[k - 1], 15); }
    }
  }

  lemma {:induction false} PassStep(m0: seq<int>, b0: seq<int>, m: seq<int>, b: seq<int>, lno: int, off: int, l: int)
    requires Passing(m0, b0, m, b, lno, off, l) && l > 0
    ensures 0 < b[l] < 4096 && 0 <= b[l - 1] + 15 < 4096
    ensures Passing(m0, b0, m[b[l] - 1 := m[b[l - 1] + 15]], b[l := b[l] - 1], lno, off, l - 1)
  {
    PassPlaces(m0, b0, m, b, lno, off, l);
    PassUpper(m0, b0, m, b, lno, off, l, b[l] - 1, m[b[l - 1] + 15]);
    PassLower(m0, b0, m, b, lno, off, l, b[l] - 1, m[b[l - 1] + 15]);
    hide Upper, Lower;
  }

  lemma PassingSize(m0: seq<int>, b0: seq<int>, m: seq<int>, b: seq<int>, lno: int, off: int, l: int)
    requires Passing(m0, b0, m, b, lno, off, l)
    ensures |m| == 4096 && |b| == 16 && 0 <= l <= lno < 16
  {
  }

  /** The entry of the old structure that belongs in place i of sublist k after the move. */
  ghost function Moved(m0: seq<int>, b0: seq<int>, lno: int, off: int, k: int, i: int): int
    requires |b0| == 16 && 0 <= lno < 16 && 0 <= k < 16 && 0 <= i < 16
  {
    if k == 0 && i == 0 then Slot(m0, b0[lno], off)
    else if k > lno then Slot(m0, b0[k], i)
    else if i == 0 then Slot(m0, b0[k - 1], 15)
    else Slot(m0, b0[k], if k == lno then Source(i, off) else i - 1)
  }

  lemma {:induction false} FrontMoved(m0: seq<int>, b0: seq<int>, lno: int, off: int, k: int, i: int)
    requires |b0| == 16 && 1 <= lno < 16 && 0 <= off < 16 && 0 <= k < 16 && 0 <= i < 16
    ensures Front(List(m0, b0), 16 * lno + off)[16 * k + i] == Moved(m0, b0, lno, off, k, i)
  {
    var s := List(m0, b0);
    FrontAt(s, 16 * lno + off, 16 * k + i);
    hide Front, List, Slot;
    ListAt(m0, b0, lno, off);
    if i > 0 { ListAt(m0, b0, k, i - 1); }
    if k > 0 { ListAt(m0, b0, k - 1, 15); }
    ListAt(m0, b0, k, i);
  }

  lemma {:induction false} PassSlots(m0: seq<int>, b0: seq<int>, m: seq<int>, b: seq<int>, lno: int, off: int, uc: int,
                                     k: int, i: int)
    requires Passing(m0, b0, m, b, lno, off, 0) && b0[0] >= 1 && uc == Slot(m0, b0[lno], off) && 0 <= k < 16 &&
             0 <= i < 16
    ensures 1 <= b[0] <= 3840 && b[k] == (if k == 0 || k >= lno then b0[k] else b0[k] - 1)
    ensures Slot(m[b[0] - 1 := uc], if k == 0 then b[0] - 1 else b[k], i) == Moved(m0, b0, lno, off, k, i)
  {
    hide List, Front;
    SlotKept(m, b[0] - 1, uc, if k == 0 then b[0] - 1 else b[k], i);
    if k > 0 { assert b0[0] + 16 <= b0[k]; }
    if k < lno {
      hide Upper;
      if i > 0 { assert Slot(m, b0[k], i - 1) == Slot(m0, b0[k], i - 1); }
    } else {
      hide Lower;
      if k == lno && i > 0 { assert Slot(m, b0[lno], i) == Slot(m0, b0[lno], Source(i, off)); }
      if k > lno { assert Slot(m, b0[k], i) == Slot(m0, b0[k], i); }
    }
  }

  lemma {:induction false} PassEnd(m0: seq<int>, b0: seq<int>, m: seq<int>, b: seq<int>, lno: int, off: int, uc: int)
    requires Passing(m0, b0, m, b, lno, off, 0) && b0[0] >= 1 && uc == Slot(m0, b0[lno], off)
    ensures 1 <= b[0] <= 4096 && Laid(m[b[0] - 1 := uc], b[0 := b[0] - 1])
    ensures List(m[b[0] - 1 := uc], b[0 := b[0] - 1]) == Front(List(m0, b0), 16 * lno + off)
  {
    var m', b', t := m[b[0] - 1 := uc], b[0 := b[0] - 1], Front(List(m0, b0), 16 * lno + off);
    hide List, Front, Slot, Upper, Lower, Moved;
    forall k, i | 0 <= k < 16 && 0 <= i < 16 ensures Slot(m', b'[k], i) == t[16 * k + i] {
      PassSlots(m0, b0, m, b, lno, off, uc, k, i);
      FrontMoved(m0, b0, lno, off, k, i);
    }
    ListFromSlots(m', b', t);
  }

  // ---- rebuild: copy the list to the top of the slots, last entry first ----

  /** Entries up to jj of sublist ii, and all sublists before it, are still to be copied. */
  ghost predicate Copying(b0: seq<int>, s: seq<int>, m: seq<int>, b: seq<int>, ii: int, jj: int) {
    && |s| == 256 && |m| == 4096 && |b| == 16 && Laid(m, b0) && -1 <= ii < 16 && -1 <= jj < 16
    && (forall k, i :: 0 <= k < 16 && 0 <= i < 16 && (k < ii || (k == ii && i <= jj)) ==>
       Slot(m, b0[k], i) == s[16 * k + i])
    && (forall q :: 0 <= q < 256 && q > 16 * ii + jj ==> m[3840 + q] == s[q])
    && (forall k :: 0 <= k < 16 ==> b[k] == if k <= ii then b0[k] else 3840 + 16 * k)
  }

  lemma {:induction false} CopyStart(m: seq<int>, b: seq<int>)
    requires Laid(m, b)
    ensures Copying(b, List(m, b), m, b, 15, 15)
  {
    SlotsOfList(m, b);
    hide List, Slot;
  }

  lemma {:induction false} CopyStep(b0: seq<int>, s: seq<int>, m: seq<int>, b: seq<int>, ii: int, jj: int)
    requires Copying(b0, s, m, b, ii, jj) && ii >= 0 && jj >= 0
    ensures 0 <= b[ii] && b[ii] + jj < 4096
    ensures Copying(b0, s, m[3840 + 16 * ii + jj := m[b[ii] + jj]], b, ii, jj - 1)
  {
    var x, v := 3840 + 16 * ii + jj, m[b[ii] + jj];
    var m' := m[x := v];
    assert v == s[16 * ii + jj] by { assert Slot(m, b0[ii], jj) == s[16 * ii + jj]; }
    forall k, i | 0 <= k < 16 && 0 <= i < 16 && (k < ii || (k == ii && i <= jj - 1))
      ensures Slot(m', b0[k], i) == s[16 * k + i] {
      SlotKept(m, x, v, b0[k], i);
      assert Slot(m, b0[k], i) == s[16 * k + i];
    }
  }

  lemma {:induction false} CopySublist(b0: seq<int>, s: seq<int>, m: seq<int>, b: seq<int>, ii: int)
    requires Copying(b0, s, m, b, ii, -1) && ii >= 0
    ensures Copying(b0, s, m, b[ii := 3840 + 16 * ii], ii - 1, 15)
  {
  }

  lemma {:induction false} CopyEnd(b0: seq<int>, s: seq<int>, m: seq<int>, b: seq<int>)
    requires Copying(b0, s, m, b, -1, 15)
    ensures Shape(m, b) && List(m, b) == s
  {
    forall k, i | 0 <= k < 16 && 0 <= i < 16 ensures Slot(m, b[k], i) == s[16 * k + i] {
      var q := 16 * k + i;
      assert m[3840 + q] == s[q];
    }
    ListFromSlots(m, b, s);
  }

  lemma CopySize(b0: seq<int>, s: seq<int>, m: seq<int>, b: seq<int>, ii: int, jj: int)
    requires Copying(b0, s, m, b, ii, jj)
    ensures |m| == 4096 && |b| == 16 && |s| == 256
  {
  }

  method Rebuild(mtfa: array<int>, mtfbase: array<int>)
    requires mtfa != mtfbase && Laid(mtfa[..], mtfbase[..])
    modifies mtfa, mtfbase
    ensures Shape(mtfa[..], mtfbase[..])
    ensures List(mtfa[..], mtfbase[..]) == List(old(mtfa[..]), old(mtfbase[..]))
  {
    assert SLOTS == 4096;
    hide *;
    ghost var b0 := mtfbase[..];
    LaidSize(mtfa[..], b0);
    ghost var s := List(mtfa[..], b0);
    CopyStart(mtfa[..], b0);
    var kk := SLOTS - 1;
    var ii := 15;
    while ii >= 0
      invariant -1 <= ii <= 15 && kk == 3840 + 16 * ii + 15 && Copying(b0, s, mtfa[..], mtfbase[..], ii, 15)
    {
      var jj := 15;
      while jj >= 0
        invariant -1 <= jj <= 15 && kk == 3840 + 16 * ii + jj && Copying(b0, s, mtfa[..], mtfbase[..], ii, jj)
      {
        ghost var m := mtfa[..];
        CopySize(b0, s, m, mtfbase[..], ii, jj);
        CopyStep(b0, s, m, mtfbase[..], ii, jj);
        mtfa[kk] := mtfa[mtfbase[ii] + jj];
        assert mtfa[..] == m[kk := m[mtfbase[ii] + jj]];
        kk := kk - 1;
        jj := jj - 1;
      }
      ghost var b := mtfbase[..];
      CopySize(b0, s, mtfa[..], b, ii, jj);
      CopySublist(b0, s, mtfa[..], b, ii);
      mtfbase[ii] := kk + 1;
      assert mtfbase[..] == b[ii := kk + 1];
      ii := ii - 1;
    }
    CopyEnd(b0, s, mtfa[..], mtfbase[..]);
  }

  lemma LaidSize(m: seq<int>, b: seq<int>)
    requires Laid(m, b)
    ensures |m| == 4096 && |b| == 16
  {
  }

  // ---- the move ----

  lemma {:induction false} FarPlaces(m: seq<int>, b: seq<int>, lno: int, off: int)
    requires Shape(m, b) && 0 <= lno < 16 && 0 <= off < 16
    ensures |m| == 4096 && |b| == 16 && 0 <= b[lno] && b[lno] + 16 <= 4096 && Opened(m, m, b[lno], off, off)
    ensures List(m, b)[16 * lno + off] == m[b[lno] + off] == Slot(m, b[lno], off) && b[0] >= 1
  {
    ListAt(m, b, lno, off);
  }

  /** Positions 16..255. */
  method MoveFar(mtfa: array<int>, mtfbase: array<int>, nn: int) returns (uc: int)
    requires mtfa != mtfbase && Shape(mtfa[..], mtfbase[..]) && 16 <= nn < 256
    modifies mtfa, mtfbase
    ensures Shape(mtfa[..], mtfbase[..]) && uc == List(old(mtfa[..]), old(mtfbase[..]))[nn]
    ensures List(mtfa[..], mtfbase[..]) == Front(List(old(mtfa[..]), old(mtfbase[..])), nn)
  {
    hide *;
    ghost var m0, b0 := mtfa[..], mtfbase[..];
    var lno, off := nn / 16, nn % 16;
    ghost var l0 := lno;
    FarPlaces(m0, b0, lno, off);
    var pp := mtfbase[lno] + off;
    uc := mtfa[pp];
    while pp > mtfbase[lno]
      invariant mtfbase[..] == b0 && pp >= b0[lno] && Opened(m0, mtfa[..], b0[lno], off, pp - b0[lno])
    {
      ShiftOne(mtfa, pp, m0, b0[lno], off);
      pp := pp - 1;
    }
    PassingStart(m0, mtfa[..], b0, lno, off);
    mtfbase[lno] := mtfbase[lno] + 1;
    assert mtfbase[..] == b0[lno := b0[lno] + 1];
    while lno > 0
      invariant 0 <= lno < mtfbase.Length && Passing(m0, b0, mtfa[..], mtfbase[..], l0, off, lno)
    {
      ghost var m, b := mtfa[..], mtfbase[..];
      PassingSize(m0, b0, m, b, l0, off, lno);
      PassStep(m0, b0, m, b, l0, off, lno);
      mtfbase[lno] := mtfbase[lno] - 1;
      mtfa[mtfbase[lno]] := mtfa[mtfbase[lno - 1] + 15];
      assert mtfbase[..] == b[lno := b[lno] - 1];
      assert mtfa[..] == m[b[lno] - 1 := m[b[lno - 1] + 15]];
      lno := lno - 1;
    }
    ghost var m, b := mtfa[..], mtfbase[..];
    PassingSize(m0, b0, m, b, l0, off, 0);
    PassEnd(m0, b0, m, b, l0, off, uc);
    mtfbase[0] := mtfbase[0] - 1;
    mtfa[mtfbase[0]] := uc;
    assert mtfbase[..] == b[0 := b[0] - 1];
    assert mtfa[..] == m[b[0] - 1 := uc];
    LaidBase(mtfa[..], mtfbase[..]);
    if mtfbase[0] == 0 { Rebuild(mtfa, mtfbase); }
  }

  lemma LaidBase(m: seq<int>, b: seq<int>)
    requires Laid(m, b)
    ensures |b| == 16 && b[0] >= 0 && (b[0] != 0 ==> Shape(m, b))
  {
  }

  /** uc = MTF(nn): the entry at any position of the list, which moves to the front. */
  method Move(mtfa: array<int>, mtfbase: array<int>, nn: int) returns (uc: int)
    requires mtfa != mtfbase && Shape(mtfa[..], mtfbase[..]) && 0 <= nn < 256
    modifies mtfa, mtfbase
    ensures Shape(mtfa[..], mtfbase[..]) && uc == List(old(mtfa[..]), old(mtfbase[..]))[nn]
    ensures List(mtfa[..], mtfbase[..]) == Front(List(old(mtfa[..]), old(mtfbase[..])), nn)
  {
    hide *;
    if nn < 16 {
      uc := MoveNear(mtfa, mtfbase, nn);
    } else {
      uc := MoveFar(mtfa, mtfbase, nn);
    }
  }

  /** MTF init: the list 0..255 at the top of the slots. */
  method Init(mtfa: array<int>, mtfbase: array<int>)
    requires mtfa != mtfbase && mtfa.Length == 4096 && mtfbase.Length == 16
    modifies mtfa, mtfbase
    ensures Shape(mtfa[..], mtfbase[..]) && List(mtfa[..], mtfbase[..]) == Identity()
  {
    var kk := SLOTS - 1;
    var ii := 15;
    while ii >= 0
      invariant -1 <= ii <= 15 && kk == 3840 + 16 * ii + 15
      invariant forall x :: 3856 + 16 * ii <= x < 4096 ==> mtfa[x] == x - 3840
      invariant forall k :: ii < k < 16 ==> mtfbase[k] == 3840 + 16 * k
    {
      var jj := 15;
      while jj >= 0
        invariant -1 <= jj <= 15 && kk == 3840 + 16 * ii + jj
        invariant forall x :: 3840 + 16 * ii + jj < x < 4096 ==> mtfa[x] == x - 3840
        invariant forall k :: ii < k < 16 ==> mtfbase[k] == 3840 + 16 * k
      {
        mtfa[kk] := ii * 16 + jj;
        kk := kk - 1;
        jj := jj - 1;
      }
      mtfbase[ii] := kk + 1;
      ii := ii - 1;
    }
    InitList(mtfa[..], mtfbase[..]);
  }

  function Identity(): (s: seq<int>)
    ensures |s| == 256 && forall q :: 0 <= q < 256 ==> s[q] == q
  {
    seq(256, q => q)
  }

  lemma {:induction false} InitList(m: seq<int>, b: seq<int>)
    requires |m| == 4096 && |b| == 16
    requires forall x :: 3840 <= x < 4096 ==> m[x] == x - 3840
    requires forall k :: 0 <= k < 16 ==> b[k] == 3840 + 16 * k
    ensures Shape(m, b) && List(m, b) == Identity()
  {
    forall k, i | 0 <= k < 16 && 0 <= i < 16 ensures Slot(m, b[k], i) == Identity()[16 * k + i] {
      assert Identity()[16 * k + i] == 16 * k + i;
    }
    ListFromSlots(m, b, Identity());
  }
}
