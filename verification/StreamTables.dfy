/** The tables in front of a block's data: which bytes occur, which coding
    table each group of symbols uses, and the code lengths of each table. */
module StreamTables {
  import opened Bits
  import opened BitStream
  import opened MoveToFront
  import RunCode

  lemma OneBit(b: bool)
    ensures BitsOf(if b then 1 else 0, 1) == [b] && Pow2(1) == 2
  {
    assert BitsOf((if b then 1 else 0) / 2, 0) == [];
  }

  method PutBit(w: Writer, b: bool)
    requires w.Valid()
    modifies w
    ensures w.Valid() && w.Contents() == old(w.Contents()) + [b]
  {
    OneBit(b);
    hide BitsOf, ByteBits, WriterOk, Pending, Pow2;
    if b { w.W(1, 1); } else { w.W(1, 0); }
  }

  method TakeBit(r: Reader, ghost b: bool, ghost rest: seq<bool>) returns (uc: nat)
    requires r.Valid() && r.Remaining() == [b] + rest
    modifies r
    ensures r.Valid() && (uc == if b then 1 else 0) && r.Remaining() == rest
  {
    OneBit(b);
    hide BitsOf, ByteBits, Value, Pow2;
    uc := r.GetField(1, if b then 1 else 0, rest);
  }

  // ---- the mapping table ----

  /** Whether any of the 16 bytes of row i occurs. */
  ghost predicate RowUsed(inUse: seq<bool>, i: int)
    requires |inUse| == 256 && 0 <= i < 16
  {
    true in inUse[16 * i..16 * i + 16]
  }

  ghost function RowFlags(inUse: seq<bool>): (s: seq<bool>)
    requires |inUse| == 256
    ensures |s| == 16 && forall i :: 0 <= i < 16 ==> s[i] == RowUsed(inUse, i)
  {
    seq(16, i requires 0 <= i < 16 => RowUsed(inUse, i))
  }

  /** The rows from i on, each only if it is used. */
  ghost function RowsFrom(inUse: seq<bool>, i: int): seq<bool>
    requires |inUse| == 256 && 0 <= i <= 16
    decreases 16 - i
  {
    if i == 16 then [] else (if RowUsed(inUse, i) then inUse[16 * i..16 * i + 16] else []) + RowsFrom(inUse, i + 1)
  }

  ghost function MappingBits(inUse: seq<bool>): seq<bool>
    requires |inUse| == 256
  {
    RowFlags(inUse) + RowsFrom(inUse, 0)
  }

  method PutBits(w: Writer, s: seq<bool>)
    requires w.Valid()
    modifies w
    ensures w.Valid() && w.Contents() == old(w.Contents()) + s
  {
    hide *;
    ghost var c := w.Contents();
    for j := 0 to |s|
      invariant w.Valid() && w.Contents() == c + s[..j]
    {
      PutBit(w, s[j]);
      assert c + s[..j] + [s[j]] == c + s[..j + 1];
    }
    assert s[..|s|] == s;
  }

  method UsedRows(inUse: seq<bool>) returns (inUse16: seq<bool>)
    requires |inUse| == 256
    ensures inUse16 == RowFlags(inUse)
  {
    inUse16 := [];
    for i := 0 to 16
      invariant |inUse16| == i && forall k :: 0 <= k < i ==> inUse16[k] == RowUsed(inUse, k)
    {
      var used := false;
      ghost var row := inUse[16 * i..16 * i + 16];
      for j := 0 to 16
        invariant used <==> true in row[..j]
      {
        assert row[..j + 1] == row[..j] + [inUse[16 * i + j]];
        if inUse[i * 16 + j] { used := true; }
      }
      assert row[..16] == row;
      inUse16 := inUse16 + [used];
    }
  }

  method SendMapping(w: Writer, inUse: seq<bool>)
    requires w.Valid() && |inUse| == 256
    modifies w
    ensures w.Valid() && w.Contents() == old(w.Contents()) + MappingBits(inUse)
  {
    hide *;
    ghost var c := w.Contents();
    var inUse16 := UsedRows(inUse);
    MappingIs(inUse);
    PutBits(w, inUse16);
    assert c + inUse16 + RowsFrom(inUse, 0) == c + MappingBits(inUse);
    for i := 0 to 16
      invariant w.Valid() && w.Contents() + RowsFrom(inUse, i) == c + MappingBits(inUse) && inUse16 == RowFlags(inUse)
    {
      MappingIs(inUse);
      RowsStep(inUse, i, w.Contents());
      if inUse16[i] { PutBits(w, inUse[16 * i..16 * i + 16]); }
    }
    RowsEnd(inUse, w.Contents());
  }

  lemma MappingIs(inUse: seq<bool>)
    requires |inUse| == 256
    ensures MappingBits(inUse) == RowFlags(inUse) + RowsFrom(inUse, 0) && |RowFlags(inUse)| == 16
    ensures forall i :: 0 <= i < 16 ==> RowFlags(inUse)[i] == RowUsed(inUse, i)
  {
  }

  lemma RowsStep(inUse: seq<bool>, i: int, c: seq<bool>)
    requires |inUse| == 256 && 0 <= i < 16
    ensures RowUsed(inUse, i) ==> c + RowsFrom(inUse, i) == (c + inUse[16 * i..16 * i + 16]) + RowsFrom(inUse, i + 1)
    ensures RowUsed(inUse, i) ==> RowsFrom(inUse, i) == inUse[16 * i..16 * i + 16] + RowsFrom(inUse, i + 1)
    ensures !RowUsed(inUse, i) ==> RowsFrom(inUse, i) == RowsFrom(inUse, i + 1)
  {
    hide RowUsed;
  }

  lemma RowsEnd(inUse: seq<bool>, c: seq<bool>)
    requires |inUse| == 256
    ensures c + RowsFrom(inUse, 16) == c && RowsFrom(inUse, 16) + c == c
  {
  }

  /** Sixteen flags of one row. */
  method TakeRow(r: Reader, ghost row: seq<bool>, ghost rest: seq<bool>) returns (s: seq<bool>)
    requires r.Valid() && |row| == 16 && r.Remaining() == row + rest
    modifies r
    ensures r.Valid() && s == row && r.Remaining() == rest
  {
    hide *;
    s := [];
    assert row[0..] == row;
    for j := 0 to 16
      invariant r.Valid() && s == row[..j] && r.Remaining() == row[j..] + rest
    {
      assert row[j..] + rest == [row[j]] + (row[j + 1..] + rest);
      var uc := TakeBit(r, row[j], row[j + 1..] + rest);
      s := s + [uc == 1];
    }
    assert row[16..] + rest == rest;
  }

  lemma {:induction false} EmptyRow(inUse: seq<bool>, i: int)
    requires |inUse| == 256 && 0 <= i < 16 && !RowUsed(inUse, i)
    ensures inUse[16 * i..16 * i + 16] == NoFlags()
  {
    var row := inUse[16 * i..16 * i + 16];
    forall j | 0 <= j < 16 ensures row[j] == false { assert row[j] ==> true in row; }
  }

  function NoFlags(): (s: seq<bool>)
    ensures |s| == 16 && forall i :: 0 <= i < 16 ==> !s[i]
  {
    seq(16, _ => false)
  }

  /** The mapping table is read back unchanged. */
  method RecvMapping(r: Reader, ghost used: seq<bool>, ghost rest: seq<bool>) returns (inUse: seq<bool>)
    requires r.Valid() && |used| == 256 && r.Remaining() == MappingBits(used) + rest
    modifies r
    ensures r.Valid() && inUse == used && r.Remaining() == rest
  {
    hide *;
    MappingIs(used);
    assert RowFlags(used) + RowsFrom(used, 0) + rest == RowFlags(used) + (RowsFrom(used, 0) + rest);
    var inUse16 := TakeRow(r, RowFlags(used), RowsFrom(used, 0) + rest);
    inUse := [];
    for i := 0 to 16
      invariant r.Valid() && r.Remaining() == RowsFrom(used, i) + rest && |inUse16| == 16
      invariant forall k :: 0 <= k < 16 ==> inUse16[k] == RowUsed(used, k)
      invariant inUse == used[..16 * i]
    {
      ghost var row := used[16 * i..16 * i + 16];
      assert used[..16 * (i + 1)] == used[..16 * i] + row;
      RowsStep(used, i, []);
      if inUse16[i] {
        assert RowsFrom(used, i) + rest == row + (RowsFrom(used, i + 1) + rest);
        var s := TakeRow(r, row, RowsFrom(used, i + 1) + rest);
        inUse := inUse + s;
      } else {
        EmptyRow(used, i);
        inUse := inUse + NoFlags();
      }
    }
    RowsEnd(used, rest);
    assert used[..256] == used;
  }

  // ---- the selectors ----

  ghost predicate AllIn(list: seq<int>, sels: seq<int>) {
    forall i :: 0 <= i < |sels| ==> sels[i] in list
  }

  /** The selectors as positions in a list of table numbers that moves to the front. */
  ghost function SelectorPositions(list: seq<int>, sels: seq<int>): (js: seq<int>)
    requires AllIn(list, sels)
    ensures |js| == |sels| && forall i :: 0 <= i < |js| ==> 0 <= js[i] < |list|
    decreases |sels|
  {
    if sels == [] then [] else
      var p := RunCode.Position(list, sels[0]);
      FrontMembers(list, p);
      [p] + SelectorPositions(Front(list, p), sels[1..])
  }

  /** pos while the search stands at j: tmp holds entry j. */
  ghost predicate Sliding(p0: seq<int>, p: seq<int>, j: int) {
    && 0 <= j < |p0| == |p| && (forall k :: 1 <= k <= j ==> p[k] == p0[k - 1]) && forall k :: j < k < |p| ==>
       p[k] == p0[k]
  }

  lemma {:induction false} SlideEnd(p0: seq<int>, p: seq<int>, j: int)
    requires Sliding(p0, p, j)
    ensures p[0 := p0[j]] == Front(p0, j)
  {
    forall i | 0 <= i < |p| ensures p[0 := p0[j]][i] == Front(p0, j)[i] { FrontAt(p0, j, i); }
  }

  /** The encoder's search for one selector. */
  method SelectorToFront(pos: array<int>, ll: int) returns (j: int)
    requires ll in pos[..]
    modifies pos
    ensures j == RunCode.Position(old(pos[..]), ll) && pos[..] == Front(old(pos[..]), j)
  {
    ghost var p0 := pos[..];
    ghost var at := RunCode.Position(p0, ll);
    assert forall i :: 0 <= i < at ==> p0[i] != ll;
    hide RunCode.Position, Front;
    j := 0;
    var tmp := pos[j];
    while ll != tmp
      invariant 0 <= j <= at && Sliding(p0, pos[..], j) && tmp == p0[j]
      decreases at - j
    {
      j := j + 1;
      var tmp2 := tmp;
      tmp := pos[j];
      pos[j] := tmp2;
    }
    ghost var p := pos[..];
    SlideEnd(p0, p, j);
    pos[0] := tmp;
    assert pos[..] == p[0 := tmp];
  }

  /** The decoder's move of one position. */
  method SelectorFromFront(pos: array<int>, j: int) returns (sel: int)
    requires 0 <= j < pos.Length
    modifies pos
    ensures sel == old(pos[j]) && pos[..] == Front(old(pos[..]), j)
  {
    ghost var p0 := pos[..];
    hide Front;
    var v := j;
    sel := pos[v];
    while v > 0
      invariant 0 <= v <= j
      invariant forall k :: v < k <= j ==> pos[k] == p0[k - 1]
      invariant forall k :: 0 <= k < pos.Length && !(v < k <= j) ==> pos[k] == p0[k]
    {
      pos[v] := pos[v - 1];
      v := v - 1;
    }
    ghost var p := pos[..];
    assert Sliding(p0, p, j);
    SlideEnd(p0, p, j);
    pos[0] := sel;
    assert pos[..] == p[0 := sel];
  }

  /** What is left to do after k selectors, for both sides. */
  lemma {:induction false} SelectorStep(list: seq<int>, sels: seq<int>, k: nat)
    requires k < |sels| && AllIn(list, sels[k..])
    ensures sels[k] in list && AllIn(Front(list, RunCode.Position(list, sels[k])), sels[k + 1..])
    ensures SelectorPositions(list, sels[k..]) == [RunCode.Position(list, sels[k])] +
            SelectorPositions(Front(list, RunCode.Position(list, sels[k])), sels[k + 1..])
  {
    assert sels[k..][0] == sels[k] && sels[k..][1..] == sels[k + 1..];
    FrontMembers(list, RunCode.Position(list, sels[k]));
    var a, b := sels[k..], sels[k + 1..];
    var t := Front(list, RunCode.Position(list, sels[k]));
    forall i | 0 <= i < |b| ensures b[i] in t { assert a[i + 1] in list; }
    hide RunCode.Position, Front;
  }

  method TableList(nGroups: int) returns (pos: array<int>)
    requires 0 <= nGroups <= 6
    ensures fresh(pos) && pos[..] == RunCode.UpTo(nGroups)
  {
    pos := new int[nGroups];
    for i := 0 to nGroups
      invariant forall k :: 0 <= k < i ==> pos[k] == k
    {
      pos[i] := i;
    }
  }

  method MtfSelectors(sels: seq<int>, nGroups: int) returns (js: seq<int>)
    requires 0 <= nGroups <= 6 && AllIn(RunCode.UpTo(nGroups), sels)
    ensures js == SelectorPositions(RunCode.UpTo(nGroups), sels)
  {
    hide *;
    var pos := TableList(nGroups);
    js := [];
    assert sels[0..] == sels;
    assert js + SelectorPositions(RunCode.UpTo(nGroups), sels) == SelectorPositions(RunCode.UpTo(nGroups), sels);
    for k := 0 to |sels|
      invariant AllIn(pos[..], sels[k..]) && js + SelectorPositions(pos[..], sels[k..]) ==
                SelectorPositions(RunCode.UpTo(nGroups), sels)
    {
      ghost var list := pos[..];
      SelectorStep(list, sels, k);
      var j := SelectorToFront(pos, sels[k]);
      assert js + ([j] + SelectorPositions(pos[..], sels[k + 1..])) == js + [j] +
             SelectorPositions(pos[..], sels[k + 1..]);
      js := js + [j];
    }
    NoSelectors(pos[..], sels);
    assert js + [] == js;
  }

  lemma NoSelectors(list: seq<int>, sels: seq<int>)
    ensures AllIn(list, sels[|sels|..]) && SelectorPositions(list, sels[|sels|..]) == []
  {
  }

  /** Undoing the positions gives the selectors back. */
  method UndoSelectors(js: seq<int>, nGroups: int, ghost sels: seq<int>) returns (back: seq<int>)
    requires 0 <= nGroups <= 6 && AllIn(RunCode.UpTo(nGroups), sels) &&
             js == SelectorPositions(RunCode.UpTo(nGroups), sels)
    ensures back == sels
  {
    assert |js| == |sels|;
    hide *;
    var pos := TableList(nGroups);
    back := [];
    UndoingStart(RunCode.UpTo(nGroups), js, sels);
    for k := 0 to |js|
      invariant Undoing(pos[..], js, sels, k, back)
    {
      ghost var list := pos[..];
      UndoingStep(list, js, sels, k, back);
      var sel := SelectorFromFront(pos, js[k]);
      back := back + [sel];
    }
    UndoingEnd(pos[..], js, sels, back);
  }

  /** The first k selectors are back, and list is the one the rest was coded with. */
  ghost predicate Undoing(list: seq<int>, js: seq<int>, sels: seq<int>, k: nat, back: seq<int>) {
    && k <= |js| == |sels| && AllIn(list, sels[k..]) && js[k..] == SelectorPositions(list, sels[k..]) &&
       back == sels[..k]
  }

  lemma UndoingStart(list: seq<int>, js: seq<int>, sels: seq<int>)
    requires AllIn(list, sels) && js == SelectorPositions(list, sels) && |js| == |sels|
    ensures Undoing(list, js, sels, 0, [])
  {
    hide AllIn, SelectorPositions;
    assert sels[0..] == sels && js[0..] == js;
  }

  lemma UndoingStep(list: seq<int>, js: seq<int>, sels: seq<int>, k: nat, back: seq<int>)
    requires Undoing(list, js, sels, k, back) && k < |js|
    ensures 0 <= js[k] < |list| && Undoing(Front(list, js[k]), js, sels, k + 1, back + [list[js[k]]])
  {
    SelectorStep(list, sels, k);
    PositionHolds(list, sels[k]);
    hide AllIn, SelectorPositions, Front, RunCode.Position;
    assert js[k] == js[k..][0] && js[k + 1..] == js[k..][1..];
    assert sels[..k + 1] == sels[..k] + [sels[k]];
  }

  lemma UndoingEnd(list: seq<int>, js: seq<int>, sels: seq<int>, back: seq<int>)
    requires Undoing(list, js, sels, |js|, back)
    ensures back == sels
  {
    hide AllIn, SelectorPositions;
    assert sels[..|sels|] == sels;
  }

  lemma PositionHolds(s: seq<int>, c: int)
    requires c in s
    ensures RunCode.Position(s, c) < |s| && s[RunCode.Position(s, c)] == c
  {
  }

  /** j ones and a zero for every position, from the k-th on. */
  ghost function Unary(j: int): seq<bool> {
    if j <= 0 then [false] else [true] + Unary(j - 1)
  }

  ghost function UnaryFrom(js: seq<int>, k: int): seq<bool>
    requires 0 <= k <= |js|
    decreases |js| - k
  {
    if k == |js| then [] else Unary(js[k]) + UnaryFrom(js, k + 1)
  }

  method SendUnary(w: Writer, n: int)
    requires w.Valid() && n >= 0
    modifies w
    ensures w.Valid() && w.Contents() == old(w.Contents()) + Unary(n)
  {
    hide *;
    ghost var c := w.Contents();
    for j := 0 to n
      invariant w.Valid() && w.Contents() + Unary(n - j) == c + Unary(n)
    {
      UnaryStep(w.Contents(), n - j);
      PutBit(w, true);
    }
    UnaryStep(w.Contents(), 0);
    PutBit(w, false);
  }

  lemma UnaryStep(c: seq<bool>, j: int)
    ensures j > 0 ==> c + Unary(j) == (c + [true]) + Unary(j - 1) && Unary(j) + c == [true] + (Unary(j - 1) + c)
    ensures j == 0 ==> c + Unary(j) == c + [false] && Unary(j) + c == [false] + c
  {
  }

  method RecvUnary(r: Reader, nGroups: int, ghost n: int, ghost rest: seq<bool>) returns (ok: bool, j: int)
    requires r.Valid() && 0 <= n < nGroups && r.Remaining() == Unary(n) + rest
    modifies r
    ensures r.Valid() && ok && j == n && r.Remaining() == rest
  {
    hide *;
    j := 0;
    while true
      invariant r.Valid() && 0 <= j <= n && r.Remaining() == Unary(n - j) + rest
      decreases n - j
    {
      UnaryStep(rest, n - j);
      var uc := TakeBit(r, n - j > 0, if n - j > 0 then Unary(n - j - 1) + rest else rest);
      if uc == 0 { break; }
      j := j + 1;
      if j >= nGroups { return false, j; }
    }
    ok := true;
  }

  method SendSelectors(w: Writer, js: seq<int>)
    requires w.Valid() && forall i :: 0 <= i < |js| ==> js[i] >= 0
    modifies w
    ensures w.Valid() && w.Contents() == old(w.Contents()) + UnaryFrom(js, 0)
  {
    hide *;
    ghost var c := w.Contents();
    for k := 0 to |js|
      invariant w.Valid() && w.Contents() + UnaryFrom(js, k) == c + UnaryFrom(js, 0)
    {
      UnaryNext(js, k, w.Contents());
      SendUnary(w, js[k]);
    }
    UnaryDone(js, w.Contents());
  }

  lemma UnaryNext(js: seq<int>, k: int, c: seq<bool>)
    requires 0 <= k < |js|
    ensures c + UnaryFrom(js, k) == (c + Unary(js[k])) + UnaryFrom(js, k + 1)
    ensures UnaryFrom(js, k) + c == Unary(js[k]) + (UnaryFrom(js, k + 1) + c)
  {
    hide Unary;
  }

  lemma UnaryDone(js: seq<int>, c: seq<bool>)
    ensures c + UnaryFrom(js, |js|) == c && UnaryFrom(js, |js|) + c == c
  {
  }

  method RecvSelectors(r: Reader, nSelectors: int, nGroups: int, ghost js: seq<int>, ghost rest: seq<bool>)
      returns (ok: bool, selectorMtf: seq<int>)
    requires r.Valid() && nSelectors == |js| && r.Remaining() == UnaryFrom(js, 0) + rest &&
             forall i :: 0 <= i < |js| ==> 0 <= js[i] < nGroups
    modifies r
    ensures r.Valid() && ok && selectorMtf == js && r.Remaining() == rest
  {
    hide *;
    selectorMtf := [];
    for k := 0 to nSelectors
      invariant r.Valid() && r.Remaining() == UnaryFrom(js, k) + rest && selectorMtf == js[..k]
    {
      UnaryNext(js, k, rest);
      var good, j := RecvUnary(r, nGroups, js[k], UnaryFrom(js, k + 1) + rest);
      if !good { return false, selectorMtf; }
      selectorMtf := selectorMtf + [j];
    }
    UnaryDone(js, rest);
    ok := true;
  }

  // ---- the code lengths ----

  /** From curr to l in steps of one, then a zero. */
  ghost function Steps(curr: int, l: int): seq<bool>
    decreases if curr < l then l - curr else curr - l
  {
    if curr < l then [true, false] + Steps(curr + 1, l)
    else if curr > l then [true, true] + Steps(curr - 1, l)
    else [false]
  }

  /** The lengths from i on, with curr the one before. */
  ghost function StepsFrom(len: seq<int>, curr: int, i: int): seq<bool>
    requires 0 <= i <= |len|
    decreases |len| - i
  {
    if i == |len| then [] else Steps(curr, len[i]) + StepsFrom(len, len[i], i + 1)
  }

  ghost function LengthBits(len: seq<int>): seq<bool>
    requires |len| > 0 && len[0] >= 0
  {
    BitsOf(len[0], 5) + StepsFrom(len, len[0], 0)
  }

  /** Bits 10 go up, bits 11 down. */
  lemma TwoBits()
    ensures BitsOf(2, 2) == [true, false] && BitsOf(3, 2) == [true, true] && Pow2(2) == 4
  {
    assert BitsOf(1, 1) == BitsOf(0, 0) + [true] == [true];
  }

  lemma StepsOne(c: seq<bool>, curr: int, l: int)
    ensures curr < l ==> c + Steps(curr, l) == c + [true, false] + Steps(curr + 1, l) && Steps(curr, l) + c == [true] +
                         ([false] + (Steps(curr + 1, l) + c))
    ensures curr > l ==> c + Steps(curr, l) == c + [true, true] + Steps(curr - 1, l) && Steps(curr, l) + c == [true] +
                         ([true] + (Steps(curr - 1, l) + c))
    ensures curr == l ==> c + Steps(curr, l) == c + [false] && Steps(curr, l) + c == [false] + c
  {
  }

  method SendSteps(w: Writer, curr: int, l: int)
    requires w.Valid()
    modifies w
    ensures w.Valid() && w.Contents() == old(w.Contents()) + Steps(curr, l)
  {
    hide *;
    TwoBits();
    ghost var c := w.Contents();
    var k := curr;
    while k < l
      invariant w.Valid() && (k <= l || k == curr) && w.Contents() + Steps(k, l) == c + Steps(curr, l)
      decreases l - k
    {
      StepsOne(w.Contents(), k, l);
      w.W(2, 2);
      k := k + 1;
    }
    while k > l
      invariant w.Valid() && k >= l && w.Contents() + Steps(k, l) == c + Steps(curr, l)
      decreases k - l
    {
      StepsOne(w.Contents(), k, l);
      w.W(2, 3);
      k := k - 1;
    }
    StepsOne(w.Contents(), k, l);
    PutBit(w, false);
  }

  method SendLengths(w: Writer, len: seq<int>)
    requires w.Valid() && |len| > 0 && 0 <= len[0] < 32
    modifies w
    ensures w.Valid() && w.Contents() == old(w.Contents()) + LengthBits(len)
  {
    assert Pow2(5) == 32;
    hide *;
    ghost var c := w.Contents();
    var curr := len[0];
    w.W(5, curr);
    LengthsStart(len, c);
    for i := 0 to |len|
      invariant w.Valid() && w.Contents() + StepsFrom(len, curr, i) == c + LengthBits(len)
    {
      LengthsNext(len, curr, i, w.Contents());
      SendSteps(w, curr, len[i]);
      curr := len[i];
    }
    LengthsEnd(len, curr, w.Contents());
  }

  lemma LengthsStart(len: seq<int>, c: seq<bool>)
    requires |len| > 0 && len[0] >= 0
    ensures c + LengthBits(len) == (c + BitsOf(len[0], 5)) + StepsFrom(len, len[0], 0)
    ensures LengthBits(len) + c == BitsOf(len[0], 5) + (StepsFrom(len, len[0], 0) + c)
  {
    var first, steps := BitsOf(len[0], 5), StepsFrom(len, len[0], 0);
    assert LengthBits(len) == first + steps;
    hide *;
    Associate(c, first, steps);
    Associate(first, steps, c);
  }

  lemma LengthsNext(len: seq<int>, curr: int, i: int, c: seq<bool>)
    requires 0 <= i < |len|
    ensures c + StepsFrom(len, curr, i) == (c + Steps(curr, len[i])) + StepsFrom(len, len[i], i + 1)
    ensures StepsFrom(len, curr, i) + c == Steps(curr, len[i]) + (StepsFrom(len, len[i], i + 1) + c)
  {
    hide Steps;
  }

  lemma LengthsEnd(len: seq<int>, curr: int, c: seq<bool>)
    ensures c + StepsFrom(len, curr, |len|) == c && StepsFrom(len, curr, |len|) + c == c
  {
  }

  ghost predicate InCodeRange(len: seq<int>) {
    forall i :: 0 <= i < |len| ==> 1 <= len[i] <= 20
  }

  lemma CodeLength(len: seq<int>, i: int)
    requires InCodeRange(len) && 0 <= i < |len|
    ensures 1 <= len[i] <= 20 && len[..i + 1] == len[..i] + [len[i]] && len[..|len|] == len
  {
  }

  /** One length, as the decoder steps to it. */
  method RecvSteps(r: Reader, from: int, ghost l: int, ghost rest: seq<bool>) returns (ok: bool, curr: int)
    requires r.Valid() && 1 <= from <= 20 && 1 <= l <= 20 && r.Remaining() == Steps(from, l) + rest
    modifies r
    ensures r.Valid() && ok && curr == l && r.Remaining() == rest
  {
    hide *;
    curr := from;
    while true
      invariant r.Valid() && 1 <= curr <= 20 && r.Remaining() == Steps(curr, l) + rest
      decreases if curr < l then l - curr else curr - l
    {
      if curr < 1 || curr > 20 { return false, curr; }
      StepsOne(rest, curr, l);
      ghost var next := if curr < l then curr + 1 else curr - 1;
      var uc := TakeBit(r, curr != l, if curr == l then rest else [curr > l] + (Steps(next, l) + rest));
      if uc == 0 { break; }
      uc := TakeBit(r, curr > l, Steps(next, l) + rest);
      if uc == 0 { curr := curr + 1; } else { curr := curr - 1; }
    }
    ok := true;
  }

  /** The lengths are read back unchanged. */
  method RecvLengths(r: Reader, alphaSize: int, ghost sent: seq<int>, ghost rest: seq<bool>)
      returns (ok: bool, len: seq<int>)
    requires r.Valid() && alphaSize == |sent| > 0 && InCodeRange(sent) && sent[0] >= 0 &&
             r.Remaining() == LengthBits(sent) + rest
    modifies r
    ensures r.Valid() && ok && len == sent && r.Remaining() == rest
  {
    assert Pow2(5) == 32;
    hide *;
    CodeLength(sent, 0);
    LengthsStart(sent, rest);
    var curr := r.GetField(5, sent[0], StepsFrom(sent, sent[0], 0) + rest);
    len := [];
    for i := 0 to alphaSize
      invariant r.Valid() && 1 <= curr <= 20 && len == sent[..i] && r.Remaining() == StepsFrom(sent, curr, i) + rest
    {
      LengthsNext(sent, curr, i, rest);
      CodeLength(sent, i);
      var good, l := RecvSteps(r, curr, sent[i], StepsFrom(sent, sent[i], i + 1) + rest);
      if !good { return false, len; }
      curr := l;
      len := len + [curr];
    }
    LengthsEnd(sent, curr, rest);
    ok := true;
  }
}
