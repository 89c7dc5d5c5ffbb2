/** generateMTFValues: the move-to-front symbols of a sorted block, written as
    16-bit halves over the array of rotation starts they are computed from. */
module MtfEncode {
  import opened RunCode
  import opened MoveToFront
  import opened Counting
  import BwtTheory
  import WordLanes

  // ---- the maps between byte values and sequence numbers ----

  /** How many byte values below v are in use. */
  ghost function UsedBelow(inUse: seq<bool>, v: nat): (n: nat)
    requires v <= |inUse|
    ensures n <= v
  {
    if v == 0 then 0 else UsedBelow(inUse, v - 1) + (if inUse[v - 1] then 1 else 0)
  }

  lemma {:induction false} UsedMonotone(inUse: seq<bool>, u: nat, v: nat)
    requires u <= v <= |inUse|
    ensures UsedBelow(inUse, u) <= UsedBelow(inUse, v)
    ensures u < v && inUse[u] ==> UsedBelow(inUse, u) < UsedBelow(inUse, v)
  {
    if u < v { UsedMonotone(inUse, u, v - 1); }
  }

  method MakeMapsE(inUse: seq<bool>) returns (unseqToSeq: array<int>, nInUse: int)
    requires |inUse| == 256
    ensures fresh(unseqToSeq) && unseqToSeq.Length == 256 && nInUse == UsedBelow(inUse, 256)
    ensures forall v :: 0 <= v < 256 && inUse[v] ==> unseqToSeq[v] == UsedBelow(inUse, v)
  {
    unseqToSeq := new int[256];
    nInUse := 0;
    for i := 0 to 256
      invariant nInUse == UsedBelow(inUse, i)
      invariant forall v :: 0 <= v < i && inUse[v] ==> unseqToSeq[v] == UsedBelow(inUse, v)
    {
      if inUse[i] {
        unseqToSeq[i] := nInUse;
        nInUse := nInUse + 1;
      }
    }
  }

  /** The decoder's map is the inverse. */
  method MakeMapsD(inUse: seq<bool>) returns (seqToUnseq: array<int>, nInUse: int)
    requires |inUse| == 256
    ensures fresh(seqToUnseq) && seqToUnseq.Length == 256 && nInUse == UsedBelow(inUse, 256)
    ensures forall i :: 0 <= i < 256 ==> 0 <= seqToUnseq[i] < 256
    ensures forall v :: 0 <= v < 256 && inUse[v] ==> UsedBelow(inUse, v) < nInUse && seqToUnseq[UsedBelow(inUse, v)] ==
                                                     v
  {
    seqToUnseq := new int[256](_ => 0);
    nInUse := 0;
    for i := 0 to 256
      invariant nInUse == UsedBelow(inUse, i) && forall k :: 0 <= k < 256 ==> 0 <= seqToUnseq[k] < 256
      invariant forall v :: 0 <= v < i && inUse[v] ==> UsedBelow(inUse, v) < nInUse &&
                                                       seqToUnseq[UsedBelow(inUse, v)] == v
    {
      if inUse[i] {
        seqToUnseq[nInUse] := i;
        nInUse := nInUse + 1;
      }
    }
  }

  ghost predicate AllUsed(inUse: seq<bool>, l: seq<int>) {
    |inUse| == 256 && forall i :: 0 <= i < |l| ==> 0 <= l[i] < 256 && inUse[l[i]]
  }

  /** The bytes l as sequence numbers. */
  ghost function Sequenced(inUse: seq<bool>, l: seq<int>): (cs: seq<int>)
    requires AllUsed(inUse, l)
    ensures |cs| == |l| && Over(UsedBelow(inUse, 256), cs)
    ensures forall i :: 0 <= i < |l| ==> cs[i] == UsedBelow(inUse, l[i])
  {
    var cs := seq(|l|, i requires 0 <= i < |l| => UsedBelow(inUse, l[i]));
    assert Over(UsedBelow(inUse, 256), cs) by {
      forall i | 0 <= i < |cs| ensures 0 <= cs[i] < UsedBelow(inUse, 256) { UsedMonotone(inUse, l[i], 256); }
    }
    cs
  }

  // ---- writing symbols ----

  /** The first halves of the array are the symbols out; the words of the block are 32-bit. */
  ghost predicate Wrote(ws: seq<int>, nblock: int, out: seq<int>) {
    && 1 <= nblock <= |ws| && |out| <= nblock + 1
    && (forall k :: 0 <= k < nblock ==> 0 <= ws[k] < 0x1_0000_0000)
    && WordLanes.Halves(ws)[..|out|] == out
  }

  ghost predicate Freqs(f: seq<int>, out: seq<int>, n: int) {
    0 <= n <= 256 && |f| == 258 && forall s :: 0 <= s < n + 2 ==> f[s] == Count(out, s)
  }

  /** Words from k on are as they were. */
  ghost predicate Unread(ws: seq<int>, was: seq<int>, k: int) {
    |ws| == |was| && forall i :: k <= i < |ws| && i >= 0 ==> ws[i] == was[i]
  }

  lemma {:induction false} EmitStep(f: seq<int>, out: seq<int>, v: int, n: int)
    requires Freqs(f, out, n) && 0 <= v < n + 2
    ensures |f| == 258 && v < 258 && Freqs(f[v := f[v] + 1], out + [v], n)
  {
    forall s | 0 <= s < n + 2 ensures f[v := f[v] + 1][s] == Count(out + [v], s) {
      assert (out + [v])[..|out + [v]| - 1] == out;
    }
  }

  lemma WrotePlace(ws: seq<int>, nblock: int, out: seq<int>)
    requires Wrote(ws, nblock, out) && |out| <= nblock
    ensures 0 <= |out| / 2 < nblock <= |ws| && 0 <= ws[|out| / 2] < 0x1_0000_0000
  {
  }

  lemma {:induction false} WroteStep(ws: seq<int>, ws': seq<int>, nblock: int, out: seq<int>, v: int)
    requires Wrote(ws, nblock, out) && |out| <= nblock && |ws'| == |ws| && 0 <= ws'[|out| / 2] < 0x1_0000_0000
    requires WordLanes.Halves(ws') == WordLanes.Halves(ws)[|out| := v]
    requires forall i :: 0 <= i < |ws| && i != |out| / 2 ==> ws'[i] == ws[i]
    ensures Wrote(ws', nblock, out + [v]) && Unread(ws', ws, |out| + 1)
  {
    var h, h' := WordLanes.Halves(ws), WordLanes.Halves(ws');
    assert h'[..|out| + 1] == h[..|out|] + [v];
  }

  /** mtfv[wr] = v; wr++; mtfFreq[v]++. */
  method Emit(ptr: array<int>, mtfFreq: array<int>, wr: int, v: int, ghost nblock: int, ghost n: int,
              ghost out: seq<int>)
      returns (wr': int)
    requires ptr != mtfFreq && Wrote(ptr[..], nblock, out) && Freqs(mtfFreq[..], out, n) && wr == |out| <= nblock &&
             0 <= v < n + 2
    modifies ptr, mtfFreq
    ensures wr' == wr + 1 && Wrote(ptr[..], nblock, out + [v]) && Freqs(mtfFreq[..], out + [v], n)
    ensures Unread(ptr[..], old(ptr[..]), wr + 1)
  {
    ghost var ws, f := ptr[..], mtfFreq[..];
    assert |f| == 258 && WordLanes.WORD == 0x1_0000_0000;
    hide *;
    WrotePlace(ws, nblock, out);
    WordLanes.PutHalf(ptr, wr, v);
    WroteStep(ws, ptr[..], nblock, out, v);
    EmitStep(f, out, v, n);
    mtfFreq[v] := mtfFreq[v] + 1;
    assert mtfFreq[..] == f[v := f[v] + 1];
    wr' := wr + 1;
  }

  lemma UnreadTrans(a: seq<int>, b: seq<int>, c: seq<int>, j: int, k: int)
    requires Unread(b, a, j) && Unread(c, b, k) && j <= k
    ensures Unread(c, a, k)
  {
  }

  lemma UnreadSelf(a: seq<int>, k: int)
    ensures Unread(a, a, k)
  {
  }

  lemma {:induction false} DigitsStep(z: nat, out: seq<int>)
    ensures z >= 2 ==> out + Digits(z) == (out + [Low(z)]) + Digits((z - 2) / 2)
    ensures z < 2 ==> out + Digits(z) == out + [Low(z)]
    ensures 1 <= |Digits(z)| <= z + 1
  {
    RunValue(z + 1);
  }

  /** One digit of the run. */
  method EmitDigit(ptr: array<int>, mtfFreq: array<int>, wr: int, z: int, ghost nblock: int, ghost n: int,
                   ghost out: seq<int>, ghost was: seq<int>)
      returns (wr': int)
    requires ptr != mtfFreq && n >= 0 && z >= 0 && Wrote(ptr[..], nblock, out) && Freqs(mtfFreq[..], out, n) &&
             wr == |out| <= nblock
    requires Unread(ptr[..], was, wr)
    modifies ptr, mtfFreq
    ensures wr' == wr + 1 && Wrote(ptr[..], nblock, out + [Low(z)]) && Freqs(mtfFreq[..], out + [Low(z)], n) &&
            Unread(ptr[..], was, wr')
  {
    hide Wrote, Freqs, Unread;
    ghost var now := ptr[..];
    if z % 2 == 1 {
      wr' := Emit(ptr, mtfFreq, wr, RUNB, nblock, n, out);
    } else {
      wr' := Emit(ptr, mtfFreq, wr, RUNA, nblock, n, out);
    }
    UnreadTrans(was, now, ptr[..], wr, wr');
  }

  lemma RunIs(z: nat)
    ensures Run(z + 1) == Digits(z)
  {
  }

  /** Write the pending run of zPend front entries. */
  method WriteRun(ptr: array<int>, mtfFreq: array<int>, wr: int, zPend: int, ghost nblock: int, ghost n: int,
                  ghost out: seq<int>)
      returns (wr': int)
    requires ptr != mtfFreq && n >= 0 && Wrote(ptr[..], nblock, out) && Freqs(mtfFreq[..], out, n) && wr == |out| &&
             zPend > 0 && wr + zPend <= nblock
    modifies ptr, mtfFreq
    ensures Wrote(ptr[..], nblock, out + Run(zPend)) && Freqs(mtfFreq[..], out + Run(zPend), n)
    ensures wr' == |out + Run(zPend)| <= wr + zPend && Unread(ptr[..], old(ptr[..]), wr')
  {
    hide *;
    ghost var was := ptr[..];
    var z := zPend - 1;
    RunIs(z);
    ghost var o := out;
    wr' := wr;
    UnreadSelf(was, wr);
    while true
      invariant z >= 0 && wr' == |o| && wr' + z + 1 <= wr + zPend
      invariant Wrote(ptr[..], nblock, o) && Freqs(mtfFreq[..], o, n) && Unread(ptr[..], was, wr')
      invariant o + Digits(z) == out + Digits(zPend - 1)
      decreases z
    {
      DigitsStep(z, o);
      wr' := EmitDigit(ptr, mtfFreq, wr', z, nblock, n, o, was);
      o := o + [Low(z)];
      if z < 2 { break; }
      z := (z - 2) / 2;
    }
  }

  // ---- the list ----

  /** yy while the search stands at p: entries 1..p are shifted, rtmp holds entry p. */
  ghost predicate Shifting(y0: seq<int>, y: seq<int>, n: int, p: int) {
    && |y| == |y0| && 1 <= p < n <= |y|
    && y[0] == y0[0] && (forall k :: 1 <= k <= p ==> y[k] == y0[k - 1])
    && forall k :: p < k < |y| ==> y[k] == y0[k]
  }

  lemma {:induction false} ShiftEnd(y0: seq<int>, y: seq<int>, n: int, p: int)
    requires Shifting(y0, y, n, p)
    ensures y[0 := y0[p]][..n] == Front(y0[..n], p)
  {
    var t := y0[..n];
    forall i | 0 <= i < n ensures y[0 := y0[p]][..n][i] == Front(t, p)[i] { FrontAt(t, p, i); }
  }

  /** Shift entries down until ll is found, put it in front, and return where it was. */
  method FindToFront(yy: array<int>, n: int, ll: int) returns (j: int)
    requires 0 < n <= yy.Length && ll in yy[..n] && yy[0] != ll
    modifies yy
    ensures ll in old(yy[..n]) && j == Position(old(yy[..n]), ll) && yy[..n] == Front(old(yy[..n]), j)
  {
    ghost var y0 := yy[..];
    ghost var pos := Position(y0[..n], ll);
    assert y0[..n] == yy[..n];
    assert forall i :: 0 <= i < pos ==> y0[i] != ll by {
      assert forall i :: 0 <= i < pos ==> y0[..n][i] == y0[i];
    }
    assert y0[pos] == ll;
    hide Position, Front;
    var rtmp := yy[1];
    yy[1] := yy[0];
    j := 1;
    while ll != rtmp
      invariant 1 <= j <= pos && Shifting(y0, yy[..], n, j) && rtmp == y0[j]
      decreases pos - j
    {
      j := j + 1;
      var rtmp2 := rtmp;
      rtmp := yy[j];
      yy[j] := rtmp2;
    }
    ghost var y := yy[..];
    ShiftEnd(y0, y, n, j);
    yy[0] := rtmp;
    assert yy[..] == y[0 := rtmp];
  }

  // ---- the whole ----

  /** After i characters: the list, the pending run, the symbols so far, and ptr from i on unread. */
  ghost predicate Coding(n: nat, cs: seq<int>, i: int, ws: seq<int>, was: seq<int>, f: seq<int>, yy: seq<int>, wr: int,
                         zPend: int) {
    && 0 <= i <= |cs| && Over(n, cs) && 1 <= n <= |yy| && |cs| <= |was|
    && var st := Enc(n, cs[..i]);
    && Wrote(ws, |cs|, st.out) && Freqs(f, st.out, n) && Unread(ws, was, i)
    && yy[..n] == st.list && wr == |st.out| && zPend == st.pend && wr + zPend <= i
  }

  lemma {:induction false} CodingStart(n: nat, cs: seq<int>, ws: seq<int>, f: seq<int>, yy: seq<int>)
    requires Over(n, cs) && 1 <= n <= |yy| && 1 <= |cs| <= |ws| && forall k :: 0 <= k < |cs| ==>
             0 <= ws[k] < 0x1_0000_0000
    requires n <= 256 && |f| == 258 && (forall s :: 0 <= s < n + 2 ==> f[s] == 0) && forall k :: 0 <= k < n ==>
             yy[k] == k
    ensures Coding(n, cs, 0, ws, ws, f, yy, 0, 0)
  {
    assert cs[..0] == [];
    assert yy[..n] == UpTo(n);
    assert WordLanes.Halves(ws)[..0] == [];
  }

  /** What one turn reads. */
  lemma {:induction false} CodingReads(n: nat, cs: seq<int>, i: int, ws: seq<int>, was: seq<int>, f: seq<int>,
                                       yy: seq<int>, wr: int, zPend: int)
    requires Coding(n, cs, i, ws, was, f, yy, wr, zPend) && i < |cs|
    ensures |ws| == |was| && i < |ws| && ws[i] == was[i] && |f| == 258 && 1 <= n <= |yy| && 0 <= cs[i] < n &&
            cs[i] in yy[..n]
    ensures zPend >= 0 && wr >= 0 && wr + zPend <= i < |cs|
    ensures Enc(n, cs[..i + 1]) == EncStep(Enc(n, cs[..i]), cs[i])
  {
    assert cs[..i + 1][..i] == cs[..i];
    var st := Enc(n, cs[..i]);
    assert Enc(n, cs[..i + 1]) == EncStep(st, cs[i]);
    hide Enc, Freqs, Run, EncStep;
    assert Listing(n, st.list);
  }

  lemma CodingParts(n: nat, cs: seq<int>, i: int, ws: seq<int>, was: seq<int>, f: seq<int>, yy: seq<int>, wr: int,
                    zPend: int)
    requires Coding(n, cs, i, ws, was, f, yy, wr, zPend)
    ensures 0 <= i <= |cs| && Over(n, cs) && Over(n, cs[..i]) && 1 <= n <= |yy| && |cs| <= |was| == |ws| && |f| == 258
    ensures var st := Enc(n, cs[..i]); Wrote(ws, |cs|, st.out) && Freqs(f, st.out, n) && Unread(ws, was, i)
    ensures var st := Enc(n, cs[..i]); yy[..n] == st.list && wr == |st.out| && zPend == st.pend && wr + zPend <= i
  {
  }

  lemma {:induction false} CodingPend(n: nat, cs: seq<int>, i: int, ws: seq<int>, was: seq<int>, f: seq<int>,
                                      yy: seq<int>, wr: int, zPend: int)
    requires Coding(n, cs, i, ws, was, f, yy, wr, zPend) && i < |cs| && yy[0] == cs[i]
    ensures Coding(n, cs, i + 1, ws, was, f, yy, wr, zPend + 1)
  {
    CodingReads(n, cs, i, ws, was, f, yy, wr, zPend);
    var st := Enc(n, cs[..i]);
    hide Enc, Wrote, Freqs;
    assert st.list[0] == yy[0];
  }

  lemma {:induction false} CodingMove(n: nat, cs: seq<int>, i: int, ws: seq<int>, was: seq<int>, f: seq<int>,
                                      yy: seq<int>, wr: int, zPend: int,
                                      j: int, ws': seq<int>, f': seq<int>, yy': seq<int>, wr': int)
    requires Coding(n, cs, i, ws, was, f, yy, wr, zPend) && i < |cs| && yy[0] != cs[i]
    requires n <= |yy'| && cs[i] in yy[..n] && j == Position(yy[..n], cs[i]) && yy'[..n] == Front(yy[..n], j)
    requires var out := Enc(n, cs[..i]).out + Run(zPend) + [j + 1]; Wrote(ws', |cs|, out) && Freqs(f', out, n) &&
                                                                    wr' == |out| <= wr + zPend + 1
    requires Unread(ws', was, i + 1)
    ensures Coding(n, cs, i + 1, ws', was, f', yy', wr', 0)
  {
    CodingReads(n, cs, i, ws, was, f, yy, wr, zPend);
    CodingParts(n, cs, i, ws, was, f, yy, wr, zPend);
    var st := Enc(n, cs[..i]);
    hide Enc, Wrote, Freqs, Unread, Run, Front;
    assert j > 0;
  }

  /** One character: the pending run and the move, or one more pending. */
  method CodeOne(ptr: array<int>, mtfFreq: array<int>, yy: array<int>, n: int, i: int, ll: int, wr: int, zPend: int,
                 ghost cs: seq<int>, ghost was: seq<int>)
    returns (wr': int, zPend': int)
    requires ptr != mtfFreq && ptr != yy && mtfFreq != yy && n >= 0 && n <= 256
    requires Coding(n, cs, i, ptr[..], was, mtfFreq[..], yy[..], wr, zPend) && i < |cs| && ll == cs[i]
    modifies ptr, mtfFreq, yy
    ensures Coding(n, cs, i + 1, ptr[..], was, mtfFreq[..], yy[..], wr', zPend')
  {
    ghost var ws, f, y := ptr[..], mtfFreq[..], yy[..];
    CodingReads(n, cs, i, ws, was, f, y, wr, zPend);
    CodingParts(n, cs, i, ws, was, f, y, wr, zPend);
    hide *;
    ghost var out := Enc(n, cs[..i]).out;
    wr', zPend' := wr, zPend;
    if yy[0] == ll {
      zPend' := zPend' + 1;
      CodingPend(n, cs, i, ws, was, f, y, wr, zPend);
    } else {
      if zPend' > 0 {
        wr' := WriteRun(ptr, mtfFreq, wr', zPend', |cs|, n, out);
        UnreadLater(ws, ptr[..], was, wr', i);
        zPend' := 0;
      } else {
        NoRun(out);
      }
      ghost var ws1 := ptr[..];
      var j := FindToFront(yy, n, ll);
      PositionBound(y[..n], ll);
      wr' := Emit(ptr, mtfFreq, wr', j + 1, |cs|, n, out + Run(zPend));
      UnreadLater(ws1, ptr[..], was, wr', i + 1);
      CodingMove(n, cs, i, ws, was, f, y, wr, zPend, j, ptr[..], mtfFreq[..], yy[..], wr');
    }
  }

  lemma UnreadLater(a: seq<int>, b: seq<int>, was: seq<int>, j: int, k: int)
    requires Unread(b, a, j) && j <= k && (Unread(a, was, k) || Unread(a, was, k - 1))
    ensures Unread(b, was, k)
  {
  }

  lemma NoRun(out: seq<int>)
    ensures out + Run(0) == out
  {
  }

  lemma PositionBound(s: seq<int>, c: int)
    requires c in s
    ensures 0 <= Position(s, c) < |s|
  {
  }

  /** The bytes the rotations listed in ptr are preceded by. */
  ghost function Column(b: seq<int>, fm: seq<int>): (l: seq<int>)
    requires |fm| >= |b| && forall i :: 0 <= i < |b| ==> 0 <= fm[i] < |b|
    ensures |l| == |b| && forall i :: 0 <= i < |b| ==> 0 <= BwtTheory.Prev(|b|, fm[i]) < |b| &&
                                                       l[i] == b[BwtTheory.Prev(|b|, fm[i])]
  {
    seq(|b|, i requires 0 <= i < |b| => b[BwtTheory.Prev(|b|, fm[i])])
  }

  /** For sorted rotations this is the last column. */
  lemma ColumnIsLast(b: seq<int>, fm: seq<int>, p: seq<int>)
    requires BwtTheory.SortedRotations(b, p) && |fm| >= |b| && fm[..|b|] == p
    ensures forall i :: 0 <= i < |b| ==> 0 <= fm[i] < |b|
    ensures Column(b, fm) == BwtTheory.LastColumn(b, p)
  {
    forall i | 0 <= i < |b| ensures fm[i] == p[i] { }
  }

  lemma {:induction false} CodingEnd(n: nat, cs: seq<int>, ws: seq<int>, was: seq<int>, f: seq<int>, yy: seq<int>,
                                     wr: int, zPend: int)
    requires Coding(n, cs, |cs|, ws, was, f, yy, wr, zPend)
    ensures var st := Enc(n, cs); Wrote(ws, |cs|, st.out) && Freqs(f, st.out, n) && wr == |st.out| &&
                                  zPend == st.pend && wr + zPend <= |cs|
    ensures Symbols(n, cs) == Enc(n, cs).out + Run(Enc(n, cs).pend) + [n + 1]
  {
    assert cs[..|cs|] == cs;
  }

  /** No symbol counted yet, and the list 0..n-1. */
  method StartList(mtfFreq: array<int>, n: int) returns (yy: array<int>)
    requires mtfFreq.Length == 258 && 0 <= n <= 256
    modifies mtfFreq
    ensures fresh(yy) && yy.Length == 256
    ensures (forall s :: 0 <= s < n + 2 ==> mtfFreq[s] == 0) && forall k :: 0 <= k < n ==> yy[k] == k
  {
    for i := 0 to n + 2
      invariant forall s :: 0 <= s < i ==> mtfFreq[s] == 0
    {
      mtfFreq[i] := 0;
    }
    yy := new int[256];
    for i := 0 to n
      invariant forall k :: 0 <= k < i ==> yy[k] == k
      invariant forall s :: 0 <= s < n + 2 ==> mtfFreq[s] == 0
    {
      yy[i] := i;
    }
  }

  /** The last run and the end-of-block symbol. */
  method CloseBlock(ptr: array<int>, mtfFreq: array<int>, ghost yy: array<int>, n: int, wr: int, zPend: int,
                    ghost cs: seq<int>, ghost was: seq<int>)
      returns (nMTF: int)
    requires ptr != mtfFreq && 0 <= n <= 256 && Coding(n, cs, |cs|, ptr[..], was, mtfFreq[..], yy[..], wr, zPend)
    modifies ptr, mtfFreq
    ensures Over(n, cs) && Wrote(ptr[..], |cs|, Symbols(n, cs)) && nMTF == |Symbols(n, cs)| &&
            Freqs(mtfFreq[..], Symbols(n, cs), n)
  {
    hide *;
    CodingParts(n, cs, |cs|, ptr[..], was, mtfFreq[..], yy[..], wr, zPend);
    CodingEnd(n, cs, ptr[..], was, mtfFreq[..], yy[..], wr, zPend);
    ghost var out := Enc(n, cs).out;
    nMTF := wr;
    if zPend > 0 {
      nMTF := WriteRun(ptr, mtfFreq, nMTF, zPend, |cs|, n, out);
    } else {
      NoRun(out);
    }
    nMTF := Emit(ptr, mtfFreq, nMTF, n + 1, |cs|, n, out + Run(Enc(n, cs).pend));
  }

  lemma ReadPlace(inUse: seq<bool>, b: seq<int>, ws: seq<int>, i: int)
    requires |b| <= |ws| && (forall k :: 0 <= k < |b| ==> 0 <= ws[k] < |b|) && 0 <= i < |b| &&
             AllUsed(inUse, Column(b, ws))
    ensures 0 <= ws[i] < |b|
    ensures var j := BwtTheory.Prev(|b|, ws[i]); 0 <= j < |b| && 0 <= b[j] < 256 && inUse[b[j]] &&
                                                 Sequenced(inUse, Column(b, ws))[i] == UsedBelow(inUse, b[j])
  {
    assert Column(b, ws)[i] == b[BwtTheory.Prev(|b|, ws[i])];
  }

  lemma WordsAre(ws: seq<int>, n: int)
    requires n <= |ws| && n < 0x1_0000_0000 && forall k :: 0 <= k < n ==> 0 <= ws[k] < n
    ensures forall k :: 0 <= k < n ==> 0 <= ws[k] < 0x1_0000_0000
  {
  }

  /** The sequence number of the byte before rotation i. */
  method ReadOne(ptr: array<int>, arr2: array<int>, unseqToSeq: array<int>, nblock: int, i: int,
                 ghost inUse: seq<bool>, ghost b: seq<int>, ghost was: seq<int>)
      returns (ll: int)
    requires 0 <= i < nblock <= 4 * arr2.Length && b == WordLanes.Bytes(arr2[..])[..nblock]
    requires |was| == ptr.Length >= nblock && (forall k :: 0 <= k < nblock ==> 0 <= was[k] < nblock) &&
             ptr[i] == was[i] && AllUsed(inUse, Column(b, was))
    requires unseqToSeq.Length == 256 && forall v :: 0 <= v < 256 && inUse[v] ==> unseqToSeq[v] == UsedBelow(inUse, v)
    ensures ll == Sequenced(inUse, Column(b, was))[i]
  {
    hide *;
    ReadPlace(inUse, b, was, i);
    var j := ptr[i] - 1;
    if j < 0 { j := j + nblock; }
    PrevIs(nblock, was[i]);
    var c := WordLanes.GetByte(arr2, j);
    ll := unseqToSeq[c];
  }

  method CodeAll(ptr: array<int>, arr2: array<int>, unseqToSeq: array<int>, mtfFreq: array<int>, yy: array<int>,
                 n: int, nblock: int,
                 ghost inUse: seq<bool>, ghost b: seq<int>, ghost cs: seq<int>, ghost was: seq<int>)
                   returns (wr: int, zPend: int)
    requires ptr != mtfFreq && ptr != yy && mtfFreq != yy && arr2 != ptr && arr2 != mtfFreq && arr2 != yy &&
             unseqToSeq != ptr && unseqToSeq != mtfFreq && unseqToSeq != yy
    requires 0 <= n <= 256 && Coding(n, cs, 0, ptr[..], was, mtfFreq[..], yy[..], 0, 0)
    requires 0 < nblock <= 4 * arr2.Length && b == WordLanes.Bytes(arr2[..])[..nblock]
    requires |was| == ptr.Length >= nblock && (forall k :: 0 <= k < nblock ==> 0 <= was[k] < nblock) &&
             AllUsed(inUse, Column(b, was))
    requires unseqToSeq.Length == 256 && forall v :: 0 <= v < 256 && inUse[v] ==> unseqToSeq[v] == UsedBelow(inUse, v)
    requires cs == Sequenced(inUse, Column(b, was)) && |cs| == nblock
    modifies ptr, mtfFreq, yy
    ensures Coding(n, cs, nblock, ptr[..], was, mtfFreq[..], yy[..], wr, zPend)
  {
    hide *;
    wr, zPend := 0, 0;
    for i := 0 to nblock
      invariant Coding(n, cs, i, ptr[..], was, mtfFreq[..], yy[..], wr, zPend)
    {
      CodingReads(n, cs, i, ptr[..], was, mtfFreq[..], yy[..], wr, zPend);
      var ll := ReadOne(ptr, arr2, unseqToSeq, nblock, i, inUse, b, was);
      wr, zPend := CodeOne(ptr, mtfFreq, yy, n, i, ll, wr, zPend, cs, was);
    }
  }

  /** All MTF symbols of the block, as halves from the start of ptr, and how often each occurs. */
  method GenerateMtfValues(ptr: array<int>, arr2: array<int>, nblock: int, inUse: seq<bool>, mtfFreq: array<int>,
                           ghost b: seq<int>)
      returns (nMTF: int, nInUse: int)
    requires ptr != arr2 && ptr != mtfFreq && arr2 != mtfFreq && mtfFreq.Length == 258
    requires 1 <= nblock < 0x1_0000_0000 && nblock <= ptr.Length && nblock <= 4 * arr2.Length &&
             b == WordLanes.Bytes(arr2[..])[..nblock]
    requires forall k :: 0 <= k < nblock ==> 0 <= ptr[k] < nblock
    requires AllUsed(inUse, Column(b, ptr[..]))
    modifies ptr, mtfFreq
    ensures nInUse == UsedBelow(inUse, 256)
    ensures var syms := Symbols(nInUse, Sequenced(inUse, old(Column(b, ptr[..]))));
            Wrote(ptr[..], nblock, syms) && nMTF == |syms| && Freqs(mtfFreq[..], syms, nInUse)
    ensures arr2[..] == old(arr2[..])
  {
    ghost var was := ptr[..];
    ghost var cs := Sequenced(inUse, Column(b, was));
    assert |cs| == nblock == |b| && |inUse| == 256 && Over(UsedBelow(inUse, 256), cs);
    WordsAre(was, nblock);
    hide *;
    var unseqToSeq, n := MakeMapsE(inUse);
    nInUse := n;
    var yy := StartList(mtfFreq, n);
    UsedSome(inUse, Column(b, was));
    CodingStart(n, cs, was, mtfFreq[..], yy[..]);
    var wr, zPend := CodeAll(ptr, arr2, unseqToSeq, mtfFreq, yy, n, nblock, inUse, b, cs, was);
    nMTF := CloseBlock(ptr, mtfFreq, yy, n, wr, zPend, cs, was);
  }

  lemma PrevIs(n: nat, r: int)
    ensures BwtTheory.Prev(n, r) == if r - 1 < 0 then r - 1 + n else r - 1
  {
  }

  lemma UsedSome(inUse: seq<bool>, l: seq<int>)
    requires AllUsed(inUse, l) && |l| > 0
    ensures UsedBelow(inUse, 256) >= 1
  {
    UsedMonotone(inUse, l[0], 256);
  }
}
