/** sendMTFValues as a whole, and the part of BZ2_decompress that reads back
    what it sends: mapping table, selectors, code lengths and symbols. */
module BlockTables {
  import opened Bits
  import opened BitStream
  import opened StreamTables
  import opened SymbolStream
  import HuffmanCodes
  import CodeLengths
  import GroupTables
  import MtfDecode
  import MtfEncode
  import RunCode

  /** BZ_MAX_SELECTORS, the size of the selector arrays. */
  const MAX_SELECTORS: nat := 2 + 900_000 / 50

  const LESSER_ICOST: int := 0
  const GREATER_ICOST: int := 15

  /** What is sent for one block: used bytes, a table for each group, the tables, the symbols. */
  datatype Sent = Sent(inUse: seq<bool>, sels: seq<int>, lens: seq<seq<int>>, mtfv: seq<int>)

  ghost function NInUse(inUse: seq<bool>): nat
    requires |inUse| == 256
  {
    MtfEncode.UsedBelow(inUse, 256)
  }

  ghost predicate Ok(b: Sent) {
    && |b.inUse| == 256 && 1 <= NInUse(b.inUse) && 2 <= |b.lens| <= 6 && 1 <= |b.sels| <= MAX_SELECTORS
    && MtfDecode.Stream(b.mtfv, NInUse(b.inUse)) && Sendable(b.mtfv, b.sels, b.lens, NInUse(b.inUse) + 2)
    && AllIn(RunCode.UpTo(|b.lens|), b.sels)
  }

  ghost predicate Headed(lens: seq<seq<int>>) {
    forall u :: 0 <= u < |lens| ==> |lens[u]| > 0 && 1 <= lens[u][0] <= 20 && InCodeRange(lens[u])
  }

  ghost function LensBits(lens: seq<seq<int>>, t: int): seq<bool>
    requires 0 <= t <= |lens| && Headed(lens)
    decreases |lens| - t
  {
    if t == |lens| then [] else LengthBits(lens[t]) + LensBits(lens, t + 1)
  }

  lemma OkParts(b: Sent)
    requires Ok(b)
    ensures |b.inUse| == 256 && 1 <= NInUse(b.inUse) <= 256 && 2 <= |b.lens| <= 6 && 1 <= |b.sels| <= 18_002
    ensures MtfDecode.Stream(b.mtfv, NInUse(b.inUse)) && Sendable(b.mtfv, b.sels, b.lens, NInUse(b.inUse) + 2)
    ensures AllIn(RunCode.UpTo(|b.lens|), b.sels) && Headed(b.lens) && |b.mtfv| > 0
    ensures forall t :: 0 <= t < |b.lens| ==> HuffmanCodes.Lengths(b.lens[t]) && |b.lens[t]| == NInUse(b.inUse) + 2
    ensures b.mtfv[|b.mtfv| - 1] == NInUse(b.inUse) + 1 && forall i :: 0 <= i < |b.mtfv| - 1 ==>
            b.mtfv[i] != NInUse(b.inUse) + 1
  {
    hide HuffmanCodes.KraftSum;
  }

  // ---- the bits of a block, part by part ----

  ghost function HeadBits(b: Sent): seq<bool>
    requires |b.inUse| == 256
  {
    MappingBits(b.inUse) + BitsOf(|b.lens|, 3) + BitsOf(|b.sels|, 15)
  }

  ghost function Positions(b: Sent): seq<int>
    requires AllIn(RunCode.UpTo(|b.lens|), b.sels)
  {
    SelectorPositions(RunCode.UpTo(|b.lens|), b.sels)
  }

  ghost function SentBits(b: Sent): seq<bool>
    requires Ok(b) && Headed(b.lens)
  {
    HeadBits(b) + UnaryFrom(Positions(b), 0) + LensBits(b.lens, 0) + BodyBits(b)
  }

  // ---- sending ----

  /** A table that is cheap for the symbols lo..hi-1 and dear for all others. */
  ghost predicate CheapIn(row: seq<int>, lo: int, hi: int, alphaSize: int) {
    |row| == alphaSize && forall v :: 0 <= v < alphaSize ==>
      row[v] == if lo <= v < hi then 0 else 15
  }

  /** The first k ranges, from the last table down: each starts where the one before ends. */
  ghost predicate Ranges(tables: seq<seq<int>>, cuts: seq<int>, k: int, alphaSize: int) {
    && 0 <= k <= |tables| && |cuts| == k + 1 && cuts[0] == 0
    && forall g :: 0 <= g < k ==> RangeAt(tables, cuts, g, alphaSize)
  }

  ghost predicate RangeAt(tables: seq<seq<int>>, cuts: seq<int>, g: int, alphaSize: int)
    requires 0 <= g < |tables| && g + 1 < |cuts|
  {
    0 <= cuts[g] <= cuts[g + 1] <= alphaSize && CheapIn(tables[|tables| - 1 - g], cuts[g], cuts[g + 1], alphaSize)
  }

  ghost function Sum(f: seq<int>): int {
    if f == [] then 0 else f[0] + Sum(f[1..])
  }

  lemma {:induction false} SumFrom(f: seq<int>, i: int)
    requires 0 <= i < |f|
    ensures Sum(f[i..]) == f[i] + Sum(f[i + 1..])
  {
    assert f[i..][1..] == f[i + 1..];
  }

  lemma {:induction false} SumPositive(f: seq<int>)
    requires (forall v :: 0 <= v < |f| ==> f[v] >= 0) && |f| > 0 && f[|f| - 1] > 0
    ensures Sum(f) > 0
  {
    if |f| > 1 { SumPositive(f[1..]); }
  }

  /** The frequencies count nMTF symbols, among them the last of the alphabet, which ends the block. */
  ghost predicate CountAll(mtfFreq: seq<int>, nMTF: int, alphaSize: int) {
    && 0 < alphaSize <= |mtfFreq| && (forall v :: 0 <= v < alphaSize ==> mtfFreq[v] >= 0)
    && mtfFreq[alphaSize - 1] > 0 && Sum(mtfFreq[..alphaSize]) == nMTF
  }

  lemma {:induction false} CountLeft(mtfFreq: seq<int>, nMTF: int, alphaSize: int, i: int)
    requires CountAll(mtfFreq, nMTF, alphaSize) && 0 <= i <= alphaSize
    ensures Sum(mtfFreq[..alphaSize][i..]) >= 0 && (i < alphaSize ==> Sum(mtfFreq[..alphaSize][i..]) > 0)
  {
    var f := mtfFreq[..alphaSize][i..];
    if i < alphaSize { SumPositive(f); }
  }

  lemma {:induction false} SumSplit(f: seq<int>, a: int, b: int)
    requires 0 <= a <= b <= |f|
    ensures Sum(f[a..b]) + Sum(f[b..]) == Sum(f[a..])
    decreases b - a
  {
    if a < b {
      SumSplit(f, a + 1, b);
      SumFrom(f, a);
      assert f[a..b][1..] == f[a + 1..b];
    } else {
      assert f[a..b] == [];
    }
  }

  /** The first symbol with which the frequencies from gs on reach tFreq, or else the last one. */
  ghost predicate FirstEnd(f: seq<int>, gs: int, tFreq: int, e: int) {
    && 0 <= gs <= e + 1 <= |f| && (Sum(f[gs..e + 1]) >= tFreq || e == |f| - 1)
    && forall x :: gs <= x <= e ==> Sum(f[gs..x]) < tFreq
  }

  /** A range from gs to below hi: up to the first end, or without that symbol. */
  ghost predicate RangeFor(f: seq<int>, gs: int, tFreq: int, back: bool, hi: int) {
    exists e :: FirstEnd(f, gs, tFreq, e) && hi == if e > gs && back then e else e + 1
  }

  /** The cuts share what is left of the symbols among the ranges that are left; of the
      middle ranges every second one stops a symbol earlier. */
  ghost predicate Shared(f: seq<int>, nMTF: int, cuts: seq<int>, k: int, nGroups: int) {
    0 <= k <= nGroups && |cuts| == k + 1 && forall g :: 0 <= g < k ==> SharedAt(f, nMTF, cuts, g, nGroups)
  }

  ghost predicate SharedAt(f: seq<int>, nMTF: int, cuts: seq<int>, g: int, nGroups: int)
    requires 0 <= g < nGroups && g + 1 < |cuts|
  {
    0 <= cuts[g] <= |f| &&
    RangeFor(f, cuts[g], (nMTF - Sum(f[..cuts[g]])) / (nGroups - g), Middle(g, nGroups) && g % 2 == 1, cuts[g + 1])
  }

  ghost predicate Middle(g: int, nGroups: int) {
    0 < g < nGroups - 1
  }

  lemma {:induction false} SharedNext(f: seq<int>, nMTF: int, cuts: seq<int>, k: int, nGroups: int, hi: int)
    requires Shared(f, nMTF, cuts, k, nGroups) && k < nGroups && 0 <= cuts[k] <= |f|
    requires RangeFor(f, cuts[k], (nMTF - Sum(f[..cuts[k]])) / (nGroups - k), Middle(k, nGroups) && k % 2 == 1, hi)
    ensures Shared(f, nMTF, cuts + [hi], k + 1, nGroups)
  {
    var cuts' := cuts + [hi];
    hide RangeFor, Sum, Middle;
    forall g | 0 <= g < k + 1 ensures SharedAt(f, nMTF, cuts', g, nGroups) {
      if g < k { assert SharedAt(f, nMTF, cuts, g, nGroups); }
    }
  }

  /** What is left after one more range. */
  lemma {:induction false} LeftOver(f: seq<int>, nMTF: int, gs: int, hi: int, remF: int, aFreq: int)
    requires 0 <= gs <= hi <= |f| && remF == nMTF - Sum(f[..gs]) && aFreq == Sum(f[gs..hi])
    ensures remF - aFreq == nMTF - Sum(f[..hi]) && aFreq + Sum(f[hi..]) == Sum(f[gs..])
  {
    SumSplit(f, gs, hi);
    SumSplit(f, 0, gs);
    SumSplit(f, 0, hi);
    assert f[0..gs] == f[..gs] && f[0..hi] == f[..hi];
  }

  /** Where one range ends: symbols from gs on, until their frequencies reach tFreq. */
  method RangeEnd(mtfFreq: seq<int>, gs: int, tFreq: int, alphaSize: int, back: bool) returns (ge: int, aFreq: int)
    requires 0 <= gs <= alphaSize <= |mtfFreq|
    ensures gs - 1 <= ge < alphaSize && aFreq == Sum(mtfFreq[..alphaSize][gs..ge + 1])
    ensures RangeFor(mtfFreq[..alphaSize], gs, tFreq, back, ge + 1)
    ensures !back ==> aFreq >= tFreq || ge == alphaSize - 1
  {
    hide *;
    ghost var f := mtfFreq[..alphaSize];
    NoPart(f, gs);
    ge := gs - 1;
    aFreq := 0;
    while aFreq < tFreq && ge < alphaSize - 1
      invariant gs - 1 <= ge <= alphaSize - 1 && aFreq == Sum(f[gs..ge + 1])
      invariant forall x :: gs <= x <= ge ==> Sum(f[gs..x]) < tFreq
      decreases alphaSize - ge
    {
      ge := ge + 1;
      SumTo(f, gs, ge);
      aFreq := aFreq + mtfFreq[ge];
    }
    FirstEndIs(f, gs, tFreq, ge, back);
    if ge > gs && back {
      SumTo(f, gs, ge);
      aFreq := aFreq - mtfFreq[ge];
      ge := ge - 1;
    }
  }

  lemma NoPart(f: seq<int>, gs: int)
    requires 0 <= gs <= |f|
    ensures Sum(f[gs..gs]) == 0
  {
    assert f[gs..gs] == [];
  }

  lemma SumTo(f: seq<int>, a: int, b: int)
    requires 0 <= a <= b < |f|
    ensures Sum(f[a..b + 1]) == Sum(f[a..b]) + f[b]
  {
    SumSplit(f, a, b);
    SumSplit(f, a, b + 1);
    SumFrom(f, b);
  }

  lemma FirstEndIs(f: seq<int>, gs: int, tFreq: int, e: int, back: bool)
    requires 0 <= gs <= e + 1 <= |f| && (Sum(f[gs..e + 1]) >= tFreq || e == |f| - 1)
    requires forall x :: gs <= x <= e ==> Sum(f[gs..x]) < tFreq
    ensures RangeFor(f, gs, tFreq, back, if e > gs && back then e else e + 1)
  {
    assert FirstEnd(f, gs, tFreq, e);
  }

  lemma {:induction false} RangesNext(tables: seq<seq<int>>, cuts: seq<int>, k: int, alphaSize: int, row: seq<int>,
                                      hi: int)
    requires Ranges(tables, cuts, k, alphaSize) && k < |tables| && cuts[k] <= hi <= alphaSize
    requires cuts[k] >= 0 && CheapIn(row, cuts[k], hi, alphaSize)
    ensures Ranges(tables[|tables| - 1 - k := row], cuts + [hi], k + 1, alphaSize)
  {
    hide CheapIn;
    var tables', cuts' := tables[|tables| - 1 - k := row], cuts + [hi];
    forall g | 0 <= g < k + 1 ensures RangeAt(tables', cuts', g, alphaSize) {
      if g < k { assert RangeAt(tables, cuts, g, alphaSize); }
    }
  }

  lemma RangesCost(tables: seq<seq<int>>, cuts: seq<int>, alphaSize: int)
    requires Ranges(tables, cuts, |tables|, alphaSize)
    ensures GroupTables.Costed(tables, alphaSize)
  {
    forall t | 0 <= t < |tables| ensures CheapIn(tables[t], cuts[|tables| - 1 - t], cuts[|tables| - t], alphaSize) {
      var g := |tables| - 1 - t;
      assert RangeAt(tables, cuts, g, alphaSize) && tables[|tables| - 1 - g] == tables[t];
    }
  }

  /** The first guess: the tables are cheap for consecutive ranges of symbols, the
      last table for the first range; counted frequencies make the ranges cover
      the whole alphabet, so that every symbol is cheap in exactly one table. */
  method InitialTables(mtfFreq: seq<int>, nMTF: int, alphaSize: int, nGroups: int)
    returns (tables: seq<seq<int>>, ghost cuts: seq<int>)
    requires 0 <= alphaSize <= |mtfFreq| && 2 <= nGroups <= 6
    ensures |tables| == nGroups && Ranges(tables, cuts, nGroups, alphaSize) && GroupTables.Costed(tables, alphaSize)
    ensures Shared(mtfFreq[..alphaSize], nMTF, cuts, nGroups, nGroups)
    ensures CountAll(mtfFreq, nMTF, alphaSize) ==> cuts[nGroups] == alphaSize
  {
    hide *;
    tables := seq(nGroups, _ => seq(alphaSize, _ => GREATER_ICOST));
    cuts := [0];
    NoRanges(tables, alphaSize);
    WholeSum(mtfFreq, nMTF, alphaSize);
    ghost var f := mtfFreq[..alphaSize];
    NoShares(f, nMTF, nGroups);
    var nPart, remF, gs := nGroups, nMTF, 0;
    while nPart > 0
      invariant 0 <= nPart <= nGroups && 0 <= gs <= alphaSize && |tables| == nGroups
      invariant Ranges(tables, cuts, nGroups - nPart, alphaSize) && |cuts| == nGroups - nPart + 1 &&
                cuts[nGroups - nPart] == gs
      invariant Shared(f, nMTF, cuts, nGroups - nPart, nGroups) && remF == nMTF - Sum(f[..gs])
      invariant CountAll(mtfFreq, nMTF, alphaSize) ==> remF == Sum(f[gs..]) && (nPart == 0 ==> gs == alphaSize)
    {
      var tFreq := remF / nPart;
      var ge, aFreq := RangeEnd(mtfFreq, gs, tFreq, alphaSize,
                                nPart != nGroups && nPart != 1 && (nGroups - nPart) % 2 == 1);
      var row := seq(alphaSize, v => if gs <= v <= ge then LESSER_ICOST else GREATER_ICOST);
      RowIs(row, gs, ge, alphaSize);
      RangesNext(tables, cuts, nGroups - nPart, alphaSize, row, ge + 1);
      if CountAll(mtfFreq, nMTF, alphaSize) { CountLeft(mtfFreq, nMTF, alphaSize, ge + 1); }
      MiddleIs(nGroups - nPart, nGroups);
      SharedNext(f, nMTF, cuts, nGroups - nPart, nGroups, ge + 1);
      LeftOver(f, nMTF, gs, ge + 1, remF, aFreq);
      tables := tables[nPart - 1 := row];
      cuts := cuts + [ge + 1];
      nPart := nPart - 1;
      gs := ge + 1;
      remF := remF - aFreq;
    }
    RangesCost(tables, cuts, alphaSize);
  }

  lemma MiddleIs(g: int, nGroups: int)
    requires 0 <= g < nGroups
    ensures Middle(g, nGroups) <==> nGroups - g != nGroups && nGroups - g != 1
  {
  }

  lemma NoShares(f: seq<int>, nMTF: int, nGroups: int)
    requires nGroups >= 0
    ensures Shared(f, nMTF, [0], 0, nGroups) && Sum(f[..0]) == 0
  {
    assert f[..0] == [];
  }

  lemma NoRanges(tables: seq<seq<int>>, alphaSize: int)
    ensures Ranges(tables, [0], 0, alphaSize)
  {
  }

  lemma WholeSum(mtfFreq: seq<int>, nMTF: int, alphaSize: int)
    requires 0 <= alphaSize <= |mtfFreq|
    ensures CountAll(mtfFreq, nMTF, alphaSize) ==> nMTF == Sum(mtfFreq[..alphaSize][0..])
  {
    assert mtfFreq[..alphaSize][0..] == mtfFreq[..alphaSize];
  }

  lemma RowIs(row: seq<int>, gs: int, ge: int, alphaSize: int)
    requires |row| == alphaSize
    requires forall v :: 0 <= v < alphaSize ==> row[v] == if gs <= v <= ge then LESSER_ICOST else GREATER_ICOST
    ensures CheapIn(row, gs, ge + 1, alphaSize)
  {
  }

  /** Two tables, and one more for each of the marks 200, 600, 1200 and 2400 that is reached. */
  function GroupCount(nMTF: int): (n: int)
    ensures 2 <= n <= 6
    ensures (n > 2 <==> nMTF >= 200) && (n > 3 <==> nMTF >= 600) && (n > 4 <==> nMTF >= 1200) &&
            (n > 5 <==> nMTF >= 2400)
  {
    if nMTF < 200 then 2 else if nMTF < 600 then 3 else if nMTF < 1200 then 4 else if nMTF < 2400 then 5 else 6
  }

  /** Tables and selectors good for sending. */
  lemma TablesOk(inUse: seq<bool>, sels: seq<int>, lens: seq<seq<int>>, mtfv: seq<int>)
    requires |inUse| == 256 && 1 <= NInUse(inUse) <= 256 && MtfDecode.Stream(mtfv, NInUse(inUse)) && |mtfv| <= 900_001
    requires 2 <= |lens| <= 6 && GroupTables.AllComplete(lens, NInUse(inUse) + 2) && forall g :: 0 <= g < |sels| ==>
             0 <= sels[g] < |lens|
    requires 50 * (|sels| - 1) < |mtfv| <= 50 * |sels|
    ensures Ok(Sent(inUse, sels, lens, mtfv))
  {
    hide MtfEncode.UsedBelow, HuffmanCodes.KraftSum;
    forall t | 0 <= t < |lens| ensures |lens[t]| == NInUse(inUse) + 2 &&
      HuffmanCodes.Lengths(lens[t]) { CodeLengths.CompleteIsLengths(lens[t]); }
    RunCode.UpToLists(|lens|);
  }

  lemma StreamSymbols(mtfv: seq<int>, n: int)
    requires MtfDecode.Stream(mtfv, n)
    ensures GroupTables.Symbols(mtfv, n + 2) && |mtfv| > 0
  {
  }

  /** How selectors and tables come about: from a first guess that shares the symbols
      out, by four rounds in which every group chooses its cheapest table and the
      tables are made anew. */
  ghost predicate Made(sels: seq<int>, lens: seq<seq<int>>, mtfv: seq<int>, mtfFreq: seq<int>, alphaSize: int,
                       cuts: seq<int>, stages: seq<seq<seq<int>>>, choices: seq<seq<int>>) {
    && 0 <= alphaSize <= |mtfFreq| && |stages| == GroupTables.N_ITERS + 1 && |choices| == GroupTables.N_ITERS
    && |stages[0]| == GroupCount(|mtfv|) && Ranges(stages[0], cuts, |stages[0]|, alphaSize)
    && Shared(mtfFreq[..alphaSize], |mtfv|, cuts, |stages[0]|, |stages[0]|)
    && GroupTables.Stages(stages, choices, mtfv, alphaSize)
    && stages[GroupTables.N_ITERS] == lens && choices[GroupTables.N_ITERS - 1] == sels
  }

  /** Compute tables and selectors for the symbols. */
  method MakeTables(mtfv: seq<int>, mtfFreq: seq<int>, nInUse: int, inUse: seq<bool>)
      returns (sels: seq<int>, lens: seq<seq<int>>, ghost cuts: seq<int>, ghost stages: seq<seq<seq<int>>>,
               ghost choices: seq<seq<int>>)
    requires |inUse| == 256 && nInUse == NInUse(inUse) && 1 <= nInUse <= 256 && |mtfFreq| == 258
    requires MtfDecode.Stream(mtfv, nInUse) && |mtfv| <= 900_001
    ensures Ok(Sent(inUse, sels, lens, mtfv)) && Made(sels, lens, mtfv, mtfFreq, nInUse + 2, cuts, stages, choices)
  {
    hide *;
    StreamSymbols(mtfv, nInUse);
    GroupTables.GSizeIs();
    var nGroups := GroupCount(|mtfv|);
    var tables;
    tables, cuts := InitialTables(mtfFreq, |mtfv|, nInUse + 2, nGroups);
    sels, lens, stages, choices := GroupTables.ImproveTables(tables, mtfv, nInUse + 2);
    MadeIs(sels, lens, mtfv, mtfFreq, nInUse + 2, cuts, stages, choices);
    TablesOk(inUse, sels, lens, mtfv);
  }

  lemma MadeIs(sels: seq<int>, lens: seq<seq<int>>, mtfv: seq<int>, mtfFreq: seq<int>, alphaSize: int,
               cuts: seq<int>, stages: seq<seq<seq<int>>>, choices: seq<seq<int>>)
    requires 0 <= alphaSize <= |mtfFreq| && |stages| == GroupTables.N_ITERS + 1 && |choices| == GroupTables.N_ITERS
    requires |stages[0]| == GroupCount(|mtfv|) && Ranges(stages[0], cuts, |stages[0]|, alphaSize)
    requires Shared(mtfFreq[..alphaSize], |mtfv|, cuts, |stages[0]|, |stages[0]|)
    requires GroupTables.Stages(stages, choices, mtfv, alphaSize)
    requires stages[GroupTables.N_ITERS] == lens && choices[GroupTables.N_ITERS - 1] == sels
    ensures Made(sels, lens, mtfv, mtfFreq, alphaSize, cuts, stages, choices)
  {
    hide Ranges, Shared, GroupCount;
  }

  method SendLens(w: Writer, lens: seq<seq<int>>)
    requires w.Valid() && Headed(lens)
    modifies w
    ensures w.Valid() && w.Contents() == old(w.Contents()) + LensBits(lens, 0)
  {
    hide *;
    ghost var c := w.Contents();
    for t := 0 to |lens|
      invariant w.Valid() && w.Contents() + LensBits(lens, t) == c + LensBits(lens, 0)
    {
      LensStep(lens, t, w.Contents());
      SendLengths(w, lens[t]);
    }
    LensEnd(lens, w.Contents());
  }

  lemma LensStep(lens: seq<seq<int>>, t: int, c: seq<bool>)
    requires 0 <= t < |lens| && Headed(lens)
    ensures |lens[t]| > 0 && 0 <= lens[t][0] < 32 && InCodeRange(lens[t])
    ensures c + LensBits(lens, t) == (c + LengthBits(lens[t])) + LensBits(lens, t + 1)
    ensures LensBits(lens, t) + c == LengthBits(lens[t]) + (LensBits(lens, t + 1) + c)
  {
    hide LengthBits;
  }

  lemma LensEnd(lens: seq<seq<int>>, c: seq<bool>)
    requires Headed(lens)
    ensures c + LensBits(lens, |lens|) == c && LensBits(lens, |lens|) + c == c
  {
  }

  /** The mapping table and the two counts. */
  method SendHead(w: Writer, inUse: seq<bool>, nGroups: int, nSelectors: int, ghost b: Sent)
    requires w.Valid() && |b.inUse| == 256 && inUse == b.inUse && 2 <= nGroups <= 6 && 1 <= nSelectors < 32768 &&
             nGroups == |b.lens| && nSelectors == |b.sels|
    modifies w
    ensures w.Valid() && w.Contents() == old(w.Contents()) + HeadBits(b)
  {
    assert Pow2(3) == 8 && Pow2(15) == 32768 by { Pow2Values(); assert Pow2(15) == 2 * Pow2(14) &&
                                                                Pow2(16) == 2 * Pow2(15); }
    hide *;
    HeadJoined(b, w.Contents());
    SendMapping(w, inUse);
    w.W(3, nGroups);
    w.W(15, nSelectors);
  }

  /** Send a block's tables and symbols. */
  method Send(w: Writer, inUse: seq<bool>, sels: seq<int>, lens: seq<seq<int>>, mtfv: seq<int>)
    requires w.Valid() && Ok(Sent(inUse, sels, lens, mtfv))
    modifies w
    ensures w.Valid() && Headed(lens) && w.Contents() == old(w.Contents()) + SentBits(Sent(inUse, sels, lens, mtfv))
  {
    hide *;
    ghost var b := Sent(inUse, sels, lens, mtfv);
    OkParts(b);
    PositionsIn(b);
    BodyJoined(b, w.Contents());
    BodyIs(b);
    var js := MtfSelectors(sels, |lens|);
    SendHead(w, inUse, |lens|, |sels|, b);
    SendSelectors(w, js);
    SendLens(w, lens);
    SendData(w, mtfv, sels, lens, NInUse(inUse) + 2);
  }

  lemma PositionsIn(b: Sent)
    requires AllIn(RunCode.UpTo(|b.lens|), b.sels)
    ensures Positions(b) == SelectorPositions(RunCode.UpTo(|b.lens|), b.sels) && |Positions(b)| == |b.sels|
    ensures forall i :: 0 <= i < |Positions(b)| ==> 0 <= Positions(b)[i] < |b.lens|
  {
  }

  lemma HeadJoined(b: Sent, c: seq<bool>)
    requires |b.inUse| == 256
    ensures c + HeadBits(b) == c + MappingBits(b.inUse) + BitsOf(|b.lens|, 3) + BitsOf(|b.sels|, 15)
    ensures HeadBits(b) + c == MappingBits(b.inUse) + (BitsOf(|b.lens|, 3) + (BitsOf(|b.sels|, 15) + c))
  {
    hide MappingBits, BitsOf;
  }

  ghost function BodyBits(b: Sent): seq<bool>
    requires Ok(b) && Headed(b.lens)
  {
    DataBits(b.mtfv, b.sels, b.lens, NInUse(b.inUse) + 2, 0)
  }

  lemma BodyJoined(b: Sent, c: seq<bool>)
    requires Ok(b) && Headed(b.lens)
    ensures c + SentBits(b) == c + HeadBits(b) + UnaryFrom(Positions(b), 0) + LensBits(b.lens, 0) + BodyBits(b)
    ensures SentBits(b) + c == HeadBits(b) + (UnaryFrom(Positions(b), 0) + (LensBits(b.lens, 0) + (BodyBits(b) + c)))
  {
    hide HeadBits, UnaryFrom, Positions, LensBits, BodyBits, NInUse, Headed, MtfDecode.Stream, Sendable;
  }

  lemma BodyIs(b: Sent)
    requires Ok(b) && Headed(b.lens)
    ensures Sendable(b.mtfv, b.sels, b.lens, NInUse(b.inUse) + 2) &&
            BodyBits(b) == DataBits(b.mtfv, b.sels, b.lens, NInUse(b.inUse) + 2, 0)
  {
    hide DataBits;
  }

  // ---- receiving ----

  ghost predicate SameSize(lens: seq<seq<int>>, alphaSize: int) {
    forall u :: 0 <= u < |lens| ==> |lens[u]| == alphaSize
  }

  lemma SentRow(lens: seq<seq<int>>, alphaSize: int, t: int)
    requires SameSize(lens, alphaSize) && 0 <= t < |lens|
    ensures |lens[t]| == alphaSize && lens[..t + 1] == lens[..t] + [lens[t]]
  {
  }

  method RecvLens(r: Reader, nGroups: int, alphaSize: int, ghost sent: seq<seq<int>>, ghost rest: seq<bool>)
      returns (ok: bool, lens: seq<seq<int>>)
    requires r.Valid() && nGroups == |sent| && Headed(sent) && SameSize(sent, alphaSize)
    requires r.Remaining() == LensBits(sent, 0) + rest
    modifies r
    ensures r.Valid() && ok && lens == sent && r.Remaining() == rest
  {
    hide *;
    lens := [];
    for t := 0 to nGroups
      invariant r.Valid() && lens == sent[..t] && r.Remaining() == LensBits(sent, t) + rest
    {
      LensStep(sent, t, rest);
      SentRow(sent, alphaSize, t);
      var good, len := RecvLengths(r, alphaSize, sent[t], LensBits(sent, t + 1) + rest);
      if !good { return false, lens; }
      lens := lens + [len];
    }
    LensEnd(sent, rest);
    assert sent[..nGroups] == sent;
    ok := true;
  }

  method RecvHead(r: Reader, ghost b: Sent, ghost rest: seq<bool>)
      returns (inUse: seq<bool>, nGroups: int, nSelectors: int)
    requires r.Valid() && |b.inUse| == 256 && |b.lens| <= 6 && |b.sels| < 32768 && r.Remaining() == HeadBits(b) + rest
    modifies r
    ensures r.Valid() && inUse == b.inUse && nGroups == |b.lens| && nSelectors == |b.sels| && r.Remaining() == rest
  {
    assert Pow2(3) == 8 && Pow2(15) == 32768 by { Pow2Values(); assert Pow2(15) == 2 * Pow2(14) &&
                                                                Pow2(16) == 2 * Pow2(15); }
    hide *;
    HeadJoined(b, rest);
    ghost var rest2 := BitsOf(|b.sels|, 15) + rest;
    inUse := RecvMapping(r, b.inUse, BitsOf(|b.lens|, 3) + rest2);
    nGroups := r.GetField(3, |b.lens|, rest2);
    nSelectors := r.GetField(15, |b.sels|, rest);
  }

  /** Selectors, lengths and symbols, once the head is known. */
  method RecvBody(r: Reader, nGroups: int, nSelectors: int, nInUse: int, ghost b: Sent, ghost rest: seq<bool>)
      returns (ok: bool, syms: seq<int>)
    requires r.Valid() && Ok(b) && Headed(b.lens) && nGroups == |b.lens| && nSelectors == |b.sels| &&
             nInUse == NInUse(b.inUse)
    requires r.Remaining() == UnaryFrom(Positions(b), 0) + (LensBits(b.lens, 0) + (BodyBits(b) + rest))
    modifies r
    ensures r.Valid() && ok && syms == b.mtfv && r.Remaining() == rest
  {
    hide *;
    OkParts(b);
    PositionsIn(b);
    BodyIs(b);
    OkSizes(b);
    var good, selectorMtf := RecvSelectors(r, nSelectors, nGroups, Positions(b), LensBits(b.lens, 0) +
      (BodyBits(b) + rest));
    if !good { return false, []; }
    var selector := UndoSelectors(selectorMtf, nGroups, b.sels);
    var lens;
    good, lens := RecvLens(r, nGroups, nInUse + 2, b.lens, BodyBits(b) + rest);
    if !good { return false, []; }
    var tables := AllTables(lens);
    ok, syms := ReadSymbols(r, selector, tables, nInUse + 1, b.mtfv, b.lens, nInUse + 2, rest);
  }

  lemma OkSizes(b: Sent)
    requires Ok(b)
    ensures SameSize(b.lens, NInUse(b.inUse) + 2)
  {
  }

  /** Every part is read back as it was sent, and nothing more is read. */
  method Recv(r: Reader, ghost b: Sent, ghost rest: seq<bool>)
      returns (ok: bool, inUse: seq<bool>, nInUse: int, seqToUnseq: array<int>, syms: seq<int>)
    requires r.Valid() && Ok(b) && Headed(b.lens) && r.Remaining() == SentBits(b) + rest
    modifies r
    ensures r.Valid() && ok && inUse == b.inUse && |inUse| == 256 && nInUse == NInUse(inUse) && syms == b.mtfv &&
            r.Remaining() == rest
    ensures fresh(seqToUnseq) && seqToUnseq.Length == 256 && forall i :: 0 <= i < 256 ==> 0 <= seqToUnseq[i] < 256
    ensures forall v :: 0 <= v < 256 && inUse[v] ==> MtfEncode.UsedBelow(inUse, v) < nInUse &&
                                                     seqToUnseq[MtfEncode.UsedBelow(inUse, v)] == v
  {
    hide *;
    OkParts(b);
    BodyJoined(b, rest);
    syms := [];
    var nGroups, nSelectors;
    inUse, nGroups, nSelectors := RecvHead(r, b, UnaryFrom(Positions(b), 0) +
      (LensBits(b.lens, 0) + (BodyBits(b) + rest)));
    seqToUnseq, nInUse := MtfEncode.MakeMapsD(inUse);
    NInUseIs(inUse);
    if nInUse == 0 { return false, inUse, nInUse, seqToUnseq, syms; }
    if nGroups < 2 || nGroups > 6 { return false, inUse, nInUse, seqToUnseq, syms; }
    if nSelectors < 1 { return false, inUse, nInUse, seqToUnseq, syms; }
    ok, syms := RecvBody(r, nGroups, nSelectors, nInUse, b, rest);
  }

  lemma NInUseIs(inUse: seq<bool>)
    requires |inUse| == 256
    ensures NInUse(inUse) == MtfEncode.UsedBelow(inUse, 256)
  {
  }
}
