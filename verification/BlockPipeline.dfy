/** A block through the whole compressor and back: sorted, moved to front, coded,
    read, and turned into the two tables that its bytes are handed out from. */
module BlockPipeline {
  import opened Bits
  import opened BitStream
  import opened Rotations
  import opened Counting
  import opened BwtTheory
  import opened BlockTables
  import FallbackSort
  import InverseBwt
  import MtfDecode
  import MtfEncode
  import RunCode
  import RunDecode
  import RunLength
  import StreamTables
  import WordLanes

  // ---- compressing ----

  /** BZ2_blockSort's search for the row that starts the block. */
  method FindOrigPtr(ptr: array<int>, nblock: int) returns (origPtr: int)
    requires 0 < nblock <= ptr.Length && IsPerm(ptr[..nblock], nblock)
    ensures 0 <= origPtr < nblock && ptr[origPtr] == 0
  {
    ghost var at := PermOnto(ptr[..nblock], nblock, 0);
    hide IsPerm;
    origPtr := -1;
    var i := 0;
    while i < nblock
      invariant 0 <= i <= nblock && origPtr == -1 && i <= at
    {
      if ptr[i] == 0 {
        origPtr := i;
        break;
      }
      i := i + 1;
    }
  }

  /** The 16-bit symbols laid over the first words of arr1. */
  method ReadHalves(ptr: array<int>, n: int) returns (s: seq<int>)
    requires 0 <= n <= 2 * ptr.Length
    ensures s == WordLanes.Halves(ptr[..])[..n]
  {
    s := [];
    for p := 0 to n
      invariant s == WordLanes.Halves(ptr[..])[..p]
    {
      s := s + [if p % 2 == 0 then ptr[p / 2] % 0x1_0000 else ptr[p / 2] / 0x1_0000];
    }
  }

  /** What is written for a block after its checksum. */
  ghost function BlockBits(origPtr: int, sent: Sent): seq<bool>
    requires origPtr >= 0 && Ok(sent) && Headed(sent.lens)
  {
    [false] + BitsOf(origPtr, 24) + SentBits(sent)
  }

  /** The tables were made for the symbols as often as each occurs. */
  ghost predicate Tabled(sent: Sent) {
    |sent.inUse| == 256 && exists freq: seq<int>, cuts: seq<int>, stages: seq<seq<seq<int>>>, choices: seq<seq<int>> ::
      MadeFor(sent, freq, cuts, stages, choices)
  }

  ghost predicate MadeFor(sent: Sent, freq: seq<int>, cuts: seq<int>, stages: seq<seq<seq<int>>>,
                          choices: seq<seq<int>>)
    requires |sent.inUse| == 256
  {
    MtfEncode.Freqs(freq, sent.mtfv, NInUse(sent.inUse)) &&
    Made(sent.sels, sent.lens, sent.mtfv, freq, NInUse(sent.inUse) + 2, cuts, stages, choices)
  }

  lemma TabledBy(sent: Sent, freq: seq<int>, cuts: seq<int>, stages: seq<seq<seq<int>>>, choices: seq<seq<int>>)
    requires |sent.inUse| == 256 && MtfEncode.Freqs(freq, sent.mtfv, NInUse(sent.inUse))
    requires Made(sent.sels, sent.lens, sent.mtfv, freq, NInUse(sent.inUse) + 2, cuts, stages, choices)
    ensures Tabled(sent)
  {
    hide MtfEncode.Freqs, NInUse, Made;
    assert MadeFor(sent, freq, cuts, stages, choices);
  }

  /** Sorted rotations of b with the block itself at origPtr, and the symbols of their last column. */
  ghost predicate Codes(b: seq<int>, fm: seq<int>, origPtr: int, sent: Sent) {
    && SortedRotations(b, fm) && 0 <= origPtr < |b| && fm[origPtr] == 0 && Ok(sent) && Headed(sent.lens)
    && Tabled(sent) && MtfEncode.AllUsed(sent.inUse, LastColumn(b, fm))
    && sent.mtfv == RunCode.Symbols(NInUse(sent.inUse), MtfEncode.Sequenced(sent.inUse, LastColumn(b, fm)))
  }

  lemma {:induction false} ColumnUsed(b: seq<int>, fm: seq<int>, inUse: seq<bool>)
    requires MtfEncode.AllUsed(inUse, b) && SortedRotations(b, fm)
    ensures MtfEncode.AllUsed(inUse, LastColumn(b, fm))
  {
    var l := LastColumn(b, fm);
    forall i | 0 <= i < |l| ensures 0 <= l[i] < 256 && inUse[l[i]] { assert l[i] == b[Prev(|b|, fm[i])]; }
  }

  lemma {:induction false} SymbolStreamOk(n: nat, cs: seq<int>)
    requires 1 <= n <= 256 && RunCode.Over(n, cs)
    ensures MtfDecode.Stream(RunCode.Symbols(n, cs), n) && |RunCode.Symbols(n, cs)| <= |cs| + 1
  {
    RunCode.RoundTrip(n, cs);
    hide RunCode.Symbols;
  }

  lemma PermRange(p: seq<int>, n: nat, q: seq<int>)
    requires IsPerm(p, n) && n <= |q| && q[..n] == p
    ensures forall k :: 0 <= k < n ==> 0 <= q[k] < n
  {
    forall k | 0 <= k < n ensures q[k] == p[k] { }
  }

  lemma SortedIs(b: seq<int>, fm: seq<int>)
    requires |b| > 0 && IsPerm(fm, |b|) && RotationOk(b, fm) && SortedTo(b, fm, |b|)
    ensures SortedRotations(b, fm)
  {
  }

  /** BZ2_compressBlock from the block sort on, with fallbackSort as the sort. */
  method SortAndCode(arr1: array<int>, arr2: array<int>, ftab: array<int>, mtfFreq: array<int>, nblock: int,
                     inUse: seq<bool>, ghost b: seq<int>)
    returns (origPtr: int, mtfv: seq<int>, nInUse: int, ghost fm: seq<int>)
    requires arr1 != arr2 && arr1 != ftab && arr2 != ftab && mtfFreq != arr1 && mtfFreq != arr2 && mtfFreq.Length == 258
    requires 0 < nblock <= 900_000 && nblock <= arr1.Length && nblock <= arr2.Length && nblock / 32 + 3 <= ftab.Length
    requires WordLanes.Words(arr2[..]) && WordLanes.Words(ftab[..])
    requires b == WordLanes.Bytes(arr2[..])[..nblock] && MtfEncode.AllUsed(inUse, b)
    modifies arr1, arr2, ftab, mtfFreq
    ensures |inUse| == 256 && nInUse == MtfEncode.UsedBelow(inUse, 256)
    ensures SortedRotations(b, fm) && 0 <= origPtr < |b| && fm[origPtr] == 0 &&
            MtfEncode.AllUsed(inUse, LastColumn(b, fm))
    ensures mtfv == RunCode.Symbols(nInUse, MtfEncode.Sequenced(inUse, LastColumn(b, fm)))
    ensures nInUse >= 0 && MtfEncode.Freqs(mtfFreq[..], mtfv, nInUse)
  {
    assert |b| == nblock;
    hide *;
    FallbackSort.Sort(arr1, arr2, ftab, nblock, b);
    fm := arr1[..nblock];
    SortedIs(b, fm);
    origPtr := FindOrigPtr(arr1, nblock);
    PermRange(fm, nblock, arr1[..]);
    ColumnUsed(b, fm, inUse);
    MtfEncode.ColumnIsLast(b, arr1[..], fm);
    var nMTF;
    nMTF, nInUse := MtfEncode.GenerateMtfValues(arr1, arr2, nblock, inUse, mtfFreq, b);
    SymbolsWritten(arr1[..], nblock, RunCode.Symbols(nInUse, MtfEncode.Sequenced(inUse, LastColumn(b, fm))));
    mtfv := ReadHalves(arr1, nMTF);
  }

  lemma SymbolsWritten(ws: seq<int>, nblock: int, syms: seq<int>)
    requires MtfEncode.Wrote(ws, nblock, syms)
    ensures 0 <= |syms| <= 2 * |ws| && WordLanes.Halves(ws)[..|syms|] == syms
  {
  }

  lemma CodedIs(b: seq<int>, fm: seq<int>, origPtr: int, sent: Sent, nInUse: int)
    requires SortedRotations(b, fm) && 0 <= origPtr < |b| && fm[origPtr] == 0 && Ok(sent) && Headed(sent.lens)
    requires Tabled(sent) && MtfEncode.AllUsed(sent.inUse, LastColumn(b, fm)) &&
             nInUse == MtfEncode.UsedBelow(sent.inUse, 256)
    requires sent.mtfv == RunCode.Symbols(nInUse, MtfEncode.Sequenced(sent.inUse, LastColumn(b, fm)))
    ensures Codes(b, fm, origPtr, sent)
  {
    hide Ok, Headed, SortedRotations, RunCode.Symbols, Tabled;
  }

  lemma SymbolsReady(b: seq<int>, fm: seq<int>, inUse: seq<bool>, nInUse: int, mtfv: seq<int>)
    requires SortedRotations(b, fm) && |b| <= 900_000 && MtfEncode.AllUsed(inUse, LastColumn(b, fm)) &&
             nInUse == MtfEncode.UsedBelow(inUse, 256)
    requires mtfv == RunCode.Symbols(nInUse, MtfEncode.Sequenced(inUse, LastColumn(b, fm)))
    ensures 1 <= nInUse <= 256 && nInUse == NInUse(inUse) && MtfDecode.Stream(mtfv, nInUse) && |mtfv| <= 900_001
  {
    MtfEncode.UsedSome(inUse, LastColumn(b, fm));
    SymbolStreamOk(nInUse, MtfEncode.Sequenced(inUse, LastColumn(b, fm)));
    hide RunCode.Symbols, MtfEncode.UsedBelow, MtfDecode.Stream;
  }

  lemma OrigFits(o: int)
    requires 0 <= o < 900_000
    ensures o < Pow2(24) && Pow2(1) == 2 && BitsOf(0, 1) == [false]
  {
    StreamTables.OneBit(false);
    Pow2Values();
  }

  /** The randomised bit, origPtr, and the block's tables and symbols. */
  method SendBlock(w: Writer, origPtr: int, inUse: seq<bool>, sels: seq<int>, lens: seq<seq<int>>, mtfv: seq<int>)
    requires w.Valid() && 0 <= origPtr < 900_000 && Ok(Sent(inUse, sels, lens, mtfv))
    modifies w
    ensures w.Valid() && Headed(lens) && w.Contents() == old(w.Contents()) +
            BlockBits(origPtr, Sent(inUse, sels, lens, mtfv))
  {
    hide *;
    ghost var c, sent := w.Contents(), Sent(inUse, sels, lens, mtfv);
    OrigFits(origPtr);
    OkParts(sent);
    w.W(1, 0);
    w.W(24, origPtr);
    Send(w, inUse, sels, lens, mtfv);
    BlockJoined(origPtr, sent, c);
  }

  lemma BlockJoined(origPtr: int, sent: Sent, c: seq<bool>)
    requires origPtr >= 0 && Ok(sent) && Headed(sent.lens)
    ensures c + BlockBits(origPtr, sent) == c + [false] + BitsOf(origPtr, 24) + SentBits(sent)
    ensures BlockBits(origPtr, sent) + c == [false] + (BitsOf(origPtr, 24) + (SentBits(sent) + c))
  {
    hide BitsOf, SentBits, Ok, Headed;
  }

  /** The selectors and tables for the symbols. */
  method MakeSent(mtfv: seq<int>, mtfFreq: array<int>, nInUse: int, inUse: seq<bool>)
      returns (sels: seq<int>, lens: seq<seq<int>>)
    requires |inUse| == 256 && nInUse == NInUse(inUse) && 1 <= nInUse <= 256 && mtfFreq.Length == 258
    requires MtfDecode.Stream(mtfv, nInUse) && |mtfv| <= 900_001 && MtfEncode.Freqs(mtfFreq[..], mtfv, nInUse)
    ensures Ok(Sent(inUse, sels, lens, mtfv)) && Tabled(Sent(inUse, sels, lens, mtfv))
  {
    hide *;
    ghost var cuts, stages, choices;
    sels, lens, cuts, stages, choices := MakeTables(mtfv, mtfFreq[..], nInUse, inUse);
    TabledBy(Sent(inUse, sels, lens, mtfv), mtfFreq[..], cuts, stages, choices);
  }

  /** The block as the compressor writes it. */
  method CompressBlock(w: Writer, arr1: array<int>, arr2: array<int>, ftab: array<int>, nblock: int, inUse: seq<bool>,
                       ghost b: seq<int>)
    returns (ghost origPtr: int, ghost fm: seq<int>, ghost sent: Sent)
    requires w.Valid() && arr1 != arr2 && arr1 != ftab && arr2 != ftab
    requires 0 < nblock <= 900_000 && nblock <= arr1.Length && nblock <= arr2.Length && nblock / 32 + 3 <= ftab.Length
    requires WordLanes.Words(arr2[..]) && WordLanes.Words(ftab[..])
    requires b == WordLanes.Bytes(arr2[..])[..nblock] && MtfEncode.AllUsed(inUse, b)
    modifies w, arr1, arr2, ftab
    ensures w.Valid() && Codes(b, fm, origPtr, sent) && sent.inUse == inUse &&
            w.Contents() == old(w.Contents()) + BlockBits(origPtr, sent)
  {
    assert |b| == nblock;
    hide *;
    var mtfFreq := new int[258];
    var o, mtfv, nInUse;
    o, mtfv, nInUse, fm := SortAndCode(arr1, arr2, ftab, mtfFreq, nblock, inUse, b);
    SymbolsReady(b, fm, inUse, nInUse, mtfv);
    var sels, lens := MakeSent(mtfv, mtfFreq, nInUse, inUse);
    sent := Sent(inUse, sels, lens, mtfv);
    SendBlock(w, o, inUse, sels, lens, mtfv);
    CodedIs(b, fm, o, sent, nInUse);
    origPtr := o;
  }

  // ---- decompressing ----

  /** A 24-bit number as three bytes. */
  lemma {:induction false} ThreeBytes(o: nat)
    requires o < 0x100_0000
    ensures BitsOf(o, 24) == BitsOf(o / 0x1_0000, 8) + (BitsOf(o / 0x100 % 0x100, 8) + BitsOf(o % 0x100, 8))
    ensures o / 0x1_0000 < Pow2(8) == 0x100
  {
    hide BitsOf, Pow2, Halve;
    assert Pow2(8) == 0x100 by { Pow2Values(); }
    var h := o / 0x100;
    BitsSplit(o, 16, 8);
    HalveIsDiv(o, 8);
    BitsSplit(h, 8, 8);
    HalveIsDiv(h, 8);
    BitsTruncated(h, 8, 8);
    BitsTruncated(o, 8, 8);
    assert h / 0x100 == o / 0x1_0000;
    assert BitsOf(o, 24) == BitsOf(h, 16) + BitsOf(o, 8);
  }

  lemma ShiftIn(o: nat, c: nat)
    requires c < 0x100 && o < 0x100_0000
    ensures Or(Shl32(o, 8), c) == 0x100 * o + c
  {
    hide Or, Pow2;
    assert Pow2(8) == 0x100 by { Pow2Values(); }
    OrDisjoint(o, 8, c);
  }

  method RecvOrigPtr(r: Reader, ghost o: nat, ghost rest: seq<bool>) returns (origPtr: int)
    requires r.Valid() && o < 0x100_0000 && r.Remaining() == BitsOf(o, 24) + rest
    modifies r
    ensures r.Valid() && origPtr == o && r.Remaining() == rest
  {
    hide *;
    ThreeBytes(o);
    ghost var b0, b1, b2 := o / 0x1_0000, o / 0x100 % 0x100, o % 0x100;
    ghost var rest1 := BitsOf(b2, 8) + rest;
    assert BitsOf(b0, 8) + (BitsOf(b1, 8) + BitsOf(b2, 8)) + rest == BitsOf(b0, 8) + (BitsOf(b1, 8) + rest1);
    origPtr := 0;
    var uc := r.GetField(8, b0, BitsOf(b1, 8) + rest1);
    ShiftIn(origPtr, uc);
    origPtr := Or(Shl32(origPtr, 8), uc);
    uc := r.GetField(8, b1, rest1);
    ShiftIn(origPtr, uc);
    origPtr := Or(Shl32(origPtr, 8), uc);
    uc := r.GetField(8, b2, rest);
    ShiftIn(origPtr, uc);
    origPtr := Or(Shl32(origPtr, 8), uc);
  }

  /** The decoder's cells hold the last column, and its counts are the column's. */
  ghost predicate Restored(l: seq<int>, cells: seq<int>, counts: seq<int>) {
    && |l| <= |cells| && cells[..|l|] == l && InRange(l, 256)
    && |counts| == 256 && forall c :: 0 <= c < 256 ==> counts[c] == Count(l, c)
  }

  lemma {:induction false} MappedBack(inUse: seq<bool>, l: seq<int>, map256: seq<int>)
    requires MtfEncode.AllUsed(inUse, l) && |map256| == 256
    requires forall v :: 0 <= v < 256 && inUse[v] ==> MtfEncode.UsedBelow(inUse, v) < 256 &&
                                                      map256[MtfEncode.UsedBelow(inUse, v)] == v
    ensures MtfDecode.Mapped(map256, MtfEncode.Sequenced(inUse, l)) == l
  {
    var m := MtfDecode.Mapped(map256, MtfEncode.Sequenced(inUse, l));
    hide MtfEncode.UsedBelow;
    forall i | 0 <= i < |l| ensures m[i] == l[i] {
      assert MtfEncode.Sequenced(inUse, l)[i] == MtfEncode.UsedBelow(inUse, l[i]);
    }
  }

  /** Decoding the symbols of a column restores it. */
  lemma {:induction false} ColumnBack(inUse: seq<bool>, l: seq<int>, map256: seq<int>, syms: seq<int>, cells: seq<int>,
                                      counts: seq<int>, limit: int)
    requires MtfEncode.AllUsed(inUse, l) && |map256| == 256
    requires forall v :: 0 <= v < 256 && inUse[v] ==> MtfEncode.UsedBelow(inUse, v) < 256 &&
                                                      map256[MtfEncode.UsedBelow(inUse, v)] == v
    requires MtfEncode.UsedBelow(inUse, 256) <= 256 &&
             syms == RunCode.Symbols(MtfEncode.UsedBelow(inUse, 256), MtfEncode.Sequenced(inUse, l))
    ensures |syms| > 0 && RunCode.Symbolic(syms[..|syms| - 1]) && |RunCode.Flushed(RunCode.Dec(syms[..|syms| - 1]))| ==
            |l|
    ensures MtfDecode.Stored(map256, RunCode.Flushed(RunCode.Dec(syms[..|syms| - 1])), cells, counts, limit) ==>
            Restored(l, cells, counts)
  {
    RunCode.RoundTrip(MtfEncode.UsedBelow(inUse, 256), MtfEncode.Sequenced(inUse, l));
    MappedBack(inUse, l, map256);
    hide RunCode.Symbols, RunCode.Dec, RunCode.Flushed, MtfEncode.UsedBelow, MtfEncode.Sequenced;
  }

  lemma CodesParts(b: seq<int>, fm: seq<int>, o: int, sent: Sent)
    requires Codes(b, fm, o, sent)
    ensures SortedRotations(b, fm) && 0 <= o < |b| && fm[o] == 0 && Ok(sent) && Headed(sent.lens) && |sent.inUse| == 256
    ensures MtfEncode.AllUsed(sent.inUse, LastColumn(b, fm)) && 1 <= NInUse(sent.inUse) <= 256 && NInUse(sent.inUse) ==
            MtfEncode.UsedBelow(sent.inUse, 256)
    ensures MtfDecode.Stream(sent.mtfv, NInUse(sent.inUse)) && |sent.mtfv| > 0
    ensures sent.mtfv == RunCode.Symbols(MtfEncode.UsedBelow(sent.inUse, 256),
            MtfEncode.Sequenced(sent.inUse, LastColumn(b, fm)))
  {
    hide SortedRotations, Headed, RunCode.Symbols, MtfEncode.UsedBelow;
  }

  /** The symbols sent are at most one more than the block's bytes. */
  lemma ColumnSymbols(b: seq<int>, fm: seq<int>, o: int, sent: Sent)
    requires Codes(b, fm, o, sent)
    ensures |sent.mtfv| <= |b| + 1
  {
    CodesParts(b, fm, o, sent);
    assert |LastColumn(b, fm)| == |b|;
    RunCode.SymbolCount(MtfEncode.UsedBelow(sent.inUse, 256), MtfEncode.Sequenced(sent.inUse, LastColumn(b, fm)));
    hide RunCode.Symbols, MtfEncode.UsedBelow, Codes;
  }

  lemma MapIs(map256: seq<int>)
    requires |map256| == 256 && forall i :: 0 <= i < 256 ==> 0 <= map256[i] < 256
    ensures MtfDecode.ByteMap(map256)
  {
  }

  /** Undo the symbols of the column. */
  method UndoSymbols(syms: seq<int>, seqToUnseq: array<int>, nInUse: int, nblockMAX: int, cells: array<int>,
                     unzftab: array<int>, ghost inUse: seq<bool>, ghost l: seq<int>)
    returns (ok: bool, nblock: int)
    requires cells != unzftab && seqToUnseq != cells && seqToUnseq != unzftab && unzftab.Length == 256 &&
             seqToUnseq.Length == 256
    requires |l| <= nblockMAX <= cells.Length && MtfEncode.AllUsed(inUse, l) &&
             nInUse == MtfEncode.UsedBelow(inUse, 256) && 1 <= nInUse <= 256
    requires (forall i :: 0 <= i < 256 ==> 0 <= seqToUnseq[i] < 256)
    requires forall v :: 0 <= v < 256 && inUse[v] ==> MtfEncode.UsedBelow(inUse, v) < 256 &&
                                                      seqToUnseq[MtfEncode.UsedBelow(inUse, v)] == v
    requires MtfDecode.Stream(syms, nInUse) && syms == RunCode.Symbols(nInUse, MtfEncode.Sequenced(inUse, l))
    modifies cells, unzftab
    ensures ok && nblock == |l| && Restored(l, cells[..], unzftab[..])
  {
    hide *;
    ghost var map256 := seqToUnseq[..];
    var mtfa, mtfbase := new int[4096], new int[16];
    MapIs(map256);
    ok, nblock := MtfDecode.DecodeSymbols(syms, seqToUnseq, nInUse, nblockMAX, cells, unzftab, mtfa, mtfbase);
    assert seqToUnseq[..] == map256;
    ColumnBack(inUse, l, map256, syms, cells[..], unzftab[..], nblockMAX);
  }

  /** What the decoder has once the symbols are read and undone. */
  method RecvColumn(r: Reader, nblockMAX: int, cells: array<int>, unzftab: array<int>,
                    ghost b: seq<int>, ghost fm: seq<int>, ghost o: int, ghost sent: Sent, ghost rest: seq<bool>)
    returns (ok: bool, nblock: int, origPtr: int)
    requires r.Valid() && Codes(b, fm, o, sent) && |b| <= nblockMAX <= cells.Length && |b| <= 900_000 &&
             r.Remaining() == BlockBits(o, sent) + rest
    requires cells != unzftab && unzftab.Length == 256
    modifies r, cells, unzftab
    ensures r.Valid() && r.Remaining() == rest && ok && nblock == |b| && origPtr == o
    ensures Restored(LastColumn(b, fm), cells[..], unzftab[..])
  {
    hide *;
    CodesParts(b, fm, o, sent);
    BlockJoined(o, sent, rest);
    var randomised := StreamTables.TakeBit(r, false, BitsOf(o, 24) + (SentBits(sent) + rest));
    origPtr := RecvOrigPtr(r, o, SentBits(sent) + rest);
    nblock := 0;
    if origPtr < 0 || origPtr > 10 + nblockMAX { return false, nblock, origPtr; }
    var inUse, nInUse, seqToUnseq, syms;
    ok, inUse, nInUse, seqToUnseq, syms := Recv(r, sent, rest);
    if !ok { return; }
    ok, nblock := UndoSymbols(syms, seqToUnseq, nInUse, nblockMAX, cells, unzftab, sent.inUse, LastColumn(b, fm));
    if !ok { return; }
    if origPtr < 0 || origPtr >= nblock { ok := false; }
  }

  // ---- the tables to hand the block out from ----

  lemma RestoredChars(l: seq<int>, tt: seq<int>, counts: seq<int>)
    requires Restored(l, tt, counts)
    ensures InverseBwt.Chars(tt, l) && forall j :: 0 <= j < |l| ==> 0 <= tt[j] < 256
  {
    forall j | 0 <= j < |l| ensures tt[j] == l[j] { assert tt[..|l|][j] == tt[j]; }
  }

  lemma RestoredCounts(l: seq<int>, tt: seq<int>, counts: seq<int>)
    requires Restored(l, tt, counts)
    ensures InRange(l, 256) && |counts| == 256 && forall c :: 0 <= c < 256 ==> counts[c] == Count(l, c)
  {
  }

  /** cftab, the T^(-1) vector in tt, and the first character. */
  method OpenFast(tt: array<int>, unzftab: array<int>, nblock: int, origPtr: int, step: (int, int) -> int,
                  ghost b: seq<int>, ghost fm: seq<int>)
      returns (s: RunDecode.DState)
    requires tt != unzftab && SortedRotations(b, fm) && nblock == |b| <= 900_000 && 0 <= origPtr < |b| &&
             fm[origPtr] == 0 && RunLength.Whole(b)
    requires Restored(LastColumn(b, fm), tt[..], unzftab[..])
    modifies tt
    ensures fresh(s) && s.Valid() && s.b == b && s.step == step && s.given == [] && !s.small
  {
    assert |LastColumn(b, fm)| == |b|;
    hide *;
    ghost var l := LastColumn(b, fm);
    RestoredCounts(l, tt[..], unzftab[..]);
    RestoredChars(l, tt[..], unzftab[..]);
    CountsSize(l, tt[..], unzftab[..]);
    var cftab := InverseBwt.Cumulate(unzftab, l);
    InverseBwt.LinkingStart(l, tt[..], cftab[..]);
    InverseBwt.BuildFast(tt, cftab, nblock, l);
    s := new RunDecode.DState.Fast(tt, nblock, origPtr, step, b, fm);
  }

  lemma CountsSize(l: seq<int>, tt: seq<int>, counts: seq<int>)
    requires Restored(l, tt, counts)
    ensures |counts| == 256 && |l| <= |tt|
  {
  }

  /** Storage for ll4; what the bytes are does not matter. */
  method Nibbles(n: int) returns (ll4: array<int>)
    requires n >= 0
    ensures fresh(ll4) && ll4.Length == n && Bytes(ll4[..])
  {
    ll4 := new int[n](_ => 0);
  }

  /** cftab, the packed T and its reversal, and the first character. */
  method OpenSmall(ll16: array<int>, unzftab: array<int>, nblock: int, origPtr: int, step: (int, int) -> int,
                   ghost b: seq<int>, ghost fm: seq<int>)
      returns (s: RunDecode.DState)
    requires ll16 != unzftab && SortedRotations(b, fm) && nblock == |b| <= 900_000 && 0 <= origPtr < |b| &&
             fm[origPtr] == 0 && RunLength.Whole(b)
    requires Restored(LastColumn(b, fm), ll16[..], unzftab[..])
    modifies ll16
    ensures fresh(s) && s.Valid() && s.b == b && s.step == step && s.given == [] && s.small
  {
    hide *;
    ghost var l := LastColumn(b, fm);
    RestoredCounts(l, ll16[..], unzftab[..]);
    CountsSize(l, ll16[..], unzftab[..]);
    assert (|b| + 1) / 2 <= (ll16.Length + 1) / 2 && |l| == |b|;
    var ll4 := Nibbles((ll16.Length + 1) / 2);
    var cftab := InverseBwt.Cumulate(unzftab, l);
    RestoredSmall(b, fm, ll16[..], ll4[..], unzftab[..], cftab[..]);
    ghost var orb := InverseBwt.BuildSmall(ll16, ll4, cftab, nblock, origPtr, b, fm);
    s := new RunDecode.DState.Small(ll16, ll4, cftab, nblock, origPtr, step, b, fm, orb);
  }

  /** Decoding a block for fast output. */
  method DecompressFast(r: Reader, nblockMAX: int, step: (int, int) -> int, ghost b: seq<int>, ghost fm: seq<int>,
                        ghost o: int, ghost sent: Sent, ghost rest: seq<bool>)
    returns (ok: bool, s: RunDecode.DState)
    requires r.Valid() && Codes(b, fm, o, sent) && |b| <= nblockMAX && |b| <= 900_000 &&
             r.Remaining() == BlockBits(o, sent) + rest && RunLength.Whole(b)
    modifies r
    ensures r.Valid() && r.Remaining() == rest && ok && fresh(s) && s.Valid() && s.b == b && s.step == step &&
            s.given == [] && !s.small
  {
    CodesParts(b, fm, o, sent);
    assert |LastColumn(b, fm)| == |b|;
    hide *;
    var tt, unzftab := new int[nblockMAX], new int[256];
    var nblock, origPtr;
    ok, nblock, origPtr := RecvColumn(r, nblockMAX, tt, unzftab, b, fm, o, sent, rest);
    s := OpenFast(tt, unzftab, nblock, origPtr, step, b, fm);
  }

  lemma RestoredSmall(b: seq<int>, fm: seq<int>, ll16: seq<int>, ll4: seq<int>, counts: seq<int>, cf: seq<int>)
    requires SortedRotations(b, fm) && |b| <= 900_000 && Restored(LastColumn(b, fm), ll16, counts)
    requires (|b| + 1) / 2 <= |ll4| && Bytes(ll4)
    requires |cf| == 257 && forall c :: 0 <= c <= 256 ==> cf[c] == Below(LastColumn(b, fm), c)
    ensures InverseBwt.SmallInput(b, fm, ll16, ll4, cf)
  {
    RestoredChars(LastColumn(b, fm), ll16, counts);
    hide SortedRotations, Below, Count;
  }

  /** Decoding a block for small-memory output. */
  method DecompressSmall(r: Reader, nblockMAX: int, step: (int, int) -> int, ghost b: seq<int>, ghost fm: seq<int>,
                         ghost o: int, ghost sent: Sent, ghost rest: seq<bool>)
    returns (ok: bool, s: RunDecode.DState)
    requires r.Valid() && Codes(b, fm, o, sent) && |b| <= nblockMAX && |b| <= 900_000 &&
             r.Remaining() == BlockBits(o, sent) + rest && RunLength.Whole(b)
    modifies r
    ensures r.Valid() && r.Remaining() == rest && ok && fresh(s) && s.Valid() && s.b == b && s.step == step &&
            s.given == [] && s.small
  {
    CodesParts(b, fm, o, sent);
    assert |LastColumn(b, fm)| == |b|;
    hide *;
    var ll16, unzftab := new int[nblockMAX], new int[256];
    var nblock, origPtr;
    ok, nblock, origPtr := RecvColumn(r, nblockMAX, ll16, unzftab, b, fm, o, sent, rest);
    s := OpenSmall(ll16, unzftab, nblock, origPtr, step, b, fm);
  }

  method ToBytes(arr1: array<int>, arr2: array<int>, ftab: array<int>, nblock: int, inUse: seq<bool>, ghost b: seq<int>)
    returns (bytes: seq<int>, ghost o: int, ghost fm: seq<int>, ghost sent: Sent, ghost rest: seq<bool>)
    requires arr1 != arr2 && arr1 != ftab && arr2 != ftab
    requires 0 < nblock <= 900_000 && nblock <= arr1.Length && nblock <= arr2.Length && nblock / 32 + 3 <= ftab.Length
    requires WordLanes.Words(arr2[..]) && WordLanes.Words(ftab[..])
    requires b == WordLanes.Bytes(arr2[..])[..nblock] && MtfEncode.AllUsed(inUse, b)
    modifies arr1, arr2, ftab
    ensures |b| == nblock && Codes(b, fm, o, sent) && o >= 0 && Ok(sent) && Headed(sent.lens)
    ensures Bytes(bytes) && ByteBits(bytes) == BlockBits(o, sent) + rest
  {
    assert |b| == nblock;
    hide *;
    var w := new Writer();
    o, fm, sent := CompressBlock(w, arr1, arr2, ftab, nblock, inUse, b);
    CodesParts(b, fm, o, sent);
    assert [] + BlockBits(o, sent) == BlockBits(o, sent);
    ghost var pad := w.Finish();
    rest := Zeros(pad);
    bytes := w.zbits;
  }

  /** Decoding with the limit the stream's block size sets. */
  method FromBytes(bytes: seq<int>, blockSize100k: int, small: bool, step: (int, int) -> int, ghost b: seq<int>,
                   ghost fm: seq<int>, ghost o: int, ghost sent: Sent, ghost rest: seq<bool>)
      returns (s: RunDecode.DState)
    requires 1 <= blockSize100k <= 9 && |b| <= 100_000 * blockSize100k
    requires Codes(b, fm, o, sent) && Bytes(bytes) && RunLength.Whole(b) && ByteBits(bytes) == BlockBits(o, sent) + rest
    ensures fresh(s) && s.Valid() && s.b == b && s.step == step && s.given == [] && s.small == small
  {
    CodesParts(b, fm, o, sent);
    hide *;
    ConcatOne(bytes);
    var r := new Reader([bytes]);
    var ok;
    if small {
      ok, s := DecompressSmall(r, 100_000 * blockSize100k, step, b, fm, o, sent, rest);
    } else {
      ok, s := DecompressFast(r, 100_000 * blockSize100k, step, b, fm, o, sent, rest);
    }
  }

  /** The round trip of one block: whatever the block that fits the block size, the decoder's
      memory mode and the sizes of the output buffers, the bytes the block stands for come out in order,
        with their checksum. */
  method RoundTrip(arr1: array<int>, arr2: array<int>, ftab: array<int>, nblock: int, inUse: seq<bool>,
                   blockSize100k: int, small: bool, step: (int, int) -> int, rooms: seq<nat>, ghost b: seq<int>)
    returns (out: seq<int>, finished: bool, crc: int)
    requires arr1 != arr2 && arr1 != ftab && arr2 != ftab
    requires 1 <= blockSize100k <= 9 && 0 < nblock <= 100_000 * blockSize100k
    requires nblock <= arr1.Length && nblock <= arr2.Length && nblock / 32 + 3 <= ftab.Length
    requires WordLanes.Words(arr2[..]) && WordLanes.Words(ftab[..])
    requires b == WordLanes.Bytes(arr2[..])[..nblock] && MtfEncode.AllUsed(inUse, b) && RunLength.Whole(b)
    modifies arr1, arr2, ftab
    ensures out == RunDecode.UpTo(RunLength.Decode(b), RunDecode.Total(rooms))
    ensures finished <==> |RunLength.Decode(b)| <= RunDecode.Total(rooms)
    ensures finished ==> out == RunLength.Decode(b) &&
                         crc == RunLength.Checksum(step, RunLength.CRC_START, RunLength.Decode(b))
  {
    hide *;
    ghost var o, fm, sent, rest;
    var bytes;
    bytes, o, fm, sent, rest := ToBytes(arr1, arr2, ftab, nblock, inUse, b);
    var s := FromBytes(bytes, blockSize100k, small, step, b, fm, o, sent, rest);
    out, finished := RunDecode.OutputAll(s, rooms);
    crc := s.calculatedBlockCRC;
  }
}
