/** The block data proper: every group of 50 symbols coded by its selected
    table, and the decoder's GET_MTF_VAL that reads them back. */
module SymbolStream {
  import opened Bits
  import opened BitStream
  import opened HuffmanCodes

  /** Coding tables for the symbols, and a selector for every group. */
  ghost predicate Sendable(mtfv: seq<int>, sels: seq<int>, lens: seq<seq<int>>, alphaSize: int) {
    && (forall t :: 0 <= t < |lens| ==> |lens[t]| == alphaSize && Lengths(lens[t]))
    && (forall i :: 0 <= i < |mtfv| ==> 0 <= mtfv[i] < alphaSize)
    && (forall g :: 0 <= g < |sels| ==> 0 <= sels[g] < |lens|)
    && |mtfv| <= 50 * |sels|
  }

  /** The code of symbol i. */
  ghost function SymbolBits(mtfv: seq<int>, sels: seq<int>, lens: seq<seq<int>>, alphaSize: int, i: int): seq<bool>
    requires Sendable(mtfv, sels, lens, alphaSize) && 0 <= i < |mtfv|
  {
    var len := lens[sels[i / 50]];
    BitsOf(Code(len, mtfv[i]), len[mtfv[i]])
  }

  /** The codes of the symbols from i on. */
  ghost function DataBits(mtfv: seq<int>, sels: seq<int>, lens: seq<seq<int>>, alphaSize: int, i: int): seq<bool>
    requires Sendable(mtfv, sels, lens, alphaSize) && 0 <= i <= |mtfv|
    decreases |mtfv| - i
  {
    if i == |mtfv| then [] else
      SymbolBits(mtfv, sels, lens, alphaSize, i) +
      DataBits(mtfv, sels, lens, alphaSize, i + 1)
  }

  lemma DataStep(mtfv: seq<int>, sels: seq<int>, lens: seq<seq<int>>, alphaSize: int, i: int, c: seq<bool>)
    requires Sendable(mtfv, sels, lens, alphaSize) && 0 <= i < |mtfv|
    ensures c + DataBits(mtfv, sels, lens, alphaSize, i) == (c + SymbolBits(mtfv, sels, lens, alphaSize, i)) +
            DataBits(mtfv, sels, lens, alphaSize, i + 1)
    ensures DataBits(mtfv, sels, lens, alphaSize, i) + c == SymbolBits(mtfv, sels, lens, alphaSize, i) +
            (DataBits(mtfv, sels, lens, alphaSize, i + 1) + c)
  {
    hide SymbolBits, Sendable;
  }

  lemma DataEnd(mtfv: seq<int>, sels: seq<int>, lens: seq<seq<int>>, alphaSize: int, c: seq<bool>)
    requires Sendable(mtfv, sels, lens, alphaSize)
    ensures c + DataBits(mtfv, sels, lens, alphaSize, |mtfv|) == c && DataBits(mtfv, sels, lens, alphaSize, |mtfv|) +
            c == c
  {
  }

  /** The table of symbol i, and its symbol's place in it. */
  lemma SymbolTable(mtfv: seq<int>, sels: seq<int>, lens: seq<seq<int>>, alphaSize: int, i: int)
    requires Sendable(mtfv, sels, lens, alphaSize) && 0 <= i < |mtfv|
    ensures 0 <= i / 50 < |sels| && 0 <= sels[i / 50] < |lens|
    ensures var len := lens[sels[i / 50]]; Lengths(len) && 0 <= mtfv[i] < |len| == alphaSize && 1 <= len[mtfv[i]] <= 20
    ensures var len := lens[sels[i / 50]]; SymbolBits(mtfv, sels, lens, alphaSize, i) ==
                                           BitsOf(Code(len, mtfv[i]), len[mtfv[i]])
  {
  }

  // ---- minimum and maximum length ----

  method LengthRange(len: seq<int>) returns (minLen: int, maxLen: int)
    requires Lengths(len)
    ensures 1 <= minLen <= maxLen <= MAX_LEN && forall i :: 0 <= i < |len| ==> minLen <= len[i] <= maxLen
  {
    hide KraftSum;
    minLen, maxLen := 32, 0;
    for i := 0 to |len|
      invariant forall k :: 0 <= k < i ==> minLen <= len[k] <= maxLen
      invariant i == 0 ==> minLen == 32 && maxLen == 0
      invariant i > 0 ==> 1 <= minLen <= maxLen <= 20
    {
      if len[i] > maxLen { maxLen := len[i]; }
      if len[i] < minLen { minLen := len[i]; }
    }
  }

  // ---- sending ----

  ghost predicate CodesOf(codes: seq<seq<int>>, lens: seq<seq<int>>) {
    |codes| == |lens| && forall t :: 0 <= t < |codes| ==> CodeRow(codes[t], lens[t])
  }

  ghost predicate CodeRow(code: seq<int>, len: seq<int>) {
    |code| == |len| && forall i :: 0 <= i < |len| ==> len[i] >= 0 && code[i] == Code(len, i)
  }

  method CodeTable(len: seq<int>) returns (code: seq<int>)
    requires Lengths(len)
    ensures CodeRow(code, len)
  {
    assert forall i :: 0 <= i < |len| ==> len[i] >= 0;
    hide Lengths, Code, KraftSum;
    var minLen, maxLen := LengthRange(len);
    var a := AssignCodes(len, minLen, maxLen);
    code := a[..];
  }

  /** Assign codes for all tables. */
  method AllCodes(lens: seq<seq<int>>) returns (codes: seq<seq<int>>)
    requires forall t :: 0 <= t < |lens| ==> Lengths(lens[t])
    ensures CodesOf(codes, lens)
  {
    hide Lengths, CodeRow;
    codes := [];
    for t := 0 to |lens|
      invariant |codes| == t && forall u :: 0 <= u < t ==> CodeRow(codes[u], lens[u])
    {
      var code := CodeTable(lens[t]);
      codes := codes + [code];
    }
  }

  lemma CodeOfSymbol(codes: seq<seq<int>>, lens: seq<seq<int>>, t: int, v: int)
    requires CodesOf(codes, lens) && 0 <= t < |lens| && 0 <= v < |lens[t]| && Lengths(lens[t])
    ensures |codes| == |lens| && |codes[t]| == |lens[t]| && 1 <= lens[t][v] <= 20
    ensures codes[t][v] == Code(lens[t], v) && 0 <= codes[t][v] < Pow2(lens[t][v])
  {
    CodeRange(lens[t], v);
    hide Code, First, KraftSum, Pow2;
    assert CodeRow(codes[t], lens[t]);
  }

  /** One group, symbol by symbol. */
  method SendGroup(w: Writer, codes: seq<seq<int>>, mtfv: seq<int>, sels: seq<int>, lens: seq<seq<int>>, gs: int,
                   ge: int, selCtr: int, ghost alphaSize: int, ghost start: seq<bool>)
    requires w.Valid() && Sendable(mtfv, sels, lens, alphaSize) && CodesOf(codes, lens)
    requires 0 <= gs <= ge < |mtfv| && 0 <= selCtr < |sels| && gs == 50 * selCtr && ge < gs + 50
    requires DataSent(w.Contents(), start, mtfv, sels, lens, alphaSize, gs)
    modifies w
    ensures w.Valid()
    ensures DataSent(w.Contents(), start, mtfv, sels, lens, alphaSize, ge + 1)
  {
    hide *;
    ghost var c := w.Contents();
    for i := gs to ge + 1
      invariant w.Valid() && w.Contents() + DataBits(mtfv, sels, lens, alphaSize, i) ==
                c + DataBits(mtfv, sels, lens, alphaSize, gs)
    {
      assert i / 50 == selCtr;
      SymbolTable(mtfv, sels, lens, alphaSize, i);
      CodeOfSymbol(codes, lens, sels[selCtr], mtfv[i]);
      DataStep(mtfv, sels, lens, alphaSize, i, w.Contents());
      w.W(lens[sels[selCtr]][mtfv[i]], codes[sels[selCtr]][mtfv[i]]);
    }
    DataMoves(c, w.Contents(), start, mtfv, sels, lens, alphaSize, gs, ge + 1);
  }

  /** What was written after c is the data up to symbol i. */
  ghost predicate DataSent(now: seq<bool>, c: seq<bool>, mtfv: seq<int>, sels: seq<int>, lens: seq<seq<int>>,
                           alphaSize: int, i: int)
    requires Sendable(mtfv, sels, lens, alphaSize) && 0 <= i <= |mtfv|
  {
    now + DataBits(mtfv, sels, lens, alphaSize, i) == c + DataBits(mtfv, sels, lens, alphaSize, 0)
  }

  lemma DataMoves(was: seq<bool>, now: seq<bool>, c: seq<bool>, mtfv: seq<int>, sels: seq<int>, lens: seq<seq<int>>,
                  alphaSize: int, i: int, j: int)
    requires Sendable(mtfv, sels, lens, alphaSize) && 0 <= i <= |mtfv| && 0 <= j <= |mtfv|
    requires now + DataBits(mtfv, sels, lens, alphaSize, j) == was + DataBits(mtfv, sels, lens, alphaSize, i)
    requires DataSent(was, c, mtfv, sels, lens, alphaSize, i)
    ensures DataSent(now, c, mtfv, sels, lens, alphaSize, j)
  {
    hide DataBits, Sendable;
  }

  lemma DataSentIs(now: seq<bool>, c: seq<bool>, mtfv: seq<int>, sels: seq<int>, lens: seq<seq<int>>, alphaSize: int)
    requires Sendable(mtfv, sels, lens, alphaSize)
    ensures DataSent(now, now, mtfv, sels, lens, alphaSize, 0)
    ensures DataSent(now, c, mtfv, sels, lens, alphaSize, |mtfv|) ==>
            now == c + DataBits(mtfv, sels, lens, alphaSize, 0)
  {
    DataEnd(mtfv, sels, lens, alphaSize, now);
    hide DataBits, Sendable;
  }

  method SendData(w: Writer, mtfv: seq<int>, sels: seq<int>, lens: seq<seq<int>>, ghost alphaSize: int)
    requires w.Valid() && Sendable(mtfv, sels, lens, alphaSize)
    modifies w
    ensures w.Valid() && w.Contents() == old(w.Contents()) + DataBits(mtfv, sels, lens, alphaSize, 0)
  {
    SendableParts(mtfv, sels, lens, alphaSize);
    hide *;
    ghost var c := w.Contents();
    var codes := AllCodes(lens);
    var selCtr, gs := 0, 0;
    DataSentIs(c, c, mtfv, sels, lens, alphaSize);
    while true
      invariant w.Valid() && 0 <= gs <= |mtfv| && DataSent(w.Contents(), c, mtfv, sels, lens, alphaSize, gs)
      invariant selCtr >= 0 && (gs == 50 * selCtr || gs == |mtfv|)
      decreases |mtfv| - gs
    {
      if gs >= |mtfv| { break; }
      var ge := gs + 50 - 1;
      if ge >= |mtfv| { ge := |mtfv| - 1; }
      SendGroup(w, codes, mtfv, sels, lens, gs, ge, selCtr, alphaSize, c);
      gs := ge + 1;
      selCtr := selCtr + 1;
    }
    DataSentIs(w.Contents(), c, mtfv, sels, lens, alphaSize);
  }

  lemma SendableParts(mtfv: seq<int>, sels: seq<int>, lens: seq<seq<int>>, alphaSize: int)
    requires Sendable(mtfv, sels, lens, alphaSize)
    ensures (forall t :: 0 <= t < |lens| ==> |lens[t]| == alphaSize && Lengths(lens[t])) && |mtfv| <= 50 * |sels|
  {
  }

  // ---- receiving ----

  datatype DecodeTable = DecodeTable(limit: seq<int>, base: seq<int>, perm: seq<int>, minLen: int, maxLen: int)

  ghost predicate Decodes(d: DecodeTable, len: seq<int>) {
    Lengths(len) && 1 <= d.minLen <= d.maxLen && Tables(len, d.limit, d.base, d.perm, d.minLen, d.maxLen)
  }

  method TableFor(len: seq<int>) returns (d: DecodeTable)
    requires Lengths(len)
    ensures Decodes(d, len)
  {
    assert |len| <= 258 && MAX_CODE_LEN == 23;
    hide Lengths, Tables, KraftSum;
    var minLen, maxLen := LengthRange(len);
    var limit, base, perm := new int[258], new int[258], new int[258];
    CreateDecodeTables(len, minLen, maxLen, limit, base, perm);
    d := DecodeTable(limit[..], base[..], perm[..], minLen, maxLen);
  }

  ghost predicate AllDecode(ds: seq<DecodeTable>, lens: seq<seq<int>>) {
    |ds| == |lens| && forall t :: 0 <= t < |ds| ==> Decodes(ds[t], lens[t])
  }

  /** Create the Huffman decoding tables. */
  method AllTables(lens: seq<seq<int>>) returns (ds: seq<DecodeTable>)
    requires forall t :: 0 <= t < |lens| ==> Lengths(lens[t])
    ensures AllDecode(ds, lens)
  {
    hide Lengths, Decodes;
    ds := [];
    for t := 0 to |lens|
      invariant |ds| == t && forall u :: 0 <= u < t ==> Decodes(ds[u], lens[u])
    {
      var d := TableFor(lens[t]);
      ds := ds + [d];
    }
  }

  /** The saved variables of the symbol loop: the group, how much of it is left, and its table. */
  class SymbolReader {
    const r: Reader
    const selector: seq<int>
    const tables: seq<DecodeTable>
    var groupNo: int
    var groupPos: int
    var gSel: int

    constructor (r: Reader, selector: seq<int>, tables: seq<DecodeTable>)
      ensures this.r == r && this.selector == selector && this.tables == tables && groupNo == -1 && groupPos == 0
    {
      this.r, this.selector, this.tables := r, selector, tables;
      groupNo, groupPos, gSel := -1, 0, 0;
    }

    /** i symbols were read, and those from i on are still in the input. */
    ghost predicate At(mtfv: seq<int>, lens: seq<seq<int>>, alphaSize: int, i: int, rest: seq<bool>)
      reads this, r
    {
      && r.Valid() && Sendable(mtfv, selector, lens, alphaSize) && AllDecode(tables, lens) && 0 <= i <= |mtfv|
      && r.Remaining() == DataBits(mtfv, selector, lens, alphaSize, i) + rest
      && 0 <= groupPos < 50 && 50 * (groupNo + 1) - groupPos == i
      && (groupPos > 0 ==> 0 <= groupNo < |selector| && gSel == selector[groupNo])
    }

    /** GET_MTF_VAL */
    method GetMtfVal(ghost mtfv: seq<int>, ghost lens: seq<seq<int>>, ghost alphaSize: int, ghost i: int,
                     ghost rest: seq<bool>)
        returns (res: Symbol)
      requires At(mtfv, lens, alphaSize, i, rest) && i < |mtfv|
      modifies this, r
      ensures res == Decoded(mtfv[i]) && At(mtfv, lens, alphaSize, i + 1, rest)
    {
      hide Lengths, Tables, DataBits, SymbolBits, BitsOf, ByteBits, Code;
      SymbolTable(mtfv, selector, lens, alphaSize, i);
      hide Sendable;
      ghost var len := lens[selector[i / 50]];
      DataStep(mtfv, selector, lens, alphaSize, i, rest);
      if groupPos == 0 {
        groupNo := groupNo + 1;
        if groupNo >= |selector| { return DataError; }
        groupPos := G_SIZE;
        gSel := selector[groupNo];
      }
      groupPos := groupPos - 1;
      assert i / 50 == groupNo;
      var d := tables[gSel];
      assert Decodes(d, len);
      res := Decode(r, d.limit, d.base, d.perm, d.minLen, len, d.maxLen, mtfv[i],
        DataBits(mtfv, selector, lens, alphaSize, i + 1) + rest);
    }
  }

  /** All symbols up to and including EOB, the one at the end. */
  method ReadSymbols(r: Reader, selector: seq<int>, tables: seq<DecodeTable>, EOB: int,
                     ghost mtfv: seq<int>, ghost lens: seq<seq<int>>, ghost alphaSize: int, ghost rest: seq<bool>)
                       returns (ok: bool, syms: seq<int>)
    requires r.Valid() && Sendable(mtfv, selector, lens, alphaSize) && AllDecode(tables, lens)
    requires r.Remaining() == DataBits(mtfv, selector, lens, alphaSize, 0) + rest
    requires |mtfv| > 0 && mtfv[|mtfv| - 1] == EOB && forall i :: 0 <= i < |mtfv| - 1 ==> mtfv[i] != EOB
    modifies r
    ensures r.Valid() && ok && syms == mtfv && r.Remaining() == rest
  {
    hide *;
    var s := new SymbolReader(r, selector, tables);
    AtStart(s, mtfv, lens, alphaSize, rest);
    syms := [];
    while true
      invariant fresh(s) && s.r == r && |syms| < |mtfv| && syms == mtfv[..|syms|] &&
                s.At(mtfv, lens, alphaSize, |syms|, rest)
      decreases |mtfv| - |syms|
    {
      var res := s.GetMtfVal(mtfv, lens, alphaSize, |syms|, rest);
      if !res.Decoded? { return false, syms; }
      syms := syms + [res.sym];
      EndReached(mtfv, |syms| - 1, EOB);
      if res.sym == EOB { break; }
    }
    AtEnd(s, mtfv, lens, alphaSize, rest);
    ok := true;
  }

  lemma AtStart(s: SymbolReader, mtfv: seq<int>, lens: seq<seq<int>>, alphaSize: int, rest: seq<bool>)
    requires s.r.Valid() && Sendable(mtfv, s.selector, lens, alphaSize) && AllDecode(s.tables, lens)
    requires s.r.Remaining() == DataBits(mtfv, s.selector, lens, alphaSize, 0) + rest && s.groupNo == -1 &&
             s.groupPos == 0
    ensures s.At(mtfv, lens, alphaSize, 0, rest)
  {
  }

  lemma EndReached(mtfv: seq<int>, i: int, EOB: int)
    requires 0 <= i < |mtfv| && mtfv[|mtfv| - 1] == EOB && forall i :: 0 <= i < |mtfv| - 1 ==> mtfv[i] != EOB
    ensures mtfv[i] == EOB <==> i == |mtfv| - 1
    ensures mtfv[..i + 1] == mtfv[..i] + [mtfv[i]] && mtfv[..|mtfv|] == mtfv
  {
  }

  lemma AtEnd(s: SymbolReader, mtfv: seq<int>, lens: seq<seq<int>>, alphaSize: int, rest: seq<bool>)
    requires s.At(mtfv, lens, alphaSize, |mtfv|, rest)
    ensures s.r.Valid() && s.r.Remaining() == rest
  {
    DataEnd(mtfv, s.selector, lens, alphaSize, rest);
  }
}
