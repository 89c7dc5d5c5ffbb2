/** The decoder's main loop over MTF symbols: runs of the front entry, moves to
    the front, and the byte counts kept for the inverse block sort. */
module MtfDecode {
  import opened Bits
  import opened RunCode
  import opened MoveToFront
  import opened Counting
  import RunLength
  import TwoLevelMtf

  // ---- what the symbols stand for ----

  lemma {:induction false} DecList(syms: seq<int>)
    requires Symbolic(syms)
    ensures Listing(256, Dec(syms).list)
    decreases |syms|
  {
    if syms == [] {
      UpToLists(256);
    } else {
      var s, sym := syms[..|syms| - 1], syms[|syms| - 1];
      assert Dec(syms) == DecStep(Dec(s), sym);
      hide Dec;
      DecList(s);
      StepLists(Dec(s), sym);
    }
  }

  lemma StepLists(st: DecState, sym: int)
    requires Listing(256, st.list) && 0 <= sym <= 256
    ensures Listing(256, DecStep(st, sym).list)
  {
    if sym >= 2 { FrontKeepsDistinct(st.list, sym - 1); }
    hide Front, Distinct, Flushed;
  }

  lemma {:induction false} StepLonger(st: DecState, sym: int)
    requires |st.list| == 256 && 0 <= sym <= 256
    ensures |Flushed(st)| < |Flushed(DecStep(st, sym))|
  {
    if sym == RUNA || sym == RUNB { ValueSnoc(st.run, sym); }
  }

  lemma {:induction false} OutputGrows(syms: seq<int>, i: nat)
    requires Symbolic(syms) && i <= |syms|
    ensures |Flushed(Dec(syms[..i]))| <= |Flushed(Dec(syms))|
    decreases |syms|
  {
    if i == |syms| {
      assert syms[..i] == syms;
    } else {
      var s := syms[..|syms| - 1];
      assert s[..i] == syms[..i];
      OutputGrows(s, i);
      assert Dec(syms) == DecStep(Dec(s), syms[|syms| - 1]);
      hide Dec;
      StepLonger(Dec(s), syms[|syms| - 1]);
    }
  }

  /** The sequence numbers out as bytes. */
  ghost function Mapped(map256: seq<int>, out: seq<int>): (l: seq<int>)
    ensures |l| == |out|
  {
    seq(|out|, i requires 0 <= i < |out| => if 0 <= out[i] < |map256| then map256[out[i]] else 0)
  }

  ghost predicate ByteMap(map256: seq<int>) {
    |map256| == 256 && forall i :: 0 <= i < 256 ==> 0 <= map256[i] < 256
  }

  // ---- the decoder's arrays ----

  /** The first cells hold out as bytes, and unzftab counts them. */
  ghost predicate Stored(map256: seq<int>, out: seq<int>, cells: seq<int>, counts: seq<int>, limit: int) {
    && |out| <= limit <= |cells| && cells[..|out|] == Mapped(map256, out)
    && |counts| == 256 && forall v :: 0 <= v < 256 ==> counts[v] == Count(Mapped(map256, out), v)
  }

  /** Everything the decoder keeps between symbols: d is what the symbols read so far stand for. */
  ghost predicate Holds(d: DecState, map256: seq<int>, cells: seq<int>, counts: seq<int>, m: seq<int>, b: seq<int>,
                        limit: int) {
    && ByteMap(map256) && Listing(256, d.list) && Stored(map256, Flushed(d), cells, counts, limit)
    && TwoLevelMtf.Shape(m, b) && TwoLevelMtf.List(m, b) == d.list
  }

  lemma {:induction false} CountCopies(s: seq<int>, c: int, k: nat, v: int)
    ensures Count(s + RunLength.Copies(c, k), v) == Count(s, v) + (if v == c then k else 0)
  {
    if k == 0 {
      assert s + RunLength.Copies(c, 0) == s;
    } else {
      CountCopies(s, c, k - 1, v);
      var t := s + RunLength.Copies(c, k);
      assert t[..|t| - 1] == s + RunLength.Copies(c, k - 1);
    }
  }

  /** Storing es copies of one character. */
  lemma {:induction false} StoreCopies(map256: seq<int>, out: seq<int>, cells: seq<int>, counts: seq<int>, limit: int,
                                       c: int, es: nat, cells': seq<int>)
    requires Stored(map256, out, cells, counts, limit) && ByteMap(map256) && 0 <= c < 256 && |out| + es <= limit
    requires |cells'| == |cells| && cells'[..|out|] == cells[..|out|] && forall i :: |out| <= i < |out| + es ==>
             cells'[i] == map256[c]
    ensures 0 <= map256[c] < 256 &&
            Stored(map256, out + RunLength.Copies(c, es), cells', counts[map256[c] := counts[map256[c]] + es], limit)
  {
    var u := map256[c];
    assert Mapped(map256, out + RunLength.Copies(c, es)) == Mapped(map256, out) + RunLength.Copies(u, es);
    forall v | 0 <= v < 256 ensures counts[u := counts[u] + es][v] ==
      Count(Mapped(map256, out + RunLength.Copies(c, es)), v) {
      CountCopies(Mapped(map256, out), u, es, v);
    }
    assert cells'[..|out + RunLength.Copies(c, es)|] == cells'[..|out|] + RunLength.Copies(u, es);
  }

  lemma StoreOne(map256: seq<int>, out: seq<int>, cells: seq<int>, counts: seq<int>, limit: int, c: int)
    requires Stored(map256, out, cells, counts, limit) && ByteMap(map256) && 0 <= c < 256 && |out| < limit
    ensures 0 <= map256[c] < 256 && |out| < |cells| && |counts| == 256
    ensures Stored(map256, out + [c], cells[|out| := map256[c]], counts[map256[c] := counts[map256[c]] + 1], limit)
  {
    StoreCopies(map256, out, cells, counts, limit, c, 1, cells[|out| := map256[c]]);
    assert RunLength.Copies(c, 1) == [c];
  }

  /** nblock cells are filled; add es copies of uc, or report that they do not fit. */
  method Fill(cells: array<int>, nblock: int, uc: int, es: int, nblockMAX: int) returns (ok: bool, nblock': int)
    requires 0 <= nblock <= nblockMAX <= cells.Length && es >= 0
    modifies cells
    ensures ok <==> nblock + es <= nblockMAX
    ensures ok ==> nblock' == nblock + es && forall i :: nblock <= i < nblock' ==> cells[i] == uc
    ensures cells[..nblock] == old(cells[..nblock])
  {
    nblock' := nblock;
    var left := es;
    while left > 0
      invariant left >= 0 && nblock' + left == nblock + es && nblock <= nblock' <= nblockMAX
      invariant forall i :: nblock <= i < nblock' ==> cells[i] == uc
      invariant cells[..nblock] == old(cells[..nblock])
    {
      if nblock' >= nblockMAX { return false, nblock'; }
      cells[nblock'] := uc;
      nblock' := nblock' + 1;
      left := left - 1;
    }
    ok := true;
  }

  // ---- reading ----

  /** A stream of symbols closed by EOB, as the encoder writes it. */
  ghost predicate Stream(syms: seq<int>, nInUse: int) {
    && 0 <= nInUse <= 256 && |syms| > 0 && syms[|syms| - 1] == nInUse + 1
    && forall i :: 0 <= i < |syms| - 1 ==> 0 <= syms[i] <= nInUse
  }

  /** The state after the first pos symbols. */
  ghost function After(syms: seq<int>, nInUse: int, pos: int): DecState
    requires Stream(syms, nInUse) && 0 <= pos < |syms|
  {
    Dec(syms[..pos])
  }

  lemma {:induction false} NextSymbol(syms: seq<int>, nInUse: int, pos: int)
    requires Stream(syms, nInUse) && 0 <= pos < |syms| && syms[pos] != nInUse + 1
    ensures 0 <= syms[pos] <= nInUse && pos + 1 < |syms| && |After(syms, nInUse, pos).list| == 256
    ensures After(syms, nInUse, pos + 1) == DecStep(After(syms, nInUse, pos), syms[pos])
  {
    DecSnoc(syms[..pos], syms[pos]);
    assert syms[..pos + 1] == syms[..pos] + [syms[pos]];
  }

  lemma RunsBelow(syms: seq<int>, nInUse: int, pos: int)
    requires Stream(syms, nInUse) && 0 <= pos < |syms| && (syms[pos] == RUNA || syms[pos] == RUNB) && nInUse >= 1
    ensures syms[pos] != nInUse + 1
  {
  }

  /** es and N over a run of digits, up to the first symbol that is not one. */
  method ReadRun(syms: seq<int>, pos: int, ghost nInUse: int) returns (es: int, pos': int)
    requires Stream(syms, nInUse) && nInUse >= 1 && 0 <= pos < |syms| && (syms[pos] == RUNA || syms[pos] == RUNB)
    requires After(syms, nInUse, pos).run == []
    ensures pos < pos' < |syms| && syms[pos'] != RUNA && syms[pos'] != RUNB
    ensures var d, d' := After(syms, nInUse, pos), After(syms, nInUse, pos');
            d'.list == d.list && d'.out == d.out && es == Value(d'.run)
  {
    assert RUNA == 0 && RUNB == 1 && Pow2(0) == 1;
    hide *;
    es := -1;
    var N := 1;
    pos' := pos;
    ghost var d := After(syms, nInUse, pos);
    ghost var ds: seq<int> := [];
    ValueNone();
    while true
      invariant pos <= pos' < |syms| && (syms[pos'] == RUNA || syms[pos'] == RUNB)
      invariant After(syms, nInUse, pos') == d.(run := ds) && N == Pow2(|ds|) && es + 1 == Value(ds)
      decreases |syms| - pos'
    {
      RunsBelow(syms, nInUse, pos');
      NextSymbol(syms, nInUse, pos');
      DigitStep(d.(run := ds), syms[pos']);
      if syms[pos'] == RUNA { es := es + (0 + 1) * N; } else { es := es + (1 + 1) * N; }
      N := N * 2;
      ds := ds + [syms[pos']];
      pos' := pos' + 1;
      if !(syms[pos'] == RUNA || syms[pos'] == RUNB) { break; }
    }
    es := es + 1;
  }

  lemma ValueNone()
    ensures Value([]) == 0
  {
  }

  lemma {:induction false} DigitStep(d: DecState, sym: int)
    requires |d.list| == 256 && (sym == RUNA || sym == RUNB)
    ensures DecStep(d, sym) == d.(run := d.run + [sym])
    ensures Value(d.run + [sym]) == Value(d.run) + (if sym == RUNA then Pow2(|d.run|) else 2 * Pow2(|d.run|))
    ensures Pow2(|d.run + [sym]|) == 2 * Pow2(|d.run|)
  {
    ValueSnoc(d.run, sym);
  }

  // ---- turns of the main loop ----

  /** Between symbols: nextSym is symbol pos, and a run, once read, is written. */
  ghost predicate AtSymbol(syms: seq<int>, nInUse: int, pos: int, map256: seq<int>, cells: seq<int>, counts: seq<int>,
                           m: seq<int>, b: seq<int>, limit: int, nblock: int) {
    && Stream(syms, nInUse) && nInUse >= 1 && 0 <= pos < |syms| && limit <= |cells|
    && var d := After(syms, nInUse, pos);
    && Holds(d, map256, cells, counts, m, b, limit) && nblock == |Flushed(d)| <= limit
    && (d.run == [] || (syms[pos] != RUNA && syms[pos] != RUNB))
  }

  lemma {:induction false} AtStart(syms: seq<int>, nInUse: int, map256: seq<int>, cells: seq<int>, counts: seq<int>,
                                   m: seq<int>, b: seq<int>, limit: int)
    requires Stream(syms, nInUse) && nInUse >= 1 && ByteMap(map256) && 0 <= limit <= |cells|
    requires |counts| == 256 && forall v :: 0 <= v < 256 ==> counts[v] == 0
    requires TwoLevelMtf.Shape(m, b) && TwoLevelMtf.List(m, b) == TwoLevelMtf.Identity()
    ensures AtSymbol(syms, nInUse, 0, map256, cells, counts, m, b, limit, 0)
  {
    assert syms[..0] == [];
    UpToLists(256);
    assert UpTo(256) == TwoLevelMtf.Identity();
    assert Flushed(After(syms, nInUse, 0)) == [];
    assert Mapped(map256, []) == [];
  }

  lemma SymbolParts(syms: seq<int>, nInUse: int, pos: int, map256: seq<int>, cells: seq<int>, counts: seq<int>,
                    m: seq<int>, b: seq<int>, limit: int, nblock: int)
    requires AtSymbol(syms, nInUse, pos, map256, cells, counts, m, b, limit, nblock)
    ensures Stream(syms, nInUse) && 1 <= nInUse <= 256 && 0 <= pos < |syms| && 0 <= nblock <= limit <= |cells|
    ensures var d := After(syms, nInUse, pos); |d.list| == 256 && nblock == |Flushed(d)| &&
                                               Stored(map256, Flushed(d), cells, counts, limit)
    ensures var d := After(syms, nInUse, pos); d.run == [] || (syms[pos] != RUNA && syms[pos] != RUNB)
    ensures var d := After(syms, nInUse, pos); forall i :: 0 <= i < 256 ==> 0 <= d.list[i] < 256
    ensures ByteMap(map256) && |map256| == 256 && |counts| == 256 && TwoLevelMtf.Shape(m, b) && |m| == 4096 &&
            |b| == 16 && 0 <= b[0] < 4096
    ensures var d := After(syms, nInUse, pos); TwoLevelMtf.List(m, b) == d.list && m[b[0]] == d.list[0]
  {
    assert |counts| == 256;
    hide After, Stored, Flushed;
    TwoLevelMtf.ShapeFacts(m, b);
    TwoLevelMtf.ListAt(m, b, 0, 0);
    TwoLevelMtf.SlotIs(m, b[0], 0);
    var d := After(syms, nInUse, pos);
    forall i | 0 <= i < 256 ensures 0 <= d.list[i] < 256 { assert d.list[i] in d.list; }
  }

  /** A run read from pos to pos' is stored. */
  lemma {:induction false} RunStored(syms: seq<int>, nInUse: int, pos: int, pos': int, map256: seq<int>,
                                     cells: seq<int>, counts: seq<int>, m: seq<int>, b: seq<int>, limit: int,
                                     nblock: int, es: int, cells': seq<int>)
    requires AtSymbol(syms, nInUse, pos, map256, cells, counts, m, b, limit, nblock) && After(syms, nInUse, pos).run ==
             []
    requires pos < pos' < |syms| && syms[pos'] != RUNA && syms[pos'] != RUNB && es >= 0
    requires var d, d' := After(syms, nInUse, pos), After(syms, nInUse, pos');
             d'.list == d.list && d'.out == d.out && es == Value(d'.run)
    ensures |Flushed(After(syms, nInUse, pos'))| == nblock + es
    ensures |counts| == 256 && |map256| == 256 && 0 <= m[b[0]] < 256 && 0 <= map256[m[b[0]]] < 256
    ensures nblock + es <= limit && |cells'| == |cells| && cells'[..nblock] == cells[..nblock] &&
            (forall i :: nblock <= i < nblock + es ==> cells'[i] == map256[m[b[0]]])
        ==> var u := map256[m[b[0]]];
          AtSymbol(syms, nInUse, pos', map256, cells', counts[u := counts[u] + es], m, b, limit, nblock + es)
  {
    SymbolParts(syms, nInUse, pos, map256, cells, counts, m, b, limit, nblock);
    var d, d' := After(syms, nInUse, pos), After(syms, nInUse, pos');
    ValueNone();
    assert Flushed(d) == d.out by { assert RunLength.Copies(d.list[0], 0) == []; }
    assert Flushed(d') == d.out + RunLength.Copies(d.list[0], es);
    hide After, Flushed, Value, Stored, Stream;
    if nblock + es <= limit && |cells'| == |cells| && cells'[..nblock] == cells[..nblock] &&
       (forall i :: nblock <= i < nblock + es ==> cells'[i] == map256[m[b[0]]]) {
      StoreCopies(map256, Flushed(d), cells, counts, limit, d.list[0], es, cells');
    }
  }

  /** A symbol that is no run digit, once moved and stored. */
  lemma {:induction false} MoveStored(syms: seq<int>, nInUse: int, pos: int, map256: seq<int>, cells: seq<int>,
                                      counts: seq<int>, m: seq<int>, b: seq<int>, limit: int, nblock: int,
                                      m': seq<int>, b': seq<int>)
    requires AtSymbol(syms, nInUse, pos, map256, cells, counts, m, b, limit, nblock) && syms[pos] != nInUse + 1 &&
             syms[pos] != RUNA && syms[pos] != RUNB
    ensures 2 <= syms[pos] <= 256 && pos + 1 < |syms| && |Flushed(After(syms, nInUse, pos + 1))| == nblock + 1
    ensures var c := TwoLevelMtf.List(m, b)[syms[pos] - 1]; 0 <= c < 256 && 0 <= map256[c] < 256
    ensures nblock < limit && TwoLevelMtf.Shape(m', b') && TwoLevelMtf.List(m', b') ==
            Front(TwoLevelMtf.List(m, b), syms[pos] - 1)
        ==> var u := map256[TwoLevelMtf.List(m, b)[syms[pos] - 1]];
          AtSymbol(syms, nInUse, pos + 1, map256, cells[nblock := u], counts[u := counts[u] + 1], m', b', limit,
          nblock + 1)
  {
    SymbolParts(syms, nInUse, pos, map256, cells, counts, m, b, limit, nblock);
    NextSymbol(syms, nInUse, pos);
    var d, d', sym := After(syms, nInUse, pos), After(syms, nInUse, pos + 1), syms[pos];
    assert Listing(256, d'.list) by { DecList(syms[..pos + 1]); StreamSymbols(syms, nInUse, pos + 1); }
    ValueNone();
    assert d'.run == [];
    assert Flushed(d') == Flushed(d) + [d.list[sym - 1]] by { assert RunLength.Copies(d'.list[0], 0) == []; }
    hide After, Flushed, Value, Stored, Stream, Front, TwoLevelMtf.List, TwoLevelMtf.Shape;
    if nblock < limit && TwoLevelMtf.Shape(m', b') && TwoLevelMtf.List(m', b') ==
       Front(TwoLevelMtf.List(m, b), sym - 1) {
      StoreOne(map256, Flushed(d), cells, counts, limit, d.list[sym - 1]);
    }
  }

  lemma StreamSymbols(syms: seq<int>, nInUse: int, pos: int)
    requires Stream(syms, nInUse) && 0 <= pos < |syms|
    ensures Symbolic(syms[..pos])
  {
  }

  lemma {:induction false} TooMany(syms: seq<int>, nInUse: int, pos: int, limit: int)
    requires Stream(syms, nInUse) && 0 <= pos < |syms| && |Flushed(After(syms, nInUse, pos))| > limit
    ensures Symbolic(syms[..|syms| - 1]) && |Flushed(Dec(syms[..|syms| - 1]))| > limit
  {
    var s := syms[..|syms| - 1];
    assert s[..pos] == syms[..pos];
    OutputGrows(s, pos);
  }

  /** A run of the front entry: read it and store the copies. */
  method RunTurn(syms: seq<int>, pos: int, seqToUnseq: array<int>, cells: array<int>, unzftab: array<int>,
                 mtfa: array<int>, mtfbase: array<int>,
                 nblock: int, nblockMAX: int, ghost nInUse: int) returns (ok: bool, pos': int, nblock': int)
    requires cells != unzftab && cells != mtfa && cells != mtfbase && unzftab != mtfa && unzftab != mtfbase &&
             cells != seqToUnseq && unzftab != seqToUnseq
    requires AtSymbol(syms, nInUse, pos, seqToUnseq[..], cells[..], unzftab[..], mtfa[..], mtfbase[..], nblockMAX,
             nblock)
    requires 0 <= pos < |syms| && (syms[pos] == RUNA || syms[pos] == RUNB)
    modifies cells, unzftab
    ensures Symbolic(syms[..|syms| - 1]) && (!ok ==> |Flushed(Dec(syms[..|syms| - 1]))| > nblockMAX)
    ensures ok ==> pos < pos' && AtSymbol(syms, nInUse, pos', seqToUnseq[..], cells[..], unzftab[..], mtfa[..],
                   mtfbase[..], nblockMAX, nblock')
  {
    hide *;
    ghost var map256, was, counts, m, b := seqToUnseq[..], cells[..], unzftab[..], mtfa[..], mtfbase[..];
    SymbolParts(syms, nInUse, pos, map256, was, counts, m, b, nblockMAX, nblock);
    StreamSymbols(syms, nInUse, |syms| - 1);
    var es;
    es, pos' := ReadRun(syms, pos, nInUse);
    RunStored(syms, nInUse, pos, pos', map256, was, counts, m, b, nblockMAX, nblock, es, was);
    var uc := seqToUnseq[mtfa[mtfbase[0]]];
    unzftab[uc] := unzftab[uc] + es;
    assert unzftab[..] == counts[uc := counts[uc] + es];
    ok, nblock' := Fill(cells, nblock, uc, es, nblockMAX);
    if !ok {
      TooMany(syms, nInUse, pos', nblockMAX);
      return;
    }
    RunStored(syms, nInUse, pos, pos', map256, was, counts, m, b, nblockMAX, nblock, es, cells[..]);
  }

  /** A move to the front of the entry at nextSym - 1. */
  method MoveTurn(syms: seq<int>, pos: int, seqToUnseq: array<int>, cells: array<int>, unzftab: array<int>,
                  mtfa: array<int>, mtfbase: array<int>,
                  nblock: int, nblockMAX: int, ghost nInUse: int) returns (ok: bool, pos': int, nblock': int)
    requires mtfa != mtfbase && cells != unzftab && cells != mtfa && cells != mtfbase && unzftab != mtfa &&
             unzftab != mtfbase
    requires seqToUnseq != cells && seqToUnseq != unzftab && seqToUnseq != mtfa && seqToUnseq != mtfbase
    requires AtSymbol(syms, nInUse, pos, seqToUnseq[..], cells[..], unzftab[..], mtfa[..], mtfbase[..], nblockMAX,
             nblock)
    requires 0 <= pos < |syms| && syms[pos] != RUNA && syms[pos] != RUNB && syms[pos] != nInUse + 1
    modifies cells, unzftab, mtfa, mtfbase
    ensures Symbolic(syms[..|syms| - 1]) && (!ok ==> |Flushed(Dec(syms[..|syms| - 1]))| > nblockMAX)
    ensures ok ==> pos < pos' && AtSymbol(syms, nInUse, pos', seqToUnseq[..], cells[..], unzftab[..], mtfa[..],
                   mtfbase[..], nblockMAX, nblock')
  {
    hide *;
    ghost var map256, was, counts, m, b := seqToUnseq[..], cells[..], unzftab[..], mtfa[..], mtfbase[..];
    SymbolParts(syms, nInUse, pos, map256, was, counts, m, b, nblockMAX, nblock);
    StreamSymbols(syms, nInUse, |syms| - 1);
    MoveStored(syms, nInUse, pos, map256, was, counts, m, b, nblockMAX, nblock, m, b);
    pos', nblock' := pos + 1, nblock;
    if nblock >= nblockMAX {
      TooMany(syms, nInUse, pos + 1, nblockMAX);
      return false, pos', nblock';
    }
    var uc := TwoLevelMtf.Move(mtfa, mtfbase, syms[pos] - 1);
    MoveStored(syms, nInUse, pos, map256, was, counts, m, b, nblockMAX, nblock, mtfa[..], mtfbase[..]);
    var u := seqToUnseq[uc];
    unzftab[u] := unzftab[u] + 1;
    cells[nblock'] := u;
    assert unzftab[..] == counts[u := counts[u] + 1];
    assert cells[..] == was[nblock := u];
    nblock' := nblock' + 1;
    ok := true;
  }

  lemma {:induction false} AtEnd(syms: seq<int>, nInUse: int, pos: int, map256: seq<int>, cells: seq<int>,
                                 counts: seq<int>, m: seq<int>, b: seq<int>, limit: int, nblock: int)
    requires AtSymbol(syms, nInUse, pos, map256, cells, counts, m, b, limit, nblock) && syms[pos] == nInUse + 1
    ensures Symbolic(syms[..|syms| - 1])
    ensures var out := Flushed(Dec(syms[..|syms| - 1])); nblock == |out| && Stored(map256, out, cells, counts, limit)
  {
    assert pos == |syms| - 1;
    hide Stored, Flushed;
  }

  /** The whole loop: the block's bytes and their counts, or an error exactly if they do not fit. */
  method DecodeSymbols(syms: seq<int>, seqToUnseq: array<int>, nInUse: int, nblockMAX: int, cells: array<int>,
                       unzftab: array<int>, mtfa: array<int>, mtfbase: array<int>)
    returns (ok: bool, nblock: int)
    requires mtfa != mtfbase && cells != unzftab && cells != mtfa && cells != mtfbase && unzftab != mtfa &&
             unzftab != mtfbase
    requires seqToUnseq != cells && seqToUnseq != unzftab && seqToUnseq != mtfa && seqToUnseq != mtfbase
    requires Stream(syms, nInUse) && nInUse >= 1 && ByteMap(seqToUnseq[..]) && 0 <= nblockMAX <= cells.Length
    requires unzftab.Length == 256 && mtfa.Length == 4096 && mtfbase.Length == 16
    modifies cells, unzftab, mtfa, mtfbase
    ensures Symbolic(syms[..|syms| - 1])
    ensures ok <==> |Flushed(Dec(syms[..|syms| - 1]))| <= nblockMAX
    ensures var out := Flushed(Dec(syms[..|syms| - 1])); ok ==> nblock == |out| &&
                                                                Stored(seqToUnseq[..], out, cells[..], unzftab[..],
                                                                nblockMAX)
  {
    assert |syms| > 0;
    hide *;
    for i := 0 to 256
      invariant forall v :: 0 <= v < i ==> unzftab[v] == 0
    {
      unzftab[i] := 0;
    }
    TwoLevelMtf.Init(mtfa, mtfbase);
    StreamSymbols(syms, nInUse, |syms| - 1);
    AtStart(syms, nInUse, seqToUnseq[..], cells[..], unzftab[..], mtfa[..], mtfbase[..], nblockMAX);
    var EOB := nInUse + 1;
    var pos := 0;
    nblock := 0;
    while true
      invariant 0 <= pos < |syms| &&
                AtSymbol(syms, nInUse, pos, seqToUnseq[..], cells[..], unzftab[..], mtfa[..], mtfbase[..], nblockMAX,
                nblock)
      decreases |syms| - pos
    {
      SymbolParts(syms, nInUse, pos, seqToUnseq[..], cells[..], unzftab[..], mtfa[..], mtfbase[..], nblockMAX, nblock);
      if syms[pos] == EOB { break; }
      if syms[pos] == RUNA || syms[pos] == RUNB {
        ok, pos, nblock := RunTurn(syms, pos, seqToUnseq, cells, unzftab, mtfa, mtfbase, nblock, nblockMAX, nInUse);
      } else {
        ok, pos, nblock := MoveTurn(syms, pos, seqToUnseq, cells, unzftab, mtfa, mtfbase, nblock, nblockMAX, nInUse);
      }
      if !ok { return; }
      SymbolParts(syms, nInUse, pos, seqToUnseq[..], cells[..], unzftab[..], mtfa[..], mtfbase[..], nblockMAX, nblock);
    }
    AtEnd(syms, nInUse, pos, seqToUnseq[..], cells[..], unzftab[..], mtfa[..], mtfbase[..], nblockMAX, nblock);
    ok := true;
  }
}
