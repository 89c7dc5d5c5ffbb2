/** How many bits a block takes: never more than the storage behind the block in
    arr2 holds, where the compressor puts them. */
module BlockSize {
  import opened BitStream
  import opened BlockTables
  import opened StreamTables
  import opened SymbolStream
  import BlockPipeline
  import Checksums
  import StreamFormat

  lemma {:induction false} RowsSize(inUse: seq<bool>, i: int)
    requires |inUse| == 256 && 0 <= i <= 16
    ensures |RowsFrom(inUse, i)| <= 16 * (16 - i)
    decreases 16 - i
  {
    if i < 16 { RowsSize(inUse, i + 1); }
  }

  lemma {:induction false} UnarySize(j: int)
    requires j >= 0
    ensures |Unary(j)| == j + 1
  {
    if j > 0 { UnarySize(j - 1); }
  }

  /** Positions below 6 take at most six bits each. */
  lemma {:induction false} UnaryFromSize(js: seq<int>, k: int)
    requires 0 <= k <= |js| && forall i :: 0 <= i < |js| ==> 0 <= js[i] < 6
    ensures |UnaryFrom(js, k)| <= 6 * (|js| - k)
    decreases |js| - k
  {
    if k < |js| {
      UnarySize(js[k]);
      UnaryFromSize(js, k + 1);
    }
  }

  lemma {:induction false} StepSize(curr: int, l: int)
    ensures |Steps(curr, l)| == 2 * (if curr < l then l - curr else curr - l) + 1
    decreases if curr < l then l - curr else curr - l
  {
    if curr < l { StepSize(curr + 1, l); } else if curr > l { StepSize(curr - 1, l); }
  }

  /** Lengths between 1 and 20 differ by at most 19. */
  lemma {:induction false} StepsFromSize(len: seq<int>, curr: int, i: int)
    requires 0 <= i <= |len| && InCodeRange(len) && 1 <= curr <= 20
    ensures |StepsFrom(len, curr, i)| <= 39 * (|len| - i)
    decreases |len| - i
  {
    if i < |len| {
      StepSize(curr, len[i]);
      StepsFromSize(len, len[i], i + 1);
    }
  }

  lemma {:induction false} LensSize(lens: seq<seq<int>>, t: int)
    requires 0 <= t <= |lens| && Headed(lens) && forall u :: 0 <= u < |lens| ==> |lens[u]| <= 258
    ensures |LensBits(lens, t)| <= 10_067 * (|lens| - t)
    decreases |lens| - t
  {
    if t < |lens| {
      StepsFromSize(lens[t], lens[t][0], 0);
      LensSize(lens, t + 1);
    }
  }

  /** No symbol takes more than twenty bits. */
  lemma {:induction false} DataSize(mtfv: seq<int>, sels: seq<int>, lens: seq<seq<int>>, alphaSize: int, i: int)
    requires Sendable(mtfv, sels, lens, alphaSize) && 0 <= i <= |mtfv|
    ensures |DataBits(mtfv, sels, lens, alphaSize, i)| <= 20 * (|mtfv| - i)
    decreases |mtfv| - i
  {
    hide *;
    if i < |mtfv| {
      SymbolTable(mtfv, sels, lens, alphaSize, i);
      DataStep(mtfv, sels, lens, alphaSize, i, []);
      DataSize(mtfv, sels, lens, alphaSize, i + 1);
    } else {
      DataEnd(mtfv, sels, lens, alphaSize, []);
    }
  }

  lemma {:induction false} SentSize(b: Sent)
    requires Ok(b) && Headed(b.lens)
    ensures |SentBits(b)| <= 257_294 + 20 * |b.mtfv|
  {
    hide *;
    OkParts(b);
    TablesSmall(b);
    SentLength(b);
    UnaryFromSize(Positions(b), 0);
    LensSize(b.lens, 0);
    DataSize(b.mtfv, b.sels, b.lens, NInUse(b.inUse) + 2, 0);
  }

  lemma SentLength(b: Sent)
    requires Ok(b) && Headed(b.lens)
    ensures |SentBits(b)| <= 290 + |UnaryFrom(Positions(b), 0)| + |LensBits(b.lens, 0)|
              + |DataBits(b.mtfv, b.sels, b.lens, NInUse(b.inUse) + 2, 0)|
  {
    OkParts(b);
    hide *;
    HeadLength(b);
    BodyJoined(b, []);
    BodyIs(b);
  }

  lemma BodyIs(b: Sent)
    requires Ok(b) && Headed(b.lens)
    ensures BodyBits(b) == DataBits(b.mtfv, b.sels, b.lens, NInUse(b.inUse) + 2, 0)
  {
    hide Ok, Headed, DataBits, NInUse;
  }

  lemma HeadLength(b: Sent)
    requires |b.inUse| == 256
    ensures |HeadBits(b)| <= 290
  {
    RowsSize(b.inUse, 0);
    hide RowsFrom, BitsOf, RowFlags;
  }

  lemma TablesSmall(b: Sent)
    requires Ok(b)
    ensures forall u :: 0 <= u < |b.lens| ==> |b.lens[u]| <= 258
    ensures |Positions(b)| == |b.sels| && forall i :: 0 <= i < |Positions(b)| ==> 0 <= Positions(b)[i] < 6
  {
    OkParts(b);
    hide Ok, Sendable;
  }

  /** The symbols are at most one more than the bytes. */
  lemma {:induction false} CodesSize(b: seq<int>, fm: seq<int>, o: int, sent: Sent)
    requires BlockPipeline.Codes(b, fm, o, sent)
    ensures o >= 0 && Ok(sent) && Headed(sent.lens) && |BlockPipeline.BlockBits(o, sent)| <= 257_339 + 20 * |b|
  {
    BlockPipeline.CodesParts(b, fm, o, sent);
    SentSize(sent);
    var n := NInUse(sent.inUse);
    BlockPipeline.ColumnSymbols(b, fm, o, sent);
    hide Ok, Headed, SentBits, BlockPipeline.Codes, BitsOf, NInUse;
  }

  /** What BZ2_compressBlock writes for a block, header and trailer included. */
  lemma {:induction false} AdditionSize(n: int, es: seq<StreamFormat.Emission>, e: StreamFormat.Emission)
    ensures |StreamFormat.Addition(n, es, e)| <= 257_531 + 20 * |e.block|
  {
    if e.block != [] && BlockPipeline.Codes(e.block, e.fm, e.origPtr, e.sent) {
      CodesSize(e.block, e.fm, e.origPtr, e.sent);
    }
    hide BlockPipeline.Codes, BlockPipeline.BlockBits, BitsOf, StreamFormat.Combined, Checksums.Finalised;
  }

  /** The coded bytes of a block that fits block size n end before arr2 does: they
      start behind the block's bytes, in 4 * (100000 * n + 34) bytes. */
  lemma {:induction false} FitsBehind(n: int, es: seq<StreamFormat.Emission>, e: StreamFormat.Emission,
                                      pending: int, z: seq<int>)
    requires 1 <= n <= 9 && |e.block| < 100_000 * n && pending <= 32
    requires 8 * |z| <= pending + |StreamFormat.Addition(n, es, e)| + 7
    ensures |e.block| + |z| <= 4 * (100_000 * n + 34)
  {
    AdditionSize(n, es, e);
    hide StreamFormat.Addition;
  }
}
