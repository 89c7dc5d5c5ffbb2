/** The stream around the coded blocks: its header, the magic numbers and
    checksums, and the trailer, as they are written and as they are read. */
module StreamFormat {
  import opened Bits
  import opened BitStream
  import opened Checksums
  import opened RunLength
  import opened BlockCutting
  import BlockPipeline
  import BlockTables
  import MtfEncode
  import WordLanes

  lemma {:induction false} ChecksumWord(step: (int, int) -> int, s: seq<int>)
    requires WordStep(step)
    ensures 0 <= Checksum(step, CRC_START, s) <= 0xffff_ffff
  {
    if s != [] {
      var crc, ch := Checksum(step, CRC_START, s[..|s| - 1]), s[|s| - 1];
      assert 0 <= step(crc, ch) <= 0xffff_ffff;
    }
  }

  // ---- what the blocks become ----

  /** A block given to BZ2_compressBlock, and how it was coded. */
  datatype Emission = Emission(block: seq<int>, inUse: seq<bool>, crc: int, last: bool, full: bool, origPtr: int,
    fm: seq<int>, sent: BlockTables.Sent)

  ghost predicate Flagged(inUse: seq<bool>, blk: seq<int>) {
    |inUse| == 256 && forall v :: 0 <= v < 256 ==> (inUse[v] <==> v in blk)
  }

  /** The bytes all emitted blocks decode to. */
  ghost function DecodeAll(es: seq<Emission>): seq<int> {
    if es == [] then [] else DecodeAll(es[..|es| - 1]) + Decode(es[|es| - 1].block)
  }

  /** Every emitted block is good, and none but the newest is marked last. */
  ghost predicate AllSealed(es: seq<Emission>, nblockMAX: int, step: (int, int) -> int) {
    && (forall i :: 0 <= i < |es| ==> SealedOne(es[i], nblockMAX, step))
    && (forall i :: 0 <= i < |es| - 1 ==> !es[i].last)
  }

  /** A block fits, reaches the limit if it counts as full, is whole, carries the flags and the checksum of its
      bytes, and is coded by its sorted rotations. */
  ghost predicate SealedOne(e: Emission, nblockMAX: int, step: (int, int) -> int) {
    && |e.block| <= nblockMAX + 9 && (e.full ==> |e.block| >= nblockMAX) && Whole(e.block) && Bytes(e.block) &&
       Flagged(e.inUse, e.block)
    && e.crc == Checksum(step, CRC_START, Decode(e.block))
    && (e.block != [] ==> BlockPipeline.Codes(e.block, e.fm, e.origPtr, e.sent) && e.sent.inUse == e.inUse)
  }

  lemma SealSnoc(es: seq<Emission>, e: Emission, nblockMAX: int, step: (int, int) -> int)
    requires AllSealed(es, nblockMAX, step) && SealedOne(e, nblockMAX, step) && (es != [] ==> !es[|es| - 1].last)
    ensures AllSealed(es + [e], nblockMAX, step)
  {
    hide SealedOne;
  }

  /** The blocks emitted, as they were given up. */
  ghost function Pieces(es: seq<Emission>): (ps: seq<Piece>)
    ensures |ps| == |es| && forall i :: 0 <= i < |es| ==> ps[i] == Piece(es[i].block, es[i].full)
  {
    seq(|es|, i requires 0 <= i < |es| => Piece(es[i].block, es[i].full))
  }

  /** Good blocks that agree byte by byte have the same checksums, each and all together. */
  lemma {:induction false} SameChecksums(a: seq<Emission>, b: seq<Emission>, nblockMAX: int, step: (int, int) -> int)
    requires AllSealed(a, nblockMAX, step) && AllSealed(b, nblockMAX, step) && Pieces(a) == Pieces(b)
    ensures |a| == |b| && (forall i :: 0 <= i < |a| ==> a[i].crc == b[i].crc) && Combined(a) == Combined(b)
  {
    hide *;
    NewestPiece(a, nblockMAX, step);
    NewestPiece(b, nblockMAX, step);
    if a != [] {
      var k := |a| - 1;
      assert Pieces(a)[..k] == Pieces(b)[..k];
      SameChecksums(a[..k], b[..k], nblockMAX, step);
      forall i | 0 <= i < |a| ensures a[i].crc == b[i].crc {
        if i < k { assert a[..k][i] == a[i] && b[..k][i] == b[i]; }
      }
    }
  }

  lemma NewestPiece(es: seq<Emission>, nblockMAX: int, step: (int, int) -> int)
    requires AllSealed(es, nblockMAX, step)
    ensures |Pieces(es)| == |es| && (es == [] ==> Combined(es) == 0)
    ensures es != [] ==> Pieces(es[..|es| - 1]) == Pieces(es)[..|es| - 1] && AllSealed(es[..|es| - 1], nblockMAX, step)
    ensures es != [] ==> es[|es| - 1].crc == Checksum(step, CRC_START, Decode(Pieces(es)[|es| - 1].block))
    ensures es != [] ==> Combined(es) == if Pieces(es)[|es| - 1].block == [] then Combined(es[..|es| - 1])
                                         else Combine(Combined(es[..|es| - 1]), Finalised(es[|es| - 1].crc))
  {
    if es != [] { assert SealedOne(es[|es| - 1], nblockMAX, step); }
    hide Combine, Finalised, SealedOne, Checksum, Decode;
  }

  /** The checksum of no bytes is 0. */
  lemma EmptyChecksum(step: (int, int) -> int)
    ensures Finalised(Checksum(step, CRC_START, [])) == 0
  {
  }

  lemma DecodeSnoc(es: seq<Emission>, e: Emission)
    ensures DecodeAll(es + [e]) == DecodeAll(es) + Decode(e.block)
  {
    assert (es + [e])[..|es|] == es;
  }

  // ---- the bits of a stream ----

  /** The magic numbers of a block and of the end of the stream. */
  const BLOCK_MAGIC: seq<int> := [0x31, 0x41, 0x59, 0x26, 0x53, 0x59]
  const END_MAGIC: seq<int> := [0x17, 0x72, 0x45, 0x38, 0x50, 0x90]

  /** "BZh" and the digit of the block size. */
  function HeaderBytes(blockSize100k: int): (h: seq<int>)
    ensures |h| == 4
  {
    [0x42, 0x5a, 0x68, 0x30 + blockSize100k]
  }

  /** A block on the stream: its magic number, its checksum, its coding; an empty block leaves nothing. */
  ghost function BlockPart(e: Emission): seq<bool> {
    if e.block == [] || !BlockPipeline.Codes(e.block, e.fm, e.origPtr, e.sent) then []
    else ByteBits(BLOCK_MAGIC) + BitsOf(Finalised(e.crc), 32) + BlockPipeline.BlockBits(e.origPtr, e.sent)
  }

  ghost function Parts(es: seq<Emission>): seq<bool> {
    if es == [] then [] else Parts(es[..|es| - 1]) + BlockPart(es[|es| - 1])
  }

  /** The checksum of the whole stream: that of every block that is not empty. */
  ghost function Combined(es: seq<Emission>): u32 {
    if es == [] then 0
    else if es[|es| - 1].block == [] then Combined(es[..|es| - 1])
    else Combine(Combined(es[..|es| - 1]), Finalised(es[|es| - 1].crc))
  }

  ghost function Trailer(combined: u32): seq<bool> {
    ByteBits(END_MAGIC) + BitsOf(combined, 32)
  }

  ghost predicate Ended(es: seq<Emission>) {
    es != [] && es[|es| - 1].last
  }

  /** All that is written for the blocks es. */
  ghost function StreamBits(blockSize100k: int, es: seq<Emission>): seq<bool> {
    (if es == [] then [] else ByteBits(HeaderBytes(blockSize100k))) + Parts(es)
    + (if Ended(es) then Trailer(Combined(es)) else [])
  }

  /** What one more block adds: the header if it is the first, the trailer if it is the last. */
  ghost function Addition(n: int, es: seq<Emission>, e: Emission): seq<bool> {
    (if es == [] then ByteBits(HeaderBytes(n)) else []) + BlockPart(e) +
      (if e.last then Trailer(Combined(es + [e])) else [])
  }

  lemma {:induction false} StreamSnoc(n: int, es: seq<Emission>, e: Emission)
    requires !Ended(es)
    ensures StreamBits(n, es + [e]) == StreamBits(n, es) + Addition(n, es, e)
  {
    var h, t := ByteBits(HeaderBytes(n)), if e.last then Trailer(Combined(es + [e])) else [];
    PartsSnoc(es, e);
    if es == [] {
      StreamIs(n, es + [e], h, BlockPart(e), t);
      AdditionIs(n, es, e, t);
      hide *;
      Reassociate(h, [], BlockPart(e), t);
    } else {
      StreamIs(n, es, h, Parts(es), []);
      StreamIs(n, es + [e], h, Parts(es) + BlockPart(e), t);
      AdditionIs(n, es, e, t);
      hide *;
      Reassociate(h, Parts(es), BlockPart(e), t);
    }
  }

  lemma StreamIs(n: int, es: seq<Emission>, h: seq<bool>, p: seq<bool>, t: seq<bool>)
    requires es != [] && h == ByteBits(HeaderBytes(n)) && p == Parts(es) &&
             t == if Ended(es) then Trailer(Combined(es)) else []
    ensures StreamBits(n, []) == [] && StreamBits(n, es) == h + p + t
  {
    hide ByteBits, BlockPart, Trailer, Combined;
  }

  lemma AdditionIs(n: int, es: seq<Emission>, e: Emission, t: seq<bool>)
    requires t == if e.last then Trailer(Combined(es + [e])) else []
    ensures es == [] ==> Addition(n, es, e) == ByteBits(HeaderBytes(n)) + BlockPart(e) + t
    ensures es != [] ==> Addition(n, es, e) == [] + BlockPart(e) + t
  {
    hide ByteBits, BlockPart, Trailer, Combined;
  }

  lemma PartsSnoc(es: seq<Emission>, e: Emission)
    ensures Parts(es + [e]) == Parts(es) + BlockPart(e) && (es == [] ==> Parts(es + [e]) == BlockPart(e))
  {
    assert (es + [e])[..|es|] == es;
    hide BlockPart;
  }

  lemma Reassociate(a: seq<bool>, b: seq<bool>, c: seq<bool>, d: seq<bool>)
    ensures a + (b + c) + d == a + b + [] + ([] + c + d)
    ensures a + c + d == [] + (a + c + d)
  {
  }

  lemma CombinedSnoc(es: seq<Emission>, e: Emission)
    ensures Combined(es + [e]) == if e.block == [] then Combined(es) else Combine(Combined(es), Finalised(e.crc))
  {
    assert (es + [e])[..|es|] == es;
  }

  // ---- writing ----

  lemma ByteFits(c: int)
    requires 0 <= c < 256
    ensures c < Pow2(8)
  {
    Pow2Values();
  }

  /** The bits c and then those of one byte. */
  ghost function Push(c: seq<bool>, x: int): seq<bool> {
    c + BitsOf(if x < 0 then 0 else x, 8)
  }

  /** The bits c and then those of the bytes m. */
  ghost function PushAll(c: seq<bool>, m: seq<int>): seq<bool> {
    c + ByteBits(m)
  }

  lemma {:induction false} PushSome(c: seq<bool>, m: seq<int>, x: int)
    ensures PushAll(c, m + [x]) == Push(PushAll(c, m), x)
  {
    assert (m + [x])[..|m|] == m;
    hide BitsOf;
  }

  lemma PushNone(c: seq<bool>)
    ensures PushAll(c, []) == c
  {
  }

  lemma {:induction false} PushFour(c: seq<bool>, m: seq<int>)
    requires |m| == 4
    ensures PushAll(c, m) == Push(Push(Push(Push(c, m[0]), m[1]), m[2]), m[3])
  {
    hide *;
    PushNone(c);
    PushSome(c, [], m[0]);
    PushSome(c, [m[0]], m[1]);
    PushSome(c, [m[0], m[1]], m[2]);
    PushSome(c, [m[0], m[1], m[2]], m[3]);
    assert [] + [m[0]] == [m[0]] && [m[0]] + [m[1]] == [m[0], m[1]] && [m[0], m[1]] + [m[2]] == [m[0], m[1], m[2]];
    assert m == [m[0], m[1], m[2]] + [m[3]];
  }

  lemma {:induction false} PushSix(c: seq<bool>, m: seq<int>)
    requires |m| == 6
    ensures PushAll(c, m) == Push(Push(Push(Push(Push(Push(c, m[0]), m[1]), m[2]), m[3]), m[4]), m[5])
  {
    hide *;
    PushFour(c, m[..4]);
    PushSome(c, m[..4], m[4]);
    PushSome(c, m[..4] + [m[4]], m[5]);
    assert m == m[..4] + [m[4]] + [m[5]];
  }

  /** bsPutUChar */
  method PutUChar(w: Writer, c: int)
    requires w.Valid() && 0 <= c < 256
    modifies w
    ensures w.Valid() && w.Contents() == Push(old(w.Contents()), c) && w.bsLive < 16
  {
    ByteFits(c);
    PushIs(w.Contents(), c);
    hide *;
    w.W(8, c);
  }

  lemma PushIs(c: seq<bool>, x: nat)
    ensures Push(c, x) == c + BitsOf(x, 8)
  {
  }

  /** A word's bytes, the highest first. */
  function WordBytes(u: u32): (m: seq<int>)
    ensures |m| == 4 && Bytes(m)
  {
    [u / 0x100_0000, u / 0x1_0000 % 256, u / 0x100 % 256, u % 256]
  }

  lemma {:induction false} LowByte(v: nat, m: nat)
    ensures BitsOf(v, m + 8) == BitsOf(v / 256, m) + BitsOf(v % 256, 8)
  {
    Pow2Values();
    BitsSplit(v, m, 8);
    HalveIsDiv(v, 8);
    BitsTruncated(v, 8, 8);
  }

  lemma {:induction false} WordBits(u: u32)
    ensures ByteBits(WordBytes(u)) == BitsOf(u, 32)
  {
    var m := WordBytes(u);
    WordQuotients(u);
    hide *;
    PairUp([], u / 0x100_0000, 0);
    PairUp([m[0]], u / 0x1_0000, 8);
    PairUp([m[0], m[1]], u / 0x100, 16);
    PairUp([m[0], m[1], m[2]], u, 24);
    assert [] + [m[0]] == [m[0]] && [m[0]] + [m[1]] == [m[0], m[1]] && [m[0], m[1]] + [m[2]] == [m[0], m[1], m[2]];
    assert m == [m[0], m[1], m[2]] + [m[3]];
  }

  lemma WordQuotients(u: u32)
    ensures u / 0x100 / 256 == u / 0x1_0000 && u / 0x1_0000 / 256 == u / 0x100_0000 && u / 0x100_0000 % 256 ==
            u / 0x100_0000
    ensures ByteBits([]) == BitsOf(u / 0x100_0000 / 256, 0)
    ensures WordBytes(u) == [u / 0x100_0000, u / 0x1_0000 % 256, u / 0x100 % 256, u % 256]
  {
  }

  lemma PairUp(b: seq<int>, v: nat, m: nat)
    ensures ByteBits(b) == BitsOf(v / 256, m) ==> ByteBits(b + [v % 256]) == BitsOf(v, m + 8)
  {
    LowByte(v, m);
    ByteBitsPush(b, v % 256);
    hide BitsOf, ByteBits;
  }

  /** bsPutUInt32 */
  method PutUInt32(w: Writer, u: u32)
    requires w.Valid()
    modifies w
    ensures w.Valid() && w.Contents() == old(w.Contents()) + BitsOf(u, 32)
  {
    WordBits(u);
    WordPushes(w.Contents(), u);
    hide *;
    PutUChar(w, u / 0x100_0000);
    PutUChar(w, u / 0x1_0000 % 256);
    PutUChar(w, u / 0x100 % 256);
    PutUChar(w, u % 256);
  }

  lemma WordPushes(c: seq<bool>, u: u32)
    ensures c + ByteBits(WordBytes(u)) ==
            Push(Push(Push(Push(c, u / 0x100_0000), u / 0x1_0000 % 256), u / 0x100 % 256), u % 256)
  {
    PushFour(c, WordBytes(u));
    hide ByteBits, Push;
  }

  /** Six bytes of a magic number. */
  method PutMagic(w: Writer, m: seq<int>)
    requires w.Valid() && |m| == 6 && Bytes(m)
    modifies w
    ensures w.Valid() && w.Contents() == PushAll(old(w.Contents()), m)
  {
    PushSix(w.Contents(), m);
    hide *;
    hide Bytes;
    PutUChar(w, m[0]);
    PutUChar(w, m[1]);
    PutUChar(w, m[2]);
    PutUChar(w, m[3]);
    PutUChar(w, m[4]);
    PutUChar(w, m[5]);
  }

  /** The stream header. */
  method PutHeader(w: Writer, blockSize100k: int)
    requires w.Valid() && 1 <= blockSize100k <= 9
    modifies w
    ensures w.Valid() && w.Contents() == PushAll(old(w.Contents()), HeaderBytes(blockSize100k)) && w.bsLive < 16
  {
    HeaderPushes(w.Contents(), blockSize100k);
    hide *;
    PutUChar(w, 0x42);
    PutUChar(w, 0x5a);
    PutUChar(w, 0x68);
    PutUChar(w, 0x30 + blockSize100k);
  }

  lemma HeaderPushes(c: seq<bool>, n: int)
    ensures PushAll(c, HeaderBytes(n)) == Push(Push(Push(Push(c, 0x42), 0x5a), 0x68), 0x30 + n)
  {
    PushFour(c, HeaderBytes(n));
    hide Push, PushAll;
  }

  /** A block's bytes in the words of arr2. */
  method LoadBlock(block: seq<int>) returns (arr2: array<int>)
    requires Bytes(block)
    ensures fresh(arr2) && arr2.Length == |block| && WordLanes.Words(arr2[..]) &&
            WordLanes.Bytes(arr2[..])[..|block|] == block
  {
    arr2 := new int[|block|](_ => 0);
    hide WordLanes.Bytes;
    assert WordLanes.WORD > 0;
    for p := 0 to |block|
      invariant WordLanes.Words(arr2[..]) && WordLanes.Bytes(arr2[..])[..p] == block[..p]
    {
      ghost var b := WordLanes.Bytes(arr2[..]);
      WordLanes.PutByte(arr2, p, block[p]);
      assert WordLanes.Bytes(arr2[..])[..p + 1] == b[..p] + [block[p]];
    }
    assert block[..|block|] == block;
  }

  /** Zeroed storage for the bucket bits. */
  method ClearWords(n: int) returns (a: array<int>)
    requires n >= 0
    ensures fresh(a) && a.Length == n && WordLanes.Words(a[..])
  {
    a := new int[n](_ => 0);
  }

  lemma BlockUsed(inUse: seq<bool>, block: seq<int>)
    requires Flagged(inUse, block) && Bytes(block)
    ensures |inUse| == 256 && MtfEncode.AllUsed(inUse, block)
  {
    assert forall i :: 0 <= i < |block| ==> block[i] in block;
  }

  /** A block that is not empty: magic number, checksum, coding. */
  method PutBlock(w: Writer, block: seq<int>, inUse: seq<bool>, blockCRC: u32, ghost crc: int)
    returns (ghost origPtr: int, ghost fm: seq<int>, ghost sent: BlockTables.Sent)
    requires w.Valid() && 0 < |block| <= 900_000 && Bytes(block) && Flagged(inUse, block) && blockCRC == Finalised(crc)
    modifies w
    ensures w.Valid() && BlockPipeline.Codes(block, fm, origPtr, sent) && sent.inUse == inUse
    ensures forall last, full :: w.Contents() == old(w.Contents()) +
                                 BlockPart(Emission(block, inUse, crc, last, full, origPtr, fm, sent))
  {
    ghost var c := w.Contents();
    MagicBytes();
    BlockUsed(inUse, block);
    assert PushAll(c, BLOCK_MAGIC) == c + ByteBits(BLOCK_MAGIC);
    hide *;
    PutMagic(w, BLOCK_MAGIC);
    PutUInt32(w, blockCRC);
    var n := |block|;
    var arr2 := LoadBlock(block);
    var arr1 := new int[n];
    var ftab := ClearWords(n / 32 + 3);
    origPtr, fm, sent := BlockPipeline.CompressBlock(w, arr1, arr2, ftab, n, inUse, block);
    PartIs(block, inUse, crc, origPtr, fm, sent, c);
  }

  lemma MagicBytes()
    ensures |BLOCK_MAGIC| == 6 && Bytes(BLOCK_MAGIC) && |END_MAGIC| == 6 && Bytes(END_MAGIC)
  {
  }

  lemma PartIs(block: seq<int>, inUse: seq<bool>, crc: int, origPtr: int, fm: seq<int>, sent: BlockTables.Sent,
               c: seq<bool>)
    requires block != [] && BlockPipeline.Codes(block, fm, origPtr, sent)
    ensures origPtr >= 0 && BlockTables.Ok(sent) && BlockTables.Headed(sent.lens)
    ensures forall last, full :: c + ByteBits(BLOCK_MAGIC) + BitsOf(Finalised(crc), 32) +
                                 BlockPipeline.BlockBits(origPtr, sent)
              == c + BlockPart(Emission(block, inUse, crc, last, full, origPtr, fm, sent))
  {
    BlockPipeline.CodesParts(block, fm, origPtr, sent);
    hide BlockPipeline.Codes, BlockPipeline.BlockBits, ByteBits, BitsOf, MtfEncode.AllUsed, Finalised;
    FourParts(c, ByteBits(BLOCK_MAGIC), BitsOf(Finalised(crc), 32), BlockPipeline.BlockBits(origPtr, sent));
  }

  lemma FourParts(a: seq<bool>, b: seq<bool>, c: seq<bool>, d: seq<bool>)
    ensures a + b + c + d == a + (b + c + d) && a + b + c == a + (b + c)
  {
  }

  /** The stream trailer. */
  method PutTrailer(w: Writer, combined: u32)
    requires w.Valid()
    modifies w
    ensures w.Valid() && w.Contents() == old(w.Contents()) + Trailer(combined)
  {
    ghost var c := w.Contents();
    MagicBytes();
    assert Trailer(combined) == ByteBits(END_MAGIC) + BitsOf(combined, 32);
    FourParts(c, ByteBits(END_MAGIC), BitsOf(combined, 32), []);
    assert PushAll(c, END_MAGIC) == c + ByteBits(END_MAGIC);
    hide *;
    PutMagic(w, END_MAGIC);
    PutUInt32(w, combined);
  }

  /** What BZ2_compressBlock writes: the header before the first block, the block unless it is empty, the
      trailer after the last. */
  method PutEmission(w: Writer, blockSize100k: int, blockNo: int, block: seq<int>, inUse: seq<bool>, blockCRC: u32,
                     combinedCRC: u32, last: bool, ghost full: bool, ghost crc: int, ghost es: seq<Emission>)
    returns (ghost e: Emission, ghost pad: nat)
    requires w.Valid() && 1 <= blockSize100k <= 9 && (blockNo == 1 <==> es == [])
    requires |block| <= 900_000 && Bytes(block) && Flagged(inUse, block) && (block != [] ==> blockCRC == Finalised(crc))
    requires combinedCRC == if block == [] then Combined(es) else Combine(Combined(es), blockCRC)
    modifies w
    ensures e.block == block && e.inUse == inUse && e.crc == crc && e.last == last && e.full == full
    ensures block != [] ==> BlockPipeline.Codes(block, e.fm, e.origPtr, e.sent) && e.sent.inUse == inUse
    ensures !last ==> w.Valid() && w.Contents() == old(w.Contents()) + Addition(blockSize100k, es, e)
    ensures last ==> w.zbits != [] && Bytes(w.zbits) && pad < 8 && ByteBits(w.zbits) == old(w.Contents()) +
                     Addition(blockSize100k, es, e) + Zeros(pad)
    ensures if last || block != [] || blockNo == 1 then w.zbits != [] else w.zbits == old(w.zbits)
  {
    hide *;
    ghost var c := w.Contents();
    ghost var head, part, tail := [], [], [];
    if blockNo == 1 {
      PutHeader(w, blockSize100k);
      head := ByteBits(HeaderBytes(blockSize100k));
    }
    ghost var o, fm, sent := 0, [], BlockTables.Sent([], [], [], []);
    if |block| > 0 {
      o, fm, sent := PutBlock(w, block, inUse, blockCRC, crc);
    }
    e := Emission(block, inUse, crc, last, full, o, fm, sent);
    part := BlockPart(e);
    EmptyPart(e);
    CombinedSnoc(es, e);
    pad := 0;
    if last {
      PutTrailer(w, combinedCRC);
      tail := Trailer(combinedCRC);
      pad := w.Finish();
    }
    HeadPushed(c, blockSize100k);
    AdditionParts(blockSize100k, es, e, head, part, tail);
    Joined(c, head, part, tail);
    if last {
      SomeBytes(w.zbits, c + head + part, Zeros(pad), combinedCRC);
    } else if block != [] {
      PartLong(e);
      LiveBits(w);
      ShippedSome(w);
    } else if blockNo == 1 {
      ShippedSome(w);
    }
  }

  lemma PartLong(e: Emission)
    requires e.block != [] && BlockPipeline.Codes(e.block, e.fm, e.origPtr, e.sent)
    ensures |BlockPart(e)| > 32
  {
    hide BlockPipeline.Codes, BlockPipeline.BlockBits, BitsOf;
    assert |ByteBits(BLOCK_MAGIC)| == 48;
  }

  /** More bits than the buffer holds mean a byte was shipped. */
  lemma ShippedSome(w: Writer)
    requires w.Valid() && |w.Contents()| > w.bsLive
    ensures w.zbits != []
  {
    WriterBounds(w.bsBuff, w.bsLive);
    assert |w.Contents()| == |ByteBits(w.zbits)| + w.bsLive;
    hide WriterOk;
  }

  lemma LiveBits(w: Writer)
    requires w.Valid()
    ensures 0 <= w.bsLive <= 32
  {
    WriterBounds(w.bsBuff, w.bsLive);
  }

  lemma SomeBytes(z: seq<int>, c: seq<bool>, d: seq<bool>, combined: u32)
    requires ByteBits(z) == c + Trailer(combined) + d
    ensures z != []
  {
    assert |c + Trailer(combined) + d| >= |BitsOf(combined, 32)|;
    hide ByteBits, BitsOf;
  }

  lemma EmptyPart(e: Emission)
    ensures e.block == [] ==> BlockPart(e) == []
  {
  }

  lemma HeadPushed(c: seq<bool>, n: int)
    ensures PushAll(c, HeaderBytes(n)) == c + ByteBits(HeaderBytes(n))
  {
  }

  lemma AdditionParts(n: int, es: seq<Emission>, e: Emission, head: seq<bool>, part: seq<bool>, tail: seq<bool>)
    requires head == (if es == [] then ByteBits(HeaderBytes(n)) else []) && part == BlockPart(e)
    requires tail == if e.last then Trailer(Combined(es + [e])) else []
    ensures Addition(n, es, e) == head + part + tail
  {
    hide ByteBits, BlockPart, Trailer, Combined;
  }

  lemma Joined(c: seq<bool>, head: seq<bool>, part: seq<bool>, tail: seq<bool>)
    ensures c + (head + part + tail) == c + head + part + tail
    ensures head == [] ==> c + head == c
    ensures part == [] ==> c + head + part == c + head
    ensures tail == [] ==> c + head + part + tail == c + head + part
  {
  }

  // ---- what was handed out, against what was written ----

  /** The bytes shipped so far and the bits still in the buffer are those written;
      at the end of the stream there are only bytes, the last one filled up with zeros. */
  ghost predicate Carries(bytes: seq<int>, buff: int, live: int, bits: seq<bool>, ended: bool) {
    && Bytes(bytes)
    && (!ended ==> WriterOk(buff, live) && ByteBits(bytes) + Pending(buff, live) == bits)
    && (ended ==> Padded(bytes, bits))
  }

  /** The bytes hold the bits, and fewer than eight zeros after them. */
  ghost predicate Padded(bytes: seq<int>, bits: seq<bool>) {
    exists pad: nat :: pad < 8 && ByteBits(bytes) == bits + Zeros(pad)
  }

  /** The bytes are the complete stream of the blocks es. */
  ghost predicate WholeStream(bytes: seq<int>, blockSize100k: int, es: seq<Emission>) {
    Bytes(bytes) && Padded(bytes, StreamBits(blockSize100k, es))
  }

  lemma BitsSnoc(b: seq<int>, x: int)
    ensures ByteBits(b + [x]) == Push(ByteBits(b), x)
  {
    assert (b + [x])[..|b|] == b;
    hide BitsOf;
  }

  lemma PushJoin(c: seq<bool>, d: seq<bool>, x: int)
    ensures c + Push(d, x) == Push(c + d, x)
  {
    hide BitsOf;
  }

  lemma {:induction false} ByteBitsConcat(a: seq<int>, b: seq<int>)
    ensures ByteBits(a + b) == ByteBits(a) + ByteBits(b)
    decreases |b|
  {
    hide *;
    BackOf(a, b);
    if b == [] {
      NoBits(ByteBits(a));
    } else {
      var f, x := b[..|b| - 1], b[|b| - 1];
      ByteBitsConcat(a, f);
      BitsSnoc(a + f, x);
      BitsSnoc(f, x);
      PushJoin(ByteBits(a), ByteBits(f), x);
    }
  }

  lemma BackOf(a: seq<int>, b: seq<int>)
    ensures b == [] ==> a + b == a
    ensures b != [] ==> b == b[..|b| - 1] + [b[|b| - 1]] && a + b == (a + b[..|b| - 1]) + [b[|b| - 1]]
  {
  }

  lemma NoBits(c: seq<bool>)
    ensures ByteBits([]) == [] && c + [] == c && [] + c == c
  {
  }

  /** One more block after everything before was handed out. */
  lemma {:induction false} CarriesNext(given: seq<int>, buff: int, live: int, n: int, es: seq<Emission>, e: Emission,
                                       z: seq<int>, buff': int, live': int, pad: nat)
    requires !Ended(es) && Carries(given, buff, live, StreamBits(n, es), false) && Bytes(z) && 0 <= live <= 32 &&
             buff >= 0
    requires !e.last ==> WriterOk(buff', live') && ByteBits(z) + Pending(buff', live') == Pending(buff, live) +
                         Addition(n, es, e)
    requires e.last ==> pad < 8 && ByteBits(z) == Pending(buff, live) + Addition(n, es, e) + Zeros(pad)
    ensures Carries(given + z, buff', live', StreamBits(n, es + [e]), e.last)
  {
    hide *;
    hide Pending, WriterOk, Zeros;
    StreamSnoc(n, es, e);
    ByteBitsConcat(given, z);
    CarriesOpen(given, buff, live, StreamBits(n, es));
    BytesJoin(given, z);
    if e.last {
      NextEnded(given + z, ByteBits(given), Pending(buff, live), Addition(n, es, e), pad, buff', live',
        StreamBits(n, es + [e]));
    } else {
      NextOpen(given + z, ByteBits(given), Pending(buff, live), Addition(n, es, e), ByteBits(z), buff', live',
        StreamBits(n, es + [e]));
    }
  }

  lemma CarriesOpen(bytes: seq<int>, buff: int, live: int, bits: seq<bool>)
    requires Carries(bytes, buff, live, bits, false)
    ensures Bytes(bytes) && WriterOk(buff, live) && 0 <= live <= 32 && buff >= 0 &&
            ByteBits(bytes) + Pending(buff, live) == bits
  {
  }

  lemma BytesJoin(a: seq<int>, b: seq<int>)
    requires Bytes(a) && Bytes(b)
    ensures Bytes(a + b)
  {
  }

  lemma NextEnded(bytes: seq<int>, g: seq<bool>, p: seq<bool>, a: seq<bool>, pad: nat, buff: int, live: int,
                  bits: seq<bool>)
    requires Bytes(bytes) && pad < 8 && ByteBits(bytes) == g + (p + a + Zeros(pad)) && bits == g + p + a
    ensures Carries(bytes, buff, live, bits, true)
  {
    hide ByteBits, Zeros, Bytes, WriterOk;
    Associate(g, p, a);
    Associate(g, p + a, Zeros(pad));
  }

  lemma NextOpen(bytes: seq<int>, g: seq<bool>, p: seq<bool>, a: seq<bool>, bz: seq<bool>, buff: int, live: int,
                 bits: seq<bool>)
    requires Bytes(bytes) && WriterOk(buff, live) && ByteBits(bytes) == g + bz && bz + Pending(buff, live) == p + a &&
             bits == g + p + a
    ensures Carries(bytes, buff, live, bits, false)
  {
    hide ByteBits, Bytes, BitsOf, Pending;
    Associate(g, p, a);
    Associate(g, bz, Pending(buff, live));
  }
}
