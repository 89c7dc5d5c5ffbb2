/** BZ2_bzDecompress on a complete stream: the header, then block after block
    and the trailer, read from one bit stream that arrives in any input buffers,
    and handed out through output buffers of any size. */
module Decompressor {
  import opened Bits
  import opened BitStream
  import opened RunLength
  import opened Checksums
  import opened StreamFormat
  import BlockPipeline
  import BlockTables
  import RunDecode

  // ---- the blocks a stream holds ----

  /** The blocks that are not empty. */
  ghost function Blocks(es: seq<Emission>): (bs: seq<Emission>) {
    if es == [] then []
    else if es[|es| - 1].block == [] then Blocks(es[..|es| - 1])
    else Blocks(es[..|es| - 1]) + [es[|es| - 1]]
  }

  /** Leaving out the empty blocks changes neither the bytes, nor the bits, nor the checksum. */
  lemma {:induction false} BlocksKeep(es: seq<Emission>)
    ensures DecodeAll(Blocks(es)) == DecodeAll(es) && Parts(Blocks(es)) == Parts(es) && Combined(Blocks(es)) ==
            Combined(es)
  {
    if es != [] {
      var f, e := es[..|es| - 1], es[|es| - 1];
      BlocksKeep(f);
      assert Decode([]) == [] && (e.block == [] ==> BlockPart(e) == []);
      hide BlockPart, Decode;
      if e.block != [] { assert (Blocks(f) + [e])[..|Blocks(f)|] == Blocks(f); }
    }
  }

  /** Every block is good and not empty. */
  ghost predicate Good(bs: seq<Emission>, level: int, step: (int, int) -> int) {
    forall i :: 0 <= i < |bs| ==> SealedOne(bs[i], 100_000 * level - 19, step) && bs[i].block != []
  }

  lemma {:induction false} BlocksGood(es: seq<Emission>, level: int, step: (int, int) -> int)
    requires AllSealed(es, 100_000 * level - 19, step)
    ensures Good(Blocks(es), level, step)
  {
    hide SealedOne;
    if es != [] { BlocksGood(es[..|es| - 1], level, step); }
  }

  /** The bits of the blocks, from the first on. */
  ghost function PartsFrom(bs: seq<Emission>): seq<bool> {
    if bs == [] then [] else BlockPart(bs[0]) + PartsFrom(bs[1..])
  }

  lemma {:induction false} FromSnoc(bs: seq<Emission>, e: Emission)
    ensures PartsFrom(bs + [e]) == PartsFrom(bs) + BlockPart(e)
  {
    hide BlockPart;
    if bs == [] {
      assert (bs + [e])[1..] == [];
    } else {
      FromSnoc(bs[1..], e);
      assert (bs + [e])[1..] == bs[1..] + [e];
    }
  }

  lemma {:induction false} PartsFromIs(bs: seq<Emission>)
    ensures PartsFrom(bs) == Parts(bs)
  {
    hide *;
    PartsBack(bs);
    SnocOf(bs);
    if bs != [] {
      PartsFromIs(bs[..|bs| - 1]);
      FromSnoc(bs[..|bs| - 1], bs[|bs| - 1]);
    }
  }

  lemma PartsBack(bs: seq<Emission>)
    ensures bs == [] ==> PartsFrom(bs) == [] && Parts(bs) == []
    ensures bs != [] ==> Parts(bs) == Parts(bs[..|bs| - 1]) + BlockPart(bs[|bs| - 1])
  {
    hide BlockPart;
  }

  lemma SnocOf(bs: seq<Emission>)
    ensures bs != [] ==> bs == bs[..|bs| - 1] + [bs[|bs| - 1]]
  {
  }

  /** What is to be read at block k, and the block's fields if there is one. */
  ghost function From(bs: seq<Emission>, k: nat, tail: seq<bool>): seq<bool>
    requires k <= |bs|
  {
    PartsFrom(bs[k..]) + (Trailer(Combined(bs)) + tail)
  }

  lemma {:induction false} FromBlock(bs: seq<Emission>, k: nat, tail: seq<bool>, level: int, step: (int, int) -> int)
    requires k < |bs| && Good(bs, level, step)
    ensures bs[k].origPtr >= 0 && BlockTables.Ok(bs[k].sent) && BlockTables.Headed(bs[k].sent.lens)
    ensures BlockPipeline.Codes(bs[k].block, bs[k].fm, bs[k].origPtr, bs[k].sent)
    ensures From(bs, k, tail) == ByteBits(BLOCK_MAGIC)
              + (BitsOf(Finalised(bs[k].crc), 32) + (BlockPipeline.BlockBits(bs[k].origPtr, bs[k].sent) +
                From(bs, k + 1, tail)))
  {
    var e := bs[k];
    hide *;
    GoodPart(bs, k, level, step);
    PartsAt(bs, k, tail);
    FiveParts(ByteBits(BLOCK_MAGIC), BitsOf(Finalised(e.crc), 32), BlockPipeline.BlockBits(e.origPtr, e.sent),
      PartsFrom(bs[k + 1..]), Trailer(Combined(bs)) + tail);
  }

  lemma GoodPart(bs: seq<Emission>, k: nat, level: int, step: (int, int) -> int)
    requires k < |bs| && Good(bs, level, step)
    ensures BlockPipeline.Codes(bs[k].block, bs[k].fm, bs[k].origPtr, bs[k].sent)
    ensures bs[k].origPtr >= 0 && BlockTables.Ok(bs[k].sent) && BlockTables.Headed(bs[k].sent.lens)
    ensures BlockPart(bs[k]) == ByteBits(BLOCK_MAGIC) + BitsOf(Finalised(bs[k].crc), 32) +
            BlockPipeline.BlockBits(bs[k].origPtr, bs[k].sent)
  {
    var e := bs[k];
    assert SealedOne(e, 100_000 * level - 19, step) && e.block != [];
    hide Good, SealedOne, ByteBits, BitsOf, BlockPipeline.BlockBits, Finalised;
    BlockPipeline.CodesParts(e.block, e.fm, e.origPtr, e.sent);
    hide BlockPipeline.Codes, BlockTables.Ok, BlockTables.Headed;
  }

  lemma PartsAt(bs: seq<Emission>, k: nat, tail: seq<bool>)
    requires k < |bs|
    ensures From(bs, k, tail) == BlockPart(bs[k]) + PartsFrom(bs[k + 1..]) + (Trailer(Combined(bs)) + tail)
    ensures From(bs, k + 1, tail) == PartsFrom(bs[k + 1..]) + (Trailer(Combined(bs)) + tail)
  {
    assert bs[k..][1..] == bs[k + 1..];
    hide BlockPart, Trailer, Combined;
  }

  lemma FiveParts(a: seq<bool>, b: seq<bool>, c: seq<bool>, d: seq<bool>, e: seq<bool>)
    ensures a + b + c + d + e == a + (b + (c + (d + e)))
  {
  }

  lemma {:induction false} FromEnd(bs: seq<Emission>, tail: seq<bool>)
    ensures From(bs, |bs|, tail) == ByteBits(END_MAGIC) + (BitsOf(Combined(bs), 32) + tail)
  {
    hide ByteBits, BitsOf, Combined;
    assert bs[|bs|..] == [] && PartsFrom(bs[|bs|..]) == [];
    TrailerJoin(ByteBits(END_MAGIC), BitsOf(Combined(bs), 32), tail);
  }

  lemma TrailerJoin(a: seq<bool>, b: seq<bool>, c: seq<bool>)
    ensures [] + ((a + b) + c) == a + (b + c)
  {
  }

  /** A complete stream is its header and then its blocks from the first on. */
  lemma {:induction false} StreamFrom(n: int, es: seq<Emission>, pad: nat)
    requires Ended(es)
    ensures StreamBits(n, es) + Zeros(pad) == ByteBits(HeaderBytes(n)) + From(Blocks(es), 0, Zeros(pad))
  {
    var bs := Blocks(es);
    BlocksKeep(es);
    PartsFromIs(bs);
    assert bs[0..] == bs;
    hide Blocks, ByteBits, Parts, PartsFrom, Trailer, Combined, Zeros;
    assert StreamBits(n, es) == ByteBits(HeaderBytes(n)) + Parts(es) + Trailer(Combined(es));
    FourJoin(ByteBits(HeaderBytes(n)), Parts(es), Trailer(Combined(es)), Zeros(pad));
  }

  lemma FourJoin(a: seq<bool>, b: seq<bool>, c: seq<bool>, d: seq<bool>)
    ensures a + b + c + d == a + (b + (c + d))
  {
  }

  // ---- reading fields ----

  /** GET_UCHAR, where the bytes m come next. */
  method GetUChar(r: Reader, ghost m: seq<int>, ghost rest: seq<bool>) returns (uc: int)
    requires r.Valid() && m != [] && Bytes(m) && r.Remaining() == ByteBits(m) + rest
    modifies r
    ensures r.Valid() && uc == m[0] && r.Remaining() == ByteBits(m[1..]) + rest
  {
    ByteFits(m[0]);
    FrontByte(m, rest);
    hide *;
    uc := r.GetField(8, m[0], ByteBits(m[1..]) + rest);
  }

  lemma FrontByte(m: seq<int>, rest: seq<bool>)
    requires m != [] && m[0] >= 0
    ensures ByteBits(m) + rest == BitsOf(m[0], 8) + (ByteBits(m[1..]) + rest)
  {
    ByteBitsFront(m);
    hide *;
    Associate(BitsOf(m[0], 8), ByteBits(m[1..]), rest);
  }

  /** The bytes of m from k on, and then the rest. */
  ghost function Left(m: seq<int>, k: nat, rest: seq<bool>): seq<bool>
    requires k <= |m|
  {
    ByteBits(m[k..]) + rest
  }

  /** GET_UCHAR, at byte k of m. */
  method NextByte(r: Reader, ghost m: seq<int>, ghost k: nat, ghost rest: seq<bool>) returns (uc: int)
    requires r.Valid() && k < |m| && Bytes(m) && r.Remaining() == Left(m, k, rest)
    modifies r
    ensures r.Valid() && uc == m[k] && r.Remaining() == Left(m, k + 1, rest)
  {
    SomeLeft(m, k, rest);
    hide *;
    uc := GetUChar(r, m[k..], rest);
  }

  /** Byte k of m, shifted into x. */
  method ShiftByte(r: Reader, x: u32, ghost m: seq<int>, ghost k: nat, ghost rest: seq<bool>) returns (v: u32)
    requires r.Valid() && k < |m| && Bytes(m) && r.Remaining() == Left(m, k, rest)
    modifies r
    ensures r.Valid() && v == Shift(x, m[k]) && r.Remaining() == Left(m, k + 1, rest)
  {
    hide *;
    var uc := NextByte(r, m, k, rest);
    v := Shift(x, uc);
  }

  lemma SomeLeft(m: seq<int>, k: nat, rest: seq<bool>)
    requires k < |m| && Bytes(m)
    ensures m[k..] != [] && Bytes(m[k..]) && m[k..][0] == m[k]
    ensures Left(m, k, rest) == ByteBits(m[k..]) + rest && Left(m, k + 1, rest) == ByteBits(m[k..][1..]) + rest
  {
    assert m[k..][1..] == m[k + 1..];
    hide ByteBits;
  }

  /** Four bytes shifted into a word, as the checksums are read. */
  method GetUInt32(r: Reader, ghost u: u32, ghost rest: seq<bool>) returns (v: u32)
    requires r.Valid() && r.Remaining() == BitsOf(u, 32) + rest
    modifies r
    ensures r.Valid() && v == u && r.Remaining() == rest
  {
    ghost var m := WordBytes(u);
    WordBits(u);
    WordValue(u);
    LeftEnds(m, rest);
    hide *;
    v := ShiftByte(r, 0, m, 0, rest);
    v := ShiftByte(r, v, m, 1, rest);
    v := ShiftByte(r, v, m, 2, rest);
    v := ShiftByte(r, v, m, 3, rest);
  }

  /** (x << 8) | c */
  function Shift(x: u32, c: int): (r: u32)
    ensures 0 <= c < 256 && x < 0x100_0000 ==> r == 0x100 * x + c
  {
    if 0 <= c < 256 then
      ShiftFits(x, c);
      Or(Shl32(x, 8), c)
    else 0
  }

  lemma ShiftFits(x: u32, c: nat)
    requires c < 256
    ensures Or(Shl32(x, 8), c) < 0x1_0000_0000
    ensures x < 0x100_0000 ==> Or(Shl32(x, 8), c) == 0x100 * x + c
  {
    Pow2Values();
    hide Or, Pow2;
    OrBelow(Shl32(x, 8), c, 32);
    if x < 0x100_0000 { BlockPipeline.ShiftIn(x, c); }
  }

  lemma WordValue(u: u32)
    ensures var m := WordBytes(u); Shift(Shift(Shift(Shift(0, m[0]), m[1]), m[2]), m[3]) == u
  {
    var m := WordBytes(u);
    WordQuotients(u);
    hide *;
    var a, b, c := u / 0x100, u / 0x1_0000, u / 0x100_0000;
    assert u == 0x100 * a + m[3] && a == 0x100 * b + m[2] && b == 0x100 * c + m[1] && c == m[0];
    assert Shift(0, m[0]) == c && Shift(c, m[1]) == b && Shift(b, m[2]) == a;
  }

  /** Nothing of m was read yet, its first byte was, or all of it. */
  lemma LeftEnds(m: seq<int>, rest: seq<bool>)
    ensures Left(m, 0, rest) == ByteBits(m) + rest && Left(m, |m|, rest) == rest
    ensures |m| > 0 ==> Left(m, 1, rest) == ByteBits(m[1..]) + rest
  {
    assert m[0..] == m && m[|m|..] == [] && ByteBits([]) == [];
    hide ByteBits;
  }

  /** The rest of a magic number, once its first byte was read. */
  method GetMagic(r: Reader, m: seq<int>, ghost rest: seq<bool>) returns (ok: bool)
    requires r.Valid() && |m| == 6 && Bytes(m) && r.Remaining() == Left(m, 1, rest)
    modifies r
    ensures r.Valid() && ok && r.Remaining() == rest
  {
    LeftEnds(m, rest);
    hide *;
    for k := 1 to 6
      invariant r.Valid() && r.Remaining() == Left(m, k, rest)
    {
      var uc := NextByte(r, m, k, rest);
      if uc != m[k] { return false; }
    }
    ok := true;
  }

  lemma HeaderHas(n: int)
    requires 1 <= n <= 9
    ensures var h := HeaderBytes(n); Bytes(h) && |h| == 4 && h[0] == 0x42 && h[1] == 0x5a && h[2] == 0x68 &&
                                     h[3] == 0x30 + n
  {
  }

  /** "BZh" and the block size. */
  method GetHeader(r: Reader, ghost level: int, ghost rest: seq<bool>) returns (ok: bool, blockSize100k: int)
    requires 1 <= level <= 9 && r.Valid() && r.Remaining() == ByteBits(HeaderBytes(level)) + rest
    modifies r
    ensures r.Valid() && ok && blockSize100k == level && r.Remaining() == rest
  {
    ghost var h := HeaderBytes(level);
    HeaderHas(level);
    LeftEnds(h, rest);
    hide *;
    ok, blockSize100k := false, 0;
    var uc := NextByte(r, h, 0, rest);
    if uc != 0x42 { return; }
    uc := NextByte(r, h, 1, rest);
    if uc != 0x5a { return; }
    uc := NextByte(r, h, 2, rest);
    if uc != 0x68 { return; }
    uc := NextByte(r, h, 3, rest);
    if uc < 0x31 || uc > 0x39 { return; }
    ok, blockSize100k := true, uc - 0x30;
  }

  // ---- the states of the decompressor ----

  datatype Phase = Magic | BlockHeader | Output | Idle
  datatype Code = Ok | StreamEnd | SequenceError | DataError | DataErrorMagic

  class DStream {
    const small: bool
    const step: (int, int) -> int
    const r: Reader
    // the blocks the stream holds, its block size, and what follows the trailer
    ghost const bs: seq<Emission>
    ghost const level: int
    ghost const tail: seq<bool>

    var phase: Phase
    var blockSize100k: int
    var s: RunDecode.DState?
    var storedBlockCRC: u32
    var storedCombinedCRC: u32
    var calculatedCombinedCRC: u32
    // the caller's room and what this call wrote
    var availOut: int
    var written: seq<int>
    // how many blocks are behind, and all bytes handed out
    ghost var done: nat
    ghost var given: seq<int>

    /** The stream was not looked at yet. */
    ghost predicate AtMagic()
      reads this`done, this`given, this`calculatedCombinedCRC, r
    {
      && done == 0 && given == [] && calculatedCombinedCRC == 0 && r.Valid()
      && r.Remaining() == ByteBits(HeaderBytes(level)) + From(bs, 0, tail)
    }

    /** The next thing to read is block k, or the trailer. */
    ghost predicate Ahead(k: nat)
      reads this`blockSize100k, r
    {
      blockSize100k == level && r.Valid() && k <= |bs| && r.Remaining() == From(bs, k, tail)
    }

    /** Between blocks. */
    ghost predicate AtHeader()
      reads this`done, this`given, this`calculatedCombinedCRC, this`blockSize100k, r
    {
      Ahead(done) && given == DecodeAll(bs[..done]) && calculatedCombinedCRC == Combined(bs[..done])
    }

    /** While block `done` is handed out. */
    ghost predicate AtOutput()
      reads this`done, this`given, this`calculatedCombinedCRC, this`blockSize100k, this`storedBlockCRC, this`s, r, s
      reads if s == null then {} else {s.tt, s.ll16, s.ll4, s.cftab}
    {
      && done < |bs| && Ahead(done + 1) && s != null && s.Valid() && s.b == bs[done].block && s.step == step
      && storedBlockCRC == Finalised(bs[done].crc) && calculatedCombinedCRC == Combined(bs[..done])
      && given == DecodeAll(bs[..done]) + s.given
    }

    ghost predicate Valid()
      reads this`phase, this`done, this`given, this`calculatedCombinedCRC, this`blockSize100k, this`storedBlockCRC,
            this`s, r, s
      reads if s == null then {} else {s.tt, s.ll16, s.ll4, s.cftab}
    {
      && 1 <= level <= 9 && Good(bs, level, step) && done <= |bs|
      && match phase
         case Magic => AtMagic()
         case BlockHeader => AtHeader()
         case Output => AtOutput()
         case Idle => given == DecodeAll(bs)
    }

    constructor (small: bool, step: (int, int) -> int, pieces: seq<seq<int>>, ghost bs: seq<Emission>,
                 ghost level: int, ghost tail: seq<bool>)
      requires 1 <= level <= 9 && Good(bs, level, step) && Bytes(Concat(pieces))
      requires ByteBits(Concat(pieces)) == ByteBits(HeaderBytes(level)) + From(bs, 0, tail)
      ensures Valid() && phase.Magic? && given == [] && this.bs == bs && this.small == small && fresh(r) && s == null
    {
      hide *;
      this.small := small;
      this.step := step;
      r := new Reader(pieces);
      this.bs := bs;
      this.level := level;
      this.tail := tail;
      phase := Magic;
      blockSize100k := 0;
      s := null;
      storedBlockCRC := 0;
      storedCombinedCRC := 0;
      calculatedCombinedCRC := 0;
      availOut := 0;
      written := [];
      done := 0;
      given := [];
      new;
      Opened();
    }

    lemma Opened()
      requires 1 <= level <= 9 && Good(bs, level, step) && done == 0 && given == [] && calculatedCombinedCRC == 0 &&
               phase == Magic
      requires r.Valid() && r.Remaining() == ByteBits(HeaderBytes(level)) + From(bs, 0, tail)
      ensures Valid()
    {
      hide Good, From, ByteBits, HeaderBytes;
    }

    /** "BZh" and the block size. */
    method ReadHeader() returns (code: Code)
      requires AtMagic() && 1 <= level <= 9
      modifies this`blockSize100k, this`phase, r
      ensures code == Ok && phase.BlockHeader? && AtHeader()
    {
      Starting();
      hide *;
      var ok;
      ok, blockSize100k := GetHeader(r, level, From(bs, 0, tail));
      if !ok { return DataErrorMagic; }
      phase := BlockHeader;
      code := Ok;
      Started();
    }

    lemma Starting()
      requires AtMagic()
      ensures r.Valid() && r.Remaining() == ByteBits(HeaderBytes(level)) + From(bs, 0, tail)
      ensures done == 0 && given == DecodeAll(bs[..0]) && calculatedCombinedCRC == Combined(bs[..0])
    {
      hide From, ByteBits, HeaderBytes;
    }

    lemma Started()
      requires blockSize100k == level && r.Valid() && r.Remaining() == From(bs, 0, tail) && done == 0
      requires given == DecodeAll(bs[..0]) && calculatedCombinedCRC == Combined(bs[..0])
      ensures AtHeader()
    {
      hide From;
    }

    /** A block's checksum and the block itself, once the first byte of its magic number was read. */
    method ReadBlock() returns (code: Code)
      requires 1 <= level <= 9 && Good(bs, level, step) && done < |bs| && blockSize100k == level
      requires r.Valid() && r.Remaining() == Left(BLOCK_MAGIC, 1, BlockAhead(bs, done, tail))
      requires given == DecodeAll(bs[..done]) && calculatedCombinedCRC == Combined(bs[..done])
      modifies this`storedBlockCRC, this`s, this`phase, r
      ensures code == Ok && phase.Output? && AtOutput() && fresh(s)
    {
      hide *;
      var ok;
      ok, storedBlockCRC, s := GetBlock(r, small, step, blockSize100k, bs, done, tail, level);
      if !ok { return DataError; }
      phase := Output;
      code := Ok;
      Outputs();
    }

    lemma Outputs()
      requires done < |bs| && blockSize100k == level && r.Valid() && r.Remaining() == From(bs, done + 1, tail)
      requires s != null && s.Valid() && s.b == bs[done].block && s.step == step && s.given == []
      requires storedBlockCRC == Finalised(bs[done].crc) && calculatedCombinedCRC == Combined(bs[..done]) &&
               given == DecodeAll(bs[..done])
      ensures AtOutput()
    {
      hide From, DecodeAll, Combined;
    }

    /** The trailer's checksum, once the first byte of its magic number was read. */
    method ReadTrailer() returns (code: Code)
      requires r.Valid() && r.Remaining() == Left(END_MAGIC, 1, BitsOf(Combined(bs), 32) + tail) &&
               given == DecodeAll(bs)
      modifies this`storedCombinedCRC, this`phase, r
      ensures code == StreamEnd && phase.Idle? && storedCombinedCRC == Combined(bs)
    {
      MagicBytes();
      hide *;
      var ok := GetMagic(r, END_MAGIC, BitsOf(Combined(bs), 32) + tail);
      if !ok { return DataError; }
      storedCombinedCRC := GetUInt32(r, Combined(bs), tail);
      phase := Idle;
      code := StreamEnd;
    }

    /** BZ2_decompress: the header if it was not read, then a block or the trailer. */
    method Parse() returns (code: Code)
      requires Valid() && (phase.Magic? || phase.BlockHeader?)
      modifies this`blockSize100k, this`storedBlockCRC, this`storedCombinedCRC, this`s, this`phase, r
      ensures Valid() && (s == old(s) || fresh(s))
      ensures code == Ok ==> phase.Output? && done < |bs|
      ensures code != Ok ==> code == StreamEnd && phase.Idle? && storedCombinedCRC == Combined(bs) ==
                             calculatedCombinedCRC
    {
      hide *;
      if phase.Magic? {
        MagicParts();
        code := ReadHeader();
        if code != Ok { return; }
      } else {
        HeaderParts();
      }
      HeaderNext();
      var uc := GetFirst(r, bs, done, tail, level, step);
      if uc == 0x17 {
        code := ReadTrailer();
        Idles();
        return;
      }
      if uc != 0x31 { return DataError; }
      code := ReadBlock();
      OutputValid();
    }

    lemma MagicParts()
      requires Valid() && phase.Magic?
      ensures 1 <= level <= 9 && Good(bs, level, step) && AtMagic()
    {
      hide Good, AtMagic;
    }

    lemma HeaderParts()
      requires Valid() && phase.BlockHeader?
      ensures 1 <= level <= 9 && Good(bs, level, step) && AtHeader()
    {
      hide Good, AtHeader;
    }

    lemma HeaderNext()
      requires AtHeader()
      ensures done <= |bs| && blockSize100k == level && given == DecodeAll(bs[..done]) && calculatedCombinedCRC ==
              Combined(bs[..done])
      ensures r.Valid() && r.Remaining() == From(bs, done, tail)
      ensures done == |bs| ==> bs[..done] == bs
    {
      hide From, DecodeAll, Combined;
    }

    lemma Idles()
      requires 1 <= level <= 9 && Good(bs, level, step) && done == |bs| && given == DecodeAll(bs) && phase.Idle?
      ensures Valid()
    {
      hide Good, DecodeAll;
    }

    lemma OutputValid()
      requires 1 <= level <= 9 && Good(bs, level, step) && AtOutput() && phase.Output?
      ensures Valid() && done < |bs|
    {
      hide Good, From, DecodeAll, Combined;
    }

    // ---- the interface ----

    /** What a call did: room - availOut bytes were written, and they extend what was given before. */
    ghost predicate Gave(room: int, before: seq<int>)
      reads this`written, this`availOut, this`given
    {
      availOut >= 0 && |written| == room - availOut && given == before + written
    }

    lemma OutputParts()
      requires Valid() && phase.Output?
      ensures 1 <= level <= 9 && Good(bs, level, step) && AtOutput()
    {
      hide Good, AtOutput;
    }

    lemma OutputIs()
      requires AtOutput()
      ensures done < |bs| && Ahead(done + 1) && s != null && s.Valid() && s.b == bs[done].block && s.step == step
      ensures storedBlockCRC == Finalised(bs[done].crc) && calculatedCombinedCRC == Combined(bs[..done])
      ensures given == DecodeAll(bs[..done]) + s.given
    {
      hide Ahead, Combined, DecodeAll;
    }

    lemma OutputAgain(more: seq<int>, was: seq<int>)
      requires done < |bs| && Ahead(done + 1) && s != null && s.Valid() && s.b == bs[done].block && s.step == step
      requires storedBlockCRC == Finalised(bs[done].crc) && calculatedCombinedCRC == Combined(bs[..done])
      requires s.given == was + more && given == DecodeAll(bs[..done]) + was + more
      ensures AtOutput()
    {
      hide *;
      MoreGiven(DecodeAll(bs[..done]), was, more);
      OutputWhole();
    }

    lemma OutputWhole()
      requires done < |bs| && Ahead(done + 1) && s != null && s.Valid() && s.b == bs[done].block && s.step == step
      requires storedBlockCRC == Finalised(bs[done].crc) && calculatedCombinedCRC == Combined(bs[..done])
      requires given == DecodeAll(bs[..done]) + s.given
      ensures AtOutput()
    {
      hide Ahead, Combined, DecodeAll;
    }

    /** unRLE_obuf_to_output: bytes of the block, until it is finished or the room is. */
    method HandOut(ghost room: int, ghost before: seq<int>) returns (finished: bool)
      requires Valid() && phase.Output? && Gave(room, before)
      modifies this`written, this`availOut, this`given, s
      ensures Valid() && Gave(room, before) && s != null && (finished <==> s.Done())
      ensures !finished ==> availOut == 0
    {
      hide *;
      OutputParts();
      OutputIs();
      GaveIs(room, before);
      ghost var was, w := s.given, written;
      s.Output(availOut);
      written := written + s.written;
      given := given + s.written;
      availOut := availOut - |s.written|;
      OutputAgain(s.written, was);
      GaveMore(s.written, w, room, before);
      OutputValid();
      s.DoneIs();
      finished := s.nblockUsed == s.saveNblock + 1 && s.stateOutLen == 0;
    }

    lemma GaveIs(room: int, before: seq<int>)
      requires Gave(room, before)
      ensures availOut >= 0 && |written| == room - availOut && given == before + written
    {
    }

    lemma GaveMore(more: seq<int>, w: seq<int>, room: int, before: seq<int>)
      requires availOut >= 0 && written == w + more && |w| + |more| == room - availOut && given == before + w + more
      ensures Gave(room, before)
    {
    }

    /** The block is finished: its checksum is compared, and taken into the stream's. */
    method EndBlock() returns (code: Code)
      requires Valid() && phase.Output? && s != null && s.Done()
      modifies this`calculatedCombinedCRC, this`phase, this`done
      ensures code == Ok && Valid() && phase.BlockHeader? && done == old(done) + 1
    {
      hide *;
      OutputParts();
      OutputIs();
      s.DoneMeansAll();
      BlockGood(bs, done, level, step);
      var crc := Finalised(s.calculatedBlockCRC);
      if crc != storedBlockCRC { return DataError; }
      OneMore(bs, done);
      calculatedCombinedCRC := Combine(calculatedCombinedCRC, crc);
      phase := BlockHeader;
      done := done + 1;
      code := Ok;
      HeaderAgain();
    }

    lemma HeaderAgain()
      requires 1 <= level <= 9 && Good(bs, level, step) && phase.BlockHeader? && done <= |bs| && Ahead(done)
      requires given == DecodeAll(bs[..done]) && calculatedCombinedCRC == Combined(bs[..done])
      ensures Valid()
    {
      hide Good, DecodeAll, Combined, Ahead;
    }

    /** What was handed out is the front of what the stream holds; at the end it is all, and before it is not. */
    lemma {:induction false} GivenFront()
      requires Valid()
      ensures given <= DecodeAll(bs) && (phase.Idle? ==> given == DecodeAll(bs))
      ensures phase.Output? && s != null && !s.Done() ==> given != DecodeAll(bs)
    {
      hide Good, From, ByteBits;
      AllFront(bs, done);
      if phase.Output? {
        OutputIs();
        s.DoneMeansAll();
        OneMore(bs, done);
        AllFront(bs, done + 1);
        ShorterFront(DecodeAll(bs[..done]), s.given, Decode(bs[done].block), DecodeAll(bs));
      }
      if phase.BlockHeader? { HeaderParts(); HeaderNext(); }
    }

    /** BZ2_bzDecompress with room for `room` bytes, made again as often as the input is used up before. */
    method Decompress(room: int) returns (code: Code)
      requires Valid() && room >= 0
      modifies this, r, s
      ensures Valid() && (s == old(s) || fresh(s)) && given == old(given) + written && |written| <= room
      ensures old(phase.Idle?) ==> code == SequenceError && phase.Idle?
      ensures !old(phase.Idle?) ==> code == Ok || code == StreamEnd
      ensures code == Ok ==> |written| == room && given < DecodeAll(bs) && phase.Output?
      ensures code == StreamEnd || phase.Idle? ==> phase.Idle? && given == DecodeAll(bs)
    {
      hide *;
      ghost var before := given;
      availOut, written := room, [];
      GaveMore([], [], room, before);
      var turn := 0;
      while true
        invariant Valid() && Gave(room, before) && (s == old(s) || fresh(s)) && turn >= 0
        invariant turn == 0 ==> phase == old(phase) && written == []
        invariant turn > 0 ==> phase.Output? && !old(phase.Idle?)
        decreases |bs| - done, turn == 0
      {
        GaveIs(room, before);
        if phase.Idle? {
          GivenFront();
          return SequenceError;
        }
        if phase.Output? {
          var finished := HandOut(room, before);
          GaveIs(room, before);
          if !finished {
            GivenFront();
            return Ok;
          }
          code := EndBlock();
          if code != Ok { return; }
        }
        code := Parse();
        GaveIs(room, before);
        GivenFront();
        if code == StreamEnd {
          if calculatedCombinedCRC != storedCombinedCRC { return DataError; }
          return;
        }
        if !phase.Output? { return; }
        turn := turn + 1;
      }
    }
  }

  lemma MoreGiven(d: seq<int>, was: seq<int>, more: seq<int>)
    ensures d + was + more == d + (was + more)
  {
  }

  /** One more block's bytes and checksum. */
  lemma OneMore(bs: seq<Emission>, k: nat)
    requires k < |bs|
    ensures DecodeAll(bs[..k + 1]) == DecodeAll(bs[..k]) + Decode(bs[k].block)
    ensures bs[k].block != [] ==> Combined(bs[..k + 1]) == Combine(Combined(bs[..k]), Finalised(bs[k].crc))
  {
    assert bs[..k + 1][..k] == bs[..k];
    hide Decode, Combine, Finalised;
  }

  lemma {:induction false} AllFront(bs: seq<Emission>, k: nat)
    requires k <= |bs|
    ensures DecodeAll(bs[..k]) <= DecodeAll(bs) && (k == |bs| ==> bs[..k] == bs)
    decreases |bs| - k
  {
    hide Decode;
    if k < |bs| {
      AllFront(bs, k + 1);
      OneMore(bs, k);
      hide DecodeAll;
    } else {
      assert bs[..k] == bs;
    }
  }

  lemma ShorterFront(a: seq<int>, given: seq<int>, d: seq<int>, all: seq<int>)
    requires given <= d && a + d <= all
    ensures a + given <= all && (given != d ==> a + given != all)
  {
  }

  /** What follows the magic number of block k. */
  ghost function BlockAhead(bs: seq<Emission>, k: nat, tail: seq<bool>): seq<bool>
    requires k < |bs|
  {
    BitsOf(Finalised(bs[k].crc), 32)
    + ((if bs[k].origPtr >= 0 && BlockTables.Ok(bs[k].sent) && BlockTables.Headed(bs[k].sent.lens)
        then BlockPipeline.BlockBits(bs[k].origPtr, bs[k].sent) else [])
       + From(bs, k + 1, tail))
  }

  lemma BlockRest(bs: seq<Emission>, k: nat, tail: seq<bool>, level: int, step: (int, int) -> int)
    requires k < |bs| && Good(bs, level, step)
    ensures bs[k].origPtr >= 0 && BlockTables.Ok(bs[k].sent) && BlockTables.Headed(bs[k].sent.lens)
    ensures BlockAhead(bs, k, tail) == BitsOf(Finalised(bs[k].crc), 32) +
            (BlockPipeline.BlockBits(bs[k].origPtr, bs[k].sent) + From(bs, k + 1, tail))
  {
    FromBlock(bs, k, tail, level, step);
    hide Good, From, BlockPipeline.BlockBits, BitsOf, BlockTables.Ok, BlockTables.Headed, Finalised;
  }

  lemma BlockGood(bs: seq<Emission>, k: nat, level: int, step: (int, int) -> int)
    requires k < |bs| && Good(bs, level, step) && 1 <= level <= 9
    ensures 0 < |bs[k].block| < 100_000 * level <= 900_000 && Whole(bs[k].block) &&
            bs[k].crc == Checksum(step, CRC_START, Decode(bs[k].block))
    ensures BlockPipeline.Codes(bs[k].block, bs[k].fm, bs[k].origPtr, bs[k].sent)
  {
    hide Whole, Decode, Checksum, BlockPipeline.Codes, Flagged, Bytes;
  }

  lemma FirstKnown(bs: seq<Emission>, done: nat, tail: seq<bool>, level: int, step: (int, int) -> int)
      returns (m: seq<int>, rest: seq<bool>)
    requires done <= |bs| && Good(bs, level, step)
    ensures |m| > 0 && Bytes(m) && From(bs, done, tail) == Left(m, 0, rest)
    ensures done < |bs| ==> m == BLOCK_MAGIC && m[0] == 0x31 && rest == BlockAhead(bs, done, tail)
    ensures done == |bs| ==> m == END_MAGIC && m[0] == 0x17 && rest == BitsOf(Combined(bs), 32) + tail
  {
    MagicBytes();
    assert BLOCK_MAGIC[0] == 0x31 && END_MAGIC[0] == 0x17;
    if done < |bs| {
      FromBlock(bs, done, tail, level, step);
      BlockRest(bs, done, tail, level, step);
      m, rest := BLOCK_MAGIC, BlockAhead(bs, done, tail);
    } else {
      FromEnd(bs, tail);
      m, rest := END_MAGIC, BitsOf(Combined(bs), 32) + tail;
    }
    hide *;
    LeftEnds(m, rest);
  }

  /** The byte that tells a block from the trailer. */
  method GetFirst(r: Reader, ghost bs: seq<Emission>, ghost done: nat, ghost tail: seq<bool>, ghost level: int,
                  ghost step: (int, int) -> int)
      returns (uc: int)
    requires done <= |bs| && r.Valid() && r.Remaining() == From(bs, done, tail) && Good(bs, level, step)
    modifies r
    ensures r.Valid()
    ensures done < |bs| ==> uc == 0x31 && r.Remaining() == Left(BLOCK_MAGIC, 1, BlockAhead(bs, done, tail))
    ensures done == |bs| ==> uc == 0x17 && r.Remaining() == Left(END_MAGIC, 1, BitsOf(Combined(bs), 32) + tail)
  {
    hide *;
    ghost var m, rest := FirstKnown(bs, done, tail, level, step);
    uc := NextByte(r, m, 0, rest);
  }

  /** The rest of the magic number, the checksum, and the block. */
  method GetBlock(r: Reader, small: bool, step: (int, int) -> int, blockSize100k: int, ghost bs: seq<Emission>,
                  ghost k: nat, ghost tail: seq<bool>, ghost level: int)
    returns (ok: bool, crc: u32, s: RunDecode.DState?)
    requires 1 <= level <= 9 && Good(bs, level, step) && k < |bs| && blockSize100k == level
    requires r.Valid() && r.Remaining() == Left(BLOCK_MAGIC, 1, BlockAhead(bs, k, tail))
    modifies r
    ensures ok && crc == Finalised(bs[k].crc) && r.Valid() && r.Remaining() == From(bs, k + 1, tail)
    ensures s != null && fresh(s) && s.Valid() && s.b == bs[k].block && s.step == step && s.given == []
  {
    hide *;
    ghost var e, rest := bs[k], From(bs, k + 1, tail);
    BlockGood(bs, k, level, step);
    BlockRest(bs, k, tail, level, step);
    ok, crc := GetBlockHead(r, Finalised(e.crc), BlockPipeline.BlockBits(e.origPtr, e.sent) + rest);
    s := null;
    if !ok { return; }
    s := OpenBlock(r, small, step, blockSize100k, e, rest);
  }

  /** The rest of the magic number and the checksum. */
  method GetBlockHead(r: Reader, ghost u: u32, ghost coded: seq<bool>) returns (ok: bool, crc: u32)
    requires r.Valid() && r.Remaining() == Left(BLOCK_MAGIC, 1, BitsOf(u, 32) + coded)
    modifies r
    ensures ok && crc == u && r.Valid() && r.Remaining() == coded
  {
    MagicBytes();
    hide *;
    crc := 0;
    ok := GetMagic(r, BLOCK_MAGIC, BitsOf(u, 32) + coded);
    if !ok { return; }
    crc := GetUInt32(r, u, coded);
  }

  /** The table of one block, in the memory mode chosen. */
  method OpenBlock(r: Reader, small: bool, step: (int, int) -> int, blockSize100k: int, ghost e: Emission,
                   ghost rest: seq<bool>)
      returns (s: RunDecode.DState)
    requires 1 <= blockSize100k <= 9 && |e.block| <= 100_000 * blockSize100k && Whole(e.block)
    requires BlockPipeline.Codes(e.block, e.fm, e.origPtr, e.sent)
    requires e.origPtr >= 0 && BlockTables.Ok(e.sent) && BlockTables.Headed(e.sent.lens)
    requires r.Valid() && r.Remaining() == BlockPipeline.BlockBits(e.origPtr, e.sent) + rest
    modifies r
    ensures r.Valid() && r.Remaining() == rest
    ensures fresh(s) && s.Valid() && s.b == e.block && s.step == step && s.given == []
  {
    hide *;
    var ok;
    if small {
      ok, s := BlockPipeline.DecompressSmall(r, 100_000 * blockSize100k, step, e.block, e.fm, e.origPtr, e.sent, rest);
    } else {
      ok, s := BlockPipeline.DecompressFast(r, 100_000 * blockSize100k, step, e.block, e.fm, e.origPtr, e.sent, rest);
    }
  }
}
