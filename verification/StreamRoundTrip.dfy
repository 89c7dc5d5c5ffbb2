/** From input to stream and back: whatever the calls of the compressor, and
    whatever the output buffers of the decompressor, the bytes handed out by the
    one are read by the other and give the input. */
module StreamRoundTrip {
  import opened Bits
  import opened Checksums
  import opened StreamFormat
  import BitStream
  import Compressor
  import Decompressor
  import FileWriter
  import RunDecode
  import RunLength

  /** The header, the blocks and the zeros after the trailer, as the decompressor meets them. */
  lemma {:induction false} StreamOpens(bytes: seq<int>, n: int, es: seq<Emission>, step: (int, int) -> int)
      returns (pad: nat)
    requires Ended(es) && WholeStream(bytes, n, es) && AllSealed(es, 100_000 * n - 19, step)
    ensures Bytes(bytes) && Decompressor.Good(Decompressor.Blocks(es), n, step) &&
            DecodeAll(Decompressor.Blocks(es)) == DecodeAll(es)
    ensures BitStream.ByteBits(bytes) == BitStream.ByteBits(HeaderBytes(n)) +
            Decompressor.From(Decompressor.Blocks(es), 0, BitStream.Zeros(pad))
  {
    pad := HasPad(bytes, n, es);
    hide *;
    Decompressor.BlocksGood(es, n, step);
    Decompressor.BlocksKeep(es);
    Decompressor.StreamFrom(n, es, pad);
  }

  /** The first ten bytes of a stream: "BZh", the digit of the block size, and the magic number
      of a block, or of the end if the stream holds no bytes. */
  ghost function Opening(n: int, empty: bool): (m: seq<int>)
    ensures |m| == 10
  {
    [0x42, 0x5a, 0x68, 0x30 + n] +
    (if empty then [0x17, 0x72, 0x45, 0x38, 0x50, 0x90] else [0x31, 0x41, 0x59, 0x26, 0x53, 0x59])
  }

  lemma {:induction false} StreamOpening(bytes: seq<int>, n: int, es: seq<Emission>, step: (int, int) -> int)
    requires 1 <= n <= 9 && Ended(es) && WholeStream(bytes, n, es) && AllSealed(es, 100_000 * n - 19, step)
    ensures |bytes| >= 10 && bytes[..10] == Opening(n, DecodeAll(es) == [])
  {
    hide *;
    var bs := Decompressor.Blocks(es);
    var pad := StreamOpens(bytes, n, es, step);
    var m, rest := Decompressor.FirstKnown(bs, 0, BitStream.Zeros(pad), n, step);
    SomeBlock(bs, n, step);
    OpeningIs(n, m);
    Decompressor.LeftEnds(m, rest);
    ByteBitsConcat(HeaderBytes(n), m);
    BitStream.Associate(BitStream.ByteBits(HeaderBytes(n)), BitStream.ByteBits(m), rest);
    BitStream.OpensWith(bytes, HeaderBytes(n) + m, rest);
  }

  lemma SomeBlock(bs: seq<Emission>, n: int, step: (int, int) -> int)
    requires Decompressor.Good(bs, n, step)
    ensures bs == [] <==> DecodeAll(bs) == []
  {
    if bs != [] { RunLength.DecodeSome(bs[|bs| - 1].block); }
    hide SealedOne, RunLength.Decode;
  }

  lemma OpeningIs(n: int, m: seq<int>)
    requires 1 <= n <= 9
    ensures m == BLOCK_MAGIC ==> HeaderBytes(n) + m == Opening(n, false) && Bytes(HeaderBytes(n) + m)
    ensures m == END_MAGIC ==> HeaderBytes(n) + m == Opening(n, true) && Bytes(HeaderBytes(n) + m)
  {
  }

  lemma HasPad(bytes: seq<int>, n: int, es: seq<Emission>) returns (pad: nat)
    requires WholeStream(bytes, n, es)
    ensures Bytes(bytes) && BitStream.ByteBits(bytes) == StreamBits(n, es) + BitStream.Zeros(pad)
  {
    hide StreamBits, BitStream.ByteBits;
    pad :| pad < 8 && BitStream.ByteBits(bytes) == StreamBits(n, es) + BitStream.Zeros(pad);
  }

  /** A complete stream through BZ2_bzDecompress, however it is cut into input buffers: the calls together give
      its bytes up to the total room, and one of them answers BZ_STREAM_END exactly if the room is enough. */
  method DecodeStream(pieces: seq<seq<int>>, small: bool, step: (int, int) -> int, rooms: seq<nat>,
                      ghost blockSize100k: int, ghost es: seq<Emission>)
    returns (out: seq<int>, ended: bool)
    requires 1 <= blockSize100k <= 9 && AllSealed(es, 100_000 * blockSize100k - 19, step)
    requires Ended(es) && WholeStream(BitStream.Concat(pieces), blockSize100k, es)
    ensures out == RunDecode.UpTo(DecodeAll(es), RunDecode.Total(rooms))
    ensures ended <==> rooms != [] && |DecodeAll(es)| <= RunDecode.Total(rooms)
  {
    hide *;
    ghost var pad := StreamOpens(BitStream.Concat(pieces), blockSize100k, es, step);
    ghost var bs, all := Decompressor.Blocks(es), DecodeAll(es);
    var d := new Decompressor.DStream(small, step, pieces, bs, blockSize100k, BitStream.Zeros(pad));
    out := [];
    ended := false;
    RunDecode.NoRoom(all, rooms);
    for i := 0 to |rooms|
      invariant d.Valid() && fresh(d) && fresh(d.r) && (d.s != null ==> fresh(d.s)) && d.bs == bs
      invariant out == d.given == RunDecode.UpTo(all, RunDecode.Total(rooms[..i])) && (ended <==> d.phase.Idle?)
      invariant i > 0 ==> (ended <==> out == all)
      invariant i == 0 ==> !ended
    {
      var code := d.Decompress(rooms[i]);
      d.GivenFront();
      RunDecode.MoreRoom(all, rooms, i, out, d.written, d.phase.Idle?);
      out := out + d.written;
      ended := ended || code == Decompressor.StreamEnd;
    }
    assert rooms[..|rooms|] == rooms;
    RunDecode.UpToAll(all, RunDecode.Total(rooms));
  }

  /** Once the compressor has returned BZ_STREAM_END, however its calls cut input and output,
      decoding the very bytes they gave, cut anew at any sizes, returns exactly the input they took. */
  method RoundTrip(blockSize100k: int, step: (int, int) -> int, calls: seq<Compressor.Call>, small: bool,
                   sizes: seq<nat>, rooms: seq<nat>)
    returns (replies: seq<Compressor.Reply>, out: seq<int>, ended: bool)
    requires 1 <= blockSize100k <= 9 && WordStep(step) && Compressor.Offered(calls)
    ensures |replies| == |calls| && Compressor.Answers(calls, replies)
    ensures Compressor.StreamEnded(replies) ==>
            out == RunDecode.UpTo(Compressor.Taken(calls, replies), RunDecode.Total(rooms))
    ensures Compressor.StreamEnded(replies) ==>
            (ended <==> rooms != [] && |Compressor.Taken(calls, replies)| <= RunDecode.Total(rooms))
    ensures Compressor.StreamEnded(replies) ==>
            Opening(blockSize100k, Compressor.Taken(calls, replies) == []) <= Compressor.Given(replies)
  {
    hide *;
    var s;
    s, replies := Compressor.RunAll(blockSize100k, step, calls);
    out, ended := [], false;
    if Compressor.StreamEnded(replies) {
      var bytes := Compressor.Given(replies);
      StreamOpening(bytes, blockSize100k, s.emitted, step);
      BitStream.CutJoins(bytes, sizes);
      out, ended := DecodeStream(BitStream.Cut(bytes, sizes), small, step, rooms, blockSize100k, s.emitted);
    }
  }

  /** A file written with any buffers, and read and decoded with any buffers: the same bytes. */
  method FileRoundTrip(blockSize100k: int, step: (int, int) -> int, bufs: seq<seq<int>>, small: bool,
                       sizes: seq<nat>, rooms: seq<nat>)
    returns (out: seq<int>, ended: bool)
    requires 1 <= blockSize100k <= 9 && WordStep(step) && forall i :: 0 <= i < |bufs| ==> Bytes(bufs[i])
    ensures out == RunDecode.UpTo(BitStream.Concat(bufs), RunDecode.Total(rooms))
    ensures ended <==> rooms != [] && |BitStream.Concat(bufs)| <= RunDecode.Total(rooms)
  {
    hide *;
    ghost var es;
    var file;
    file, es := FileWriter.WriteFile(blockSize100k, step, bufs);
    BitStream.CutJoins(file, sizes);
    out, ended := DecodeStream(BitStream.Cut(file, sizes), small, step, rooms, blockSize100k, es);
  }
}
