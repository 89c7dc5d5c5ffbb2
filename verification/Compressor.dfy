/** The compressor's state machine: run-length coding of the input into blocks,
    the loop that alternates between filling a block and handing out its coded
    bytes, and the modes of BZ2_bzCompress. */
module Compressor {
  import opened BitStream
  import opened BlockCutting
  import opened Checksums
  import opened RunLength
  import opened StreamFormat
  import BlockPipeline
  import BlockSize
  import Bits

  // ---- the block being filled ----

  /** The block holds exactly the runs us, and its flags and checksum agree. */
  ghost predicate Filled(us: seq<Unit>, blk: seq<int>, inUse: seq<bool>, crc: int, step: (int, int) -> int) {
    && Units(us) && Separated(us) && blk == PackAll(us) && Flagged(inUse, blk)
    && crc == Checksum(step, CRC_START, ExpandAll(us))
  }

  /** The pending run may follow the runs of the block; ch is 256 if nothing was read yet. */
  ghost predicate MayFollow(us: seq<Unit>, ch: int, len: int) {
    || (ch == 256 && len == 0 && us == [])
    || (0 <= ch < 256 && 1 <= len <= 255 && (us == [] || us[|us| - 1].ch != ch || us[|us| - 1].len == 255))
  }

  /** The bytes of the pending run. */
  ghost function PendingRun(ch: int, len: int): seq<int> {
    if ch < 256 && len >= 0 then Copies(ch, len) else []
  }

  /** The flags after a run: its byte, and its count if it has one. */
  ghost function WithFlags(inUse: seq<bool>, ch: int, len: int): seq<bool>
    requires |inUse| == 256 && 0 <= ch < 256 && len <= 255
  {
    if len >= 4 then inUse[ch := true][len - 4 := true] else inUse[ch := true]
  }

  lemma {:induction false} FlagStep(inUse: seq<bool>, blk: seq<int>, ch: int, len: int)
    requires Flagged(inUse, blk) && IsUnit(Unit(ch, len))
    ensures Flagged(WithFlags(inUse, ch, len), blk + Pack(Unit(ch, len)))
  {
    var p, f := Pack(Unit(ch, len)), WithFlags(inUse, ch, len);
    assert p[0] == ch && (len >= 4 ==> p[4] == len - 4);
    assert forall i :: 0 <= i < |p| ==> p[i] == ch || (len >= 4 && p[i] == len - 4);
    hide Pack;
    forall v | 0 <= v < 256 ensures f[v] <==> v in blk + p {
      if v in p { var i :| 0 <= i < |p| && p[i] == v; }
    }
  }

  /** Appending the pending run to the block. */
  lemma {:induction false} FilledStep(us: seq<Unit>, blk: seq<int>, inUse: seq<bool>, crc: int,
                                      step: (int, int) -> int, ch: int, len: int)
    requires Filled(us, blk, inUse, crc, step) && MayFollow(us, ch, len) && ch < 256
    ensures |inUse| == 256 && IsUnit(Unit(ch, len)) && Units(us) && |Pack(Unit(ch, len))| <= 5
    ensures Filled(us + [Unit(ch, len)], blk + Pack(Unit(ch, len)), WithFlags(inUse, ch, len),
            Checksum(step, CRC_START, ExpandAll(us) + Copies(ch, len)), step)
    ensures ExpandAll(us + [Unit(ch, len)]) == ExpandAll(us) + Copies(ch, len)
  {
    hide PackAll, ExpandAll, Checksum, WithFlags;
    var u := Unit(ch, len);
    PackSnoc(us, u);
    UnitPack(u);
    hide Pack;
    FlagStep(inUse, blk, ch, len);
    hide Flagged;
  }

  lemma FilledEmpty(inUse: seq<bool>, step: (int, int) -> int)
    requires |inUse| == 256 && forall v :: 0 <= v < 256 ==> !inUse[v]
    ensures Filled([], [], inUse, CRC_START, step) && ExpandAll([]) == []
  {
  }

  lemma FilledLength(us: seq<Unit>, blk: seq<int>, inUse: seq<bool>, crc: int, step: (int, int) -> int)
    requires Filled(us, blk, inUse, crc, step)
    ensures |inUse| == 256 && Units(us) && crc == Checksum(step, CRC_START, ExpandAll(us)) &&
            Decode(blk) == ExpandAll(us)
    ensures Whole(blk) && Bits.Bytes(blk) && Flagged(inUse, blk)
  {
    DecodePacked(us);
    PackedWhole(us);
    PackedBytes(us);
  }

  datatype Mode = Idle | Running | Flushing | Finishing
  datatype State = Input | Output
  datatype Action = Run | Flush | Finish | Other
  datatype Code = RunOk | FlushOk | FinishOk | StreamEnd | SequenceError | ParamError

  class EState {
    const blockSize100k: int
    const nblockMAX: int
    const step: (int, int) -> int
    const block: array<int>
    const inUse: array<bool>
    // zbits and the bit buffer behind it
    const w: Writer

    var mode: Mode
    var state: State
    var availInExpect: int
    var nblock: int
    var stateInCh: int
    var stateInLen: int
    var blockCRC: int
    var combinedCRC: Bits.u32
    var stateOutPos: int
    var blockNo: int
    // the caller's stream: bytes still to read, room to write, bytes written
    var nextIn: seq<int>
    var availOut: int
    var written: seq<int>

    ghost var us: seq<Unit>
    // the blocks emitted, all bytes read and all bytes handed out since the start
    ghost var emitted: seq<Emission>
    ghost var consumed: seq<int>
    ghost var delivered: seq<int>
    // the bytes read and the flushes and finishes carried out, and whether
    // the one in progress has emitted its block
    ghost var log: seq<Event>
    ghost var closed: bool

    /** The current block agrees with its runs. */
    ghost predicate Coding()
      reads this`us, this`nblock, this`blockCRC, block, inUse
    {
      && 0 <= nblock <= block.Length && 1 <= nblockMAX && nblockMAX + 10 <= block.Length
      && Filled(us, block[..nblock], inUse[..], blockCRC, step)
    }

    method Put(ch: int)
      requires 0 <= nblock < block.Length
      modifies this`nblock, block
      ensures nblock == old(nblock) + 1 && block[..nblock] == old(block[..nblock]) + [ch]
    {
      block[nblock] := ch;
      nblock := nblock + 1;
    }

    /** The checksum over len copies of ch. */
    method UpdateCRCs(ch: int, len: int, ghost s: seq<int>)
      requires len >= 0 && blockCRC == Checksum(step, CRC_START, s)
      modifies this`blockCRC
      ensures blockCRC == Checksum(step, CRC_START, s + Copies(ch, len))
    {
      assert s + Copies(ch, 0) == s;
      for i := 0 to len
        invariant blockCRC == Checksum(step, CRC_START, s + Copies(ch, i))
      {
        ChecksumSnoc(step, CRC_START, s + Copies(ch, i), ch);
        assert s + Copies(ch, i) + [ch] == s + Copies(ch, i + 1);
        blockCRC := step(blockCRC, ch);
      }
    }

    /** The switch on the run's length: one to three bytes, or four and a count. */
    method PutPair(ch: int, len: int)
      requires IsUnit(Unit(ch, len)) && 0 <= nblock && nblock + 5 <= block.Length && inUse.Length == 256
      modifies this`nblock, block, inUse
      ensures old(nblock) < nblock <= old(nblock) + 5 && block[..nblock] == old(block[..nblock]) + Pack(Unit(ch, len))
      ensures inUse[..] == WithFlags(old(inUse[..]), ch, len)
    {
      ghost var flags := inUse[..];
      UnitPack(Unit(ch, len));
      hide *;
      inUse[ch] := true;
      if len == 1 {
        Put(ch);
      } else if len == 2 {
        Put(ch);
        Put(ch);
      } else if len == 3 {
        Put(ch);
        Put(ch);
        Put(ch);
      } else {
        inUse[len - 4] := true;
        Put(ch);
        Put(ch);
        Put(ch);
        Put(ch);
        Put(len - 4);
      }
      FlagsAre(flags, ch, len, inUse[..]);
    }

    /** add_pair_to_block: the pending run goes into the block. */
    method AddPairToBlock()
      requires Coding() && MayFollow(us, stateInCh, stateInLen) && stateInCh < 256 && nblock + 5 <= block.Length
      modifies this`nblock, this`blockCRC, this`us, block, inUse
      ensures Coding() && us == old(us) + [Unit(stateInCh, stateInLen)] && old(nblock) < nblock <= old(nblock) + 5
      ensures block[..nblock] == old(block[..nblock]) + Stored(stateInCh, stateInLen)
      ensures ExpandAll(us) == ExpandAll(old(us)) + Copies(stateInCh, stateInLen)
    {
      ghost var was, blk, flags := us, block[..nblock], inUse[..];
      FilledStep(us, blk, flags, blockCRC, step, stateInCh, stateInLen);
      FilledLength(us, blk, flags, blockCRC, step);
      hide Filled, MayFollow, Checksum, ExpandAll, Pack, WithFlags, PackAll, Decode, Lead, Whole, Bits.Bytes, Flagged;
      UpdateCRCs(stateInCh, stateInLen, ExpandAll(was));
      PutPair(stateInCh, stateInLen);
      us := us + [Unit(stateInCh, stateInLen)];
    }

    /** The bytes the current block and the pending run stand for. */
    ghost function Current(): seq<int>
      requires Units(us)
      reads this`us, this`stateInCh, this`stateInLen
    {
      ExpandAll(us) + PendingRun(stateInCh, stateInLen)
    }

    /** Filling a block: it agrees with its runs, and the pending run may come next. */
    ghost predicate Filling()
      reads this`us, this`nblock, this`blockCRC, this`stateInCh, this`stateInLen, block, inUse
    {
      Coding() && MayFollow(us, stateInCh, stateInLen)
    }

    method InitRL()
      modifies this`stateInCh, this`stateInLen
      ensures stateInCh == 256 && stateInLen == 0
    {
      stateInCh := 256;
      stateInLen := 0;
    }

    predicate IsEmptyRL()
      reads this`stateInCh, this`stateInLen
    {
      !(stateInCh < 256 && stateInLen > 0)
    }

    /** flush_RL: the pending run goes into the block, whatever the block's size. */
    method FlushRL()
      requires Filling() && nblock + 5 <= block.Length
      modifies this`nblock, this`blockCRC, this`us, this`stateInCh, this`stateInLen, block, inUse
      ensures Coding() && IsEmptyRL() && stateInCh == 256 && stateInLen == 0 && old(Units(us)) && Units(us) &&
              ExpandAll(us) == old(Current()) && nblock <= old(nblock) + 5
      ensures block[..nblock] == old(block[..nblock]) + Stored(old(stateInCh), old(stateInLen))
      ensures nblock > 0 <==> old(nblock > 0 || !IsEmptyRL())
    {
      hide *;
      FillingParts();
      RunRange(us, stateInCh, stateInLen);
      RunEmpty();
      FillingUnits();
      CurrentIs();
      FlushedRun(us, stateInCh, stateInLen);
      RunBytes(stateInCh, stateInLen);
      NoneStored(stateInCh, stateInLen, block[..nblock]);
      if stateInCh < 256 { AddPairToBlock(); }
      InitRL();
      FillingUnits();
      EmptyIs();
    }

    lemma RunEmpty()
      ensures IsEmptyRL() <==> !(stateInCh < 256 && stateInLen > 0)
    {
    }

    lemma EmptyIs()
      requires stateInCh == 256 && stateInLen == 0
      ensures IsEmptyRL()
    {
    }

    lemma FillingUnits()
      requires Coding()
      ensures Fits() && nblock >= 0 && Units(us) && inUse.Length == 256 &&
              blockCRC == Checksum(step, CRC_START, ExpandAll(us)) && Decode(block[..nblock]) == ExpandAll(us)
      ensures Whole(block[..nblock]) && Bits.Bytes(block[..nblock]) && Flagged(inUse[..], block[..nblock])
    {
      FilledLength(us, block[..nblock], inUse[..], blockCRC, step);
    }

    /** The fast track of ADD_CHAR_TO_BLOCK stores a run of one directly. */
    method AddSingle()
      requires Coding() && MayFollow(us, stateInCh, stateInLen) && stateInLen == 1 && nblock + 5 <= block.Length
      modifies this`nblock, this`blockCRC, this`us, block, inUse
      ensures Coding() && us == old(us) + [Unit(stateInCh, stateInLen)] && nblock <= old(nblock) + 5
      ensures block[..nblock] == old(block[..nblock]) + Stored(stateInCh, stateInLen)
    {
      hide *;
      CodingParts();
      ghost var blk, flags := block[..nblock], inUse[..];
      FilledStep(us, blk, flags, blockCRC, step, stateInCh, stateInLen);
      FilledLength(us, blk, flags, blockCRC, step);
      UnitPack(Unit(stateInCh, 1));
      StoredIs(stateInCh, 1);
      var ch := stateInCh;
      ChecksumSnoc(step, CRC_START, ExpandAll(us), ch);
      assert Copies(ch, 1) == [ch];
      blockCRC := step(blockCRC, ch);
      inUse[ch] := true;
      FlagsAre(flags, ch, 1, inUse[..]);
      Put(ch);
      us := us + [Unit(ch, 1)];
      CodingWhole();
    }

    lemma CodingParts()
      requires Coding()
      ensures 0 <= nblock <= block.Length && inUse.Length == 256 &&
              Filled(us, block[..nblock], inUse[..], blockCRC, step)
      ensures 1 <= nblockMAX && nblockMAX + 10 <= block.Length
      ensures MayFollow(us, stateInCh, stateInLen) && stateInLen == 1 ==> 0 <= stateInCh < 256
    {
    }

    lemma CodingWhole()
      requires 0 <= nblock <= block.Length && 1 <= nblockMAX && nblockMAX + 10 <= block.Length &&
               Filled(us, block[..nblock], inUse[..], blockCRC, step)
      ensures Coding()
    {
    }

    /** ADD_CHAR_TO_BLOCK */
    method AddCharToBlock(c: int)
      requires Filling() && 0 <= c < 256 && nblock + 5 <= block.Length && state.Input?
      modifies this`nblock, this`blockCRC, this`us, this`stateInCh, this`stateInLen, block, inUse
      ensures Filling() && !IsEmptyRL() && old(Units(us)) && Units(us) && Current() == old(Current()) + [c] &&
              nblock <= old(nblock) + 5
      ensures Fits() && old(Fits()) && Now() == Add(old(Now()), c)
    {
      hide *;
      FillingParts();
      FillingUnits();
      RunRange(us, stateInCh, stateInLen);
      RunStep(us, stateInCh, stateInLen, c);
      CurrentIs();
      NowIs();
      NoneStored(stateInCh, stateInLen, block[..nblock]);
      AddIs(Now(), c);
      if c != stateInCh && stateInLen == 1 {
        AddSingle();
        stateInCh := c;
      } else if c != stateInCh || stateInLen == 255 {
        if stateInCh < 256 { AddPairToBlock(); }
        stateInCh := c;
        stateInLen := 1;
      } else {
        stateInLen := stateInLen + 1;
      }
      FillingUnits();
      CurrentIs();
      NowIs();
      FillingWhole();
    }

    lemma FillingParts()
      requires Filling()
      ensures Coding() && MayFollow(us, stateInCh, stateInLen)
    {
    }

    lemma FillingWhole()
      requires Coding() && MayFollow(us, stateInCh, stateInLen)
      ensures Filling() && (0 < stateInLen && stateInCh < 256 ==> !IsEmptyRL())
    {
    }

    lemma CurrentIs()
      requires Units(us)
      ensures Current() == ExpandAll(us) + PendingRun(stateInCh, stateInLen)
    {
    }

    // ---- where the blocks are cut ----

    predicate Fits()
      reads this`nblock
    {
      0 <= nblock <= block.Length
    }

    /** The blocks emitted, the block being filled and the pending run. */
    ghost function Now(): Cutter
      requires Fits()
      reads this`nblock, this`state, this`emitted, this`stateInCh, this`stateInLen, block
    {
      Cutter(Pieces(emitted), if state.Input? then block[..nblock] else [], stateInCh, stateInLen)
    }

    lemma NowIs()
      requires Fits()
      ensures 0 <= nblock <= block.Length && Now() ==
              Cutter(Pieces(emitted), if state.Input? then block[..nblock] else [], stateInCh, stateInLen)
    {
    }

    /** The blocks are cut as the bytes read and the calls' ends say. */
    ghost predicate Cuts()
      reads this`nblock, this`state, this`emitted, this`stateInCh, this`stateInLen, this`consumed, this`log,
            this`closed, block
    {
      Fits() && CutsFor(Now(), consumed, log, closed, nblockMAX)
    }

    lemma CutsIs()
      ensures Cuts() <==> Fits() && CutsFor(Now(), consumed, log, closed, nblockMAX)
      ensures Fits() ==> (AtFull(Now(), nblockMAX) <==> |Now().block| >= nblockMAX)
    {
    }

    // ---- reading ----

    /** Every byte read is in an emitted block, in the current block, or in the pending run. */
    ghost predicate Accounted()
      reads this`us, this`stateInCh, this`stateInLen, this`state, this`consumed, this`emitted
    {
      Units(us) && consumed == DecodeAll(emitted) +
        (if state.Input? then Current() else PendingRun(stateInCh, stateInLen))
    }

    /** What the input loops keep: in the modes that end, the caller's count is the input left. */
    ghost predicate Reading()
      reads this, block, inUse, w
    {
      && Filling() && Accounted() && state.Input? && 0 <= nblock <= nblockMAX + 4 && Bits.Bytes(nextIn)
      && (mode != Running ==> availInExpect == |nextIn|) && Cuts() && !closed
    }

    /** The first bytes of the input were read, up to what is left now. */
    ghost predicate Took(was: seq<int>, read: seq<Event>)
      reads this`nextIn, this`log, this`mode
    {
      && |nextIn| <= |was| && nextIn == was[|was| - |nextIn|..]
      && log == read + Tagged(was[..|was| - |nextIn|], mode != Running)
    }

    /** The block and the pending run are those after the newest byte. */
    ghost predicate JustRead()
      reads this`nblock, this`state, this`emitted, this`stateInCh, this`stateInLen, this`log, this`mode, block
    {
      Fits() && Now() == Cutting(log, nblockMAX) && (LateByte(log) <==> mode != Running)
    }

    lemma JustReadIs()
      ensures JustRead() <==> Fits() && Now() == Cutting(log, nblockMAX) && (LateByte(log) <==> mode != Running)
    {
      hide Cutting;
    }

    method ReadOne(ghost was: seq<int>, ghost read: seq<Event>)
      requires Reading() && nblock < nblockMAX && nextIn != [] && Took(was, read)
      modifies this`nblock, this`blockCRC, this`us, this`stateInCh, this`stateInLen, this`nextIn, this`availInExpect,
               this`consumed, this`log, block, inUse
      ensures Reading() && !IsEmptyRL() && |nextIn| == |old(nextIn)| - 1 && Took(was, read) && JustRead()
    {
      hide *;
      ghost var c, left, taken, l := nextIn[0], nextIn, consumed, log;
      ReadingParts();
      ghost var before, x := Current(), Now();
      TookOne(was, read);
      AddCharToBlock(nextIn[0]);
      consumed := consumed + [c];
      log := log + [Byte(c, mode != Running)];
      nextIn := nextIn[1..];
      if mode != Running { availInExpect := availInExpect - 1; }
      TailBytes(left);
      OneMore(DecodeAll(emitted), before, c);
      NextCuts(x, taken, l, c);
      ReadingWhole();
      TookIs(was, read);
    }

    /** The blocks after one more byte. */
    lemma NextCuts(x: Cutter, taken: seq<int>, l: seq<Event>, c: int)
      requires Fits() && CutsFor(x, taken, l, false, nblockMAX) && !AtFull(x, nblockMAX) && Now() == Add(x, c)
      requires consumed == taken + [c] && log == l + [Byte(c, mode != Running)] && !closed
      ensures Cuts() && JustRead()
    {
      hide *;
      StepCuts(x, Now(), taken, l, c, mode != Running, nblockMAX);
      CutsIs();
      JustReadIs();
    }

    lemma OneMore(d: seq<int>, before: seq<int>, c: int)
      ensures d + (before + [c]) == d + before + [c]
    {
    }

    lemma ReadingParts()
      requires Reading()
      ensures Filling() && Accounted() && Units(us) && consumed == DecodeAll(emitted) + Current() && state.Input?
      ensures 0 <= nblock <= nblockMAX + 4 && Bits.Bytes(nextIn) && (mode != Running ==> availInExpect == |nextIn|) &&
              nblockMAX + 10 <= block.Length
      ensures nextIn != [] ==> 0 <= nextIn[0] < 256
      ensures Fits() && Cuts() && !closed && CutsFor(Now(), consumed, log, false, nblockMAX)
      ensures AtFull(Now(), nblockMAX) <==> nblock >= nblockMAX
    {
      hide CutsFor, DecodeAll, Filled, MayFollow;
    }

    lemma ReadingWhole()
      requires Filling() && Units(us) && consumed == DecodeAll(emitted) + Current() && state.Input?
      requires nblock <= nblockMAX + 4 && Bits.Bytes(nextIn) && (mode != Running ==> availInExpect == |nextIn|)
      requires Cuts() && !closed
      ensures Reading()
    {
    }

    lemma TookOne(was: seq<int>, read: seq<Event>)
      requires Took(was, read) && nextIn != []
      ensures |nextIn[1..]| <= |was| && nextIn[1..] == was[|was| - |nextIn[1..]|..]
      ensures log + [Byte(nextIn[0], mode != Running)] ==
              read + Tagged(was[..|was| - |nextIn[1..]|], mode != Running)
    {
      TakeOne(was, nextIn);
      TaggedSnoc(was[..|was| - |nextIn|], nextIn[0], mode != Running);
    }

    lemma TookIs(was: seq<int>, read: seq<Event>)
      requires |nextIn| <= |was| && nextIn == was[|was| - |nextIn|..]
      requires log == read + Tagged(was[..|was| - |nextIn|], mode != Running)
      ensures Took(was, read)
    {
    }

    /** copy_input_until_stop: read until the block is full or the input is used up. */
    method CopyInputUntilStop(ghost was: seq<int>, ghost read: seq<Event>) returns (progress: bool)
      requires Reading() && Took(was, read)
      modifies this`nblock, this`blockCRC, this`us, this`stateInCh, this`stateInLen, this`nextIn, this`availInExpect,
               this`consumed, this`log, block, inUse
      ensures Reading() && Took(was, read) && (nblock >= nblockMAX || nextIn == [])
      ensures |nextIn| <= |old(nextIn)| && (progress <==> |nextIn| < |old(nextIn)|)
      ensures progress ==> !IsEmptyRL() && JustRead()
      ensures !progress ==> nblock == old(nblock) && stateInCh == old(stateInCh) && stateInLen == old(stateInLen) &&
                            nextIn == old(nextIn) && log == old(log)
    {
      hide Reading, Took, IsEmptyRL, JustRead;
      progress := false;
      if mode == Running {
        while true
          invariant Reading() && Took(was, read) && |nextIn| <= |old(nextIn)| &&
                    (progress <==> |nextIn| < |old(nextIn)|)
          invariant progress ==> !IsEmptyRL() && JustRead()
          invariant !progress ==> nblock == old(nblock) && stateInCh == old(stateInCh) && log == old(log) &&
                                  stateInLen == old(stateInLen) && nextIn == old(nextIn)
          decreases |nextIn|
        {
          if nblock >= nblockMAX { break; }
          if nextIn == [] { break; }
          progress := true;
          ReadOne(was, read);
        }
      } else {
        while true
          invariant Reading() && Took(was, read) && |nextIn| <= |old(nextIn)| &&
                    (progress <==> |nextIn| < |old(nextIn)|)
          invariant progress ==> !IsEmptyRL() && JustRead()
          invariant !progress ==> nblock == old(nblock) && stateInCh == old(stateInCh) && log == old(log) &&
                                  stateInLen == old(stateInLen) && nextIn == old(nextIn)
          decreases |nextIn|
        {
          ReadingExpect();
          if nblock >= nblockMAX { break; }
          if nextIn == [] { break; }
          if availInExpect == 0 { break; }
          progress := true;
          ReadOne(was, read);
        }
      }
    }

    lemma ReadingExpect()
      requires Reading()
      ensures mode != Running ==> availInExpect == |nextIn|
    {
    }

    // ---- emitting and writing ----

    /** The bytes handed out, the bytes waiting and the bits in the buffer are the stream of all blocks emitted. */
    ghost predicate Delivering()
      reads this`stateOutPos, this`delivered, this`emitted, w
    {
      && 0 <= stateOutPos <= |w.zbits| && Bits.Bytes(w.zbits)
      && Carries(delivered + w.zbits[stateOutPos..], w.bsBuff, w.bsLive, StreamBits(blockSize100k, emitted),
         LastEmitted())
    }

    /** Every block emitted is good, and their checksums are combined. */
    ghost predicate Sealed()
      reads this`emitted, this`combinedCRC
    {
      && 1 <= blockSize100k <= 9 && nblockMAX == 100_000 * blockSize100k - 19 && WordStep(step)
      && AllSealed(emitted, nblockMAX, step) && combinedCRC == Combined(emitted)
    }

    ghost predicate LastEmitted()
      reads this`emitted
    {
      Ended(emitted)
    }

    lemma ReadyToEmit()
      requires Coding() && nblock <= nblockMAX + 9 && Sealed() && !LastEmitted() && Delivering() && stateOutPos == 0 &&
               w.zbits == []
      ensures w.Valid() && w.Contents() == Pending(w.bsBuff, w.bsLive) && 0 <= w.bsLive <= 32 && w.bsBuff >= 0
      ensures 1 <= blockSize100k <= 9 && nblockMAX + 9 < 100_000 * blockSize100k && combinedCRC == Combined(emitted)
      ensures !Ended(emitted) && (emitted != [] ==> !emitted[|emitted| - 1].last)
      ensures Carries(delivered, w.bsBuff, w.bsLive, StreamBits(blockSize100k, emitted), false)
      ensures Bits.Bytes(block[..nblock]) && Flagged(inUse[..], block[..nblock]) && 0 <= nblock <= block.Length
    {
      FillingUnits();
      assert delivered + w.zbits[0..] == delivered;
      NoBits(Pending(w.bsBuff, w.bsLive));
      hide Filled, AllSealed, StreamBits, Combined, ByteBits, Pending, WriterOk;
    }

    lemma CodingWord()
      requires Coding() && Sealed()
      ensures 0 <= blockCRC <= 0xffff_ffff
    {
      FillingUnits();
      ChecksumWord(step, ExpandAll(us));
      hide Filled, AllSealed, Combined, Whole, Decode, Bits.Bytes, Flagged;
    }

    /** The block as an emission is good. */
    lemma EmittedOne(es: seq<Emission>, e: Emission, crc: int)
      requires e.full ==> nblock >= nblockMAX
      requires 0 <= nblock <= block.Length && Filled(us, block[..nblock], inUse[..], crc, step) &&
               nblock <= nblockMAX + 9
      requires e.block == block[..nblock] && e.inUse == inUse[..] && e.crc == crc
      requires e.block != [] ==> BlockPipeline.Codes(e.block, e.fm, e.origPtr, e.sent) && e.sent.inUse == e.inUse
      ensures SealedOne(e, nblockMAX, step) && Decode(e.block) == ExpandAll(us)
    {
      FilledLength(us, block[..nblock], inUse[..], crc, step);
      hide Filled, Combined, Whole, Decode, Bits.Bytes, Flagged, AllSealed, BlockPipeline.Codes, Checksum, ExpandAll;
    }

    lemma SealedAll(es: seq<Emission>)
      requires 1 <= blockSize100k <= 9 && nblockMAX == 100_000 * blockSize100k - 19 && WordStep(step)
      requires AllSealed(es, nblockMAX, step) && combinedCRC == Combined(es) && emitted == es
      ensures Sealed()
    {
      hide AllSealed, Combined, WordStep;
    }

    lemma SealedLevel()
      requires Sealed()
      ensures 1 <= blockSize100k <= 9 && nblockMAX == 100_000 * blockSize100k - 19 && WordStep(step)
      ensures combinedCRC == Combined(emitted) && AllSealed(emitted, nblockMAX, step)
    {
      hide AllSealed, Combined, WordStep;
    }

    lemma WriterParts()
      requires w.Valid()
      ensures WriterOk(w.bsBuff, w.bsLive) && Bits.Bytes(w.zbits) && w.Contents() == ByteBits(w.zbits) +
              Pending(w.bsBuff, w.bsLive)
    {
      hide WriterOk, Pending, ByteBits;
    }

    lemma DeliveringAll(es: seq<Emission>)
      requires emitted == es && stateOutPos == 0 && Bits.Bytes(w.zbits)
      requires Carries(delivered + w.zbits, w.bsBuff, w.bsLive, StreamBits(blockSize100k, es), Ended(es))
      ensures Delivering()
    {
      assert w.zbits[0..] == w.zbits;
      hide Carries, StreamBits;
    }

    lemma NewestIs(es: seq<Emission>, e: Emission)
      ensures (es + [e])[..|es|] == es && Ended(es + [e]) == e.last
      ensures Pieces(es + [e]) == Pieces(es) + [Piece(e.block, e.full)]
    {
    }

    /** BZ2_compressBlock: code the current block and write it to the stream. */
    method CompressBlock(last: bool, ghost full: bool)
      requires full ==> nblock >= nblockMAX
      requires Coding() && nblock <= nblockMAX + 9 && Sealed() && !LastEmitted() && Delivering() && stateOutPos == 0 &&
               w.zbits == []
      requires blockNo == |emitted| + 1
      modifies this`emitted, this`blockCRC, this`combinedCRC, w
      ensures |emitted| == |old(emitted)| + 1 && emitted[..|old(emitted)|] == old(emitted) &&
              emitted[|old(emitted)|].last == last
      ensures emitted[|old(emitted)|].block == old(block[..nblock]) && stateOutPos == 0
      ensures Pieces(emitted) == Pieces(old(emitted)) + [Piece(old(block[..nblock]), full)]
      ensures w.zbits != [] <==> last || old(nblock) > 0 || blockNo == 1
      ensures old(nblock) + |w.zbits| <= 4 * (100_000 * blockSize100k + 34)
      ensures Sealed() && Delivering() && Units(us) && DecodeAll(emitted) == DecodeAll(old(emitted)) + ExpandAll(us)
    {
      hide *;
      ReadyToEmit();
      FillingUnits();
      CodingWord();
      CodingParts();
      SealedLevel();
      ghost var es, crc, buff, live := emitted, blockCRC, w.bsBuff, w.bsLive;
      ghost var d0, units := DecodeAll(emitted), us;
      if nblock > 0 {
        blockCRC := Finalised(blockCRC);
        combinedCRC := Combine(combinedCRC, blockCRC);
        if blockNo > 1 { w.zbits := []; }
      }
      ghost var e, pad;
      e, pad := PutEmission(w, blockSize100k, blockNo, block[..nblock], inUse[..], blockCRC, combinedCRC, last, full,
        crc, es);
      WrittenSize(w, old(w.Contents()), Addition(blockSize100k, es, e), pad, last);
      BlockSize.FitsBehind(blockSize100k, es, e, live, w.zbits);
      EmittedOne(es, e, crc);
      emitted := es + [e];
      NewestIs(es, e);
      SealSnoc(es, e, nblockMAX, step);
      DecodeSnoc(es, e);
      CombinedSnoc(es, e);
      SealedAll(emitted);
      if !last { WriterParts(); }
      CarriesNext(delivered, buff, live, blockSize100k, es, e, w.zbits, w.bsBuff, w.bsLive, pad);
      DeliveringAll(emitted);
    }

    /** copy_output_until_stop: hand out coded bytes until none is left or there is no room. */
    method CopyOutputUntilStop(ghost was: int, ghost before: seq<int>) returns (progress: bool)
      requires Delivering() && availOut >= 0 && Gave(was, before)
      modifies this`availOut, this`written, this`stateOutPos, this`delivered
      ensures Delivering() && Gave(was, before) && 0 <= availOut <= old(availOut) &&
              (progress <==> availOut < old(availOut))
      ensures availOut == 0 || stateOutPos == |w.zbits|
      ensures stateOutPos == old(stateOutPos) + old(availOut) - availOut
    {
      hide *;
      progress := false;
      while true
        invariant Delivering() && 0 <= availOut <= old(availOut) && (progress <==> availOut < old(availOut)) &&
                  Gave(was, before)
        invariant stateOutPos == old(stateOutPos) + old(availOut) - availOut
        decreases availOut
      {
        DeliveringRange();
        if availOut == 0 { break; }
        if stateOutPos >= |w.zbits| { break; }
        progress := true;
        ghost var d, g := delivered, written;
        DeliveringIs(d);
        GaveIs(was, before);
        delivered := delivered + [w.zbits[stateOutPos]];
        written := written + [w.zbits[stateOutPos]];
        stateOutPos := stateOutPos + 1;
        availOut := availOut - 1;
        HandedOne(d);
        GaveOne(g, was, before);
      }
    }

    lemma DeliveringIs(d: seq<int>)
      requires Delivering() && delivered == d
      ensures Bits.Bytes(w.zbits) &&
              Carries(d + w.zbits[stateOutPos..], w.bsBuff, w.bsLive, StreamBits(blockSize100k, emitted), LastEmitted())
    {
      hide Carries, StreamBits, LastEmitted;
    }

    /** One byte moves from those waiting to those handed out. */
    lemma HandedOne(d: seq<int>)
      requires 0 < stateOutPos <= |w.zbits| && delivered == d + [w.zbits[stateOutPos - 1]] && Bits.Bytes(w.zbits)
      requires Carries(d + w.zbits[stateOutPos - 1..], w.bsBuff, w.bsLive, StreamBits(blockSize100k, emitted),
               LastEmitted())
      ensures Delivering()
    {
      hide Carries, StreamBits, LastEmitted;
      assert delivered + w.zbits[stateOutPos..] == d + w.zbits[stateOutPos - 1..];
    }

    lemma GaveIs(was: int, before: seq<int>)
      requires Gave(was, before)
      ensures |written| == was - availOut && delivered == before + written
    {
    }

    lemma GaveOne(g: seq<int>, was: int, before: seq<int>)
      requires 0 < stateOutPos <= |w.zbits| && written == g + [w.zbits[stateOutPos - 1]] &&
               delivered == before + g + [w.zbits[stateOutPos - 1]]
      requires |g| == was - availOut - 1
      ensures Gave(was, before)
    {
    }

    /** In this call was - availOut bytes were written, and they extend what was handed out before. */
    ghost predicate Gave(was: int, before: seq<int>)
      reads this`written, this`availOut, this`delivered
    {
      |written| == was - availOut && delivered == before + written
    }

    /** prepare_new_block */
    method PrepareNewBlock()
      requires 1 <= nblockMAX && nblockMAX + 10 <= block.Length && inUse.Length == 256
      modifies this`nblock, w`zbits, this`stateOutPos, this`blockCRC, this`blockNo, this`us, inUse
      ensures Coding() && us == [] && nblock == 0 && w.zbits == [] && stateOutPos == 0 && blockNo == old(blockNo) + 1
    {
      nblock := 0;
      w.zbits := [];
      stateOutPos := 0;
      blockCRC := CRC_START;
      for i := 0 to 256
        modifies inUse
        invariant forall v :: 0 <= v < i ==> !inUse[v]
      {
        inUse[i] := false;
      }
      blockNo := blockNo + 1;
      us := [];
      FilledEmpty(inUse[..], step);
      assert block[..nblock] == [];
    }

    // ---- the machine ----

    /** What holds between calls, and at the head of handle_compress's loop. */
    ghost predicate Machine()
      reads this`nblock, this`us, this`state, this`stateInCh, this`stateInLen, this`mode, this`stateOutPos,
            this`blockCRC, this`emitted, this`availInExpect, this`consumed, this`delivered
      reads this`combinedCRC, this`blockNo, this`log, this`closed, block, inUse, w
    {
      && 1 <= nblockMAX && nblockMAX + 10 <= block.Length && inUse.Length == 256
      && Accounted() && Delivering() && Sealed() && Phase() && Cuts() && Closes()
    }

    /** Between the last byte of a flush or finish and its end, its block is emitted exactly once. */
    ghost predicate Closes()
      reads this`state, this`stateInCh, this`stateInLen, this`mode, this`emitted, this`availInExpect, this`log,
            this`closed
    {
      && (closed ==> (mode == Flushing || mode == Finishing) && availInExpect == 0 && IsEmptyRL())
      && (mode == Finishing ==> (closed <==> LastEmitted()))
      && (mode == Flushing && state.Output? && IsEmptyRL() ==> closed)
      && ((mode == Flushing || mode == Finishing) && !closed && availInExpect == 0 ==> !LateByte(log))
      && (mode == Running ==> !LateByte(log))
    }

    ghost predicate Phase()
      reads this`nblock, this`us, this`state, this`stateInCh, this`stateInLen, this`mode, this`stateOutPos,
            this`blockCRC, this`emitted, this`availInExpect
      reads this`blockNo, block, inUse, w`zbits
    {
      && 0 <= nblock <= nblockMAX + 9 && blockNo == |emitted| + (if state.Input? then 1 else 0)
      && (state.Input? ==> Filling() && nblock < nblockMAX && w.zbits == [] && stateOutPos == 0)
      && (state.Output? ==> MayFollow([], stateInCh, stateInLen))
      && (mode == Running && state.Output? ==> !IsEmptyRL())
      && (LastEmitted() ==> state.Output? && IsEmptyRL() && availInExpect == 0 && (mode == Finishing || mode == Idle))
      && (state.Output? && mode == Finishing && IsEmptyRL() && availInExpect == 0 ==> LastEmitted())
      && (mode == Idle ==> LastEmitted() && stateOutPos == |w.zbits|)
    }

    /** A call in progress: the machine, the caller's stream, and what this call did to it. */
    ghost predicate Calling(was: seq<int>, read: seq<Event>, room: int, before: seq<int>)
      reads this, block, inUse, w
    {
      && Machine() && mode != Idle && Bits.Bytes(nextIn) && availOut >= 0 &&
         (mode != Running ==> availInExpect == |nextIn|)
      && Took(was, read) && Gave(room, before)
    }

    lemma CallingParts(was: seq<int>, read: seq<Event>, room: int, before: seq<int>)
      requires Calling(was, read, room, before)
      ensures 1 <= nblockMAX && nblockMAX + 10 <= block.Length && inUse.Length == 256 && 0 <= nblock <= nblockMAX + 9
      ensures blockNo == |emitted| + (if state.Input? then 1 else 0)
      ensures Accounted() && Delivering() && Sealed() && Took(was, read) && Gave(room, before)
      ensures mode != Idle && Bits.Bytes(nextIn) && availOut >= 0 && (mode != Running ==> availInExpect == |nextIn|) &&
              stateOutPos <= |w.zbits|
      ensures state.Input? && !closed ==> Reading()
      ensures state.Input? ==> nblock < nblockMAX && w.zbits == [] && stateOutPos == 0 && !LastEmitted()
      ensures Cuts() && Closes() && (mode == Running ==> !LateByte(log))
      ensures closed ==> mode != Running && availInExpect == 0 && IsEmptyRL()
      ensures mode == Finishing ==> (closed <==> LastEmitted())
      ensures mode == Flushing && state.Output? && IsEmptyRL() ==> closed
      ensures mode != Running && !closed && availInExpect == 0 ==> !LateByte(log)
      ensures state.Output? ==> MayFollow([], stateInCh, stateInLen) && (mode == Running ==> !IsEmptyRL())
      ensures state.Output? && LastEmitted() ==> IsEmptyRL() && availInExpect == 0 && mode == Finishing
      ensures state.Output? && mode == Finishing && IsEmptyRL() && availInExpect == 0 ==> LastEmitted()
    {
    }

    /** The parts of a call while a block is handed out. */
    lemma CallingOut(was: seq<int>, read: seq<Event>, room: int, before: seq<int>)
      requires blockNo == |emitted|
      requires 1 <= nblockMAX && nblockMAX + 10 <= block.Length && inUse.Length == 256 && 0 <= nblock <= nblockMAX + 9
      requires Accounted() && Delivering() && Sealed() && Took(was, read) && Gave(room, before)
      requires mode != Idle && Bits.Bytes(nextIn) && availOut >= 0 && (mode != Running ==> availInExpect == |nextIn|)
      requires state.Output? && MayFollow([], stateInCh, stateInLen) && (mode == Running ==> !IsEmptyRL())
      requires LastEmitted() ==> IsEmptyRL() && availInExpect == 0 && mode == Finishing
      requires mode == Finishing && IsEmptyRL() && availInExpect == 0 ==> LastEmitted()
      requires Cuts() && Closes()
      ensures Calling(was, read, room, before)
      ensures stateOutPos < |w.zbits| && availOut == 0 ==> Rested()
      ensures mode == Finishing && stateOutPos == |w.zbits| && availInExpect == 0 && IsEmptyRL() ==> Rested()
    {
      hide Accounted, Sealed, MayFollow, Took, Gave;
    }

    /** The parts of a call while a block is filled. */
    lemma CallingIn(was: seq<int>, read: seq<Event>, room: int, before: seq<int>)
      requires blockNo == |emitted| + 1
      requires 1 <= nblockMAX && nblockMAX + 10 <= block.Length && inUse.Length == 256
      requires Accounted() && Delivering() && Sealed() && Took(was, read) && Gave(room, before)
      requires mode != Idle && Bits.Bytes(nextIn) && availOut >= 0 && (mode != Running ==> availInExpect == |nextIn|)
      requires state.Input? && Filling() && nblock < nblockMAX && w.zbits == [] && stateOutPos == 0 && !LastEmitted()
      requires Cuts() && Closes()
      ensures Calling(was, read, room, before)
      ensures mode == Flushing && availInExpect == 0 && IsEmptyRL() ==> Rested()
      ensures mode == Running && nextIn == [] ==> Rested()
    {
      hide Accounted, Sealed, Took, Gave, Delivering, Filled, MayFollow;
    }

    lemma Restarted(es: seq<Emission>)
      requires us == [] && state.Input? && emitted == es && Coding() && MayFollow([], stateInCh, stateInLen)
      requires consumed == DecodeAll(es) + PendingRun(stateInCh, stateInLen)
      ensures Accounted() && Filling()
    {
      hide DecodeAll, PendingRun, MayFollow, Filled;
      assert ExpandAll(us) == [];
    }

    lemma AccountedOut()
      requires Accounted() && state.Output?
      ensures consumed == DecodeAll(emitted) + PendingRun(stateInCh, stateInLen)
    {
    }

    lemma DeliveredAll()
      requires Delivering() && stateOutPos == |w.zbits|
      ensures HandedOut()
    {
      assert delivered + w.zbits[stateOutPos..] == delivered;
      hide Carries;
    }

    /** All bytes shipped were handed out. */
    ghost predicate HandedOut()
      reads this`delivered, this`emitted, w`bsBuff, w`bsLive
    {
      Carries(delivered, w.bsBuff, w.bsLive, StreamBits(blockSize100k, emitted), LastEmitted())
    }

    lemma NothingWaits()
      requires HandedOut() && w.zbits == [] && stateOutPos == 0
      ensures Delivering()
    {
      hide Carries, StreamBits, LastEmitted;
      assert delivered + w.zbits[stateOutPos..] == delivered;
    }

    /** The block handed out was not the last: begin the next. */
    method BeginBlock(ghost was: seq<int>, ghost read: seq<Event>, ghost room: int, ghost before: seq<int>)
      requires Calling(was, read, room, before) && state.Output? && stateOutPos == |w.zbits| && !LastEmitted()
      modifies this`stateOutPos, this`nblock, w`zbits, this`blockCRC, this`blockNo, this`us, this`state, inUse
      ensures Calling(was, read, room, before) && state.Input? && nblock == 0
      ensures mode == Flushing && availInExpect == 0 && IsEmptyRL() ==> Rested() && closed
      ensures closed ==> mode != Running && availInExpect == 0 && IsEmptyRL()
    {
      hide *;
      CallingParts(was, read, room, before);
      DeliveredAll();
      AccountedOut();
      CutsIs();
      NowIs();
      ghost var es := emitted;
      PrepareNewBlock();
      state := Input;
      Restarted(es);
      NothingWaits();
      CodingParts();
      FitsIs();
      NowIs();
      CutsIs();
      ClosesWhole();
      CallingIn(was, read, room, before);
    }

    lemma FitsIs()
      ensures Fits() <==> 0 <= nblock <= block.Length
      ensures nblock == 0 <= block.Length ==> block[..nblock] == []
    {
    }

    lemma ClosesWhole()
      requires closed ==> (mode == Flushing || mode == Finishing) && availInExpect == 0 && IsEmptyRL()
      requires mode == Finishing ==> (closed <==> LastEmitted())
      requires mode == Flushing && state.Output? && IsEmptyRL() ==> closed
      requires (mode == Flushing || mode == Finishing) && !closed && availInExpect == 0 ==> !LateByte(log)
      requires mode == Running ==> !LateByte(log)
      ensures Closes()
    {
      hide LateByte, IsEmptyRL, LastEmitted;
    }

    /** Handing out a block; when it is gone and more is to come, a new block is begun. */
    method OutputTurn(ghost was: seq<int>, ghost read: seq<Event>, ghost room: int, ghost before: seq<int>)
        returns (progress: bool, stop: bool)
      requires Calling(was, read, room, before) && state.Output?
      modifies this`availOut, this`written, this`stateOutPos, this`delivered, this`nblock, w`zbits, this`blockCRC,
               this`blockNo, this`us, this`state, inUse
      ensures Calling(was, read, room, before) && (progress <==> availOut < old(availOut)) && availOut <= old(availOut)
      ensures stop ==> Rested() && (state.Input? ==> mode == Flushing && closed)
      ensures !stop ==> state.Input? && !closed && nblock == 0 && (mode == Running ==> !IsEmptyRL()) &&
                        (mode != Running ==> nextIn != [] || !IsEmptyRL())
      ensures AtMost(WorkLeft(), old(WorkLeft())) && (progress ==> Below(WorkLeft(), old(WorkLeft())))
      ensures old(stateOutPos < |w.zbits|) && !progress ==> stop && state.Output? && stateOutPos < |w.zbits|
      ensures old(stateOutPos < |w.zbits|) ==> if old(availOut) == 0 then stop else progress
      ensures old(stateOutPos == |w.zbits|) ==> !progress && (mode == Flushing ==> state.Input?)
    {
      hide *;
      WorkIs();
      ghost var left := WorkLeft();
      CallingParts(was, read, room, before);
      progress := CopyOutputUntilStop(room, before);
      CallingOut(was, read, room, before);
      stop := true;
      DeliveringRange();
      WorkIs();
      LessWaiting(WorkLeft(), left);
      if stateOutPos < |w.zbits| { return; }
      if mode == Finishing && availInExpect == 0 && IsEmptyRL() { return; }
      BeginBlock(was, read, room, before);
      WorkIs();
      CallingParts(was, read, room, before);
      LessWaiting(WorkLeft(), left);
      if mode == Flushing && availInExpect == 0 && IsEmptyRL() { return; }
      stop := false;
    }

    lemma RoomIs(was: seq<int>, read: seq<Event>, room: int, before: seq<int>)
      requires Calling(was, read, room, before)
      ensures availOut >= 0
    {
      hide Machine, Took, Gave;
    }

    /** What a call has left to do. */
    ghost function WorkLeft(): Work
      reads this`nextIn, this`stateInCh, this`stateInLen, this`emitted, this`stateOutPos, w`zbits
    {
      WorkFor(|nextIn|)
    }

    /** What a call that offers n bytes of input has to do. */
    ghost function WorkFor(n: int): Work
      reads this`stateInCh, this`stateInLen, this`emitted, this`stateOutPos, w`zbits
    {
      Work(n, if IsEmptyRL() then 0 else 1, if LastEmitted() then 0 else 1, |w.zbits| - stateOutPos)
    }

    lemma WorkIs()
      ensures WorkLeft() == WorkFor(|nextIn|) ==
              Work(|nextIn|, if IsEmptyRL() then 0 else 1, if LastEmitted() then 0 else 1, |w.zbits| - stateOutPos)
    {
    }

    /** Between calls a block that is being handed out has bytes left, and while
        a block is filled no flush or finish has emitted its block. */
    ghost predicate Paused()
      reads this`state, this`stateOutPos, this`closed, w`zbits
    {
      (state.Output? ==> stateOutPos < |w.zbits|) && (state.Input? ==> !closed)
    }

    lemma PausedIs()
      ensures Paused() <==> (state.Output? ==> stateOutPos < |w.zbits|) && (state.Input? ==> !closed)
    {
    }

    lemma DeliveringRange()
      requires Delivering()
      ensures 0 <= stateOutPos <= |w.zbits|
    {
    }

    /** The states in which handle_compress returns. */
    ghost predicate Rested()
      reads this, w`zbits
    {
      || (state.Output? && stateOutPos < |w.zbits| && availOut == 0)
      || (state.Output? && mode == Finishing && stateOutPos == |w.zbits| && availInExpect == 0 && IsEmptyRL())
      || (state.Input? && mode == Flushing && availInExpect == 0 && IsEmptyRL())
      || (state.Input? && mode == Running && nextIn == [])
    }

    /** There is something to emit: bytes of a block, a pending run, or the header. */
    predicate Unemitted()
      reads this`nblock, this`stateInCh, this`stateInLen, this`blockNo
    {
      nblock > 0 || !IsEmptyRL() || blockNo == 1
    }

    lemma UnemittedIs()
      ensures Unemitted() <==> nblock > 0 || !IsEmptyRL() || blockNo == 1
    {
    }

    /** The pending run and the block it ends are emitted, as the last block when finishing. */
    method EndBlock(ghost was: seq<int>, ghost read: seq<Event>, ghost room: int, ghost before: seq<int>)
      requires blockNo == |emitted| + 1
      requires Reading() && Delivering() && Sealed() && !LastEmitted() && w.zbits == [] && stateOutPos == 0 &&
               Took(was, read) && Gave(room, before)
      requires 1 <= nblockMAX && nblockMAX + 10 <= block.Length && (mode == Flushing || mode == Finishing) &&
               availInExpect == 0 && availOut >= 0
      requires Fits() && AtHead(Now(), log, nblockMAX)
      modifies this`nblock, this`blockCRC, this`us, this`stateInCh, this`stateInLen, this`state, this`emitted,
               this`combinedCRC, this`closed, block, inUse, w
      ensures Calling(was, read, room, before) && state.Output? && IsEmptyRL()
      ensures mode == Finishing ==> LastEmitted() && stateOutPos < |w.zbits|
      ensures stateOutPos == 0 && (w.zbits != [] <==> mode == Finishing || old(Unemitted()))
    {
      hide *;
      UnemittedIs();
      ReadingParts();
      NowIs();
      ghost var e0, x := emitted, Now();
      FlushRL();
      FillingUnits();
      CompressBlock(mode == Finishing, false);
      state := Output;
      closed := true;
      NewestLast(e0);
      AllOut(e0);
      NowIs();
      CloseCuts(x, Now(), consumed, log, nblockMAX);
      CutsIs();
      ClosesWhole();
      CallingOut(was, read, room, before);
    }

    /** A full block is emitted; the pending run stays for the next. */
    method FullBlock(ghost was: seq<int>, ghost read: seq<Event>, ghost room: int, ghost before: seq<int>)
      requires blockNo == |emitted| + 1
      requires Reading() && Delivering() && Sealed() && !LastEmitted() && w.zbits == [] && stateOutPos == 0 &&
               Took(was, read) && Gave(room, before)
      requires 1 <= nblockMAX && nblockMAX + 10 <= block.Length && mode != Idle && !IsEmptyRL() && availOut >= 0
      requires nblock >= nblockMAX && (if mode == Running then !LateByte(log) else availInExpect != 0)
      modifies this`state, this`emitted, this`blockCRC, this`combinedCRC, w
      ensures Calling(was, read, room, before) && state.Output?
    {
      hide *;
      ReadingParts();
      FillingParts();
      FillingUnits();
      CurrentIs();
      NowIs();
      ghost var e0, x := emitted, Now();
      CompressBlock(false, true);
      state := Output;
      NewestLast(e0);
      NotEmpty();
      PendingOnly(us, stateInCh, stateInLen);
      StillPending(e0);
      NowIs();
      FullCuts(x, Now(), consumed, log, nblockMAX);
      CutsIs();
      ClosesWhole();
      CallingOut(was, read, room, before);
    }

    lemma NotEmpty()
      requires !IsEmptyRL()
      ensures stateInCh < 256
    {
    }

    lemma NewestLast(e0: seq<Emission>)
      requires |emitted| == |e0| + 1 && emitted[..|e0|] == e0
      ensures LastEmitted() <==> emitted[|e0|].last
    {
    }

    lemma AllOut(e0: seq<Emission>)
      requires Units(us) && state.Output? && IsEmptyRL() && stateInCh == 256 && stateInLen == 0
      requires consumed == DecodeAll(e0) + ExpandAll(us) && DecodeAll(emitted) == DecodeAll(e0) + ExpandAll(us)
      ensures Accounted() && MayFollow([], stateInCh, stateInLen)
    {
      hide DecodeAll, ExpandAll;
    }

    lemma StillPending(e0: seq<Emission>)
      requires Units(us) && state.Output? && DecodeAll(emitted) == DecodeAll(e0) + ExpandAll(us)
      requires consumed == DecodeAll(e0) + (ExpandAll(us) + PendingRun(stateInCh, stateInLen))
      ensures Accounted()
    {
      hide DecodeAll, ExpandAll, PendingRun;
    }

    /** Filling a block; when it is full, or the input to flush is used up, it is emitted. */
    method InputTurn(ghost was: seq<int>, ghost read: seq<Event>, ghost room: int, ghost before: seq<int>)
        returns (progress: bool, stop: bool)
      requires Calling(was, read, room, before) && state.Input? && !closed
      modifies this`nblock, this`blockCRC, this`us, this`stateInCh, this`stateInLen, this`nextIn, this`availInExpect,
               this`consumed, this`log, this`closed, this`state, this`emitted, this`combinedCRC, block, inUse, w
      ensures Calling(was, read, room, before) && |nextIn| <= |old(nextIn)| && (progress <==> |nextIn| < |old(nextIn)|)
      ensures stop ==> Rested() && mode == Running && !closed
      ensures !stop ==> state.Output? && (progress || IsEmptyRL())
      ensures old(nextIn) != [] ==> progress
      ensures !stop && !progress ==> mode != Running
      ensures mode != Flushing ==> AtMost(WorkLeft(), old(WorkLeft())) && (!stop ==> Below(WorkLeft(), old(WorkLeft())))
      ensures progress ==> Below(WorkLeft(), old(WorkLeft()))
      ensures mode == Finishing && !progress ==> Paused()
      ensures mode == Flushing && old(nextIn) == [] ==>
              !stop && state.Output? && IsEmptyRL() && stateOutPos == 0 && (w.zbits != [] <==> old(Unemitted()))
    {
      hide *;
      WorkIs();
      PausedIs();
      UnemittedIs();
      ghost var left := WorkLeft();
      CallingParts(was, read, room, before);
      progress := CopyInputUntilStop(was, read);
      ReadingParts();
      UnemittedIs();
      JustReadIs();
      NowIs();
      HeadIs(Now(), consumed, log, nblockMAX);
      stop := false;
      if mode != Running && availInExpect == 0 {
        EndBlock(was, read, room, before);
      } else if nblock >= nblockMAX {
        FullBlock(was, read, room, before);
      } else if |nextIn| == 0 {
        ClosesWhole();
        CallingIn(was, read, room, before);
        stop := true;
      }
      WorkIs();
      PausedIs();
      LessWork(WorkLeft(), left);
    }

    /** handle_compress: fill and hand out blocks until the output is full or the input used up. */
    method HandleCompress(ghost was: seq<int>, ghost read: seq<Event>, ghost room: int, ghost before: seq<int>)
        returns (progress: bool)
      requires Calling(was, read, room, before) && Paused()
      modifies this, block, inUse, w
      ensures Calling(was, read, room, before) && Rested() && mode == old(mode)
      ensures mode == Flushing && state.Input? ==> closed
      ensures |nextIn| <= |old(nextIn)| && availOut <= old(availOut) &&
              (progress <==> |nextIn| < |old(nextIn)| || availOut < old(availOut))
      ensures mode != Flushing && progress ==> Below(WorkLeft(), old(WorkLeft()))
      ensures mode == Finishing && !progress ==> Paused()
      ensures old(state.Output?) ==> (progress <==> old(availOut) > 0) && (!progress ==> state.Output? && Paused())
      ensures old(state.Input?) && old(nextIn) != [] ==> progress
      ensures old(state.Input?) && old(nextIn) == [] && mode == Running ==> !progress
      ensures old(state.Input?) && old(nextIn) == [] && old(availOut) == 0 ==> !progress
      ensures old(state.Input?) && old(nextIn) == [] && mode == Flushing ==>
              (progress <==> old(availOut) > 0 && old(Unemitted())) &&
              (if old(Unemitted()) then !progress ==> state.Output? && Paused() else state.Input?)
    {
      hide *;
      var progressIn, progressOut := false, false;
      ghost var left, dry, out := WorkLeft(), availOut == 0, state.Output?;
      ghost var none, some := nextIn == [], Unemitted();
      SameWork(left);
      PausedIs();
      while true
        invariant Calling(was, read, room, before) && mode == old(mode) && (state.Input? ==> !closed)
        invariant |nextIn| <= |old(nextIn)| && (progressIn <==> |nextIn| < |old(nextIn)|)
        invariant availOut <= old(availOut) && (progressOut <==> availOut < old(availOut))
        invariant mode != Flushing ==> AtMost(WorkLeft(), left) &&
                                       (progressIn || progressOut ==> Below(WorkLeft(), left))
        invariant mode == Finishing && !progressIn && !progressOut ==> Paused()
        invariant dry && out ==> !progressIn && state.Output? && Paused()
        invariant !dry && out ==> progressOut || (state.Output? && Paused())
        invariant !out && !none ==> progressIn || state.Input?
        invariant !out && none && mode == Running ==> state.Input? && !progressIn && !progressOut
        invariant !out && none && mode == Flushing ==> !progressIn && !progressOut
        invariant !out && none && mode == Flushing && state.Input? ==> Unemitted() == some
        invariant !out && none && mode == Flushing && state.Output? ==>
                    IsEmptyRL() && stateOutPos == 0 && (w.zbits != [] <==> some)
        decreases |nextIn|, if IsEmptyRL() then 0 else 1, if state.Input? then 1 else 0
      {
        if state.Output? {
          RoomIs(was, read, room, before);
          PausedIs();
          ghost var l1 := WorkLeft();
          var p, stop := OutputTurn(was, read, room, before);
          PausedIs();
          RoomIs(was, read, room, before);
          LessTransitive(WorkLeft(), l1, left);
          progressOut := progressOut || p;
          if stop { break; }
        }
        if state.Input? {
          ghost var l2 := WorkLeft();
          var p, stop := InputTurn(was, read, room, before);
          RoomIs(was, read, room, before);
          LessTransitive(WorkLeft(), l2, left);
          progressIn := progressIn || p;
          if stop { break; }
        }
      }
      RoomIs(was, read, room, before);
      progress := progressIn || progressOut;
    }

    // ---- the interface ----

    /** BZ2_bzCompressInit for a block size of 1 to 9. */
    constructor (blockSize100k: int, step: (int, int) -> int)
      requires 1 <= blockSize100k <= 9 && WordStep(step)
      ensures Machine() && Paused() && mode == Running && consumed == [] && delivered == [] && emitted == [] &&
              log == [] && fresh(block) && fresh(inUse) && fresh(w)
      ensures this.blockSize100k == blockSize100k && nblockMAX == 100_000 * blockSize100k - 19 && this.step == step
    {
      hide *;
      var n := 100_000 * blockSize100k;
      nblockMAX := n - 19;
      this.blockSize100k := blockSize100k;
      this.step := step;
      block := new int[4 * (n + 34)];
      inUse := new bool[256];
      w := new Writer();
      combinedCRC := 0;
      mode := Running;
      state := Input;
      availInExpect := 0;
      stateInCh := 256;
      stateInLen := 0;
      blockNo := 0;
      nextIn := [];
      availOut := 0;
      written := [];
      emitted := [];
      consumed := [];
      delivered := [];
      log := [];
      closed := false;
      new;
      Start();
    }

    /** The first block is begun. */
    method Start()
      requires 1 <= blockSize100k <= 9 && nblockMAX == 100_000 * blockSize100k - 19 && WordStep(step) &&
               inUse.Length == 256
      requires nblockMAX + 10 <= block.Length && w.Valid() && w.Contents() == [] && combinedCRC == 0 && blockNo == 0
      requires mode == Running && state.Input? && stateInCh == 256 && stateInLen == 0
      requires consumed == [] && delivered == [] && emitted == [] && log == [] && !closed
      modifies this`nblock, this`stateOutPos, this`blockCRC, this`blockNo, this`us, inUse, w`zbits
      ensures Machine() && Paused()
    {
      hide *;
      StartedOut();
      NothingRead();
      PrepareNewBlock();
      Restarted([]);
      NothingWaits();
      SealedAll([]);
      CodingParts();
      FitsIs();
      NowIs();
      NoCuts(nblockMAX);
      CutsIs();
      ClosesWhole();
      Fresh();
      PausedIs();
    }

    lemma NothingRead()
      requires stateInCh == 256 && stateInLen == 0
      ensures MayFollow([], stateInCh, stateInLen) && DecodeAll([]) + PendingRun(stateInCh, stateInLen) == []
      ensures AllSealed([], nblockMAX, step) && Combined([]) == 0
    {
    }

    lemma StartedOut()
      requires w.Valid() && w.Contents() == [] && delivered == [] && emitted == []
      ensures HandedOut()
    {
      NoBits(Pending(w.bsBuff, w.bsLive));
      assert |w.Contents()| == |ByteBits(w.zbits)| + |Pending(w.bsBuff, w.bsLive)|;
      hide ByteBits, Pending, WriterOk;
    }

    lemma Fresh()
      requires blockNo == 1 && Sealed() && Cuts() && Closes()
      requires 1 <= nblockMAX && nblockMAX + 10 <= block.Length && inUse.Length == 256 && Accounted() &&
               Delivering() && Filling()
      requires emitted == [] && state.Input? && mode == Running && nblock == 0 && w.zbits == [] && stateOutPos == 0
      ensures Machine()
    {
      hide Accounted, Delivering, Filling;
    }

    lemma CallBegins(was: seq<int>, room: int)
      requires Machine() && mode != Idle && Bits.Bytes(was) && room >= 0 && (mode != Running ==> availInExpect == |was|)
      requires nextIn == was && availOut == room && written == []
      ensures Calling(was, log, room, delivered)
    {
      hide Machine;
      assert was[..0] == [];
    }

    /** A mode that ends is entered with the count of the input offered. */
    method EnterMode(m: Mode)
      requires Machine() && mode == Running && (m == Flushing || m == Finishing)
      modifies this`mode, this`availInExpect
      ensures Machine() && mode == m && availInExpect == |nextIn| && !closed
    {
      hide Accounted, Sealed, Filling, MayFollow, Delivering, Cuts, LateByte;
      availInExpect := |nextIn|;
      mode := m;
    }

    /** What the caller learns from a call that came to rest. */
    lemma CallEnds(was: seq<int>, read: seq<Event>, room: int, before: seq<int>)
      requires Calling(was, read, room, before) && Rested()
      ensures Machine() && |nextIn| <= |was| && log == read + Tagged(was[..|was| - |nextIn|], mode != Running) &&
              delivered == before + written && |written| == room - availOut && availOut >= 0
      ensures mode == Running ==> nextIn == [] || availOut == 0
      ensures mode == Flushing || mode == Finishing ==> availInExpect == |nextIn|
      ensures mode == Running || availInExpect > 0 || !IsEmptyRL() || stateOutPos < |w.zbits| ==> Paused()
      ensures mode == Finishing && Paused() ==> availOut == 0
      ensures mode == Flushing && state.Input? ==> !(availInExpect > 0 || !IsEmptyRL() || stateOutPos < |w.zbits|)
      ensures mode == Running && state.Output? ==> availOut == 0
      ensures mode == Flushing && (availInExpect > 0 || !IsEmptyRL() || stateOutPos < |w.zbits|) ==> availOut == 0
      ensures mode == Flushing && !(availInExpect > 0 || !IsEmptyRL() || stateOutPos < |w.zbits|) ==> state.Input?
      ensures mode == Finishing && (availInExpect > 0 || !IsEmptyRL() || stateOutPos < |w.zbits|) ==> availOut == 0
      ensures mode == Finishing && !(availInExpect > 0 || !IsEmptyRL() || stateOutPos < |w.zbits|) ==>
              LastEmitted() && state.Output? && stateOutPos == |w.zbits|
    {
      hide Accounted, Sealed, Filling, MayFollow;
    }

    /** Nothing read is left outside an emitted block, and all their bytes were handed out. */
    ghost predicate AllDelivered()
      reads this`consumed, this`emitted, this`delivered, w`bsBuff, w`bsLive
    {
      consumed == DecodeAll(emitted) && HandedOut()
    }

    lemma FlushedAll()
      requires Machine() && state.Input? && IsEmptyRL()
      ensures AllDelivered()
    {
      MachineRests();
      hide Machine, Carries, StreamBits;
    }

    lemma MachineRests()
      requires Machine() && IsEmptyRL() && (state.Output? ==> stateOutPos == |w.zbits|)
      ensures consumed == DecodeAll(emitted) && HandedOut()
    {
      hide Carries, StreamBits, Filled, AllSealed, Combined, DecodeAll;
      if state.Input? { assert us == [] || nblock >= 0; }
      DeliveredAll();
    }

    lemma FinishedAll()
      requires Machine() && state.Output? && stateOutPos == |w.zbits| && IsEmptyRL()
      ensures AllDelivered()
    {
      MachineRests();
      hide Machine, Carries, StreamBits;
    }

    /** Leaving a mode once its work is done. */
    method LeaveMode()
      requires Machine()
      requires (mode == Flushing && state.Input? && closed) || (mode == Finishing && LastEmitted() && state.Output? &&
               stateOutPos == |w.zbits|)
      modifies this`mode, this`log, this`closed
      ensures Machine() && mode == (if old(mode) == Flushing then Running else Idle)
      ensures log == old(log) + [End] && (mode == Running ==> Paused())
    {
      hide Accounted, Sealed, Filling, MayFollow, Delivering, CutsFor, LateByte, Pieces;
      assert closed;
      EndCuts(Now(), consumed, log, nblockMAX);
      mode := if mode == Flushing then Running else Idle;
      log := log + [End];
      closed := false;
    }

    /** What every call keeps, whatever it returns: input is taken from the front, output is appended. */
    ghost predicate Answered(was: seq<int>, read: seq<Event>, room: int, before: seq<int>, ending: bool, ended: bool)
      reads this
    {
      && |nextIn| <= |was| && log == read + Noted(was[..|was| - |nextIn|], ending, ended)
      && delivered == before + written && 0 <= availOut && |written| == room - availOut
    }

    /** The BZ_M_RUNNING case with BZ_RUN. */
    method RunCall(ghost was: seq<int>, ghost room: int) returns (code: Code)
      requires Machine() && Paused() && mode == Running && nextIn == was && Bits.Bytes(was) && availOut == room >= 0 &&
               written == []
      modifies this, block, inUse, w
      ensures Machine() && Paused() && mode == Running && Answered(was, old(log), room, old(delivered), false, false)
      ensures (code == RunOk || code == ParamError) && (nextIn == [] || availOut == 0)
      ensures code == ParamError <==> nextIn == was && availOut == room
      ensures code == ParamError <==> if old(state.Input?) then was == [] else room == 0
      ensures code == RunOk ==> Below(WorkLeft(), old(WorkLeft()))
    {
      hide *;
      ghost var read, before := log, delivered;
      CallBegins(was, room);
      var progress := HandleCompress(was, read, room, before);
      CallEnds(was, read, room, before);
      NotedNone(read + Tagged(was[..|was| - |nextIn|], false));
      AnsweredIs(was, read, room, before, false, false);
      if !progress { SameInput(was, read, room, before); }
      code := if progress then RunOk else ParamError;
    }

    /** The BZ_M_FLUSHING case with BZ_FLUSH. */
    method FlushCall(ghost was: seq<int>, ghost room: int) returns (code: Code)
      requires Machine() && Paused() && mode == Flushing && nextIn == was && Bits.Bytes(was) &&
               availOut == room >= 0 && written == [] && availInExpect == |was|
      modifies this, block, inUse, w
      ensures Machine() && (mode != Idle ==> Paused())
      ensures Answered(was, old(log), room, old(delivered), true, code == RunOk)
      ensures code == FlushOk || code == RunOk
      ensures code == FlushOk ==> mode == Flushing && availInExpect == |nextIn| && availOut == 0
      ensures code == RunOk ==> mode == Running && nextIn == [] && AllDelivered()
      ensures nextIn == was && availOut == room <==>
                if old(state.Output?) then room == 0 else was == [] && (room == 0 || !old(Unemitted()))
      ensures code == FlushOk && nextIn == was && availOut == room <==>
                room == 0 && (old(state.Output?) || (was == [] && old(Unemitted())))
    {
      hide *;
      ghost var read, before := log, delivered;
      CallBegins(was, room);
      var progress := HandleCompress(was, read, room, before);
      CallEnds(was, read, room, before);
      NotedNone(read + Tagged(was[..|was| - |nextIn|], true));
      AnsweredIs(was, read, room, before, true, false);
      if !progress {
        SameInput(was, read, room, before);
        PausedIs();
      }
      if availInExpect > 0 || !IsEmptyRL() || stateOutPos < |w.zbits| { return FlushOk; }
      FlushedAll();
      LeaveMode();
      AnsweredIs(was, read, room, before, true, true);
      code := RunOk;
    }

    /** The BZ_M_FINISHING case with BZ_FINISH. */
    method FinishCall(ghost was: seq<int>, ghost room: int) returns (code: Code)
      requires Machine() && Paused() && mode == Finishing && nextIn == was && Bits.Bytes(was) &&
               availOut == room >= 0 && written == [] && availInExpect == |was|
      modifies this, block, inUse, w
      ensures Machine() && (mode != Idle ==> Paused())
      ensures Answered(was, old(log), room, old(delivered), true, code == StreamEnd)
      ensures code == SequenceError || code == FinishOk || code == StreamEnd
      ensures code != StreamEnd ==> mode == Finishing && availInExpect == |nextIn|
      ensures code == FinishOk ==> availOut == 0
      ensures code == SequenceError <==> nextIn == was && availOut == room
      ensures code == SequenceError <==> room == 0 && (was == [] || old(state.Output?))
      ensures code == FinishOk ==> Below(WorkLeft(), old(WorkLeft()))
      ensures code == StreamEnd ==> mode == Idle && nextIn == [] && LastEmitted() && AllDelivered()
    {
      hide *;
      ghost var read, before := log, delivered;
      CallBegins(was, room);
      var progress := HandleCompress(was, read, room, before);
      CallEnds(was, read, room, before);
      NotedNone(read + Tagged(was[..|was| - |nextIn|], true));
      AnsweredIs(was, read, room, before, true, false);
      if !progress {
        SameInput(was, read, room, before);
        return SequenceError;
      }
      if availInExpect > 0 || !IsEmptyRL() || stateOutPos < |w.zbits| { return FinishOk; }
      FinishedAll();
      LeaveMode();
      AnsweredIs(was, read, room, before, true, true);
      code := StreamEnd;
    }

    lemma AnsweredIs(was: seq<int>, read: seq<Event>, room: int, before: seq<int>, ending: bool, ended: bool)
      requires |nextIn| <= |was|
      requires log == (read + Tagged(was[..|was| - |nextIn|], ending)) + (if ended then [End] else [])
      requires delivered == before + written && 0 <= availOut && |written| == room - availOut
      ensures Answered(was, read, room, before, ending, ended)
    {
      hide Tagged;
    }

    lemma SameInput(was: seq<int>, read: seq<Event>, room: int, before: seq<int>)
      requires Calling(was, read, room, before) && |nextIn| == |was|
      ensures nextIn == was
    {
    }

    /** A call that hands n bytes to BZ_FINISH is one the mode allows. */
    predicate MayFinish(n: int)
      reads this`mode, this`availInExpect
    {
      mode == Running || (mode == Finishing && availInExpect == n)
    }

    /** The same for BZ_FLUSH. */
    predicate MayFlush(n: int)
      reads this`mode, this`availInExpect
    {
      mode == Running || (mode == Flushing && availInExpect == n)
    }

    /** BZ2_bzCompress: one call offers input and room for output. */
    method Compress(action: Action, input: seq<int>, room: int) returns (code: Code)
      requires Machine() && (mode != Idle ==> Paused()) && Bits.Bytes(input) && room >= 0
      modifies this, block, inUse, w
      ensures Machine() && (mode != Idle ==> Paused())
      ensures Answered(input, old(log), room, old(delivered), action != Run, CarriedOut(action, code))
      ensures action == Finish && old(MayFinish(|input|)) ==> code == SequenceError || code == FinishOk ||
                                                              code == StreamEnd
      ensures action == Finish && old(MayFinish(|input|)) && code != StreamEnd ==>
              mode == Finishing && MayFinish(|nextIn|)
      ensures action == Finish && old(MayFinish(|input|)) ==>
              (code == SequenceError <==> nextIn == input && written == [])
      ensures action == Finish && old(MayFinish(|input|)) ==>
              (code == SequenceError <==> room == 0 && (input == [] || old(state.Output?)))
      ensures code == FinishOk ==> Below(WorkLeft(), old(WorkFor(|input|)))
      ensures action == Run && old(mode) == Running ==> mode == Running && (code == RunOk || code == ParamError)
      ensures action == Run && old(mode) == Running ==> (code == ParamError <==> nextIn == input && written == [])
      ensures action == Run && old(mode) == Running ==>
              (code == ParamError <==> if old(state.Input?) then input == [] else room == 0)
      ensures action == Flush && old(MayFlush(|input|)) ==>
              (code == FlushOk && mode == Flushing && MayFlush(|nextIn|)) || (code == RunOk && mode == Running)
      ensures action == Flush && old(MayFlush(|input|)) ==>
              (nextIn == input && written == [] <==>
                 if old(state.Output?) then room == 0 else input == [] && (room == 0 || !old(Unemitted())))
      ensures action == Flush && old(MayFlush(|input|)) ==>
              (mode == Flushing && nextIn == input && written == [] <==>
                 room == 0 && (old(state.Output?) || (input == [] && old(Unemitted()))))
      ensures action == Run && code == RunOk ==> Below(WorkLeft(), old(WorkFor(|input|)))
      ensures code == StreamEnd ==> old(mode) != Idle && mode == Idle && nextIn == [] && LastEmitted() && AllDelivered()
      ensures mode == Idle <==> code == StreamEnd || old(mode) == Idle
      ensures old(mode) != Flushing && action != Flush ==> mode != Flushing
      ensures old(mode) == Idle ==> code == SequenceError && nextIn == input && written == []
      ensures code == FlushOk || code == FinishOk ==> availOut == 0
      ensures code == RunOk && action == Run ==> nextIn == [] || availOut == 0
      ensures code == RunOk && action == Flush ==> nextIn == [] && AllDelivered()
    {
      hide *;
      nextIn, availOut, written := input, room, [];
      NothingYet(input, room, action != Run);
      WorkIs();
      MayEndIs(|input|);
      CarriedIs(action);
      if mode == Idle { return SequenceError; }
      if mode == Running {
        if action == Run {
          code := RunCall(input, room);
          NothingDone(input, old(log), room, old(delivered), action != Run, CarriedOut(action, code));
          return;
        } else if action == Flush {
          EnterMode(Flushing);
        } else if action == Finish {
          EnterMode(Finishing);
        } else {
          return ParamError;
        }
      }
      if mode == Flushing {
        if action != Flush { return SequenceError; }
        if availInExpect != |nextIn| { return SequenceError; }
        code := FlushCall(input, room);
        MayEndIs(|nextIn|);
        NothingDone(input, old(log), room, old(delivered), action != Run, CarriedOut(action, code));
      } else {
        if action != Finish { return SequenceError; }
        if availInExpect != |nextIn| { return SequenceError; }
        code := FinishCall(input, room);
        MayEndIs(|nextIn|);
        NothingDone(input, old(log), room, old(delivered), action != Run, CarriedOut(action, code));
      }
    }

    lemma CarriedIs(action: Action)
      ensures forall code :: CarriedOut(action, code) <==> code == StreamEnd || (action == Flush && code == RunOk)
    {
    }

    lemma MayEndIs(n: int)
      ensures MayFinish(n) <==> mode == Running || (mode == Finishing && availInExpect == n)
      ensures MayFlush(n) <==> mode == Running || (mode == Flushing && availInExpect == n)
    {
    }

    lemma NothingDone(was: seq<int>, read: seq<Event>, room: int, before: seq<int>, ending: bool, ended: bool)
      requires Answered(was, read, room, before, ending, ended)
      ensures written == [] <==> availOut == room
      ensures nextIn == was ==> |nextIn| == |was|
    {
    }

    lemma AnsweredParts(was: seq<int>, read: seq<Event>, room: int, before: seq<int>, ending: bool, ended: bool)
      requires Answered(was, read, room, before, ending, ended) && Machine()
      ensures |nextIn| <= |was| && log == read + Noted(was[..|was| - |nextIn|], ending, ended)
      ensures consumed == BytesOf(read) + was[..|was| - |nextIn|] && delivered == before + written && |written| <= room
    {
      hide Accounted, Sealed, Filling, MayFollow, Delivering, Phase, Closes, Closing, CutFull, Noted;
      NotedBytes(read, was[..|was| - |nextIn|], ending, ended);
    }

    lemma LogBytes()
      requires Machine()
      ensures consumed == BytesOf(log)
    {
      hide Accounted, Sealed, Filling, MayFollow, Delivering, Phase, Closes, Closing, CutFull;
    }

    /** The blocks emitted between calls. */
    lemma CutParts()
      requires Machine()
      ensures Pieces(emitted) == BlocksFor(log, closed, nblockMAX)
      ensures closed ==> mode == Flushing || (mode == Finishing && Ended(emitted))
      ensures mode == Idle ==> !closed && Ended(emitted)
      ensures nblockMAX >= 1
    {
      hide Accounted, Sealed, Filling, MayFollow, Delivering, Cutting, Pieces;
    }

    lemma MachineParts()
      requires Machine()
      ensures Units(us) && consumed == DecodeAll(emitted) +
              (if state.Input? then Current() else PendingRun(stateInCh, stateInLen))
      ensures 0 <= stateOutPos <= |w.zbits|
      ensures Carries(delivered + w.zbits[stateOutPos..], w.bsBuff, w.bsLive, StreamBits(blockSize100k, emitted),
              Ended(emitted))
      ensures AllSealed(emitted, nblockMAX, step)
    {
    }

    lemma AllParts()
      requires AllDelivered() && LastEmitted()
      ensures consumed == DecodeAll(emitted) && Ended(emitted)
      ensures WholeStream(delivered, blockSize100k, emitted)
    {
    }

    lemma IdleAll()
      requires Machine() && mode == Idle
      ensures AllDelivered() && LastEmitted()
    {
      hide Carries, StreamBits, Accounted, Delivering, Sealed;
      FinishedAll();
    }

    lemma NothingYet(input: seq<int>, room: int, ending: bool)
      requires nextIn == input && availOut == room >= 0 && written == []
      ensures Answered(input, log, room, delivered, ending, false)
    {
      assert input[..0] == [];
      NothingNoted(ending);
      assert delivered + [] == delivered;
    }
  }

  /** The call has carried out a flush or finish. */
  predicate CarriedOut(action: Action, code: Code) {
    code == StreamEnd || (action == Flush && code == RunOk)
  }

  /** Input to read, a pending run, a last block to emit, bytes to hand out: what comes first weighs more. */
  datatype Work = Work(input: int, run: int, open: int, waiting: int)

  predicate Below(a: Work, b: Work) {
    || a.input < b.input
    || (a.input == b.input && a.run < b.run)
    || (a.input == b.input && a.run == b.run && a.open < b.open)
    || (a.input == b.input && a.run == b.run && a.open == b.open && a.waiting < b.waiting)
  }

  predicate AtMost(a: Work, b: Work) {
    a == b || Below(a, b)
  }

  lemma SameWork(a: Work)
    ensures AtMost(a, a)
  {
  }

  lemma LessTransitive(a: Work, b: Work, c: Work)
    ensures AtMost(a, b) && AtMost(b, c) ==> AtMost(a, c)
    ensures AtMost(a, b) && Below(b, c) ==> Below(a, c)
    ensures Below(a, b) && AtMost(b, c) ==> Below(a, c)
  {
  }

  lemma LessWaiting(a: Work, b: Work)
    ensures a.input == b.input && a.run == b.run && a.open == b.open && a.waiting <= b.waiting ==> AtMost(a, b)
    ensures a.input == b.input && a.run == b.run && a.open == b.open && a.waiting < b.waiting ==> Below(a, b)
  {
  }

  lemma LessWork(a: Work, b: Work)
    ensures a == b ==> AtMost(a, b)
    ensures a.input < b.input || (a.input == b.input && (a.run < b.run || (a.run == b.run && a.open < b.open))) ==>
            Below(a, b) && AtMost(a, b)
  {
  }

  lemma WrittenSize(w: Writer, c: seq<bool>, a: seq<bool>, pad: nat, last: bool)
    requires last ==> pad < 8 && ByteBits(w.zbits) == c + a + Zeros(pad)
    requires !last ==> w.Valid() && w.Contents() == c + a
    ensures 8 * |w.zbits| <= |c| + |a| + 7
  {
    if !last { assert |w.Contents()| == |ByteBits(w.zbits)| + |Pending(w.bsBuff, w.bsLive)|; }
    hide ByteBits, Pending, WriterOk;
  }

  lemma PendingOnly(us: seq<Unit>, ch: int, len: int)
    requires MayFollow(us, ch, len) && ch < 256
    ensures MayFollow([], ch, len)
  {
  }

  lemma TailBytes(s: seq<int>)
    requires Bits.Bytes(s) && s != []
    ensures Bits.Bytes(s[1..])
  {
  }

  lemma TakeOne(was: seq<int>, left: seq<int>)
    requires 0 < |left| <= |was| && left == was[|was| - |left|..]
    ensures left[1..] == was[|was| - |left[1..]|..] && was[..|was| - |left|] + [left[0]] == was[..|was| - |left[1..]|]
  {
  }

  lemma RunRange(us: seq<Unit>, ch: int, len: int)
    requires MayFollow(us, ch, len)
    ensures 0 <= ch <= 256 && 0 <= len <= 255 && (ch < 256 <==> len > 0)
  {
  }

  /** What one more byte does to the runs. */
  lemma {:induction false} RunStep(us: seq<Unit>, ch: int, len: int, c: int)
    requires Units(us) && MayFollow(us, ch, len) && 0 <= c < 256
    ensures ch < 256 ==> Units(us + [Unit(ch, len)]) && ExpandAll(us + [Unit(ch, len)]) + PendingRun(c, 1) ==
                         ExpandAll(us) + PendingRun(ch, len) + [c]
    ensures ch < 256 && (c != ch || len == 255) ==> MayFollow(us + [Unit(ch, len)], c, 1)
    ensures ch >= 256 ==> ExpandAll(us) + PendingRun(c, 1) == ExpandAll(us) + PendingRun(ch, len) + [c] &&
                          MayFollow(us, c, 1)
    ensures c == ch && len < 255 ==> ExpandAll(us) + PendingRun(c, len + 1) == ExpandAll(us) + PendingRun(ch, len) +
                                     [c] && MayFollow(us, c, len + 1)
  {
    hide PackAll, ExpandAll;
    assert PendingRun(c, 1) == [c];
    if ch < 256 {
      PackSnoc(us, Unit(ch, len));
      if c == ch { assert PendingRun(c, len + 1) == PendingRun(ch, len) + [c]; }
    } else {
      assert PendingRun(ch, len) == [];
    }
  }

  lemma RunBytes(ch: int, len: int)
    ensures ch < 256 && len >= 0 ==> PendingRun(ch, len) == Copies(ch, len)
  {
  }

  lemma FlushedRun(us: seq<Unit>, ch: int, len: int)
    requires Units(us) && MayFollow(us, ch, len)
    ensures ch < 256 ==> Units(us + [Unit(ch, len)]) && ExpandAll(us + [Unit(ch, len)]) == ExpandAll(us) +
                         PendingRun(ch, len)
    ensures ch >= 256 ==> ExpandAll(us) == ExpandAll(us) + PendingRun(ch, len)
  {
    if ch < 256 { PackSnoc(us, Unit(ch, len)); }
  }

  lemma UnitPack(u: Unit)
    requires IsUnit(u)
    ensures 0 <= u.ch < 256 && 1 <= u.len <= 255
    ensures u.len == 1 ==> Pack(u) == [u.ch]
    ensures u.len == 2 ==> Pack(u) == [u.ch, u.ch]
    ensures u.len == 3 ==> Pack(u) == [u.ch, u.ch, u.ch]
    ensures u.len >= 4 ==> Pack(u) == [u.ch, u.ch, u.ch, u.ch, u.len - 4]
  {
  }

  lemma FlagsAre(inUse: seq<bool>, ch: int, len: int, f: seq<bool>)
    requires |inUse| == |f| == 256 && 0 <= ch < 256 && 0 <= len <= 255
    requires f == if len >= 4 then inUse[ch := true][len - 4 := true] else inUse[ch := true]
    ensures f == WithFlags(inUse, ch, len)
  {
  }

  // ---- whole runs ----

  datatype Call = Call(action: Action, input: seq<int>, room: int)
  datatype Reply = Reply(code: Code, used: int, out: seq<int>)

  ghost predicate Offered(calls: seq<Call>) {
    forall i :: 0 <= i < |calls| ==> Bits.Bytes(calls[i].input) && calls[i].room >= 0
  }

  ghost predicate Answers(calls: seq<Call>, replies: seq<Reply>) {
    && |replies| <= |calls|
    && forall i :: 0 <= i < |replies| ==> 0 <= replies[i].used <= |calls[i].input| && |replies[i].out| <= calls[i].room
  }

  /** The input the calls took, in order. */
  ghost function Taken(calls: seq<Call>, replies: seq<Reply>): seq<int>
    requires Answers(calls, replies)
    decreases |replies|
  {
    if replies == [] then [] else
      var n := |replies| - 1;
      Taken(calls, replies[..n]) + calls[n].input[..replies[n].used]
  }

  /** The output the calls gave, in order. */
  function Given(replies: seq<Reply>): seq<int> {
    if replies == [] then [] else Given(replies[..|replies| - 1]) + replies[|replies| - 1].out
  }

  /** Some call answered that the stream is complete. */
  predicate StreamEnded(replies: seq<Reply>) {
    exists i :: 0 <= i < |replies| && replies[i].code == StreamEnd
  }

  lemma {:induction false} ReplySnoc(calls: seq<Call>, replies: seq<Reply>, r: Reply)
    requires Answers(calls, replies) && |replies| < |calls| && 0 <= r.used <= |calls[|replies|].input| &&
             |r.out| <= calls[|replies|].room
    ensures Answers(calls, replies + [r])
    ensures Taken(calls, replies + [r]) == Taken(calls, replies) + calls[|replies|].input[..r.used]
    ensures Given(replies + [r]) == Given(replies) + r.out
    ensures StreamEnded(replies + [r]) <==> StreamEnded(replies) || r.code == StreamEnd
  {
    assert (replies + [r])[..|replies|] == replies;
    if i :| 0 <= i < |replies| && replies[i].code == StreamEnd { assert (replies + [r])[i].code == StreamEnd; }
    if r.code == StreamEnd { assert (replies + [r])[|replies|].code == StreamEnd; }
  }

  /** What the calls did, as events: the bytes they took and the flushes and finishes they carried out. */
  ghost function LogOf(calls: seq<Call>, replies: seq<Reply>): seq<Event>
    requires Answers(calls, replies)
    decreases |replies|
  {
    if replies == [] then [] else
      var n := |replies| - 1;
      LogOf(calls, replies[..n]) + NotedBy(calls[n], replies[n])
  }

  ghost function NotedBy(call: Call, reply: Reply): seq<Event>
    requires 0 <= reply.used <= |call.input|
  {
    Noted(call.input[..reply.used], call.action != Run, CarriedOut(call.action, reply.code))
  }

  ghost predicate NoFlush(calls: seq<Call>) {
    forall i :: 0 <= i < |calls| ==> calls[i].action != Flush
  }

  /** Only at its end, if at all, the log has the end of a finish. */
  ghost predicate FinishOnly(log: seq<Event>, ended: bool) {
    if ended then log != [] && log[|log| - 1] == End && NoEnds(log[..|log| - 1]) else NoEnds(log)
  }

  lemma {:induction false} LogSnoc(calls: seq<Call>, replies: seq<Reply>, r: Reply)
    requires Answers(calls, replies) && |replies| < |calls| && 0 <= r.used <= |calls[|replies|].input| &&
             |r.out| <= calls[|replies|].room
    ensures Answers(calls, replies + [r])
    ensures LogOf(calls, replies + [r]) == LogOf(calls, replies) + NotedBy(calls[|replies|], r)
    ensures NotedBy(calls[|replies|], r) ==
            Noted(calls[|replies|].input[..r.used], calls[|replies|].action != Run,
                  CarriedOut(calls[|replies|].action, r.code))
    ensures NoFlush(calls) ==> calls[|replies|].action != Flush
  {
    assert (replies + [r])[..|replies|] == replies;
    hide Noted;
  }

  lemma FinishNext(log: seq<Event>, s: seq<int>, ending: bool, ended: bool)
    requires FinishOnly(log, false)
    ensures FinishOnly(log + Noted(s, ending, ended), ended)
  {
    var t := log + Noted(s, ending, ended);
    if ended { assert t[..|t| - 1] == log + Tagged(s, ending); }
  }

  /** Over any calls at all: what was read is what the emitted blocks decode to, then the
      block and run in hand, and what was given, with what waits, is the stream of those
      blocks; once BZ_STREAM_END is returned the blocks are all of the input, and the bytes
      given are their whole stream, trailer included, filled up with fewer than eight zeros. */
  method RunAll(blockSize100k: int, step: (int, int) -> int, calls: seq<Call>) returns (s: EState, replies: seq<Reply>)
    requires 1 <= blockSize100k <= 9 && WordStep(step) && Offered(calls)
    ensures |replies| == |calls| && Answers(calls, replies) && s.Machine()
    ensures Units(s.us) && Taken(calls, replies) == DecodeAll(s.emitted) +
            (if s.state.Input? then s.Current() else PendingRun(s.stateInCh, s.stateInLen))
    ensures 0 <= s.stateOutPos <= |s.w.zbits| &&
            Carries(Given(replies) + s.w.zbits[s.stateOutPos..], s.w.bsBuff, s.w.bsLive,
            StreamBits(blockSize100k, s.emitted), Ended(s.emitted))
    ensures AllSealed(s.emitted, 100_000 * blockSize100k - 19, step)
    ensures StreamEnded(replies) ==> Taken(calls, replies) == DecodeAll(s.emitted) && Ended(s.emitted) &&
                                     WholeStream(Given(replies), blockSize100k, s.emitted)
    ensures Pieces(s.emitted) == BlocksFor(LogOf(calls, replies), s.closed, 100_000 * blockSize100k - 19)
    ensures StreamEnded(replies) ==> !s.closed
    ensures NoFlush(calls) ==> FinishOnly(LogOf(calls, replies), StreamEnded(replies))
    ensures NoFlush(calls) ==> FullButNewest(s.emitted, 100_000 * blockSize100k - 19)
  {
    hide *;
    s := new EState(blockSize100k, step);
    replies := [];
    NoReplies(calls);
    for k := 0 to |calls|
      invariant |replies| == k && Answers(calls, replies) && s.Machine() && (s.mode != Idle ==> s.Paused()) &&
                fresh(s) && fresh(s.block) && fresh(s.inUse) && fresh(s.w)
      invariant s.consumed == Taken(calls, replies) && s.delivered == Given(replies)
      invariant (StreamEnded(replies) <==> s.mode == Idle) && s.log == LogOf(calls, replies)
      invariant NoFlush(calls) ==> s.mode != Flushing && FinishOnly(s.log, StreamEnded(replies))
    {
      OfferedAt(calls, k);
      s.LogBytes();
      ghost var read, before := s.log, s.delivered;
      var code := s.Compress(calls[k].action, calls[k].input, calls[k].room);
      s.AnsweredParts(calls[k].input, read, calls[k].room, before, calls[k].action != Run,
                      CarriedOut(calls[k].action, code));
      var r := Reply(code, |calls[k].input| - |s.nextIn|, s.written);
      ReplySnoc(calls, replies, r);
      LogSnoc(calls, replies, r);
      if NoFlush(calls) { FinishMore(s.log, calls, replies, r, read); }
      replies := replies + [r];
    }
    s.MachineParts();
    s.CutParts();
    if s.mode == Idle { s.IdleAll(); s.AllParts(); }
    if NoFlush(calls) { FullPieces(s.emitted, s.log, StreamEnded(replies), s.closed, s.nblockMAX); }
  }

  lemma FinishMore(log': seq<Event>, calls: seq<Call>, replies: seq<Reply>, r: Reply, log: seq<Event>)
    requires NoFlush(calls) && |replies| < |calls| && 0 <= r.used <= |calls[|replies|].input|
    requires log' == log + NotedBy(calls[|replies|], r) && FinishOnly(log, StreamEnded(replies))
    requires StreamEnded(replies) ==> r.used == 0 && r.code == SequenceError
    ensures FinishOnly(log', StreamEnded(replies) || r.code == StreamEnd)
  {
    var call := calls[|replies|];
    assert CarriedOut(call.action, r.code) <==> r.code == StreamEnd;
    hide Noted, FinishOnly, StreamEnded;
    if StreamEnded(replies) {
      NothingNoted(call.action != Run);
      assert call.input[..0] == [];
      NotedNone(log);
    } else {
      FinishNext(log, call.input[..r.used], call.action != Run, CarriedOut(call.action, r.code));
    }
  }

  lemma {:induction false} FullPieces(es: seq<Emission>, log: seq<Event>, ended: bool, closed: bool, max: int)
    requires FinishOnly(log, ended) && Pieces(es) == BlocksFor(log, closed, max) && max >= 1
    requires closed ==> !ended && Ended(es)
    requires ended ==> Ended(es)
    ensures FullButNewest(es, max)
  {
    var front, ps := if ended then log[..|log| - 1] else log, Pieces(es);
    FullButLast(front, max);
    if ended { var l := FinishedLog(log, max); }
    BlocksForIs(log, max);
    hide *;
    NewestOnly(es, ps, max, ended || closed);
  }

  lemma BlocksForIs(log: seq<Event>, max: int)
    ensures BlocksFor(log, true, max) == Closing(log, max).done
    ensures BlocksFor(log, false, max) == CutFull(Cutting(log, max), max).done
  {
    hide Cutting, CutFull, Closing;
  }

  lemma NewestOnly(es: seq<Emission>, ps: seq<Piece>, max: int, newest: bool)
    requires ps == Pieces(es) && (newest ==> Ended(es) && AllOf(ps[..|ps| - 1], max))
    requires !newest ==> AllOf(ps, max)
    ensures FullButNewest(es, max)
  {
    assert |ps| == |es|;
    forall i | 0 <= i < |es| && !es[i].last ensures es[i].full && |es[i].block| >= max {
      assert ps[i] == Piece(es[i].block, es[i].full);
      if newest { assert ps[..|ps| - 1][i] == ps[i]; }
    }
  }

  /** The blocks emitted after these events; closed tells that the flush or finish in progress has emitted its own. */
  ghost function BlocksFor(log: seq<Event>, closed: bool, max: int): seq<Piece> {
    if closed then Closing(log, max).done else CutFull(Cutting(log, max), max).done
  }

  /** All blocks but the last one of the stream reach the limit. */
  ghost predicate FullButNewest(es: seq<Emission>, max: int) {
    forall i :: 0 <= i < |es| && !es[i].last ==> es[i].full && |es[i].block| >= max
  }

  /** The newest byte was taken by a call other than BZ_RUN. */
  ghost predicate FinishTookLast(calls: seq<Call>, replies: seq<Reply>)
    requires Answers(calls, replies)
    decreases |replies|
  {
    replies != [] &&
    var n := |replies| - 1;
    if replies[n].used > 0 then calls[n].action != Run else FinishTookLast(calls, replies[..n])
  }

  lemma {:induction false} LogIs(calls: seq<Call>, replies: seq<Reply>)
    requires Answers(calls, replies)
    ensures BytesOf(LogOf(calls, replies)) == Taken(calls, replies)
    ensures NewestLate(LogOf(calls, replies)) <==> FinishTookLast(calls, replies)
    decreases |replies|
  {
    if replies != [] {
      var n := |replies| - 1;
      var s, ending := calls[n].input[..replies[n].used], calls[n].action != Run;
      LogIs(calls, replies[..n]);
      NotedBytes(LogOf(calls, replies[..n]), s, ending, CarriedOut(calls[n].action, replies[n].code));
      LateNoted(LogOf(calls, replies[..n]), s, ending, CarriedOut(calls[n].action, replies[n].code));
      hide Noted, CarriedOut, NewestLate, BytesOf;
    }
  }

  /** Two runs over the same input, without a flush: the blocks and their checksums are the same, however
      the calls cut input and output, but if a block is full just as the input ends and the last
      byte is taken by the finish in one run and before it in the other. */
  lemma {:induction false} SameRuns(calls: seq<Call>, replies: seq<Reply>, es: seq<Emission>,
                                    calls': seq<Call>, replies': seq<Reply>, es': seq<Emission>, max: int)
    requires Answers(calls, replies) && Answers(calls', replies') && max >= 1
    requires FinishOnly(LogOf(calls, replies), true) && FinishOnly(LogOf(calls', replies'), true)
    requires Pieces(es) == BlocksFor(LogOf(calls, replies), false, max)
    requires Pieces(es') == BlocksFor(LogOf(calls', replies'), false, max)
    requires Taken(calls, replies) == Taken(calls', replies')
    ensures Pieces(es) == Pieces(es') <==>
              (FinishTookLast(calls, replies) <==> FinishTookLast(calls', replies')) ||
              !FullAtEnd(Taken(calls, replies), max)
  {
    LogIs(calls, replies);
    LogIs(calls', replies');
    var a := FinishedLog(LogOf(calls, replies), max);
    var b := FinishedLog(LogOf(calls', replies'), max);
    hide NoEnds, BytesOf, NewestLate, LateByte, Closing, CutFull, Cutting, FullAtEnd, LogOf, Taken, FinishTookLast;
    SameBlocks(a, b, max);
  }

  /** The compressor run twice. */
  method RunTwice(blockSize100k: int, step: (int, int) -> int, calls: seq<Call>, calls': seq<Call>)
      returns (s: EState, replies: seq<Reply>, s': EState, replies': seq<Reply>)
    requires 1 <= blockSize100k <= 9 && WordStep(step) && Offered(calls) && Offered(calls')
    requires NoFlush(calls) && NoFlush(calls')
    ensures Answers(calls, replies) && Answers(calls', replies')
    ensures StreamEnded(replies) && StreamEnded(replies') && Taken(calls, replies) == Taken(calls', replies') ==>
      (Pieces(s.emitted) == Pieces(s'.emitted) <==>
         (FinishTookLast(calls, replies) <==> FinishTookLast(calls', replies')) ||
         !FullAtEnd(Taken(calls, replies), 100_000 * blockSize100k - 19))
    ensures Pieces(s.emitted) == Pieces(s'.emitted) ==>
      (forall i :: 0 <= i < |s.emitted| == |s'.emitted| ==> s.emitted[i].crc == s'.emitted[i].crc) &&
      Combined(s.emitted) == Combined(s'.emitted)
  {
    hide *;
    s, replies := RunAll(blockSize100k, step, calls);
    s', replies' := RunAll(blockSize100k, step, calls');
    ghost var max := 100_000 * blockSize100k - 19;
    if StreamEnded(replies) && StreamEnded(replies') && Taken(calls, replies) == Taken(calls', replies') {
      SameRuns(calls, replies, s.emitted, calls', replies', s'.emitted, max);
    }
    if Pieces(s.emitted) == Pieces(s'.emitted) { SameChecksums(s.emitted, s'.emitted, max, step); }
  }

  lemma NoReplies(calls: seq<Call>)
    ensures Answers(calls, []) && Taken(calls, []) == [] && Given([]) == [] && !StreamEnded([])
    ensures LogOf(calls, []) == [] && FinishOnly([], false)
  {
  }

  lemma OfferedAt(calls: seq<Call>, k: int)
    requires Offered(calls) && 0 <= k < |calls|
    ensures Bits.Bytes(calls[k].input) && calls[k].room >= 0
  {
  }
}
