/** unRLE_obuf_to_output_FAST and SMALL: handing out the bytes a block stands
    for, through an output buffer of any size, from either form of the table. */
module RunDecode {
  import opened RunLength
  import opened Rotations
  import opened BwtTheory
  import opened InverseBwt

  /** What is still to come: len copies of ch, then the runs of b from p on. */
  ghost function ToCome(b: seq<int>, ch: int, len: int, p: int): seq<int> {
    (if len > 0 then Copies(ch, len) else []) + (if 0 <= p <= |b| then Decode(b[p..]) else [])
  }

  lemma {:induction false} CharInBlock(b: seq<int>, k: nat)
    requires k < |b|
    ensures CharAt(b, k) == b[k]
  {
    AdvClosed(|b|, 0, k);
  }

  class DState {
    // tt in fast decoding; ll16, ll4 and cftab in small-memory decoding
    const small: bool
    const tt: array<int>
    const ll16: array<int>
    const ll4: array<int>
    const cftab: array<int>
    const saveNblock: int
    const step: (int, int) -> int
    ghost const b: seq<int>
    ghost const fm: seq<int>
    ghost const orb: seq<int>

    var tPos: int
    var nblockUsed: int
    var k0: int
    var stateOutCh: int
    var stateOutLen: int
    var calculatedBlockCRC: int
    // the caller's room, what this call wrote, and all that was written for this block
    var availOut: int
    var written: seq<int>
    ghost var given: seq<int>

    // ---- fetching characters of the block ----

    /** The table is intact and tPos stands after the characters fetched so far. */
    ghost predicate Fetching()
      reads this`tPos, this`nblockUsed, tt, ll16, ll4, cftab
    {
      && |b| == saveNblock > 0 && 1 <= nblockUsed
      && (small ==> SmallAt(b, fm, orb, ll16[..], ll4[..], cftab[..], tPos, nblockUsed))
      && (!small ==> AtRow(b, fm, tPos, nblockUsed + 1) && FastTable(tt[..], LastColumn(b, fm)))
    }

    lemma FetchingFast()
      requires Fetching() && !small
      ensures |b| == saveNblock > 0 && 1 <= nblockUsed && AtRow(b, fm, tPos, nblockUsed + 1) &&
              FastTable(tt[..], LastColumn(b, fm))
    {
    }

    lemma FetchedFast()
      requires !small && |b| == saveNblock > 0 && 1 <= nblockUsed && AtRow(b, fm, tPos, nblockUsed + 1) &&
               FastTable(tt[..], LastColumn(b, fm))
      ensures Fetching()
    {
    }

    lemma FetchingSmall()
      requires Fetching() && small
      ensures |b| == saveNblock > 0 && 1 <= nblockUsed &&
              SmallAt(b, fm, orb, ll16[..], ll4[..], cftab[..], tPos, nblockUsed)
    {
    }

    lemma FetchedSmall()
      requires small && |b| == saveNblock > 0 && 1 <= nblockUsed &&
               SmallAt(b, fm, orb, ll16[..], ll4[..], cftab[..], tPos, nblockUsed)
      ensures Fetching()
    {
    }

    /** BZ_GET_FAST_C(k1); c_nblock_used++ */
    method GetFastC() returns (k1: int)
      requires Fetching() && !small
      modifies this`tPos, this`nblockUsed
      ensures Fetching() && nblockUsed == old(nblockUsed) + 1 && (old(nblockUsed) < |b| ==> k1 == b[old(nblockUsed)])
    {
      hide *;
      FetchingFast();
      ghost var k := nblockUsed;
      k1, tPos := GetFast(tt, tPos, b, fm, k);
      if k < |b| { CharInBlock(b, k); }
      nblockUsed := nblockUsed + 1;
      FetchedFast();
    }

    /** BZ_GET_SMALL(k1); s->nblock_used++ */
    method GetSmallC() returns (k1: int)
      requires Fetching() && small
      modifies this`tPos, this`nblockUsed
      ensures Fetching() && nblockUsed == old(nblockUsed) + 1 && (old(nblockUsed) < |b| ==> k1 == b[old(nblockUsed)])
    {
      hide *;
      FetchingSmall();
      ghost var k := nblockUsed;
      k1, tPos := GetSmall(ll16, ll4, cftab, tPos, b, fm, orb, k);
      if k < |b| { CharInBlock(b, k); }
      nblockUsed := nblockUsed + 1;
      FetchedSmall();
    }

    // ---- the state between runs and inside them ----

    /** Between fetches: k0 is the character that starts the next run, unless the block is used up. */
    ghost predicate Ready()
      reads this`tPos, this`nblockUsed, this`k0, tt, ll16, ll4, cftab
    {
      && Fetching() && nblockUsed <= |b| + 1 && (nblockUsed <= |b| ==> k0 == b[nblockUsed - 1]) &&
         Whole(b[nblockUsed - 1..])
    }

    /** All of the block's bytes: those given, len more of the current run, and the runs to come. */
    ghost predicate Owing(len: int)
      reads this`nblockUsed, this`stateOutCh, this`given, this`calculatedBlockCRC
    {
      && given + ToCome(b, stateOutCh, len, nblockUsed - 1) == Decode(b)
      && calculatedBlockCRC == Checksum(step, CRC_START, given)
    }

    lemma ReadyParts()
      requires Ready()
      ensures Fetching() && 1 <= nblockUsed <= |b| + 1 && |b| == saveNblock > 0 &&
              (nblockUsed <= |b| ==> k0 == b[nblockUsed - 1]) && Whole(b[nblockUsed - 1..])
    {
    }

    lemma OwingParts(len: int)
      requires Owing(len)
      ensures given + ToCome(b, stateOutCh, len, nblockUsed - 1) == Decode(b) && calculatedBlockCRC ==
              Checksum(step, CRC_START, given)
    {
    }

    /** Fetching the rest of the run at p, and the first character of the next, as the fast code does; one means
        a jump to the run's last byte. */
    method FetchRunFast(ghost p: nat) returns (one: bool)
      requires Fetching() && !small && nblockUsed == p + 1 && p < |b| && k0 == b[p] && Whole(b[p..])
      modifies this`tPos, this`nblockUsed, this`k0, this`stateOutLen
      ensures Fetching() && RunFetched(b, p, nblockUsed - 1, k0, if one then 1 else stateOutLen)
    {
      hide *;
      FetchingFast();
      AlikeNext(b, p, 1);
      var k1 := GetFastC();
      if k1 != k0 {
        k0 := k1;
        RunShort(b, p, 1, k0);
        return true;
      }
      if nblockUsed == saveNblock + 1 {
        RunShort(b, p, 1, k0);
        return true;
      }
      one := false;
      stateOutLen := 2;
      AlikeNext(b, p, 2);
      k1 := GetFastC();
      if nblockUsed == saveNblock + 1 || k1 != k0 { RunShort(b, p, 2, if nblockUsed == saveNblock + 1 then k0 else k1);
         }
      if nblockUsed == saveNblock + 1 { return; }
      if k1 != k0 { k0 := k1; return; }
      stateOutLen := 3;
      AlikeNext(b, p, 3);
      k1 := GetFastC();
      if nblockUsed == saveNblock + 1 || k1 != k0 { RunShort(b, p, 3, if nblockUsed == saveNblock + 1 then k0 else k1);
         }
      if nblockUsed == saveNblock + 1 { return; }
      if k1 != k0 { k0 := k1; return; }
      RunLong(b, p, k0);
      k1 := GetFastC();
      stateOutLen := k1 + 4;
      k0 := GetFastC();
      RunLong(b, p, k0);
    }

    /** The same fetches as the small-memory code makes them. */
    method FetchRunSmall(ghost p: nat)
      requires Fetching() && small && nblockUsed == p + 1 && p < |b| && k0 == b[p] && Whole(b[p..])
      modifies this`tPos, this`nblockUsed, this`k0, this`stateOutLen
      ensures Fetching() && RunFetched(b, p, nblockUsed - 1, k0, stateOutLen)
    {
      hide *;
      FetchingSmall();
      stateOutLen := 1;
      AlikeNext(b, p, 1);
      var k1 := GetSmallC();
      if nblockUsed == saveNblock + 1 || k1 != k0 { RunShort(b, p, 1, if nblockUsed == saveNblock + 1 then k0 else k1);
         }
      if nblockUsed == saveNblock + 1 { return; }
      if k1 != k0 { k0 := k1; return; }
      stateOutLen := 2;
      AlikeNext(b, p, 2);
      k1 := GetSmallC();
      if nblockUsed == saveNblock + 1 || k1 != k0 { RunShort(b, p, 2, if nblockUsed == saveNblock + 1 then k0 else k1);
         }
      if nblockUsed == saveNblock + 1 { return; }
      if k1 != k0 { k0 := k1; return; }
      stateOutLen := 3;
      AlikeNext(b, p, 3);
      k1 := GetSmallC();
      if nblockUsed == saveNblock + 1 || k1 != k0 { RunShort(b, p, 3, if nblockUsed == saveNblock + 1 then k0 else k1);
         }
      if nblockUsed == saveNblock + 1 { return; }
      if k1 != k0 { k0 := k1; return; }
      RunLong(b, p, k0);
      k1 := GetSmallC();
      stateOutLen := k1 + 4;
      k0 := GetSmallC();
      RunLong(b, p, k0);
    }

    /** The run fetched is what the runs to come owed. */
    lemma RunOwed(p: nat, len: int, before: seq<int>)
      requires Fetching() && RunFetched(b, p, nblockUsed - 1, k0, len) && stateOutCh == b[p] && given == before
      requires before + ToCome(b, stateOutCh, 0, p) == Decode(b) && calculatedBlockCRC ==
               Checksum(step, CRC_START, given)
      ensures Ready() && Owing(len) && len > 0 && nblockUsed > p + 1
    {
      hide Decode, Whole, Checksum, Fetching;
      assert ToCome(b, stateOutCh, 0, p) == ToCome(b, stateOutCh, len, nblockUsed - 1);
    }

    /** One byte of the current run is handed out. */
    method Give(ghost len: int)
      requires Owing(len) && len > 0 && availOut > 0
      modifies this`written, this`given, this`calculatedBlockCRC, this`availOut
      ensures Owing(len - 1) && written == old(written) + [stateOutCh] && given == old(given) + [stateOutCh] &&
              availOut == old(availOut) - 1
    {
      hide *;
      OwingParts(len);
      GiveOne(b, stateOutCh, len, nblockUsed - 1, given);
      ChecksumSnoc(step, CRC_START, given, stateOutCh);
      written := written + [stateOutCh];
      given := given + [stateOutCh];
      calculatedBlockCRC := step(calculatedBlockCRC, stateOutCh);
      availOut := availOut - 1;
      OwingWhole(len - 1);
    }

    lemma OwingWhole(len: int)
      requires given + ToCome(b, stateOutCh, len, nblockUsed - 1) == Decode(b) && calculatedBlockCRC ==
               Checksum(step, CRC_START, given)
      ensures Owing(len)
    {
      hide *;
      OwingIs(len);
    }

    lemma OwingIs(len: int)
      ensures Owing(len) <==> given + ToCome(b, stateOutCh, len, nblockUsed - 1) == Decode(b) && calculatedBlockCRC ==
                              Checksum(step, CRC_START, given)
    {
      hide ToCome, Decode, Checksum;
    }

    /** What a call did: room - availOut bytes were written, and they extend what was given before. */
    ghost predicate Gave(room: int, before: seq<int>)
      reads this`written, this`availOut, this`given
    {
      availOut >= 0 && |written| == room - availOut && given == before + written
    }

    /** The block is used up and its last run handed out. */
    predicate Done()
      reads this`nblockUsed, this`stateOutLen
    {
      nblockUsed == saveNblock + 1 && stateOutLen == 0
    }

    /** A call in progress, with len bytes of the current run left. */
    ghost predicate Calling(len: int, room: int, before: seq<int>)
      reads this`tPos, this`nblockUsed, this`k0, this`stateOutCh, this`given, this`calculatedBlockCRC, this`written,
            this`availOut
      reads tt, ll16, ll4, cftab
    {
      Ready() && Owing(len) && len >= 0 && Gave(room, before)
    }

    lemma CallingParts(len: int, room: int, before: seq<int>)
      requires Calling(len, room, before)
      ensures Ready() && Owing(len) && len >= 0 && Gave(room, before) && availOut >= 0
    {
    }

    lemma CallingWhole(len: int, room: int, before: seq<int>)
      requires Ready() && Owing(len) && len >= 0 && Gave(room, before)
      ensures Calling(len, room, before)
    {
    }

    method GiveOut(ghost len: int, ghost room: int, ghost before: seq<int>)
      requires Calling(len, room, before) && len > 0 && availOut > 0
      modifies this`written, this`given, this`calculatedBlockCRC, this`availOut
      ensures Calling(len - 1, room, before) && availOut == old(availOut) - 1
    {
      hide *;
      CallingParts(len, room, before);
      ghost var w := written;
      Give(len);
      GaveMore(w, room, before);
      CallingWhole(len - 1, room, before);
    }

    lemma GaveMore(w: seq<int>, room: int, before: seq<int>)
      requires written == w + [stateOutCh] && availOut >= 0 && |w| == room - availOut - 1 &&
               given == before + w + [stateOutCh]
      ensures Gave(room, before)
    {
    }

    lemma RunStarts(room: int, before: seq<int>)
      requires Calling(0, room, before) && nblockUsed != saveNblock + 1
      ensures Fetching() && Gave(room, before) && 0 <= nblockUsed - 1 < |b| && k0 == b[nblockUsed - 1] &&
              Whole(b[nblockUsed - 1..])
      ensures given + ToCome(b, k0, 0, nblockUsed - 1) == Decode(b) && calculatedBlockCRC ==
              Checksum(step, CRC_START, given)
    {
      hide Decode, Whole, Checksum;
    }

    method StartRunFast(ghost room: int, ghost before: seq<int>) returns (one: bool)
      requires Calling(0, room, before) && !small && nblockUsed != saveNblock + 1
      modifies this`tPos, this`nblockUsed, this`k0, this`stateOutCh, this`stateOutLen
      ensures Calling(if one then 1 else stateOutLen, room, before) && old(nblockUsed) < nblockUsed <= saveNblock +
              1 && (!one ==> stateOutLen > 0)
    {
      hide *;
      RunStarts(room, before);
      ghost var p := nblockUsed - 1;
      stateOutCh := k0;
      one := FetchRunFast(p);
      RunOwed(p, if one then 1 else stateOutLen, given);
      CallingWhole(if one then 1 else stateOutLen, room, before);
      ReadyParts();
    }

    method StartRunSmall(ghost room: int, ghost before: seq<int>)
      requires Calling(0, room, before) && small && nblockUsed != saveNblock + 1
      modifies this`tPos, this`nblockUsed, this`k0, this`stateOutCh, this`stateOutLen
      ensures Calling(stateOutLen, room, before) && old(nblockUsed) < nblockUsed <= saveNblock + 1 && stateOutLen > 0
    {
      hide *;
      RunStarts(room, before);
      ghost var p := nblockUsed - 1;
      stateOutCh := k0;
      FetchRunSmall(p);
      RunOwed(p, stateOutLen, given);
      CallingWhole(stateOutLen, room, before);
      ReadyParts();
    }

    lemma DoneIs()
      ensures Done() <==> nblockUsed == saveNblock + 1 && stateOutLen == 0
    {
    }

    lemma RoomLeft(len: int, room: int, before: seq<int>)
      requires Calling(len, room, before)
      ensures availOut >= 0 && len >= 0 && 1 <= nblockUsed <= saveNblock + 1
    {
      hide Decode, Whole;
    }

    /** Hand out all but the last byte of the current run; stop if the room ends. */
    method FinishRunFast(ghost room: int, ghost before: seq<int>) returns (stop: bool)
      requires Calling(stateOutLen, room, before) && stateOutLen > 0
      modifies this`written, this`given, this`calculatedBlockCRC, this`availOut, this`stateOutLen
      ensures Calling(stateOutLen, room, before) && stateOutLen > 0
      ensures stop ==> availOut == 0
      ensures !stop ==> stateOutLen == 1
    {
      hide *;
      while true
        invariant Calling(stateOutLen, room, before) && stateOutLen > 0
        decreases stateOutLen
      {
        RoomLeft(stateOutLen, room, before);
        if availOut == 0 { return true; }
        if stateOutLen == 1 { break; }
        GiveOut(stateOutLen, room, before);
        stateOutLen := stateOutLen - 1;
      }
      stop := false;
    }

    /** unRLE_obuf_to_output_FAST */
    method UnRleFast(ghost room: int, ghost before: seq<int>)
      requires !small && Calling(stateOutLen, room, before)
      modifies this
      ensures Calling(stateOutLen, room, before) && (availOut == 0 || Done())
    {
      hide *;
      var one := false;
      while true
        invariant Calling(if one then 1 else stateOutLen, room, before)
        decreases saveNblock + 1 - nblockUsed
      {
        RoomLeft(if one then 1 else stateOutLen, room, before);
        if one || stateOutLen > 0 {
          if !one {
            var stop := FinishRunFast(room, before);
            if stop { return; }
          }
          // s_state_out_len_eq_one
          RoomLeft(1, room, before);
          if availOut == 0 {
            stateOutLen := 1;
            return;
          }
          GiveOut(1, room, before);
        }
        if nblockUsed == saveNblock + 1 {
          stateOutLen := 0;
          DoneIs();
          return;
        }
        one := StartRunFast(room, before);
      }
    }

    /** Hand out the current run; stop if the room ends, even after its last byte. */
    method FinishRunSmall(ghost room: int, ghost before: seq<int>) returns (stop: bool)
      requires Calling(stateOutLen, room, before)
      modifies this`written, this`given, this`calculatedBlockCRC, this`availOut, this`stateOutLen
      ensures Calling(stateOutLen, room, before)
      ensures stop ==> availOut == 0
      ensures !stop ==> stateOutLen == 0
    {
      hide *;
      while true
        invariant Calling(stateOutLen, room, before)
        decreases stateOutLen
      {
        RoomLeft(stateOutLen, room, before);
        if availOut == 0 { return true; }
        if stateOutLen == 0 { break; }
        GiveOut(stateOutLen, room, before);
        stateOutLen := stateOutLen - 1;
      }
      stop := false;
    }

    /** unRLE_obuf_to_output_SMALL */
    method UnRleSmall(ghost room: int, ghost before: seq<int>)
      requires small && Calling(stateOutLen, room, before)
      modifies this
      ensures Calling(stateOutLen, room, before) && (availOut == 0 || Done())
    {
      hide *;
      while true
        invariant Calling(stateOutLen, room, before)
        decreases saveNblock + 1 - nblockUsed
      {
        var stop := FinishRunSmall(room, before);
        if stop { return; }
        if nblockUsed == saveNblock + 1 {
          DoneIs();
          return;
        }
        StartRunSmall(room, before);
      }
    }

    // ---- the calls of BZ2_bzDecompress while a block is handed out ----

    /** Between calls. */
    ghost predicate Valid()
      reads this`tPos, this`nblockUsed, this`k0, this`stateOutCh, this`stateOutLen, this`given, this`calculatedBlockCRC
      reads tt, ll16, ll4, cftab
    {
      Ready() && Owing(stateOutLen) && stateOutLen >= 0
    }

    /** One call with room for `room` bytes: it fills the room, or finishes the block. */
    method Output(room: int)
      requires Valid() && room >= 0
      modifies this
      ensures Valid() && given == old(given) + written && |written| <= room && (|written| == room || Done())
    {
      hide *;
      ghost var before := given;
      availOut, written := room, [];
      CallBegins(room);
      if small {
        UnRleSmall(room, before);
      } else {
        UnRleFast(room, before);
      }
      CallEnds(room, before);
    }

    lemma CallBegins(room: int)
      requires Valid() && room >= 0 && availOut == room && written == []
      ensures Calling(stateOutLen, room, given)
    {
      hide Ready, Owing;
      assert given + [] == given;
    }

    lemma CallEnds(room: int, before: seq<int>)
      requires Calling(stateOutLen, room, before)
      ensures Valid() && given == before + written && |written| == room - availOut && availOut >= 0
    {
      hide Ready, Owing;
    }

    /** The block is done exactly when all its bytes were given; their checksum is then the block's. */
    lemma DoneMeansAll()
      requires Valid()
      ensures given <= Decode(b) && (Done() <==> given == Decode(b))
      ensures Done() ==> calculatedBlockCRC == Checksum(step, CRC_START, Decode(b))
    {
      OwingParts(stateOutLen);
      ReadyParts();
      DecodeSome(b[nblockUsed - 1..]);
      hide Decode, Checksum, Ready, Owing;
      assert |ToCome(b, stateOutCh, stateOutLen, nblockUsed - 1)| == stateOutLen + |Decode(b[nblockUsed - 1..])|;
    }

    /** Fast decoding of a block whose table BZ2_decompress has built. */
    constructor Fast(tt: array<int>, nblock: int, origPtr: nat, step: (int, int) -> int, ghost b: seq<int>,
                     ghost fm: seq<int>)
      requires SortedRotations(b, fm) && nblock == |b| && origPtr < nblock && fm[origPtr] == 0 &&
               FastTable(tt[..], LastColumn(b, fm)) && Whole(b)
      ensures Valid() && !small && this.tt == tt && this.b == b && this.step == step && given == [] && fresh(this)
    {
      hide *;
      small := false;
      this.tt := tt;
      ll16 := new int[0];
      ll4 := new int[0];
      cftab := new int[0];
      saveNblock := nblock;
      this.step := step;
      this.b := b;
      this.fm := fm;
      orb := [];
      stateOutLen := 0;
      stateOutCh := 0;
      calculatedBlockCRC := CRC_START;
      availOut := 0;
      written := [];
      given := [];
      var c, pos := FirstFast(tt, origPtr, b, fm);
      tPos := pos;
      k0 := c;
      nblockUsed := 1;
      new;
      StartedFast();
    }

    lemma StartedFast()
      requires !small && |b| == saveNblock > 0 && nblockUsed == 1 && AtRow(b, fm, tPos, 2) &&
               FastTable(tt[..], LastColumn(b, fm)) && Whole(b)
      requires k0 == CharAt(b, 0) && given == [] && stateOutLen == 0 && calculatedBlockCRC == CRC_START
      ensures Valid()
    {
      FetchedFast();
      CharInBlock(b, 0);
      Started();
    }

    lemma Started()
      requires Fetching() && |b| > 0 && nblockUsed == 1 && Whole(b) && k0 == b[0] && given == [] && stateOutLen == 0 &&
               calculatedBlockCRC == CRC_START
      ensures Valid()
    {
      hide Fetching, Decode, Whole;
      assert b[0..] == b;
      assert [] + ToCome(b, stateOutCh, 0, 0) == Decode(b);
    }

    /** Small-memory decoding, likewise. */
    constructor Small(ll16: array<int>, ll4: array<int>, cftab: array<int>, nblock: int, origPtr: nat,
                      step: (int, int) -> int, ghost b: seq<int>, ghost fm: seq<int>, ghost orb: seq<int>)
      requires nblock == |b| > 0 && SmallAt(b, fm, orb, ll16[..], ll4[..], cftab[..], origPtr, 0) && Whole(b)
      ensures Valid() && small && this.ll16 == ll16 && this.ll4 == ll4 && this.cftab == cftab && this.b == b &&
              this.step == step && given == [] && fresh(this)
    {
      hide *;
      small := true;
      tt := new int[0];
      this.ll16 := ll16;
      this.ll4 := ll4;
      this.cftab := cftab;
      saveNblock := nblock;
      this.step := step;
      this.b := b;
      this.fm := fm;
      this.orb := orb;
      stateOutLen := 0;
      stateOutCh := 0;
      calculatedBlockCRC := CRC_START;
      availOut := 0;
      written := [];
      given := [];
      var c, pos := GetSmall(ll16, ll4, cftab, origPtr, b, fm, orb, 0);
      tPos := pos;
      k0 := c;
      nblockUsed := 1;
      new;
      StartedSmall();
    }

    lemma StartedSmall()
      requires small && |b| == saveNblock > 0 && nblockUsed == 1 &&
               SmallAt(b, fm, orb, ll16[..], ll4[..], cftab[..], tPos, 1) && Whole(b)
      requires k0 == CharAt(b, 0) && given == [] && stateOutLen == 0 && calculatedBlockCRC == CRC_START
      ensures Valid()
    {
      FetchedSmall();
      CharInBlock(b, 0);
      Started();
    }
  }

  /** The room offered by all calls together. */
  ghost function Total(rooms: seq<nat>): nat {
    if rooms == [] then 0 else Total(rooms[..|rooms| - 1]) + rooms[|rooms| - 1]
  }

  /** The first n bytes of d, or all of them. */
  ghost function UpTo(d: seq<int>, n: nat): seq<int> {
    if n < |d| then d[..n] else d
  }

  /** The walk's first step and the first character. */
  method FirstFast(tt: array<int>, origPtr: nat, ghost b: seq<int>, ghost fm: seq<int>) returns (c: int, tPos: int)
    requires SortedRotations(b, fm) && origPtr < |b| && fm[origPtr] == 0 && FastTable(tt[..], LastColumn(b, fm))
    ensures c == CharAt(b, 0) && AtRow(b, fm, tPos, 2)
  {
    hide *;
    tPos := StartFast(tt, origPtr, b, fm);
    c, tPos := GetFast(tt, tPos, b, fm, 0);
  }

  /** However the output is cut into calls, and from whichever table: the calls together give
      the block's bytes up to the total room, and say so when it is all. */
  method OutputAll(s: DState, rooms: seq<nat>) returns (out: seq<int>, finished: bool)
    requires s.Valid() && s.given == []
    modifies s
    ensures s.Valid() && out == UpTo(Decode(s.b), Total(rooms))
    ensures finished <==> |Decode(s.b)| <= Total(rooms)
    ensures finished ==> out == Decode(s.b) && s.Done()
    ensures finished ==> s.calculatedBlockCRC == Checksum(s.step, CRC_START, Decode(s.b))
  {
    hide *;
    out := [];
    NoRoom(Decode(s.b), rooms);
    for i := 0 to |rooms|
      invariant s.Valid() && out == s.given && out == UpTo(Decode(s.b), Total(rooms[..i]))
    {
      s.Output(rooms[i]);
      s.DoneMeansAll();
      MoreRoom(Decode(s.b), rooms, i, out, s.written, s.Done());
      out := out + s.written;
    }
    assert rooms[..|rooms|] == rooms;
    UpToAll(Decode(s.b), Total(rooms));
    s.DoneMeansAll();
    s.DoneIs();
    finished := s.nblockUsed == s.saveNblock + 1 && s.stateOutLen == 0;
  }

  lemma UpToAll(d: seq<int>, n: nat)
    ensures UpTo(d, n) == d <==> |d| <= n
  {
  }

  lemma NoRoom(d: seq<int>, rooms: seq<nat>)
    ensures UpTo(d, Total(rooms[..0])) == []
  {
  }

  lemma MoreRoom(d: seq<int>, rooms: seq<nat>, i: nat, out: seq<int>, w: seq<int>, done: bool)
    requires i < |rooms| && out == UpTo(d, Total(rooms[..i]))
    requires out + w <= d && |w| <= rooms[i] && (|w| == rooms[i] || done) && (done <==> out + w == d)
    ensures out + w == UpTo(d, Total(rooms[..i + 1]))
  {
    assert rooms[..i + 1][..i] == rooms[..i];
  }

  lemma GiveOne(b: seq<int>, ch: int, len: int, p: int, given: seq<int>)
    requires len > 0
    ensures given + ToCome(b, ch, len, p) == given + [ch] + ToCome(b, ch, len - 1, p)
  {
    hide Decode;
    var rest := if len - 1 > 0 then Copies(ch, len - 1) else [];
    assert Copies(ch, len) == [ch] + rest;
    var d := if 0 <= p <= |b| then Decode(b[p..]) else [];
    assert ([ch] + rest) + d == [ch] + (rest + d);
  }

  /** The run at p has length len, and the next run starts at q with character k. */
  ghost predicate RunFetched(b: seq<int>, p: int, q: int, k: int, len: int) {
    && 0 <= p < q <= |b| && len > 0 && Whole(b[q..]) && (q < |b| ==> k == b[q])
    && Decode(b[p..]) == Copies(b[p], len) + Decode(b[q..])
  }

  /** The first i bytes of the run are equal. */
  ghost predicate Alike(b: seq<int>, p: int, i: int) {
    0 <= p && 1 <= i <= 4 && p + i <= |b| && (i > 1 ==> b[p + 1] == b[p]) && (i > 2 ==> b[p + 2] == b[p]) &&
      (i > 3 ==> b[p + 3] == b[p])
  }

  /** A run of one to three ends at the end of the block or at a different byte. */
  lemma {:induction false} RunShort(b: seq<int>, p: nat, i: nat, k: int)
    requires p < |b| && Whole(b[p..]) && i < 4 && Alike(b, p, i) &&
             (p + i == |b| || (b[p + i] != b[p] && k == b[p + i]))
    ensures RunFetched(b, p, p + i, k, i)
  {
    RunAt(b, p);
    hide Decode, Whole;
  }

  /** Four equal bytes are followed by the count. */
  lemma {:induction false} RunLong(b: seq<int>, p: nat, k: int)
    requires p < |b| && Whole(b[p..]) && Alike(b, p, 4)
    ensures p + 5 <= |b| && ((p + 5 < |b| ==> k == b[p + 5]) ==> RunFetched(b, p, p + 5, k, b[p + 4] + 4))
  {
    RunAt(b, p);
    hide Decode, Whole;
  }

  lemma AlikeNext(b: seq<int>, p: nat, i: nat)
    requires p < |b|
    ensures Alike(b, p, 1)
    ensures 1 <= i < 4 && p + i < |b| && Alike(b, p, i) && b[p + i] == b[p] ==> Alike(b, p, i + 1)
  {
  }
}
