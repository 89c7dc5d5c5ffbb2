/** BZ2_bzWrite and BZ2_bzWriteClose: the library's own callers of the
    compressor.  Their loops end, no call of theirs is refused, and the file
    holds the whole stream of what was written. */
module FileWriter {
  import opened Bits
  import opened BitStream
  import opened BlockCutting
  import opened Checksums
  import opened StreamFormat
  import opened Compressor

  /** BZ_MAX_UNUSED, the size of the file's output buffer. */
  const BUFFER: nat := 5000

  /** The compressor between two calls that go on with the stream. */
  ghost predicate Writing(s: EState)
    reads s, s.block, s.inUse, s.w
  {
    s.Machine() && s.Paused() && s.mode == Running
  }

  lemma WorkBounds(s: EState, n: nat)
    requires s.Machine()
    ensures var a := s.WorkFor(n); a.input == n && a.run >= 0 && a.open >= 0 && a.waiting >= 0
  {
    s.MachineParts();
    hide Carries, AllSealed, DecodeAll, StreamBits;
  }

  lemma Lower(a: Work, b: Work)
    requires Below(a, b)
    ensures a.input < b.input || (a.input == b.input &&
            (a.run < b.run || (a.run == b.run && (a.open < b.open || (a.open == b.open && a.waiting < b.waiting)))))
  {
  }

  lemma WritingIs(s: EState)
    ensures Writing(s) <==> s.Machine() && s.Paused() && s.mode == Running
  {
  }

  /** After read, the front of buf was taken too, and rest is what is left of it. */
  ghost predicate TakenTo(log: seq<Event>, read: seq<Event>, buf: seq<int>, rest: seq<int>) {
    && Bytes(rest) && |rest| <= |buf| && rest == buf[|buf| - |rest|..]
    && log == read + Tagged(buf[..|buf| - |rest|], false)
  }

  lemma TakenStart(read: seq<Event>, buf: seq<int>)
    requires Bytes(buf)
    ensures TakenTo(read, read, buf, buf)
  {
    assert buf[..0] == [];
  }

  lemma TakenMore(log: seq<Event>, read: seq<Event>, buf: seq<int>, rest: seq<int>, left: int)
    requires TakenTo(log, read, buf, rest) && 0 <= left <= |rest|
    ensures TakenTo(log + Noted(rest[..|rest| - left], false, false), read, buf, rest[|rest| - left..])
  {
    TailOfTail(buf, |buf| - |rest|, |rest| - left);
    TaggedJoin(buf[..|buf| - |rest|], rest[..|rest| - left], false);
    Joined(read, Tagged(buf[..|buf| - |rest|], false), Tagged(rest[..|rest| - left], false));
  }

  lemma TailOfTail(s: seq<int>, i: nat, j: nat)
    requires i + j <= |s| && Bytes(s[i..])
    ensures s[i..][j..] == s[i + j..] && s[..i] + s[i..][..j] == s[..i + j] && Bytes(s[i + j..])
  {
    BytesOfTail(s[i..], j);
  }

  lemma BytesOfTail(s: seq<int>, j: nat)
    requires Bytes(s) && j <= |s|
    ensures Bytes(s[j..])
  {
  }

  lemma Joined(a: seq<Event>, b: seq<Event>, c: seq<Event>)
    ensures a + b + c == a + (b + c) && a + b + (c + []) == a + (b + c)
  {
  }

  lemma TakenIs(log: seq<Event>, read: seq<Event>, buf: seq<int>, rest: seq<int>)
    requires TakenTo(log, read, buf, rest)
    ensures Bytes(rest) && (rest == [] ==> log == read + Tagged(buf, false))
  {
    if rest == [] { assert buf[..|buf|] == buf; }
  }

  lemma TaggedConsumed(read: seq<Event>, buf: seq<int>)
    ensures BytesOf(read + Tagged(buf, false)) == BytesOf(read) + buf
  {
    TaggedBytes(buf, false);
    BytesConcat(read, Tagged(buf, false));
  }

  /** A finish that offers no bytes leaves nothing in the log but its end. */
  lemma FinishNotes(log: seq<Event>, ended: bool)
    ensures log + Noted([], true, ended) == if ended then log + [End] else log
    ensures BytesOf(log + [End]) == BytesOf(log)
  {
    BytesSnoc(log, End);
  }

  /** What was written before this call, and then the bytes of out. */
  ghost predicate Gave(s: EState, before: seq<int>, out: seq<int>)
    reads s`delivered
  {
    s.delivered == before + out
  }

  lemma GaveMore(s: EState, before: seq<int>, out: seq<int>, d: seq<int>, w: seq<int>)
    requires d == before + out && s.delivered == d + w
    ensures Gave(s, before, out + w)
  {
  }

  lemma GaveIs(s: EState, before: seq<int>, out: seq<int>)
    ensures Gave(s, before, out) <==> s.delivered == before + out
    ensures s.delivered == before ==> Gave(s, before, [])
  {
  }

  /** One BZ_RUN call with room in the file's buffer makes progress. */
  method RunOnce(s: EState, rest: seq<int>, out: seq<int>, room: int, ghost read: seq<Event>, ghost buf: seq<int>,
                 ghost before: seq<int>)
    returns (code: Code, left: seq<int>, more: seq<int>)
    requires Writing(s) && rest != [] && room > 0 && TakenTo(s.log, read, buf, rest) && Gave(s, before, out)
    modifies s, s.block, s.inUse, s.w
    ensures code == RunOk && Writing(s) && TakenTo(s.log, read, buf, left) && Gave(s, before, more)
    ensures Below(s.WorkFor(|left|), old(s.WorkFor(|rest|)))
  {
    hide *;
    TakenIs(s.log, read, buf, rest);
    GaveIs(s, before, out);
    ghost var c, d := s.log, s.delivered;
    WritingIs(s);
    code := s.Compress(Run, rest, room);
    s.CarriedIs(Run);
    s.AnsweredParts(rest, c, room, d, false, false);
    s.WorkIs();
    WritingIs(s);
    TakenMore(c, read, buf, rest, |s.nextIn|);
    GaveMore(s, before, out, d, s.written);
    left := rest[|rest| - |s.nextIn|..];
    more := out + s.written;
  }

  /** BZ2_bzWrite: the compressor runs until it has taken the whole buffer. */
  method Write(s: EState, buf: seq<int>) returns (code: Code, out: seq<int>)
    requires Writing(s) && Bytes(buf)
    modifies s, s.block, s.inUse, s.w
    ensures code == RunOk && Writing(s) && s.consumed == old(s.consumed) + buf && s.delivered == old(s.delivered) + out
    ensures s.log == old(s.log) + Tagged(buf, false)
  {
    assert BUFFER == 5000;
    hide *;
    ghost var read, before := s.log, s.delivered;
    WritingIs(s);
    s.LogBytes();
    var rest := buf;
    out := [];
    code := RunOk;
    GaveIs(s, before, []);
    TakenStart(read, buf);
    ghost var left := s.WorkFor(|rest|);
    while rest != []
      invariant code == RunOk && Writing(s) && TakenTo(s.log, read, buf, rest) && Gave(s, before, out)
      invariant left == s.WorkFor(|rest|)
      decreases left.input, left.run, left.open, left.waiting
    {
      WritingIs(s);
      WorkBounds(s, |rest|);
      code, rest, out := RunOnce(s, rest, out, BUFFER, read, buf, before);
      if code != RunOk { return; }
      Lower(s.WorkFor(|rest|), left);
      left := s.WorkFor(|rest|);
    }
    TakenIs(s.log, read, buf, rest);
    GaveIs(s, before, out);
    WritingIs(s);
    s.LogBytes();
    TaggedConsumed(read, buf);
  }

  /** BZ2_bzWriteClose64: the compressor finishes, buffer by buffer. */
  method WriteClose(s: EState) returns (code: Code, out: seq<int>)
    requires Writing(s)
    modifies s, s.block, s.inUse, s.w
    ensures code == StreamEnd && s.Machine() && s.mode == Idle && s.consumed == old(s.consumed) &&
            s.delivered == old(s.delivered) + out
    ensures s.consumed == DecodeAll(s.emitted) && Ended(s.emitted) &&
            WholeStream(s.delivered, s.blockSize100k, s.emitted)
    ensures s.log == old(s.log) + [End]
  {
    assert BUFFER == 5000;
    hide *;
    out := [];
    ghost var read, before := s.log, s.delivered;
    ghost var left := s.WorkFor(0);
    WritingIs(s);
    s.MayEndIs(0);
    s.LogBytes();
    FinishNotes(read, false);
    FinishNotes(read, true);
    GaveIs(s, before, []);
    NoInput();
    while true
      invariant s.Machine() && s.Paused() && s.MayFinish(0) && s.mode != Idle
      invariant s.log == read && s.consumed == BytesOf(read) && Gave(s, before, out) && left == s.WorkFor(0)
      decreases left.input, left.run, left.open, left.waiting
    {
      WorkBounds(s, 0);
      GaveIs(s, before, out);
      ghost var d := s.delivered;
      code := s.Compress(Finish, [], BUFFER);
      s.CarriedIs(Finish);
      s.AnsweredParts([], read, BUFFER, d, true, code == StreamEnd);
      s.LogBytes();
      GaveMore(s, before, out, d, s.written);
      if code != FinishOk && code != StreamEnd { return; }
      out := out + s.written;
      if code == StreamEnd { break; }
      s.WorkIs();
      Lower(s.WorkLeft(), left);
      left := s.WorkFor(0);
    }
    GaveIs(s, before, out);
    s.AllParts();
  }

  lemma NoInput()
    ensures Bytes([])
  {
  }

  lemma FrontBuffers(bufs: seq<seq<int>>, k: int)
    requires 0 <= k <= |bufs|
    ensures k == 0 ==> Concat(bufs[..k]) == []
    ensures k == |bufs| ==> bufs[..k] == bufs
    ensures k < |bufs| ==> Concat(bufs[..k + 1]) == Concat(bufs[..k]) + bufs[k]
    ensures k < |bufs| ==> Tagged(Concat(bufs[..k]) + bufs[k], false) ==
                           Tagged(Concat(bufs[..k]), false) + Tagged(bufs[k], false)
    ensures Tagged([], false) == []
  {
    if k < |bufs| {
      ConcatSnoc(bufs[..k], bufs[k]);
      assert bufs[..k + 1] == bufs[..k] + [bufs[k]];
    }
  }

  /** The blocks of a file that holds these bytes: all but the last one full. */
  ghost function FileBlocks(bytes: seq<int>, max: int): seq<Piece> {
    Closing(Tagged(bytes, false), max).done
  }

  lemma {:induction false} FileIs(bytes: seq<int>, log: seq<Event>, es: seq<Emission>, max: int)
    requires log == Tagged(bytes, false) + [End] && Pieces(es) == BlocksFor(log, false, max) && Ended(es) && max >= 1
    ensures Pieces(es) == FileBlocks(bytes, max) && FullButNewest(es, max)
  {
    assert log[..|log| - 1] == Tagged(bytes, false);
    var front := FinishedLog(log, max);
    assert front == Tagged(bytes, false);
    hide *;
    BlocksForIs(log, max);
    FileBlocksIs(bytes, max);
    FinishedIs(log);
    FullPieces(es, log, true, false, max);
  }

  lemma FileBlocksIs(bytes: seq<int>, max: int)
    ensures FileBlocks(bytes, max) == Closing(Tagged(bytes, false), max).done
  {
  }

  lemma FinishedIs(log: seq<Event>)
    ensures FinishOnly(log, true) <==> log != [] && log[|log| - 1] == End && NoEnds(log[..|log| - 1])
  {
    hide NoEnds;
  }

  /** A file opened, written and closed: whatever the buffers, it is closed without an error,
      and it holds the complete stream of blocks that decode to all the buffers; the blocks
      depend on the bytes alone, not on how they are cut into buffers. */
  method WriteFile(blockSize100k: int, step: (int, int) -> int, bufs: seq<seq<int>>)
      returns (file: seq<int>, ghost es: seq<Emission>)
    requires 1 <= blockSize100k <= 9 && WordStep(step) && forall i :: 0 <= i < |bufs| ==> Bytes(bufs[i])
    ensures DecodeAll(es) == Concat(bufs) && AllSealed(es, 100_000 * blockSize100k - 19, step)
    ensures Ended(es) && WholeStream(file, blockSize100k, es)
    ensures Pieces(es) == FileBlocks(Concat(bufs), 100_000 * blockSize100k - 19)
    ensures FullButNewest(es, 100_000 * blockSize100k - 19)
  {
    hide *;
    var s := new EState(blockSize100k, step);
    WritingIs(s);
    file := [];
    FrontBuffers(bufs, 0);
    for k := 0 to |bufs|
      invariant Writing(s) && fresh(s) && fresh(s.block) && fresh(s.inUse) && fresh(s.w)
      invariant s.consumed == Concat(bufs[..k]) && s.delivered == file
      invariant s.log == Tagged(Concat(bufs[..k]), false)
    {
      FrontBuffers(bufs, k);
      var code, out := Write(s, bufs[k]);
      file := file + out;
    }
    FrontBuffers(bufs, |bufs|);
    var code, out := WriteClose(s);
    file := file + out;
    s.MachineParts();
    s.CutParts();
    es := s.emitted;
    FileIs(Concat(bufs), s.log, es, s.nblockMAX);
  }
}
