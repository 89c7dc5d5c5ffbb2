/** Where the compressor cuts its input into blocks: the blocks as a function of
    the bytes read and of the flushes and finishes carried out. */
module BlockCutting {
  import opened RunLength

  /** A byte taken, by a call that flushes or finishes or by one that does not;
      and the end of a flush or finish. */
  datatype Event = Byte(c: int, ending: bool) | End

  /** A block given up for coding, and whether that was because it was full. */
  datatype Piece = Piece(block: seq<int>, full: bool)

  /** The blocks given up, the block being filled, and the run that waits to go into it. */
  datatype Cutter = Cutter(done: seq<Piece>, block: seq<int>, ch: int, len: int)

  /** A run as it is stored; nothing if there is none. */
  ghost function Stored(ch: int, len: int): seq<int> {
    if IsUnit(Unit(ch, len)) then Pack(Unit(ch, len)) else []
  }

  ghost predicate AtFull(x: Cutter, max: int) {
    |x.block| >= max
  }

  /** One more byte: it lengthens the run, or the run is stored and it begins the next. */
  ghost function Add(x: Cutter, c: int): Cutter {
    if c == x.ch && x.len < 255 then x.(len := x.len + 1)
    else Cutter(x.done, x.block + Stored(x.ch, x.len), c, 1)
  }

  /** A full block is given up; the run waits for the next. */
  ghost function CutFull(x: Cutter, max: int): Cutter {
    if AtFull(x, max) then Cutter(x.done + [Piece(x.block, true)], [], x.ch, x.len) else x
  }

  /** The block is given up as it is, with the run. */
  ghost function Close(x: Cutter): Cutter {
    Cutter(x.done + [Piece(x.block + Stored(x.ch, x.len), false)], [], 256, 0)
  }

  /** The newest byte was taken by a call that flushes or finishes. */
  ghost predicate LateByte(log: seq<Event>) {
    log != [] && log[|log| - 1].Byte? && log[|log| - 1].ending
  }

  /** A full block is given up before the next byte is read.  When a flush or finish
      ends, it is given up before that only if the newest byte came by an earlier call. */
  ghost function Cutting(log: seq<Event>, max: int): Cutter {
    if log == [] then Cutter([], [], 256, 0)
    else
      var front := log[..|log| - 1];
      match log[|log| - 1]
      case Byte(c, _) => Add(CutFull(Cutting(front, max), max), c)
      case End => Close(if LateByte(front) then Cutting(front, max) else CutFull(Cutting(front, max), max))
  }

  /** The blocks once the flush or finish that comes next has ended. */
  ghost function Closing(log: seq<Event>, max: int): Cutter {
    Cutting(log + [End], max)
  }

  lemma StoredIs(ch: int, len: int)
    ensures IsUnit(Unit(ch, len)) ==> Stored(ch, len) == Pack(Unit(ch, len))
  {
  }

  lemma NoneStored(ch: int, len: int, block: seq<int>)
    ensures ch >= 256 ==> Stored(ch, len) == [] && block + Stored(ch, len) == block
  {
  }

  lemma AddIs(x: Cutter, c: int)
    ensures c == x.ch && x.len < 255 ==> Add(x, c) == Cutter(x.done, x.block, x.ch, x.len + 1)
    ensures !(c == x.ch && x.len < 255) ==> Add(x, c) == Cutter(x.done, x.block + Stored(x.ch, x.len), c, 1)
  {
    hide Stored;
  }

  lemma CuttingByte(log: seq<Event>, max: int, c: int, ending: bool)
    ensures Cutting(log + [Byte(c, ending)], max) == Add(CutFull(Cutting(log, max), max), c)
  {
    assert (log + [Byte(c, ending)])[..|log|] == log;
  }

  lemma ClosingIs(log: seq<Event>, max: int)
    ensures Closing(log, max) == Close(if LateByte(log) then Cutting(log, max) else CutFull(Cutting(log, max), max))
  {
    assert (log + [End])[..|log|] == log;
  }

  /** After these bytes and calls, the blocks are cut as the events say: while a flush or finish
      has emitted its block, as after its end, and otherwise but for a full block. */
  ghost predicate CutsFor(x: Cutter, consumed: seq<int>, log: seq<Event>, closed: bool, max: int) {
    && consumed == BytesOf(log)
    && if closed then x == Closing(log, max) else CutFull(x, max) == CutFull(Cutting(log, max), max)
  }

  /** A block and run to which the next byte or end applies. */
  ghost predicate AtHead(x: Cutter, log: seq<Event>, max: int) {
    x == if LateByte(log) then Cutting(log, max) else CutFull(Cutting(log, max), max)
  }

  lemma StepCuts(x: Cutter, y: Cutter, consumed: seq<int>, log: seq<Event>, c: int, ending: bool, max: int)
    requires CutsFor(x, consumed, log, false, max) && !AtFull(x, max) && y == Add(x, c)
    ensures CutsFor(y, consumed + [c], log + [Byte(c, ending)], false, max)
    ensures y == Cutting(log + [Byte(c, ending)], max) && (LateByte(log + [Byte(c, ending)]) <==> ending)
  {
    CuttingByte(log, max, c, ending);
    BytesSnoc(log, Byte(c, ending));
    hide Add, Cutting, BytesOf;
  }

  lemma FullCuts(x: Cutter, y: Cutter, consumed: seq<int>, log: seq<Event>, max: int)
    requires CutsFor(x, consumed, log, false, max) && AtFull(x, max) && max >= 1
    requires y == Cutter(x.done + [Piece(x.block, true)], [], x.ch, x.len)
    ensures CutsFor(y, consumed, log, false, max)
  {
    hide Cutting, BytesOf;
  }

  lemma CloseCuts(x: Cutter, y: Cutter, consumed: seq<int>, log: seq<Event>, max: int)
    requires CutsFor(x, consumed, log, false, max) && AtHead(x, log, max)
    requires y == Cutter(x.done + [Piece(x.block + Stored(x.ch, x.len), false)], [], 256, 0)
    ensures CutsFor(y, consumed, log, true, max)
  {
    ClosingIs(log, max);
    hide Cutting, Closing, CutFull, BytesOf, Stored;
  }

  lemma EndCuts(x: Cutter, consumed: seq<int>, log: seq<Event>, max: int)
    requires CutsFor(x, consumed, log, true, max)
    ensures CutsFor(x, consumed, log + [End], false, max) && !LateByte(log + [End])
  {
    BytesSnoc(log, End);
    hide Cutting, CutFull, BytesOf;
  }

  lemma HeadIs(x: Cutter, consumed: seq<int>, log: seq<Event>, max: int)
    requires CutsFor(x, consumed, log, false, max)
    ensures x == Cutting(log, max) && LateByte(log) ==> AtHead(x, log, max)
    ensures !AtFull(x, max) && !LateByte(log) ==> AtHead(x, log, max)
  {
    hide Cutting, BytesOf;
  }

  /** What a call adds: the bytes it took, and its end if it carried a flush or finish out. */
  ghost function Noted(s: seq<int>, ending: bool, ended: bool): seq<Event> {
    Tagged(s, ending) + (if ended then [End] else [])
  }

  lemma {:induction false} NotedBytes(log: seq<Event>, s: seq<int>, ending: bool, ended: bool)
    ensures BytesOf(log + Noted(s, ending, ended)) == BytesOf(log) + s
  {
    var t := Tagged(s, ending);
    TaggedBytes(s, ending);
    BytesConcat(log, t);
    BytesSnoc(log + t, End);
    assert log + Noted(s, ending, true) == log + t + [End];
    assert log + Noted(s, ending, false) == log + t;
    hide Tagged, BytesOf;
  }

  lemma NotedNone(log: seq<Event>)
    ensures log + [] == log
  {
  }

  /** No byte was read yet. */
  lemma NoCuts(max: int)
    ensures CutsFor(Cutter([], [], 256, 0), [], [], false, max) && !LateByte([])
  {
  }

  lemma NothingNoted(ending: bool)
    ensures Noted([], ending, false) == []
  {
  }

  // ---- the bytes behind the events ----

  ghost function BytesOf(log: seq<Event>): seq<int> {
    if log == [] then []
    else BytesOf(log[..|log| - 1]) + (if log[|log| - 1].Byte? then [log[|log| - 1].c] else [])
  }

  /** The bytes s, all taken by calls of the same kind. */
  ghost function Tagged(s: seq<int>, ending: bool): (log: seq<Event>)
    ensures |log| == |s| && forall i :: 0 <= i < |s| ==> log[i] == Byte(s[i], ending)
  {
    seq(|s|, i requires 0 <= i < |s| => Byte(s[i], ending))
  }

  lemma BytesSnoc(log: seq<Event>, v: Event)
    ensures BytesOf(log + [v]) == BytesOf(log) + (if v.Byte? then [v.c] else [])
  {
    assert (log + [v])[..|log|] == log;
  }

  lemma {:induction false} BytesConcat(a: seq<Event>, b: seq<Event>)
    ensures BytesOf(a + b) == BytesOf(a) + BytesOf(b)
    decreases |b|
  {
    if b == [] {
      assert a + b == a;
    } else {
      var k := |b| - 1;
      BytesConcat(a, b[..k]);
      BytesSnoc(a + b[..k], b[k]);
      assert a + b == a + b[..k] + [b[k]];
    }
  }

  lemma TaggedSnoc(s: seq<int>, c: int, ending: bool)
    ensures Tagged(s + [c], ending) == Tagged(s, ending) + [Byte(c, ending)]
  {
  }

  lemma TaggedJoin(s: seq<int>, t: seq<int>, ending: bool)
    ensures Tagged(s + t, ending) == Tagged(s, ending) + Tagged(t, ending) && Tagged([], ending) == []
  {
  }

  lemma {:induction false} TaggedBytes(s: seq<int>, ending: bool)
    ensures BytesOf(Tagged(s, ending)) == s
  {
    if s != [] {
      var k := |s| - 1;
      TaggedBytes(s[..k], ending);
      assert Tagged(s, ending)[..k] == Tagged(s[..k], ending);
    }
  }

  // ---- when a block is given up ----

  ghost function Ends(log: seq<Event>): nat {
    if log == [] then 0 else Ends(log[..|log| - 1]) + (if log[|log| - 1].End? then 1 else 0)
  }

  ghost function NotFull(ps: seq<Piece>): nat {
    if ps == [] then 0 else NotFull(ps[..|ps| - 1]) + (if ps[|ps| - 1].full then 0 else 1)
  }

  ghost predicate FullOnes(ps: seq<Piece>, max: int) {
    forall i :: 0 <= i < |ps| && ps[i].full ==> |ps[i].block| >= max
  }

  lemma PieceSnoc(ps: seq<Piece>, p: Piece, max: int)
    ensures NotFull(ps + [p]) == NotFull(ps) + if p.full then 0 else 1
    ensures FullOnes(ps, max) && (p.full ==> |p.block| >= max) ==> FullOnes(ps + [p], max)
  {
    assert (ps + [p])[..|ps|] == ps;
  }

  lemma CutKeeps(x: Cutter, max: int)
    requires FullOnes(x.done, max)
    ensures FullOnes(CutFull(x, max).done, max) && NotFull(CutFull(x, max).done) == NotFull(x.done)
  {
    PieceSnoc(x.done, Piece(x.block, true), max);
  }

  /** Every block but those that a flush or finish ended is full. */
  lemma {:induction false} OnlyFull(log: seq<Event>, max: int)
    ensures FullOnes(Cutting(log, max).done, max) && NotFull(Cutting(log, max).done) == Ends(log)
  {
    if log != [] {
      var front, v := log[..|log| - 1], log[|log| - 1];
      OnlyFull(front, max);
      var x := Cutting(front, max);
      assert log == front + [v];
      hide Cutting, Stored, NotFull, FullOnes, LateByte, CutFull;
      CutKeeps(x, max);
      match v {
        case Byte(c, ending) => CuttingByte(front, max, c, ending);
        case End =>
          ClosingIs(front, max);
          var y := if LateByte(front) then x else CutFull(x, max);
          PieceSnoc(y.done, Piece(y.block + Stored(y.ch, y.len), false), max);
      }
    } else {
      assert Cutting(log, max).done == [];
    }
  }

  /** No flush or finish has ended. */
  ghost predicate NoEnds(log: seq<Event>) {
    forall i :: 0 <= i < |log| ==> log[i].Byte?
  }

  lemma {:induction false} NoEndsCount(log: seq<Event>)
    requires NoEnds(log)
    ensures Ends(log) == 0
  {
    if log != [] { NoEndsCount(log[..|log| - 1]); }
  }

  ghost predicate AllOf(ps: seq<Piece>, max: int) {
    forall i :: 0 <= i < |ps| ==> ps[i].full && |ps[i].block| >= max
  }

  lemma {:induction false} AllFull(ps: seq<Piece>, max: int)
    requires FullOnes(ps, max) && NotFull(ps) == 0
    ensures AllOf(ps, max)
  {
    if ps != [] { AllFull(ps[..|ps| - 1], max); }
  }

  /** Without a flush every block is full but the one that the finish ends. */
  lemma {:induction false} FullButLast(log: seq<Event>, max: int)
    requires NoEnds(log)
    ensures AllOf(CutFull(Cutting(log, max), max).done, max)
    ensures var ps := Closing(log, max).done; ps != [] && !ps[|ps| - 1].full && AllOf(ps[..|ps| - 1], max)
  {
    OnlyFull(log, max);
    NoEndsCount(log);
    var x := Cutting(log, max);
    CutKeeps(x, max);
    AllFull(x.done, max);
    AllFull(CutFull(x, max).done, max);
    ClosingIs(log, max);
  }

  // ---- the blocks depend on the bytes ----

  /** Which calls took the bytes makes no difference until the end. */
  lemma {:induction false} SameCutting(a: seq<Event>, b: seq<Event>, max: int)
    requires NoEnds(a) && NoEnds(b) && BytesOf(a) == BytesOf(b)
    ensures |a| == |b| && Cutting(a, max) == Cutting(b, max)
  {
    ByteCount(a);
    ByteCount(b);
    if a != [] {
      var k := |a| - 1;
      assert BytesOf(a)[..k] == BytesOf(a[..k]) && BytesOf(b)[..k] == BytesOf(b[..k]);
      assert BytesOf(a)[k] == a[k].c && BytesOf(b)[k] == b[k].c;
      SameCutting(a[..k], b[..k], max);
    }
  }

  lemma {:induction false} ByteCount(log: seq<Event>)
    requires NoEnds(log)
    ensures |BytesOf(log)| == |log|
    ensures log != [] ==> |BytesOf(log[..|log| - 1])| == |log| - 1 && log[|log| - 1].Byte?
  {
    if log != [] { ByteCount(log[..|log| - 1]); }
  }

  /** The block is full just as the bytes end. */
  ghost predicate FullAtEnd(bytes: seq<int>, max: int) {
    AtFull(Cutting(Tagged(bytes, false), max), max)
  }

  lemma {:induction false} CutCloses(x: Cutter, max: int)
    ensures Close(CutFull(x, max)).done == Close(x).done <==> !AtFull(x, max)
  {
    hide Stored;
    if AtFull(x, max) { assert |Close(CutFull(x, max)).done| == |Close(x).done| + 1; }
  }

  /** The same bytes make the same blocks in the end, however the calls cut them: in every case
      but one.  If a block is full just as the bytes end, it matters whether the last byte
      came by the call that finishes. */
  lemma {:induction false} SameBlocks(a: seq<Event>, b: seq<Event>, max: int)
    requires NoEnds(a) && NoEnds(b) && BytesOf(a) == BytesOf(b)
    ensures Closing(a, max).done == Closing(b, max).done <==>
              (LateByte(a) <==> LateByte(b)) || !FullAtEnd(BytesOf(a), max)
  {
    var t := Tagged(BytesOf(a), false);
    TaggedBytes(BytesOf(a), false);
    SameCutting(a, b, max);
    SameCutting(a, t, max);
    ClosingIs(a, max);
    ClosingIs(b, max);
    CutCloses(Cutting(a, max), max);
    hide Close, CutFull, Cutting, AtFull;
  }

  /** The newest byte was taken by a call that flushes or finishes, whatever ended since. */
  ghost predicate NewestLate(log: seq<Event>) {
    log != [] && if log[|log| - 1].Byte? then log[|log| - 1].ending else NewestLate(log[..|log| - 1])
  }

  lemma {:induction false} LateNoted(log: seq<Event>, s: seq<int>, ending: bool, ended: bool)
    ensures NewestLate(log + Noted(s, ending, ended)) <==> if s == [] then NewestLate(log) else ending
  {
    var l, t := log + Noted(s, ending, ended), log + Tagged(s, ending);
    if ended { assert l[..|l| - 1] == t; } else { assert l == t; }
    if s == [] { assert t == log; } else { assert t[|t| - 1] == Byte(s[|s| - 1], ending); }
  }

  /** The log up to the end of the finish. */
  lemma FinishedLog(log: seq<Event>, max: int) returns (front: seq<Event>)
    requires log != [] && log[|log| - 1] == End && NoEnds(log[..|log| - 1]) && max >= 1
    ensures NoEnds(front) && log == front + [End] && BytesOf(front) == BytesOf(log)
    ensures NewestLate(log) <==> LateByte(front)
    ensures CutFull(Cutting(log, max), max).done == Closing(front, max).done
  {
    front := log[..|log| - 1];
    assert log == front + [End];
    ClosingIs(front, max);
    hide Cutting, Stored;
  }

  // ---- the case does occur ----

  /** Bytes 0 and 1 by turns. */
  ghost function Turns(n: nat): (s: seq<int>)
    ensures |s| == n && forall i :: 0 <= i < n ==> s[i] == i % 2
  {
    seq(n, i => i % 2)
  }

  lemma {:induction false} TurnsCut(n: nat, max: int)
    requires 0 < n <= max + 1
    ensures var x := Cutting(Tagged(Turns(n), false), max); |x.block| == n - 1 && x.ch == (n - 1) % 2 && x.len == 1
  {
    var t := Tagged(Turns(n), false);
    var front := Tagged(Turns(n - 1), false);
    assert t[..n - 1] == front;
    if n > 1 {
      TurnsCut(n - 1, max);
      assert |Stored((n - 2) % 2, 1)| == 1;
    }
  }

  /** One byte more than a block holds, taken before the finish or by it: another number of blocks. */
  lemma {:induction false} TakenByFinish(max: int)
    requires max >= 1
    ensures var s := Turns(max + 1); |Closing(Tagged(s, false), max).done| == 2 &&
                                     |Closing(Tagged(s, true), max).done| == 1
  {
    var s := Turns(max + 1);
    var a, b := Tagged(s, false), Tagged(s, true);
    TurnsCut(max + 1, max);
    TaggedBytes(s, false);
    TaggedBytes(s, true);
    SameCutting(a, b, max);
    ClosingIs(a, max);
    ClosingIs(b, max);
    NoneDone(a, max, s);
    hide Cutting;
  }

  /** Nothing is given up before a block is full. */
  lemma {:induction false} NoneDone(log: seq<Event>, max: int, s: seq<int>)
    requires log == Tagged(Turns(|s|), false) && |s| <= max + 1 && max >= 1
    ensures Cutting(log, max).done == []
  {
    if s != [] {
      var k := |s| - 1;
      assert log[..k] == Tagged(Turns(k), false);
      NoneDone(log[..k], max, s[..k]);
      if k > 0 { TurnsCut(k, max); }
    }
  }
}
