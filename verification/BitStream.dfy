/** The bit buffers of compressor and decompressor: bsW, bsFinishWrite, GET_BITS. */
module BitStream {
  import opened Bits

  /** The n low binary digits of v, most significant first. */
  ghost function BitsOf(v: nat, n: nat): (s: seq<bool>)
    ensures |s| == n
    decreases n
  {
    if n == 0 then [] else BitsOf(v / 2, n - 1) + [v % 2 == 1]
  }

  ghost function Value(s: seq<bool>): nat {
    if s == [] then 0 else 2 * Value(s[..|s| - 1]) + (if s[|s| - 1] then 1 else 0)
  }

  ghost function Zeros(n: nat): (s: seq<bool>)
    ensures |s| == n && forall k :: 0 <= k < n ==> !s[k]
  {
    seq(n, _ => false)
  }

  lemma {:induction false} ValueOfBits(v: nat, n: nat)
    requires v < Pow2(n)
    ensures Value(BitsOf(v, n)) == v
    decreases n
  {
    if n > 0 {
      ValueOfBits(v / 2, n - 1);
      var s := BitsOf(v, n);
      assert s[..n - 1] == BitsOf(v / 2, n - 1);
    }
  }

  /** The high m and the low k digits. */
  lemma {:induction false} BitsSplit(v: nat, m: nat, k: nat)
    ensures BitsOf(v, m + k) == BitsOf(Halve(v, k), m) + BitsOf(v, k)
    decreases k
  {
    if k > 0 {
      BitsSplit(v / 2, m, k - 1);
      assert BitsOf(v, m + k) == BitsOf(v / 2, m + k - 1) + [v % 2 == 1];
    }
  }

  lemma {:induction false} BitsOfZero(n: nat)
    ensures BitsOf(0, n) == Zeros(n)
  {
    if n > 0 { BitsOfZero(n - 1); }
  }

  lemma {:induction false} HalveSmall(v: nat, k: nat)
    requires v < Pow2(k)
    ensures Halve(v, k) == 0
  {
    if k > 0 { HalveSmall(v / 2, k - 1); }
  }

  /** A value of n digits shown with z more has z leading zeros. */
  lemma {:induction false} LeadingZeros(v: nat, z: nat, n: nat)
    requires v < Pow2(n)
    ensures BitsOf(v, z + n) == Zeros(z) + BitsOf(v, n)
  {
    BitsSplit(v, z, n);
    HalveSmall(v, n);
    BitsOfZero(z);
  }

  /** Shifting left appends zeros. */
  lemma {:induction false} BitsOfShl(v: nat, n: nat, s: nat)
    ensures BitsOf(Shl(v, s), n + s) == BitsOf(v, n) + Zeros(s)
    decreases s
  {
    if s > 0 {
      BitsOfShl(v, n, s - 1);
      assert Shl(v, s) / 2 == Shl(v, s - 1) && Shl(v, s) % 2 == 0;
      assert BitsOf(Shl(v, s), n + s) == BitsOf(Shl(v, s - 1), n + s - 1) + [false];
    } else {
      assert BitsOf(v, n) + Zeros(0) == BitsOf(v, n);
    }
  }

  lemma {:induction false} ShlIsProduct(v: nat, s: nat)
    ensures Shl(v, s) == v * Pow2(s)
  {
    if s > 0 {
      ShlIsProduct(v, s - 1);
      assert 2 * (v * Pow2(s - 1)) == v * (2 * Pow2(s - 1));
    }
  }

  /** Only the low k digits matter to BitsOf, so truncation to 32 bits keeps them. */
  lemma {:induction false} BitsTruncated(v: nat, k: nat, w: nat)
    requires k <= w
    ensures BitsOf(v % Pow2(w), k) == BitsOf(v, k)
    decreases k
  {
    if k > 0 {
      DivPow2Step(v, w);
      BitsTruncated(v / 2, k - 1, w - 1);
    }
  }

  lemma {:induction false} BitsOfOr(a: nat, b: nat, n: nat, k: nat)
    requires k < n
    ensures BitsOf(Or(a, b), n)[k] == (BitsOf(a, n)[k] || BitsOf(b, n)[k])
    decreases n
  {
    if k < n - 1 { BitsOfOr(a / 2, b / 2, n - 1, k); }
    OrParts(a, b);
  }

  /** The bits of a byte sequence. */
  ghost function ByteBits(b: seq<int>): (s: seq<bool>)
    ensures |s| == 8 * |b|
  {
    if b == [] then [] else ByteBits(b[..|b| - 1]) + BitsOf(if b[|b| - 1] < 0 then 0 else b[|b| - 1], 8)
  }

  lemma {:induction false} ByteBitsPush(b: seq<int>, x: nat)
    ensures ByteBits(b + [x]) == ByteBits(b) + BitsOf(x, 8)
  {
    assert (b + [x])[..|b|] == b;
  }

  lemma {:induction false} ByteBitsFront(b: seq<int>)
    requires |b| > 0 && b[0] >= 0
    ensures ByteBits(b) == BitsOf(b[0], 8) + ByteBits(b[1..])
  {
    hide *;
    BackByte(b);
    BackByte(b[1..]);
    if |b| > 1 {
      var c := b[..|b| - 1];
      ByteBitsFront(c);
      FrontBack(b);
      Associate(BitsOf(b[0], 8), ByteBits(c[1..]), ByteOf(b[|b| - 1]));
    } else {
      OneByte(b);
    }
  }

  ghost function ByteOf(x: int): seq<bool> {
    BitsOf(if x < 0 then 0 else x, 8)
  }

  lemma BackByte(b: seq<int>)
    ensures b != [] ==> ByteBits(b) == ByteBits(b[..|b| - 1]) + ByteOf(b[|b| - 1])
  {
    hide BitsOf;
  }

  lemma FrontBack(b: seq<int>)
    requires |b| > 1
    ensures b[1..][..|b[1..]| - 1] == b[..|b| - 1][1..] && b[1..][|b[1..]| - 1] == b[|b| - 1]
  {
  }

  lemma OneByte(b: seq<int>)
    requires |b| == 1 && b[0] >= 0
    ensures ByteBits(b) == BitsOf(b[0], 8) + ByteBits(b[1..])
  {
    assert b[..0] == [] && b[1..] == [] && ByteBits([]) == [];
    assert ByteBits(b) == ByteBits(b[..0]) + BitsOf(b[0], 8);
    hide BitsOf;
  }

  lemma SameByte(x: int, y: int, s: seq<bool>, t: seq<bool>)
    requires 0 <= x < 256 && 0 <= y < 256 && BitsOf(x, 8) + s == BitsOf(y, 8) + t
    ensures x == y && s == t
  {
    Pow2Values();
    ValueOfBits(x, 8);
    ValueOfBits(y, 8);
    hide BitsOf, Value, Pow2;
    assert BitsOf(x, 8) == (BitsOf(x, 8) + s)[..8] && BitsOf(y, 8) == (BitsOf(y, 8) + t)[..8];
    assert s == (BitsOf(x, 8) + s)[8..] && t == (BitsOf(y, 8) + t)[8..];
  }

  /** Bytes whose bits begin with those of m begin with m. */
  lemma {:induction false} OpensWith(bytes: seq<int>, m: seq<int>, rest: seq<bool>)
    requires Bytes(bytes) && Bytes(m) && ByteBits(bytes) == ByteBits(m) + rest
    ensures |m| <= |bytes| && bytes[..|m|] == m
  {
    hide *;
    if m != [] {
      NotFewer(bytes, m, rest);
      FirstByte(bytes);
      FirstByte(m);
      Associate(BitsOf(m[0], 8), ByteBits(m[1..]), rest);
      SameByte(bytes[0], m[0], ByteBits(bytes[1..]), ByteBits(m[1..]) + rest);
      OpensWith(bytes[1..], m[1..], rest);
      OneMoreByte(bytes, m);
    }
  }

  lemma NotFewer(bytes: seq<int>, m: seq<int>, rest: seq<bool>)
    requires ByteBits(bytes) == ByteBits(m) + rest
    ensures |bytes| >= |m|
  {
    assert |ByteBits(bytes)| >= |ByteBits(m)|;
    hide ByteBits;
  }

  lemma OneMoreByte(bytes: seq<int>, m: seq<int>)
    requires 0 < |m| <= |bytes| && bytes[0] == m[0] && bytes[1..][..|m[1..]|] == m[1..]
    ensures bytes[..|m|] == m
  {
    assert bytes[..|m|] == [bytes[0]] + bytes[1..][..|m| - 1] && m == [m[0]] + m[1..];
  }

  lemma FirstByte(b: seq<int>)
    requires b != [] && Bytes(b)
    ensures 0 <= b[0] < 256 && Bytes(b[1..]) && ByteBits(b) == BitsOf(b[0], 8) + ByteBits(b[1..])
  {
    ByteBitsFront(b);
    hide ByteBits, BitsOf;
  }

  lemma Associate(a: seq<bool>, b: seq<bool>, c: seq<bool>)
    ensures a + (b + c) == a + b + c
  {
  }

  const WORD: nat := 0x1_0000_0000

  // ---- writing ----

  /** bsBuff holds its `live` pending bits at the top, and zeros below them. */
  ghost predicate WriterOk(buff: int, live: int) {
    0 <= live <= 32 && 0 <= buff < WORD && BitsOf(buff, 32)[live..] == Zeros(32 - live)
  }

  ghost function Pending(buff: int, live: int): (s: seq<bool>)
    requires 0 <= live <= 32 && buff >= 0
    ensures |s| == live
  {
    BitsOf(buff, 32)[..live]
  }

  /** The top byte, and the word after `<< 8`. */
  lemma {:induction false} ShiftOut(buff: nat)
    requires buff < WORD
    ensures buff / 0x100_0000 < 256 && BitsOf(buff / 0x100_0000, 8) == BitsOf(buff, 32)[..8]
    ensures BitsOf(Shl32(buff, 8), 32) == BitsOf(buff, 32)[8..] + Zeros(8)
  {
    Pow2Values();
    BitsSplit(buff, 8, 24);
    HalveIsDiv(buff, 24);
    ShlIsProduct(buff, 8);
    BitsOfShl(buff, 24, 8);
    BitsTruncated(Shl(buff, 8), 32, 32);
    assert BitsOf(buff, 32)[8..] == BitsOf(buff, 24);
  }

  /** Shipping the top byte: what bsNEEDW does once. */
  lemma {:induction false} ShipByte(buff: int, live: int)
    requires WriterOk(buff, live) && live >= 8
    ensures 0 <= buff / 0x100_0000 < 256
    ensures WriterOk(Shl32(buff, 8), live - 8)
    ensures Pending(buff, live) == BitsOf(buff / 0x100_0000, 8) + Pending(Shl32(buff, 8), live - 8)
  {
    ShiftOut(buff);
    var w, w' := BitsOf(buff, 32), BitsOf(Shl32(buff, 8), 32);
    hide BitsOf;
    assert w'[live - 8..] == w[live..] + Zeros(8);
    assert w[..live] == w[..8] + w'[..live - 8];
  }

  /** The last, partly filled byte is padded with zeros. */
  lemma {:induction false} ShipLast(buff: int, live: int)
    requires WriterOk(buff, live) && 0 < live < 8
    ensures 0 <= buff / 0x100_0000 < 256
    ensures BitsOf(buff / 0x100_0000, 8) == Pending(buff, live) + Zeros(8 - live)
  {
    ShiftOut(buff);
    var w := BitsOf(buff, 32);
    hide BitsOf;
    assert w[live..8] == w[live..][..8 - live];
  }

  /** Adding n bits below the pending ones: the disjunction in bsW. */
  lemma {:induction false} AddBits(buff: int, live: int, n: nat, v: nat)
    requires WriterOk(buff, live) && live < 8 && 1 <= n <= 24 && v < Pow2(n)
    ensures 32 - live - n >= 0
    ensures WriterOk(Or(buff, Shl32(v, 32 - live - n)), live + n)
    ensures Pending(Or(buff, Shl32(v, 32 - live - n)), live + n) == Pending(buff, live) + BitsOf(v, n)
  {
    hide BitsOf, Or, Pow2, Shl32, IsOr;
    var s := 32 - live - n;
    PlaceBits(v, live, n, s);
    var u := Shl32(v, s);
    var r := Or(buff, u);
    WordOr(buff, u);
    OrBits(buff, u, 32);
    Overlay(BitsOf(buff, 32), BitsOf(u, 32), BitsOf(r, 32), live, n, s, BitsOf(v, n));
  }

  /** y is the positionwise disjunction of w and x. */
  ghost predicate IsOr(w: seq<bool>, x: seq<bool>, y: seq<bool>) {
    |w| == |x| == |y| && forall k :: 0 <= k < |y| ==> y[k] == (w[k] || x[k])
  }

  lemma {:induction false} OrBits(a: nat, b: nat, n: nat)
    ensures IsOr(BitsOf(a, n), BitsOf(b, n), BitsOf(Or(a, b), n))
  {
    forall k | 0 <= k < n ensures BitsOf(Or(a, b), n)[k] == (BitsOf(a, n)[k] || BitsOf(b, n)[k]) {
      BitsOfOr(a, b, n, k);
    }
  }

  lemma {:induction false} Overlay(w: seq<bool>, x: seq<bool>, y: seq<bool>, live: nat, n: nat, s: nat, b: seq<bool>)
    requires IsOr(w, x, y) && |y| == live + n + s && |b| == n
    requires x == Zeros(live) + b + Zeros(s) && w[live..] == Zeros(n + s)
    ensures y[..live + n] == w[..live] + b && y[live + n..] == Zeros(s)
  {
    forall k | 0 <= k < live + n + s
      ensures y[k] == if k < live then w[k] else if k < live + n then b[k - live] else false
    {
      if k >= live { assert w[k] == w[live..][k - live]; }
    }
  }

  lemma WordOr(a: nat, b: nat)
    requires a < WORD && b < WORD
    ensures Or(a, b) < WORD
  {
    Pow2Values();
    OrBelow(a, b, 32);
  }

  /** v shifted into the middle of a word. */
  lemma {:induction false} PlaceBits(v: nat, live: nat, n: nat, s: nat)
    requires live + n + s == 32 && v < Pow2(n)
    ensures BitsOf(Shl32(v, s), 32) == Zeros(live) + BitsOf(v, n) + Zeros(s)
  {
    Pow2Values();
    ShlIsProduct(v, s);
    BitsTruncated(Shl(v, s), 32, 32);
    BitsOfShl(v, live + n, s);
    LeadingZeros(v, live, n);
  }

  class Writer {
    /** zbits[0 .. numZ-1]. */
    var zbits: seq<int>
    var bsBuff: int
    var bsLive: int

    ghost predicate Valid()
      reads this
    {
      WriterOk(bsBuff, bsLive) && Bytes(zbits)
    }

    /** Everything written so far. */
    ghost function Contents(): seq<bool>
      reads this
      requires Valid()
    {
      ByteBits(zbits) + Pending(bsBuff, bsLive)
    }

    /** BZ2_bsInitWrite. */
    constructor ()
      ensures Valid() && Contents() == []
    {
      zbits, bsBuff, bsLive := [], 0, 0;
      BitsOfZero(32);
    }

    /** bsNEEDW: ship whole bytes. */
    method Need()
      requires Valid()
      modifies this
      ensures Valid() && bsLive < 8 && Contents() == old(Contents())
    {
      hide BitsOf, ByteBits, WriterOk, Pending;
      ghost var c := Contents();
      WriterBounds(bsBuff, bsLive);
      while bsLive >= 8
        invariant WriterOk(bsBuff, bsLive) && 0 <= bsLive <= 32 && bsBuff >= 0 && Bytes(zbits)
        invariant ByteBits(zbits) + Pending(bsBuff, bsLive) == c
        decreases bsLive
      {
        ShipByte(bsBuff, bsLive);
        ByteBitsPush(zbits, bsBuff / 0x100_0000);
        zbits := zbits + [bsBuff / 0x100_0000];
        bsBuff := Shl32(bsBuff, 8);
        bsLive := bsLive - 8;
      }
    }

    /** bsW: append n bits.  The buffer never holds more than 32. */
    method W(n: nat, v: nat)
      requires Valid() && 1 <= n <= 24 && v < Pow2(n)
      modifies this
      ensures Valid() && Contents() == old(Contents()) + BitsOf(v, n) && bsLive < 8 + n
    {
      hide BitsOf, ByteBits, WriterOk, Pending, Or, Pow2;
      Need();
      ghost var z := ByteBits(zbits);
      WriterBounds(bsBuff, bsLive);
      AddBits(bsBuff, bsLive, n, v);
      bsBuff := Or(bsBuff, Shl32(v, 32 - bsLive - n));
      bsLive := bsLive + n;
    }

    /** bsFinishWrite: pad with zeros to a whole byte and ship everything. */
    method Finish() returns (ghost pad: nat)
      requires Valid()
      modifies this
      ensures bsLive <= 0 && pad < 8 && Bytes(zbits) && ByteBits(zbits) == old(Contents()) + Zeros(pad)
    {
      hide BitsOf, ByteBits, WriterOk, Pending;
      ghost var c := Contents();
      WriterBounds(bsBuff, bsLive);
      pad := 0;
      assert c + Zeros(0) == c;
      while bsLive > 0
        invariant -8 < bsLive <= 32 && pad == (if bsLive < 0 then -bsLive else 0) && Bytes(zbits)
        invariant bsLive >= 0 ==> bsBuff >= 0 && WriterOk(bsBuff, bsLive) &&
                                  ByteBits(zbits) + Pending(bsBuff, bsLive) == c
        invariant bsLive < 0 ==> ByteBits(zbits) == c + Zeros(pad)
        decreases bsLive
      {
        if bsLive >= 8 { ShipByte(bsBuff, bsLive); } else { ShipLast(bsBuff, bsLive); }
        ByteBitsPush(zbits, bsBuff / 0x100_0000);
        zbits := zbits + [bsBuff / 0x100_0000];
        bsBuff := Shl32(bsBuff, 8);
        bsLive := bsLive - 8;
        if bsLive < 0 { pad := -bsLive; }
      }
      if bsLive == 0 { assert Pending(bsBuff, 0) == []; }
    }
  }

  lemma WriterBounds(buff: int, live: int)
    requires WriterOk(buff, live)
    ensures 0 <= live <= 32 && 0 <= buff < WORD
  {
  }

  // ---- reading ----

  /** One more byte below the live bits; the word keeps only its low 32 digits. */
  lemma {:induction false} TakeByte(buff: nat, live: nat, x: nat)
    requires buff < WORD && live + 8 <= 32 && x < 256
    ensures Or(Shl32(buff, 8), x) < WORD
    ensures BitsOf(Or(Shl32(buff, 8), x), live + 8) == BitsOf(buff, live) + BitsOf(x, 8)
  {
    Pow2Values();
    var u := Shl32(buff, 8);
    WordOr(u, x);
    ShlIsProduct(buff, 8);
    BitsTruncated(Shl(buff, 8), live + 8, 32);
    BitsOfShl(buff, live, 8);
    LeadingZeros(x, live, 8);
    OrBits(u, x, live + 8);
    hide BitsOf, Or, Pow2, Shl32, Shl;
    FillLow(BitsOf(u, live + 8), BitsOf(x, live + 8), BitsOf(Or(u, x), live + 8), BitsOf(buff, live), BitsOf(x, 8));
  }

  lemma FillLow(w: seq<bool>, x: seq<bool>, y: seq<bool>, a: seq<bool>, b: seq<bool>)
    requires IsOr(w, x, y) && w == a + Zeros(|b|) && x == Zeros(|a|) + b
    ensures y == a + b
  {
  }

  /** The n highest live bits, as GET_BITS masks them out. */
  lemma {:induction false} MaskBits(buff: nat, live: nat, n: nat)
    requires n <= live
    ensures And(Halve(buff, live - n), Pow2(n) - 1) == Value(BitsOf(buff, live)[..n])
    ensures BitsOf(buff, live - n) == BitsOf(buff, live)[n..]
  {
    var h := Halve(buff, live - n);
    hide BitsOf, Halve, Value, And, Pow2;
    AndLowMask(h, n);
    BitsSplit(buff, n, live - n);
    BitsTruncated(h, n, n);
    ModBound(h, Pow2(n));
    ValueOfBits(h % Pow2(n), n);
    assert BitsOf(buff, live)[..n] == BitsOf(h, n);
  }

  lemma ModBound(x: nat, p: nat)
    requires p > 0
    ensures 0 <= x % p < p
  {
  }

  // ---- input in pieces ----

  /** The pieces, one after the other. */
  ghost function Concat(pieces: seq<seq<int>>): seq<int> {
    if pieces == [] then [] else pieces[0] + Concat(pieces[1..])
  }

  lemma {:induction false} ConcatSnoc(pieces: seq<seq<int>>, p: seq<int>)
    ensures Concat(pieces + [p]) == Concat(pieces) + p
  {
    if pieces == [] {
      assert ([] + [p])[1..] == [] && Concat([]) == [];
    } else {
      ConcatSnoc(pieces[1..], p);
      assert (pieces + [p])[1..] == pieces[1..] + [p];
    }
  }

  /** Bytes cut at the given sizes, as far as they last, and the rest as a last piece. */
  function Cut(bytes: seq<int>, sizes: seq<nat>): (pieces: seq<seq<int>>) {
    if sizes == [] then [bytes] else
      var n := if sizes[0] < |bytes| then sizes[0] else |bytes|;
      [bytes[..n]] + Cut(bytes[n..], sizes[1..])
  }

  lemma {:induction false} CutJoins(bytes: seq<int>, sizes: seq<nat>)
    ensures Concat(Cut(bytes, sizes)) == bytes
  {
    if sizes == [] {
      ConcatOne(bytes);
    } else {
      var n := if sizes[0] < |bytes| then sizes[0] else |bytes|;
      CutJoins(bytes[n..], sizes[1..]);
      assert Cut(bytes, sizes)[1..] == Cut(bytes[n..], sizes[1..]);
    }
  }

  lemma ConcatOne(bytes: seq<int>)
    ensures Concat([bytes]) == bytes
  {
    assert [bytes][1..] == [] && Concat([]) == [];
  }

  class Reader {
    /** The input from next_in on, and the buffers the caller brings when it is used up. */
    var input: seq<int>
    var later: seq<seq<int>>
    var bsBuff: int
    var bsLive: int

    ghost predicate Valid()
      reads this
    {
      0 <= bsLive < 32 && 0 <= bsBuff < WORD && Bytes(input + Concat(later))
    }

    /** The bits still to be delivered. */
    ghost function Remaining(): seq<bool>
      reads this
      requires Valid()
    {
      BitsOf(bsBuff, bsLive) + ByteBits(input + Concat(later))
    }

    constructor (pieces: seq<seq<int>>)
      requires Bytes(Concat(pieces))
      ensures Valid() && Remaining() == ByteBits(Concat(pieces))
    {
      input, later, bsBuff, bsLive := [], pieces, 0, 0;
      new;
      assert input + Concat(later) == Concat(pieces);
    }

    /** The current buffer is used up, and the call is made again with the next. */
    method NextBuffer()
      requires Valid() && input == [] && later != []
      modifies this`input, this`later
      ensures Valid() && Remaining() == old(Remaining()) && later == old(later[1..])
    {
      assert input + Concat(later) == later[0] + Concat(later[1..]);
      hide BitsOf, ByteBits;
      input, later := later[0], later[1..];
    }

    /** One byte more in the buffer of bits. */
    method TakeInput()
      requires Valid() && bsLive < 24 && input != []
      modifies this`input, this`bsBuff, this`bsLive
      ensures Valid() && Remaining() == old(Remaining()) && input == old(input[1..]) && bsLive == old(bsLive) + 8
    {
      ghost var all, rest := input + Concat(later), input[1..] + Concat(later);
      assert all[0] == input[0] && all[1..] == rest;
      TakeByte(bsBuff, bsLive, input[0]);
      ByteBitsFront(all);
      Associate(BitsOf(bsBuff, bsLive), BitsOf(input[0], 8), ByteBits(rest));
      hide BitsOf, ByteBits, Or, Concat;
      bsBuff := Or(Shl32(bsBuff, 8), input[0]);
      bsLive := bsLive + 8;
      input := input[1..];
    }

    /** GET_BITS: n bits, however the input is cut into buffers; or, when all of it is used
        up, a return to the caller.  Then no bit is lost, and the call may be made again. */
    method GetBits(n: nat) returns (ok: bool, v: nat)
      requires Valid() && n <= 24
      modifies this
      ensures Valid() && ok == (n <= |old(Remaining())|)
      ensures ok ==> v == Value(old(Remaining())[..n]) && Remaining() == old(Remaining())[n..]
      ensures !ok ==> Remaining() == old(Remaining()) && input == [] && later == []
    {
      hide BitsOf, ByteBits, Value, And, Or, Pow2, Halve, Concat, Bytes;
      ghost var r := Remaining();
      while bsLive < n
        invariant Valid() && Remaining() == r
        decreases |later|, |input|
      {
        if input == [] {
          if later == [] {
            ok, v := false, 0;
            NothingIn(input, later);
            return;
          }
          NextBuffer();
        } else {
          TakeInput();
        }
      }
      MaskBits(bsBuff, bsLive, n);
      ok, v := true, And(Halve(bsBuff, bsLive - n), Pow2(n) - 1);
      assert BitsOf(bsBuff, bsLive)[..n] == r[..n];
      bsLive := bsLive - n;
      assert Remaining() == r[n..];
    }

    /** A field at the front of the input is read back as it was written. */
    method GetField(n: nat, ghost x: nat, ghost rest: seq<bool>) returns (v: nat)
      requires Valid() && n <= 24 && x < Pow2(n) && Remaining() == BitsOf(x, n) + rest
      modifies this
      ensures Valid() && v == x && Remaining() == rest
    {
      ValueOfBits(x, n);
      hide BitsOf, ByteBits, Value, Pow2;
      var ok;
      ok, v := GetBits(n);
      assert (BitsOf(x, n) + rest)[..n] == BitsOf(x, n) && (BitsOf(x, n) + rest)[n..] == rest;
    }
  }

  lemma NothingIn(input: seq<int>, later: seq<seq<int>>)
    requires input == [] && later == []
    ensures |ByteBits(input + Concat(later))| == 0
  {
    assert input + Concat(later) == [];
  }

  // ---- a list of fields ----

  datatype Field = Field(width: nat, value: nat)

  predicate FieldsOk(fs: seq<Field>) {
    forall k :: 0 <= k < |fs| ==> 1 <= fs[k].width <= 24 && fs[k].value < Pow2(fs[k].width)
  }

  ghost function FieldBits(fs: seq<Field>): seq<bool> {
    if fs == [] then [] else BitsOf(fs[0].value, fs[0].width) + FieldBits(fs[1..])
  }

  /** Write all fields, finish, and read the same widths from the bytes cut at any sizes: every value comes back. */
  method RoundTrip(fs: seq<Field>, sizes: seq<nat>) returns (vs: seq<nat>)
    requires FieldsOk(fs)
    ensures |vs| == |fs| && forall k :: 0 <= k < |fs| ==> vs[k] == fs[k].value
  {
    hide BitsOf, ByteBits, Value, Pow2, WriterOk, Pending;
    var w := new Writer();
    assert FieldBits(fs) == [] + FieldBits(fs[0..]);
    for k := 0 to |fs|
      invariant fresh(w) && w.Valid() && w.Contents() + FieldBits(fs[k..]) == FieldBits(fs)
    {
      assert fs[k..][0] == fs[k] && fs[k..][1..] == fs[k + 1..];
      w.W(fs[k].width, fs[k].value);
    }
    assert fs[|fs|..] == [];
    ghost var pad := w.Finish();
    CutJoins(w.zbits, sizes);
    vs := ReadBack(Cut(w.zbits, sizes), fs, Zeros(pad));
  }

  method ReadBack(pieces: seq<seq<int>>, fs: seq<Field>, ghost rest: seq<bool>) returns (vs: seq<nat>)
    requires FieldsOk(fs) && Bytes(Concat(pieces))
    requires ByteBits(Concat(pieces)) == FieldBits(fs) + rest
    ensures |vs| == |fs| && forall k :: 0 <= k < |fs| ==> vs[k] == fs[k].value
  {
    hide BitsOf, ByteBits, Value, Pow2;
    var r := new Reader(pieces);
    vs := [];
    for k := 0 to |fs|
      invariant fresh(r) && r.Valid() && r.Remaining() == FieldBits(fs[k..]) + rest
      invariant |vs| == k && forall m :: 0 <= m < k ==> vs[m] == fs[m].value
    {
      assert fs[k..][0] == fs[k] && fs[k..][1..] == fs[k + 1..];
      var v := r.GetField(fs[k].width, fs[k].value, FieldBits(fs[k + 1..]) + rest);
      vs := vs + [v];
    }
  }
}
