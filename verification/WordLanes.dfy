/** Arrays of 32-bit words seen as bytes or as 16-bit halves, least significant
    first: the storage aliases of `arr1` and `arr2` in the compressor. */
module WordLanes {

  const WORD: nat := 0x1_0000_0000

  ghost predicate Words(ws: seq<int>) {
    forall i :: 0 <= i < |ws| ==> 0 <= ws[i] < WORD
  }

  /** Byte j of a word. */
  function Byte(w: int, j: int): (b: int)
    requires 0 <= j < 4
    ensures 0 <= b < 256
  {
    if j == 0 then w % 256 else if j == 1 then (w / 256) % 256
    else if j == 2 then (w / 0x1_0000) % 256 else (w / 0x100_0000) % 256
  }

  /** The word with byte j replaced. */
  function WithByte(w: int, j: int, v: int): int {
    (if j == 0 then v else Byte(w, 0)) + 0x100 * (if j == 1 then v else Byte(w, 1))
    + 0x1_0000 * (if j == 2 then v else Byte(w, 2)) + 0x100_0000 * (if j == 3 then v else Byte(w, 3))
  }

  lemma {:induction false} ByteStored(w: int, j: int, v: int)
    requires 0 <= j < 4 && 0 <= v < 256
    ensures 0 <= WithByte(w, j, v) < WORD
    ensures forall i :: 0 <= i < 4 ==> Byte(WithByte(w, j, v), i) == if i == j then v else Byte(w, i)
  {
    hide Byte;
    Compose(if j == 0 then v else Byte(w, 0), if j == 1 then v else Byte(w, 1),
            if j == 2 then v else Byte(w, 2), if j == 3 then v else Byte(w, 3));
  }

  lemma {:induction false} Compose(b0: int, b1: int, b2: int, b3: int)
    requires 0 <= b0 < 256 && 0 <= b1 < 256 && 0 <= b2 < 256 && 0 <= b3 < 256
    ensures 0 <= b0 + 0x100 * b1 + 0x1_0000 * b2 + 0x100_0000 * b3 < WORD
    ensures Byte(b0 + 0x100 * b1 + 0x1_0000 * b2 + 0x100_0000 * b3, 0) == b0
    ensures Byte(b0 + 0x100 * b1 + 0x1_0000 * b2 + 0x100_0000 * b3, 1) == b1
    ensures Byte(b0 + 0x100 * b1 + 0x1_0000 * b2 + 0x100_0000 * b3, 2) == b2
    ensures Byte(b0 + 0x100 * b1 + 0x1_0000 * b2 + 0x100_0000 * b3, 3) == b3
  {
    var h2 := b2 + 0x100 * b3;
    var h1 := b1 + 0x100 * h2;
    var w := b0 + 0x100 * h1;
    assert w == b0 + 0x100 * b1 + 0x1_0000 * b2 + 0x100_0000 * b3;
    Lowest(b0, h1);
    Lowest(b1, h2);
    Lowest(b2, b3);
    Lowest(b3, 0);
    Quotients(w);
    assert h1 / 256 == h2 && w / 256 == h1;
  }

  lemma Lowest(b: int, h: int)
    requires 0 <= b < 256
    ensures (b + 0x100 * h) % 256 == b && (b + 0x100 * h) / 256 == h
  {
  }

  lemma Quotients(w: int)
    ensures w / 0x1_0000 == w / 256 / 256 && w / 0x100_0000 == w / 256 / 256 / 256
  {
  }

  /** The words read through a byte pointer. */
  ghost function Bytes(ws: seq<int>): (b: seq<int>)
    ensures |b| == 4 * |ws|
    ensures forall p :: 0 <= p < |b| ==> b[p] == Byte(ws[p / 4], p % 4)
  {
    seq(4 * |ws|, p requires 0 <= p < 4 * |ws| => Byte(ws[p / 4], p % 4))
  }

  method PutByte(ws: array<int>, p: nat, v: int)
    requires Words(ws[..]) && p < 4 * ws.Length && 0 <= v < 256
    modifies ws
    ensures Words(ws[..]) && Bytes(ws[..]) == old(Bytes(ws[..]))[p := v]
  {
    ghost var s := ws[..];
    ByteStored(ws[p / 4], p % 4, v);
    ws[p / 4] := WithByte(ws[p / 4], p % 4, v);
    assert Bytes(ws[..]) == Bytes(s)[p := v];
  }

  method GetByte(ws: array<int>, p: nat) returns (b: int)
    requires p < 4 * ws.Length
    ensures b == Bytes(ws[..])[p] && 0 <= b < 256
  {
    b := Byte(ws[p / 4], p % 4);
  }

  /** The words read through a pointer to 16-bit halves. */
  ghost function Halves(ws: seq<int>): (h: seq<int>)
    ensures |h| == 2 * |ws|
    ensures forall p :: 0 <= p < |h| ==> h[p] == if p % 2 == 0 then ws[p / 2] % 0x1_0000 else ws[p / 2] / 0x1_0000
  {
    seq(2 * |ws|, p requires 0 <= p < 2 * |ws| => if p % 2 == 0 then ws[p / 2] % 0x1_0000 else ws[p / 2] / 0x1_0000)
  }

  /** Storing a half leaves every word but the one it lies in alone. */
  method PutHalf(ws: array<int>, p: nat, v: int)
    requires p < 2 * ws.Length && 0 <= ws[p / 2] < WORD && 0 <= v < 0x1_0000
    modifies ws
    ensures 0 <= ws[p / 2] < WORD && Halves(ws[..]) == old(Halves(ws[..]))[p := v]
    ensures forall i :: 0 <= i < ws.Length && i != p / 2 ==> ws[i] == old(ws[i])
  {
    ghost var s := ws[..];
    var w := ws[p / 2];
    ws[p / 2] := if p % 2 == 0 then w - w % 0x1_0000 + v else w % 0x1_0000 + 0x1_0000 * v;
    forall q | 0 <= q < 2 * |s| ensures Halves(ws[..])[q] == Halves(s)[p := v][q] {
    }
  }
}
