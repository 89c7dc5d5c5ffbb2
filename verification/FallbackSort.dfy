/** fallbackSort: byte-wise radix sort, then prefix doubling over bucket bits.
    `eclass` is read and written both as words and, through Bytes, as the
    block's bytes. */
module FallbackSort {
  import opened Bits
  import opened Rotations
  import opened Counting
  import opened PrefixDoubling
  import BucketBits
  import QuickSort
  import WordLanes

  /** Each entry lies in the bucket of its rotation's first character. */
  ghost predicate Bucketed(b: seq<int>, fm: seq<int>) {
    && RotationOk(b, fm)
    && forall i :: 0 <= i < |fm| ==> Below(b, b[fm[i]]) <= i < Below(b, b[fm[i]] + 1)
  }

  /** The slot the radix pass gives to byte i: each bucket is filled from its end. */
  ghost function Slot(b: seq<int>, i: nat): int
    requires i < |b|
  {
    Below(b, b[i] + 1) - 1 - Count(b[..i], b[i])
  }

  lemma {:induction false} SlotInBucket(b: seq<int>, i: nat)
    requires i < |b|
    ensures Below(b, b[i]) <= Slot(b, i) < Below(b, b[i] + 1) <= |b|
  {
    BelowStep(b, b[i]);
    CountPrefix(b, i, |b|, b[i]);
    assert b[..|b|] == b;
  }

  lemma {:induction false} SlotsDiffer(b: seq<int>, i: nat, j: nat)
    requires i < j < |b|
    ensures Slot(b, i) != Slot(b, j)
  {
    SlotInBucket(b, i);
    SlotInBucket(b, j);
    if b[i] == b[j] {
      CountPrefix(b, i, j, b[i]);
    } else if Slot(b, i) == Slot(b, j) {
      BucketUnique(b, b[i], b[j], Slot(b, i));
    }
  }

  /** A complete placement is a permutation that keeps buckets together. */
  lemma {:induction false} PlacedAll(b: seq<int>, fm: seq<int>)
    requires |fm| == |b|
    requires forall i :: 0 <= i < |b| ==> 0 <= Slot(b, i) < |b| && fm[Slot(b, i)] == i
    ensures IsPerm(fm, |b|) && Bucketed(b, fm)
  {
    var slots := seq(|b|, i requires 0 <= i < |b| => Slot(b, i));
    forall i, j | 0 <= i < j < |b| ensures slots[i] != slots[j] { SlotsDiffer(b, i, j); }
    forall k | 0 <= k < |b|
      ensures 0 <= fm[k] < |b| && slots[fm[k]] == k && Below(b, b[fm[k]]) <= k < Below(b, b[fm[k]] + 1)
    {
      var i := PermOnto(slots, |b|, k);
      SlotInBucket(b, i);
    }
  }

  /** The bucket of byte c begins at z. */
  ghost predicate BucketBegins(b: seq<int>, c: int, z: int) {
    Below(b, c) == z
  }

  /** A slot starts the bucket of some byte exactly when its neighbour's byte differs. */
  lemma {:induction false} BucketHeads(b: seq<int>, fm: seq<int>, z: nat)
    requires |fm| == |b| && InRange(b, 256) && Bucketed(b, fm) && z < |b|
    ensures (exists c :: 0 <= c < 256 && BucketBegins(b, c, z)) <==> Head(b, fm, 1, z)
    ensures InOrder(b, fm, 1, z)
  {
    var d := b[fm[z]];
    PreOne(b, fm[z]);
    if z == 0 {
      BelowEnds(b, 256);
      assert BucketBegins(b, 0, z);
    } else {
      PreOne(b, fm[z - 1]);
      var d' := b[fm[z - 1]];
      if d < d' { BelowMonotone(b, d + 1, d'); }
      if d' < d {
        BelowMonotone(b, d' + 1, d);
        assert BucketBegins(b, d, z);
      }
      if c :| 0 <= c < 256 && BucketBegins(b, c, z) {
        if d' >= c { BelowMonotone(b, c, d'); }
        if d < c { BelowMonotone(b, d + 1, c); }
      }
    }
  }

  lemma PreOne(b: seq<int>, r: nat)
    requires r < |b|
    ensures Pre(b, r, 1) == [b[r]]
  {
    assert Pre(b, Next(|b|, r), 0) == [];
  }

  // ---- the radix pass ----

  method CountBytes(eclass: array<int>, nblock: nat, ghost b: seq<int>) returns (ftab: array<int>)
    requires nblock <= 4 * eclass.Length && b == WordLanes.Bytes(eclass[..])[..nblock]
    ensures fresh(ftab) && ftab.Length == 257 && ftab[256] == 0
    ensures forall c :: 0 <= c < 256 ==> ftab[c] == Count(b, c)
  {
    ftab := new int[257](_ => 0);
    var i := 0;
    while i < nblock
      invariant 0 <= i <= nblock && ftab[256] == 0
      invariant forall c :: 0 <= c < 256 ==> ftab[c] == Count(b[..i], c)
    {
      var j := WordLanes.GetByte(eclass, i);
      forall c | 0 <= c < 256 ensures Count(b[..i + 1], c) == Count(b[..i], c) + (if j == c then 1 else 0) {
        CountStep(b, i, c);
      }
      ftab[j] := ftab[j] + 1;
      i := i + 1;
    }
    assert b[..i] == b;
  }

  /** ftab[c] becomes the end of bucket c. */
  method Accumulate(ftab: array<int>, ghost b: seq<int>)
    requires ftab.Length == 257 && ftab[256] == 0 && InRange(b, 256)
    requires forall c :: 0 <= c < 256 ==> ftab[c] == Count(b, c)
    modifies ftab
    ensures forall c :: 0 <= c < 256 ==> ftab[c] == Below(b, c + 1)
  {
    BelowEnds(b, 256);
    BelowStep(b, 0);
    var i := 1;
    while i < 257
      invariant 1 <= i <= 257 && ftab[256] == (if i <= 256 then 0 else ftab[255])
      invariant forall c :: 0 <= c < 256 ==> ftab[c] == if c < i then Below(b, c + 1) else Count(b, c)
    {
      BelowStep(b, i);
      ftab[i] := ftab[i] + ftab[i - 1];
      i := i + 1;
    }
  }

  ghost predicate Placing(b: seq<int>, fm: seq<int>, ft: seq<int>, i: nat) {
    && i <= |b| <= |fm| && |ft| == 257 && InRange(b, 256)
    && (forall c :: 0 <= c < 256 ==> ft[c] == Below(b, c + 1) - Count(b[..i], c))
    && (forall m :: 0 <= m < i ==> 0 <= Slot(b, m) < |b| && fm[Slot(b, m)] == m)
  }

  lemma {:induction false} PlaceStep(b: seq<int>, fm: seq<int>, ft: seq<int>, i: nat)
    requires Placing(b, fm, ft, i) && i < |b|
    ensures 0 <= b[i] < 256 && 0 <= ft[b[i]] - 1 < |b|
    ensures Placing(b, fm[ft[b[i]] - 1 := i], ft[b[i] := ft[b[i]] - 1], i + 1)
  {
    SlotInBucket(b, i);
    forall m | 0 <= m < i ensures Slot(b, m) != Slot(b, i) { SlotsDiffer(b, m, i); }
    forall c | 0 <= c < 256 ensures Count(b[..i + 1], c) == Count(b[..i], c) + (if b[i] == c then 1 else 0) {
      CountStep(b, i, c);
    }
  }

  lemma {:induction false} PlaceEnd(b: seq<int>, fm: seq<int>, ft: seq<int>)
    requires Placing(b, fm, ft, |b|)
    ensures IsPerm(fm[..|b|], |b|) && Bucketed(b, fm[..|b|])
    ensures forall c :: 0 <= c < 256 ==> ft[c] == Below(b, c)
  {
    PlacedAll(b, fm[..|b|]);
    assert b[..|b|] == b;
    forall c | 0 <= c < 256 ensures ft[c] == Below(b, c) { BelowStep(b, c); }
  }

  method Place(fmap: array<int>, eclass: array<int>, ftab: array<int>, nblock: nat, ghost b: seq<int>)
    requires fmap != eclass && fmap != ftab && eclass != ftab
    requires nblock <= 4 * eclass.Length && b == WordLanes.Bytes(eclass[..])[..nblock]
    requires Placing(b, fmap[..], ftab[..], 0)
    modifies fmap, ftab
    ensures IsPerm(fmap[..nblock], nblock) && Bucketed(b, fmap[..nblock])
    ensures forall c :: 0 <= c < 256 ==> ftab[c] == Below(b, c)
  {
    assert nblock == |b| <= fmap.Length && ftab.Length == 257;
    hide *;
    var i := 0;
    while i < nblock
      invariant 0 <= i <= nblock && Placing(b, fmap[..], ftab[..], i)
    {
      PlaceOne(fmap, eclass, ftab, i, nblock, b);
      i := i + 1;
    }
    PlaceEnd(b, fmap[..], ftab[..]);
  }

  /** Position i goes to the end of its byte's bucket. */
  method PlaceOne(fmap: array<int>, eclass: array<int>, ftab: array<int>, i: nat, nblock: nat, ghost b: seq<int>)
    requires fmap != eclass && fmap != ftab && eclass != ftab && fmap.Length >= |b| && ftab.Length == 257
    requires i < nblock == |b| && nblock <= 4 * eclass.Length && b == WordLanes.Bytes(eclass[..])[..nblock]
    requires Placing(b, fmap[..], ftab[..], i)
    modifies fmap, ftab
    ensures Placing(b, fmap[..], ftab[..], i + 1)
  {
    hide *;
    ghost var fm, ft := fmap[..], ftab[..];
    var j := WordLanes.GetByte(eclass, i);
    PlaceStep(b, fm, ft, i);
    var k := ftab[j] - 1;
    ftab[j] := k;
    fmap[k] := i;
    assert fmap[..] == fm[k := i] && ftab[..] == ft[j := k];
  }

  /** Initial bucket bits, and the alternating sentinel bits behind the block. */
  method MarkBuckets(bhtab: array<int>, ftab: array<int>, nblock: nat)
    requires bhtab != ftab && ftab.Length == 257 && nblock / 32 + 3 <= bhtab.Length
    requires WordLanes.Words(bhtab[..]) && forall c :: 0 <= c < 256 ==> 0 <= ftab[c] <= nblock
    modifies bhtab
    ensures WordLanes.Words(bhtab[..])
    ensures forall z :: 0 <= z < nblock ==> BucketBits.Flags(bhtab[..])[z] == StartsBucket(ftab[..], z)
    ensures BucketBits.Flags(bhtab[..])[nblock] && !BucketBits.Flags(bhtab[..])[nblock + 1]
  {
    ClearTable(bhtab, nblock);
    hide *;
    var i := 0;
    while i < 256
      invariant 0 <= i <= 256 && WordLanes.Words(bhtab[..])
      invariant forall z :: 0 <= z < nblock ==> BucketBits.Flags(bhtab[..])[z] == exists c :: 0 <= c < i && ftab[c] == z
    {
      BucketBits.SetBH(bhtab, ftab[i]);
      i := i + 1;
    }
    forall z ensures StartsBucket(ftab[..], z) == exists c :: 0 <= c < i && ftab[c] == z { StartsAt(ftab, z); }
    i := 0;
    while i < 32
      invariant 0 <= i <= 32 && WordLanes.Words(bhtab[..])
      invariant forall z :: 0 <= z < nblock ==> BucketBits.Flags(bhtab[..])[z] == StartsBucket(ftab[..], z)
      invariant i > 0 ==> BucketBits.Flags(bhtab[..])[nblock] && !BucketBits.Flags(bhtab[..])[nblock + 1]
    {
      BucketBits.SetBH(bhtab, nblock + 2 * i);
      BucketBits.ClearBH(bhtab, nblock + 2 * i + 1);
      i := i + 1;
    }
  }

  lemma StartsAt(ftab: array<int>, z: int)
    requires ftab.Length == 257
    ensures StartsBucket(ftab[..], z) == exists c :: 0 <= c < 256 && ftab[c] == z
  {
    if c :| 0 <= c < 256 && ftab[..][c] == z { assert ftab[c] == z; }
    if c :| 0 <= c < 256 && ftab[c] == z { assert ftab[..][c] == z; }
  }

  method ClearTable(bhtab: array<int>, nblock: nat)
    requires nblock / 32 + 3 <= bhtab.Length && WordLanes.Words(bhtab[..])
    modifies bhtab
    ensures WordLanes.Words(bhtab[..])
    ensures forall z :: 0 <= z < nblock ==> !BucketBits.Flags(bhtab[..])[z]
  {
    var nBhtab := 2 + nblock / 32;
    var i := 0;
    while i < nBhtab
      invariant 0 <= i <= nBhtab && WordLanes.Words(bhtab[..])
      invariant forall w :: 0 <= w < i ==> bhtab[w] == 0
    {
      bhtab[i] := 0;
      i := i + 1;
    }
    forall z | 0 <= z < nblock ensures !BucketBits.Flags(bhtab[..])[z] { BitZero(z % 32); }
  }

  lemma {:induction false} FirstLevel(b: seq<int>, fm: seq<int>, ft: seq<int>, fl: seq<bool>)
    requires InRange(b, 256) && |ft| == 257 && forall c :: 0 <= c < 256 ==> ft[c] == Below(b, c)
    requires IsPerm(fm, |b|) && Bucketed(b, fm) && |fl| > |b| + 1 && fl[|b|] && !fl[|b| + 1]
    requires forall z :: 0 <= z < |b| ==> fl[z] == StartsBucket(ft, z)
    ensures Level(b, fm, fl, 1)
  {
    forall z | 0 <= z < |b| ensures fl[z] == Head(b, fm, 1, z) && InOrder(b, fm, 1, z) {
      BucketHeads(b, fm, z);
      BucketStarts(b, ft, z);
    }
  }

  /** z is among the radix bucket starts. */
  ghost predicate StartsBucket(ft: seq<int>, z: int)
    requires |ft| == 257
  {
    exists c :: 0 <= c < 256 && ft[c] == z
  }

  lemma {:induction false} BucketStarts(b: seq<int>, ft: seq<int>, z: int)
    requires |ft| == 257 && forall c :: 0 <= c < 256 ==> ft[c] == Below(b, c)
    ensures StartsBucket(ft, z) <==> exists c :: 0 <= c < 256 && BucketBegins(b, c, z)
  {
    hide Below;
    if c :| 0 <= c < 256 && ft[c] == z { assert BucketBegins(b, c, z); }
    if c :| 0 <= c < 256 && BucketBegins(b, c, z) { assert ft[c] == z; }
  }

  lemma {:induction false} PlacingStart(b: seq<int>, fm: seq<int>, ft: seq<int>)
    requires |b| <= |fm| && |ft| == 257 && InRange(b, 256) && forall c :: 0 <= c < 256 ==> ft[c] == Below(b, c + 1)
    ensures Placing(b, fm, ft, 0)
  {
  }

  /** The state between rounds, for whole arrays. */
  ghost predicate Ready(b: seq<int>, fm: seq<int>, ec: seq<int>, bh: seq<int>, h: nat) {
    && |b| <= |fm| && |b| <= |ec| && |b| < 0x8000_0000 && WordLanes.Words(ec) && WordLanes.Words(bh)
    && Level(b, fm[..|b|], BucketBits.Flags(bh), h)
  }

  /** The initial one-character sort and its bucket bits. */
  method RadixPass(fmap: array<int>, eclass: array<int>, bhtab: array<int>, nblock: nat, ghost b: seq<int>)
    returns (ftabCopy: array<int>)
    requires fmap != eclass && fmap != bhtab && eclass != bhtab
    requires 0 < nblock <= fmap.Length && nblock <= eclass.Length && nblock < 0x8000_0000 &&
             nblock / 32 + 3 <= bhtab.Length
    requires WordLanes.Words(bhtab[..]) && WordLanes.Words(eclass[..]) && b == WordLanes.Bytes(eclass[..])[..nblock]
    modifies fmap, bhtab
    ensures Ready(b, fmap[..], eclass[..], bhtab[..], 1) && Bucketed(b, fmap[..nblock])
    ensures fresh(ftabCopy) && ftabCopy.Length == 256 && forall c :: 0 <= c < 256 ==> ftabCopy[c] == Count(b, c)
  {
    assert InRange(b, 256);
    hide WordLanes.Words, BucketBits.Flags, Level, Placing, Bucketed, IsPerm, Count, Below;
    ghost var ec := eclass[..];
    var ftab := CountBytes(eclass, nblock, b);
    ftabCopy := new int[256](i requires 0 <= i < 256 reads ftab => ftab[i]);
    Accumulate(ftab, b);
    PlacingStart(b, fmap[..], ftab[..]);
    Place(fmap, eclass, ftab, nblock, b);
    MarkBuckets(bhtab, ftab, nblock);
    assert eclass[..] == ec;
    FirstLevel(b, fmap[..nblock], ftab[..], BucketBits.Flags(bhtab[..]));
  }

  // ---- one doubling round ----

  function Back(n: nat, r: int, h: nat): int {
    if r - h < 0 then r - h + n else r - h
  }

  ghost predicate Filling(b: seq<int>, fm: seq<int>, fl: seq<bool>, ec: seq<int>, h: nat, i: nat) {
    && i <= |b| == |fm| && |b| <= |ec| && |b| <= |fl| && WordLanes.Words(ec)
    && forall m :: 0 <= m < i ==> 0 <= Back(|b|, fm[m], h) < |b| && ec[Back(|b|, fm[m], h)] == Start(fl, m)
  }

  lemma {:induction false} FillStep(b: seq<int>, fm: seq<int>, fl: seq<bool>, ec: seq<int>, h: nat, i: nat, j: int,
                                    k: int)
    requires Filling(b, fm, fl, ec, h, i) && i < |b| < 0x8000_0000 && IsPerm(fm, |b|) && h <= |b|
    requires k == (if fm[i] - h < 0 then fm[i] - h + |b| else fm[i] - h) && j == Start(fl, i)
    ensures 0 <= k < |b|
    ensures Filling(b, fm, fl, ec[k := j], h, i + 1)
  {
    forall m | 0 <= m < i ensures Back(|b|, fm[m], h) != Back(|b|, fm[i], h) { assert fm[m] != fm[i]; }
  }

  /** Every position is h steps back from some listed rotation. */
  lemma {:induction false} BackCovers(b: seq<int>, fm: seq<int>, fl: seq<bool>, ec: seq<int>, h: nat)
    requires Level(b, fm, fl, h) && h <= |b| && Filling(b, fm, fl, ec, h, |b|)
    ensures RankOk(b, ec, h)
  {
    LevelShape(b, fm, fl, h);
    forall x | 0 <= x < |b| ensures RankedBy(b, fm, fl, ec, h, x) {
      AdvClosed(|b|, x, h);
      var i := PermOnto(fm, |b|, Adv(|b|, x, h));
      assert Back(|b|, fm[i], h) == x;
    }
    StartsRank(b, fm, fl, ec, h);
  }

  /** The rank of position i, and where it goes. */
  method FillTarget(fmap: array<int>, bhtab: array<int>, nblock: nat, H: nat, i: nat, j0: int) returns (j: int, k: int)
    requires WordLanes.Words(bhtab[..]) && i < fmap.Length && i < 32 * bhtab.Length
    ensures j == if BucketBits.Flags(bhtab[..])[i] then i else j0
    ensures k == if fmap[i] - H < 0 then fmap[i] - H + nblock else fmap[i] - H
  {
    var set_ := BucketBits.IsSetBH(bhtab, i);
    j := if set_ then i else j0;
    k := fmap[i] - H;
    if k < 0 { k := k + nblock; }
  }

  method FillEclass(fmap: array<int>, eclass: array<int>, bhtab: array<int>, nblock: nat, H: nat, ghost b: seq<int>)
    requires fmap != eclass && fmap != bhtab && eclass != bhtab
    requires |b| == nblock && 1 <= H <= nblock && Ready(b, fmap[..], eclass[..], bhtab[..], H)
    modifies eclass
    ensures WordLanes.Words(eclass[..]) && RankOk(b, eclass[..], H)
  {
    ghost var s, bh := fmap[..], bhtab[..];
    ghost var fm, fl := s[..nblock], BucketBits.Flags(bh);
    ReadyFill(b, s, eclass[..], bh, H);
    hide *;
    var j := 0;
    var i := 0;
    while i < nblock
      invariant 0 <= i <= nblock && 0 <= j < nblock && (i > 0 ==> j == Start(fl, i - 1))
      invariant fmap[..] == s && bhtab[..] == bh && Filling(b, fm, fl, eclass[..], H, i)
    {
      ghost var ec := eclass[..];
      FillAt(b, fm, fl, ec, H, i);
      assert fm[i] == fmap[i];
      var k;
      j, k := FillTarget(fmap, bhtab, nblock, H, i, j);
      FillStep(b, fm, fl, ec, H, i, j, k);
      eclass[k] := j;
      assert eclass[..] == ec[k := j];
      i := i + 1;
    }
    FillingEnd(b, fm, fl, eclass[..], H);
  }

  lemma ReadyFill(b: seq<int>, s: seq<int>, ec: seq<int>, bh: seq<int>, h: nat)
    requires Ready(b, s, ec, bh, h)
    ensures |b| <= |s| && |b| <= |ec| && |b| < 0x8000_0000 && WordLanes.Words(bh) && |BucketBits.Flags(bh)| == 32 * |bh|
    ensures |b| < 32 * |bh| && IsPerm(s[..|b|], |b|)
    ensures Level(b, s[..|b|], BucketBits.Flags(bh), h) && Filling(b, s[..|b|], BucketBits.Flags(bh), ec, h, 0)
  {
  }

  lemma FillAt(b: seq<int>, fm: seq<int>, fl: seq<bool>, ec: seq<int>, h: nat, i: nat)
    requires Filling(b, fm, fl, ec, h, i) && i < |b| && IsPerm(fm, |b|)
    ensures i < |fl| && Start(fl, i) == (if i == 0 || fl[i] then i else Start(fl, i - 1))
    ensures 0 <= fm[i] < |b| <= |ec|
  {
  }

  lemma FillingEnd(b: seq<int>, fm: seq<int>, fl: seq<bool>, ec: seq<int>, h: nat)
    requires Level(b, fm, fl, h) && h <= |b| && Filling(b, fm, fl, ec, h, |b|)
    ensures WordLanes.Words(ec) && RankOk(b, ec, h)
  {
    BackCovers(b, fm, fl, ec, h);
  }

  lemma LevelShape(b: seq<int>, fm: seq<int>, fl: seq<bool>, h: nat)
    requires Level(b, fm, fl, h)
    ensures |fm| == |b| && IsPerm(fm, |b|) && |fl| > |b| + 1 && fl[|b|] && !fl[|b| + 1]
  {
  }

  /** The state inside a round, for whole arrays. */
  ghost predicate Turn(b: seq<int>, fm: seq<int>, ec: seq<int>, bh: seq<int>, h: nat, r: int) {
    && |b| <= |fm| && |b| < 0x8000_0000 && WordLanes.Words(ec) && WordLanes.Words(bh) && h >= 1
    && Refining(b, fm[..|b|], BucketBits.Flags(bh), h, r) && RankOk(b, ec, h)
  }

  lemma TurnShape(b: seq<int>, fm: seq<int>, ec: seq<int>, bh: seq<int>, h: nat, r: int)
    requires Turn(b, fm, ec, bh, h, r)
    ensures WordLanes.Words(bh) && |b| + 1 < |BucketBits.Flags(bh)| == 32 * |bh| && -1 <= r < |b| <= |fm| && |b| <= |ec|
    ensures BucketBits.Flags(bh)[|b|] && !BucketBits.Flags(bh)[|b| + 1] && BucketBits.Flags(bh)[r + 1]
    ensures forall i :: 0 <= i < |b| ==> 0 <= fm[i] < |b|
    ensures h >= 1 && |b| < 0x8000_0000
  {
    assert forall i :: 0 <= i < |b| ==> fm[..|b|][i] == fm[i];
  }

  /** Regenerate the header bits of the sorted bucket l..r. */
  method Remark(fmap: array<int>, eclass: array<int>, bhtab: array<int>, l: nat, r: nat)
    requires fmap != eclass && fmap != bhtab && eclass != bhtab && WordLanes.Words(bhtab[..])
    requires l <= r < fmap.Length && r < 32 * bhtab.Length
    requires forall z :: l <= z <= r ==> 0 <= fmap[z] < eclass.Length
    requires BucketBits.Flags(bhtab[..])[l] && forall z :: l < z <= r ==> !BucketBits.Flags(bhtab[..])[z]
    modifies bhtab
    ensures WordLanes.Words(bhtab[..])
    ensures Remarked(old(BucketBits.Flags(bhtab[..])), BucketBits.Flags(bhtab[..]), fmap[..], eclass[..], l, r)
  {
    hide WordLanes.Words, BucketBits.Flags;
    ghost var fl := BucketBits.Flags(bhtab[..]);
    var cc := -1;
    var i := l;
    while i <= r
      invariant l <= i <= r + 1 && WordLanes.Words(bhtab[..])
      invariant i > l ==> cc == eclass[fmap[i - 1]]
      invariant forall z :: 0 <= z < |fl| && !(l < z < i) ==> BucketBits.Flags(bhtab[..])[z] == fl[z]
      invariant forall z :: l < z < i ==> BucketBits.Flags(bhtab[..])[z] == (eclass[fmap[z - 1]] != eclass[fmap[z]])
    {
      var cc1 := eclass[fmap[i]];
      if cc != cc1 {
        BucketBits.SetBH(bhtab, i);
        cc := cc1;
      }
      i := i + 1;
    }
  }

  /** A rearrangement of the array rearranges the part in use. */
  lemma {:induction false} RearrangedPart(s: seq<int>, t: seq<int>, n: nat, l: int, r: int)
    requires QuickSort.Rearranged(s, t, l, r) && 0 <= l && r < n <= |s|
    ensures QuickSort.Rearranged(s[..n], t[..n], l, r)
  {
    assert s == [] + s[..n] + s[n..];
    assert t == [] + t[..n] + t[n..];
    assert s[n..] == t[n..];
    QuickSort.MultisetCancel(multiset([]), multiset(s[..n]), multiset(t[..n]), multiset(s[n..]));
  }

  /** fm and fm' list rotations with the same first characters. */
  ghost predicate SameChars(b: seq<int>, fm: seq<int>, fm': seq<int>) {
    && |b| <= |fm| && |b| <= |fm'|
    && forall i :: 0 <= i < |b| ==> 0 <= fm[i] < |b| && 0 <= fm'[i] < |b| && b[fm[i]] == b[fm'[i]]
  }

  lemma {:induction false} SameCharsFromPrefixes(b: seq<int>, fm: seq<int>, fm': seq<int>, h: nat)
    requires |b| <= |fm| && |b| <= |fm'| && h >= 1
    requires forall i :: 0 <= i < |b| ==> 0 <= fm[..|b|][i] < |b| && 0 <= fm'[..|b|][i] < |b|
    requires forall i :: 0 <= i < |b| ==> Pre(b, fm'[..|b|][i], h) == Pre(b, fm[..|b|][i], h)
    ensures SameChars(b, fm, fm')
  {
    forall i | 0 <= i < |b| ensures 0 <= fm[i] < |b| && 0 <= fm'[i] < |b| && b[fm[i]] == b[fm'[i]] {
      assert fm[..|b|][i] == fm[i] && fm'[..|b|][i] == fm'[i];
      assert Pre(b, fm'[i], h)[0] == Pre(b, fm[i], h)[0];
    }
  }

  lemma {:induction false} BucketedKept(b: seq<int>, fm: seq<int>, fm': seq<int>)
    requires SameChars(b, fm, fm') && Bucketed(b, fm[..|b|])
    ensures Bucketed(b, fm'[..|b|])
  {
    var s, s' := fm[..|b|], fm'[..|b|];
    forall i | 0 <= i < |s'| ensures 0 <= s'[i] < |b| && Below(b, b[s'[i]]) <= i < Below(b, b[s'[i]] + 1) {
      assert b[s[i]] == b[s'[i]];
    }
  }

  lemma SameCharsTrans(b: seq<int>, s: seq<int>, t: seq<int>, u: seq<int>)
    requires SameChars(b, s, t) && SameChars(b, t, u)
    ensures SameChars(b, s, u)
  {
  }

  /** l..r is exactly one bucket of the flags. */
  ghost predicate OneBucket(fl: seq<bool>, l: int, r: int) {
    0 <= l <= r < |fl| - 1 && fl[l] && fl[r + 1] && forall z :: l < z <= r ==> !fl[z]
  }

  /** Sorting and remarking one bucket, on the array contents. */
  lemma {:induction false} TurnStep(b: seq<int>, s: seq<int>, t: seq<int>, ec: seq<int>, bh: seq<int>, bh': seq<int>,
                                    h: nat, l: int, r: int)
    requires Turn(b, s, ec, bh, h, l - 1) && WordLanes.Words(bh') && OneBucket(BucketBits.Flags(bh), l, r) && r < |b|
    requires QuickSort.Rearranged(s, t, l, r) && QuickSort.Keyed(t, ec, l, r) && QuickSort.SortedOn(t, ec, l, r)
    requires Remarked(BucketBits.Flags(bh), BucketBits.Flags(bh'), t, ec, l, r)
    ensures Turn(b, t, ec, bh', h, r) && SameChars(b, s, t)
  {
    hide BucketBits.Flags, WordLanes.Words, Refining, RankOk;
    var n := |b|;
    var fl, fl' := BucketBits.Flags(bh), BucketBits.Flags(bh');
    TurnShape(b, s, ec, bh, h, l - 1);
    RearrangedPart(s, t, n, l, r);
    RefineBucket(b, s[..n], t[..n], fl, fl', ec, h, l, r);
    SameCharsFromPrefixes(b, s, t, h);
  }

  /** Sort bucket l..r by rank and mark the buckets it splits into. */
  method SortBucket(fmap: array<int>, eclass: array<int>, bhtab: array<int>, H: nat, l: nat, r: nat, ghost b: seq<int>)
    requires fmap != eclass && fmap != bhtab && eclass != bhtab && WordLanes.Words(bhtab[..])
    requires Turn(b, fmap[..], eclass[..], bhtab[..], H, l - 1) && OneBucket(BucketBits.Flags(bhtab[..]), l, r) &&
             r < |b|
    modifies fmap, bhtab
    ensures Turn(b, fmap[..], eclass[..], bhtab[..], H, r) && SameChars(b, old(fmap[..]), fmap[..])
  {
    ghost var s, ec, bh := fmap[..], eclass[..], bhtab[..];
    TurnShape(b, s, ec, bh, H, l - 1);
    Pow2Values();
    assert QuickSort.Keyed(s, ec, l, r);
    hide Turn, QuickSort.SortedOn, QuickSort.Rearranged, BucketBits.Flags, WordLanes.Words, Remarked, SameChars;
    QuickSort.Sort(fmap, eclass, l, r);
    assert eclass[..] == ec;
    Remark(fmap, eclass, bhtab, l, r);
    TurnStep(b, s, fmap[..], ec, bh, bhtab[..], H, l, r);
  }

  /** One turn of the bucket loop: find the next bucket with several entries and
      refine it, or report that there is none. */
  method NextBucket(fmap: array<int>, eclass: array<int>, bhtab: array<int>, nblock: nat, H: nat, r0: int,
                    ghost b: seq<int>)
    returns (done: bool, l: int, r: int)
    requires fmap != eclass && fmap != bhtab && eclass != bhtab && nblock == |b|
    requires Turn(b, fmap[..], eclass[..], bhtab[..], H, r0)
    modifies fmap, bhtab
    ensures done ==> fmap[..] == old(fmap[..]) && bhtab[..] == old(bhtab[..]) && AllFlagged(bhtab[..], r0, nblock)
    ensures !done ==> r0 < l < r < nblock && Turn(b, fmap[..], eclass[..], bhtab[..], H, r)
    ensures !done ==> SameChars(b, old(fmap[..]), fmap[..])
  {
    ghost var s, ec, bh := fmap[..], eclass[..], bhtab[..];
    TurnShape(b, s, ec, bh, H, r0);
    hide *;
    done, l, r := FindBucket(bhtab, nblock, r0);
    if !done {
      BeforeBucket(b, s, ec, bh, H, r0, l, r);
      SortBucket(fmap, eclass, bhtab, H, l, r, b);
    }
  }

  /** The two scans that bracket the next bucket with several entries. */
  method FindBucket(bhtab: array<int>, nblock: nat, r0: int) returns (done: bool, l: int, r: int)
    requires WordLanes.Words(bhtab[..]) && -1 <= r0 < nblock && nblock + 1 < 32 * bhtab.Length
    requires BucketBits.Flags(bhtab[..])[nblock] && !BucketBits.Flags(bhtab[..])[nblock + 1] &&
             BucketBits.Flags(bhtab[..])[r0 + 1]
    ensures done ==> AllFlagged(bhtab[..], r0, nblock)
    ensures !done ==> r0 < l < r < nblock && OneBucket(BucketBits.Flags(bhtab[..]), l, r)
    ensures !done ==> forall z :: r0 < z <= l ==> BucketBits.Flags(bhtab[..])[z]
  {
    hide BucketBits.Flags, WordLanes.Words;
    var k := BucketBits.SkipFlags(bhtab, r0 + 1, true, nblock + 1);
    l, r := k - 1, r0;
    if l >= nblock {
      done := true;
      return;
    }
    k := BucketBits.SkipFlags(bhtab, k, false, nblock);
    r := k - 1;
    done := false;
  }

  /** All positions after r carry a header bit. */
  ghost predicate AllFlagged(bh: seq<int>, r: int, n: nat) {
    WordLanes.Words(bh) && n <= 32 * |bh| && -1 <= r && forall z :: r < z < n ==> BucketBits.Flags(bh)[z]
  }

  lemma {:induction false} BeforeBucket(b: seq<int>, fm: seq<int>, ec: seq<int>, bh: seq<int>, h: nat, r0: int, l: int,
                                        r: int)
    requires Turn(b, fm, ec, bh, h, r0) && r0 < l < r < |b| && forall z :: r0 < z <= l ==> BucketBits.Flags(bh)[z]
    ensures Turn(b, fm, ec, bh, h, l - 1)
  {
    if r0 < l - 1 { SkipSingles(b, fm[..|b|], BucketBits.Flags(bh), h, r0, l - 1); }
  }

  lemma {:induction false} TurnEnd(b: seq<int>, fm: seq<int>, ec: seq<int>, bh: seq<int>, h: nat, r: int)
    requires Turn(b, fm, ec, bh, h, r) && AllFlagged(bh, r, |b|) && |b| <= |ec|
    ensures Ready(b, fm, ec, bh, 2 * h)
  {
    RefineEnd(b, fm[..|b|], BucketBits.Flags(bh), h, r);
  }

  lemma {:induction false} TurnStart(b: seq<int>, fm: seq<int>, ec: seq<int>, ec': seq<int>, bh: seq<int>, h: nat)
    requires Ready(b, fm, ec, bh, h) && WordLanes.Words(ec') && RankOk(b, ec', h) && |b| > 0 && h >= 1
    ensures Turn(b, fm, ec', bh, h, -1) && SameChars(b, fm, fm)
  {
    LevelShape(b, fm[..|b|], BucketBits.Flags(bh), h);
    RefineStart(b, fm[..|b|], BucketBits.Flags(bh), h);
    assert forall i :: 0 <= i < |b| ==> fm[..|b|][i] == fm[i];
  }

  lemma {:induction false} NothingLeft(b: seq<int>, fm: seq<int>, ec: seq<int>, bh: seq<int>, h: nat)
    requires Ready(b, fm, ec, bh, h) && AllFlagged(bh, -1, |b|) && h <= |b|
    ensures RotationOk(b, fm[..|b|]) && SortedTo(b, fm[..|b|], |b|)
  {
    LevelShape(b, fm[..|b|], BucketBits.Flags(bh), h);
    AllSingles(b, fm[..|b|], BucketBits.Flags(bh), h);
  }

  /** One round: rank by the next H characters, refine every bucket. */
  method Round(fmap: array<int>, eclass: array<int>, bhtab: array<int>, nblock: nat, H: nat, ghost b: seq<int>)
      returns (nNotDone: nat)
    requires fmap != eclass && fmap != bhtab && eclass != bhtab
    requires |b| == nblock && 1 <= H <= nblock && Ready(b, fmap[..], eclass[..], bhtab[..], H)
    modifies fmap, eclass, bhtab
    ensures Ready(b, fmap[..], eclass[..], bhtab[..], 2 * H) && SameChars(b, old(fmap[..]), fmap[..])
    ensures nNotDone == 0 ==> |b| <= fmap.Length && RotationOk(b, fmap[..nblock]) && SortedTo(b, fmap[..nblock], nblock)
  {
    hide *;
    ghost var fm0, ec0, bh0 := fmap[..], eclass[..], bhtab[..];
    FillEclass(fmap, eclass, bhtab, nblock, H, b);
    assert fmap[..] == fm0 && bhtab[..] == bh0;
    TurnStart(b, fm0, ec0, eclass[..], bh0, H);
    nNotDone := 0;
    var r := -1;
    while true
      invariant Turn(b, fmap[..], eclass[..], bhtab[..], H, r) && SameChars(b, fm0, fmap[..])
      invariant nNotDone == 0 ==> r == -1 && fmap[..] == fm0 && bhtab[..] == bh0
      decreases nblock - r
    {
      ghost var fm := fmap[..];
      TurnShape(b, fm, eclass[..], bhtab[..], H, r);
      var done, l, r' := NextBucket(fmap, eclass, bhtab, nblock, H, r, b);
      if done {
        TurnEnd(b, fmap[..], eclass[..], bhtab[..], H, r);
        if nNotDone == 0 { NothingLeft(b, fm0, ec0, bh0, H); }
        break;
      }
      nNotDone := nNotDone + (r' - l + 1);
      SameCharsTrans(b, fm0, fm, fmap[..]);
      r := r';
    }
  }

  // ---- the block is put back ----

  /** What ftabCopy[c] must be when i entries have been written. */
  ghost function Remaining(b: seq<int>, c: int, i: nat): int {
    if i >= Below(b, c + 1) then 0 else if i <= Below(b, c) then Count(b, c) else Below(b, c + 1) - i
  }

  /** Advance to the bucket slot i belongs to. */
  method SkipEmpty(ftabCopy: array<int>, j0: nat, i: nat, ghost b: seq<int>, ghost d: nat) returns (j: nat)
    requires ftabCopy.Length == 256 && Below(b, d) <= i < Below(b, d + 1) && d < 256
    requires j0 < 256 && Below(b, j0) <= i && forall c :: 0 <= c < 256 ==> ftabCopy[c] == Remaining(b, c, i)
    ensures j == d
  {
    hide Below;
    j := j0;
    while ftabCopy[j] == 0
      invariant 0 <= j < 256 && Below(b, j) <= i
      decreases 256 - j
    {
      NotYet(b, i, j, d);
      j := j + 1;
    }
    StillThere(b, i, j, d);
  }

  lemma {:induction false} StillThere(b: seq<int>, i: nat, j: int, d: int)
    requires Below(b, d) <= i < Below(b, d + 1) && Below(b, j) <= i && Remaining(b, j, i) != 0
    ensures j == d
  {
    BucketUnique(b, j, d, i);
  }

  ghost predicate Writing(b: seq<int>, fm: seq<int>, ec: seq<int>, ft: seq<int>, i: nat) {
    && i <= |b| <= |fm| && |b| <= 4 * |ec| && |ft| == 256 && WordLanes.Words(ec) && Bucketed(b, fm[..|b|])
    && (forall c :: 0 <= c < 256 ==> ft[c] == Remaining(b, c, i))
    && (forall m :: 0 <= m < i ==> WordLanes.Bytes(ec)[fm[m]] == b[fm[m]])
  }

  lemma {:induction false} WriteStep(b: seq<int>, fm: seq<int>, ec: seq<int>, ec': seq<int>, ft: seq<int>, i: nat)
    requires Writing(b, fm, ec, ft, i) && i < |b| && InRange(b, 256) && WordLanes.Words(ec')
    requires 0 <= fm[i] < |b| && WordLanes.Bytes(ec') == WordLanes.Bytes(ec)[fm[i] := b[fm[i]]]
    ensures 0 <= b[fm[i]] < 256 && Writing(b, fm, ec', ft[b[fm[i]] := ft[b[fm[i]]] - 1], i + 1)
  {
    var d := b[fm[i]];
    assert fm[..|b|][i] == fm[i];
    BelowStep(b, d);
    forall c | 0 <= c < 256 && c != d ensures Remaining(b, c, i + 1) == Remaining(b, c, i) {
      OtherBucket(b, c, d, i);
    }
    forall m | 0 <= m < i ensures 0 <= fm[m] < |b| { assert fm[..|b|][m] == fm[m]; }
  }

  lemma {:induction false} WriteStart(b: seq<int>, fm: seq<int>, ec: seq<int>, ft: seq<int>)
    requires |b| <= |fm| && |b| <= 4 * |ec| && |ft| == 256 && WordLanes.Words(ec) && Bucketed(b, fm[..|b|])
    requires forall c :: 0 <= c < 256 ==> ft[c] == Count(b, c)
    ensures Writing(b, fm, ec, ft, 0)
  {
    forall c | 0 <= c < 256 ensures Remaining(b, c, 0) == Count(b, c) { BelowStep(b, c); }
  }

  lemma {:induction false} WriteEnd(b: seq<int>, fm: seq<int>, ec: seq<int>, ft: seq<int>)
    requires Writing(b, fm, ec, ft, |b|) && IsPerm(fm[..|b|], |b|)
    ensures WordLanes.Bytes(ec)[..|b|] == b
  {
    forall p | 0 <= p < |b| ensures WordLanes.Bytes(ec)[p] == b[p] {
      var m := PermOnto(fm[..|b|], |b|, p);
      assert fm[..|b|][m] == fm[m];
    }
  }

  lemma WritingAt(b: seq<int>, fm: seq<int>, ec: seq<int>, ft: seq<int>, i: nat)
    requires Writing(b, fm, ec, ft, i) && i < |b| && InRange(b, 256)
    ensures 0 <= fm[i] < |b| && 0 <= b[fm[i]] < 256 && Below(b, b[fm[i]]) <= i < Below(b, b[fm[i]] + 1)
    ensures forall c :: 0 <= c < 256 ==> ft[c] == Remaining(b, c, i)
  {
    hide *;
    WritingParts(b, fm, ec, ft, i);
    PlaceInBucket(b, fm[..|b|], i);
    assert fm[..|b|][i] == fm[i];
  }

  lemma WritingParts(b: seq<int>, fm: seq<int>, ec: seq<int>, ft: seq<int>, i: nat)
    requires Writing(b, fm, ec, ft, i)
    ensures i <= |b| <= |fm| && |ft| == 256 && Bucketed(b, fm[..|b|]) && forall c :: 0 <= c < 256 ==>
            ft[c] == Remaining(b, c, i)
  {
    hide Below, Remaining, Count, WordLanes.Bytes, WordLanes.Words, Bucketed;
  }

  lemma PlaceInBucket(b: seq<int>, p: seq<int>, i: nat)
    requires Bucketed(b, p) && i < |b| && InRange(b, 256)
    ensures 0 <= p[i] < |b| && 0 <= b[p[i]] < 256 && Below(b, b[p[i]]) <= i < Below(b, b[p[i]] + 1)
  {
    hide Below, Count;
  }

  method Reconstruct(fmap: array<int>, eclass: array<int>, ftabCopy: array<int>, nblock: nat, ghost b: seq<int>)
    requires fmap != eclass && fmap != ftabCopy && eclass != ftabCopy && ftabCopy.Length == 256
    requires |b| == nblock <= fmap.Length && nblock <= 4 * eclass.Length && InRange(b, 256) &&
             WordLanes.Words(eclass[..])
    requires IsPerm(fmap[..nblock], nblock) && Bucketed(b, fmap[..nblock])
    requires forall c :: 0 <= c < 256 ==> ftabCopy[c] == Count(b, c)
    modifies eclass, ftabCopy
    ensures WordLanes.Bytes(eclass[..])[..nblock] == b
  {
    BelowEnds(b, 256);
    ghost var fm := fmap[..];
    WriteStart(b, fm, eclass[..], ftabCopy[..]);
    hide *;
    var j := 0;
    var i := 0;
    while i < nblock
      invariant 0 <= i <= nblock && 0 <= j < 256 && Below(b, j) <= i
      invariant fmap[..] == fm && Writing(b, fm, eclass[..], ftabCopy[..], i) && WordLanes.Words(eclass[..])
    {
      ghost var ec, ft := eclass[..], ftabCopy[..];
      WritingAt(b, fm, ec, ft, i);
      j := SkipEmpty(ftabCopy, j, i, b, b[fm[i]]);
      ftabCopy[j] := ftabCopy[j] - 1;
      assert ftabCopy[..] == ft[j := ft[j] - 1];
      WordLanes.PutByte(eclass, fmap[i], j);
      WriteStep(b, fm, ec, eclass[..], ft, i);
      i := i + 1;
    }
    WriteEnd(b, fm, eclass[..], ftabCopy[..]);
    assert j < 256;
  }

  /** An exhausted bucket comes before the one slot i belongs to. */
  lemma {:induction false} NotYet(b: seq<int>, i: nat, j: int, d: int)
    requires Below(b, d) <= i < Below(b, d + 1) && Below(b, j) <= i && Remaining(b, j, i) == 0
    ensures Below(b, j + 1) <= i && j < d
  {
    BelowStep(b, j);
    if d <= j {
      BelowMonotone(b, d + 1, j + 1);
    }
  }

  lemma {:induction false} OtherBucket(b: seq<int>, c: int, d: int, i: nat)
    requires Below(b, d) <= i < Below(b, d + 1) && c != d
    ensures Remaining(b, c, i + 1) == Remaining(b, c, i)
  {
    BelowStep(b, c);
    if c < d { BelowMonotone(b, c + 1, d); } else { BelowMonotone(b, d + 1, c); }
  }

  lemma ReadyShape(b: seq<int>, fm: seq<int>, ec: seq<int>, bh: seq<int>, h: nat)
    requires Ready(b, fm, ec, bh, h)
    ensures |b| <= |fm| && |b| <= |ec| && WordLanes.Words(ec) && IsPerm(fm[..|b|], |b|)
  {
  }

  lemma {:induction false} ReadyDeep(b: seq<int>, fm: seq<int>, ec: seq<int>, bh: seq<int>, h: nat)
    requires Ready(b, fm, ec, bh, h) && h > |b|
    ensures RotationOk(b, fm[..|b|]) && SortedTo(b, fm[..|b|], |b|)
  {
    LevelShape(b, fm[..|b|], BucketBits.Flags(bh), h);
    DeepEnough(b, fm[..|b|], BucketBits.Flags(bh), h);
  }

  /** The log(N) loop. */
  method Double(fmap: array<int>, eclass: array<int>, bhtab: array<int>, nblock: nat, ghost b: seq<int>)
    requires fmap != eclass && fmap != bhtab && eclass != bhtab && |b| == nblock > 0 && nblock <= fmap.Length
    requires Ready(b, fmap[..], eclass[..], bhtab[..], 1) && Bucketed(b, fmap[..nblock])
    modifies fmap, eclass, bhtab
    ensures IsPerm(fmap[..nblock], nblock) && Bucketed(b, fmap[..nblock]) && WordLanes.Words(eclass[..])
    ensures RotationOk(b, fmap[..nblock]) && SortedTo(b, fmap[..nblock], nblock)
  {
    hide *;
    var H := 1;
    while true
      invariant 1 <= H <= nblock
      invariant Ready(b, fmap[..], eclass[..], bhtab[..], H) && Bucketed(b, fmap[..nblock])
      decreases nblock - H
    {
      ghost var fm := fmap[..];
      var nNotDone := Round(fmap, eclass, bhtab, nblock, H, b);
      BucketedKept(b, fm, fmap[..]);
      H := H * 2;
      if H > nblock || nNotDone == 0 {
        if H > nblock { ReadyDeep(b, fmap[..], eclass[..], bhtab[..], H); }
        ReadyShape(b, fmap[..], eclass[..], bhtab[..], H);
        break;
      }
    }
  }

  /** fallbackSort: on return fmap lists all rotations of the block in
      non-decreasing order and eclass holds the block's bytes again. */
  method Sort(fmap: array<int>, eclass: array<int>, bhtab: array<int>, nblock: nat, ghost b: seq<int>)
    requires fmap != eclass && fmap != bhtab && eclass != bhtab
    requires 0 < nblock <= fmap.Length && nblock <= eclass.Length && nblock < 0x8000_0000 &&
             nblock / 32 + 3 <= bhtab.Length
    requires WordLanes.Words(eclass[..]) && WordLanes.Words(bhtab[..])
    requires b == WordLanes.Bytes(eclass[..])[..nblock]
    modifies fmap, eclass, bhtab
    ensures IsPerm(fmap[..nblock], nblock)
    ensures RotationOk(b, fmap[..nblock]) && SortedTo(b, fmap[..nblock], nblock)
    ensures WordLanes.Bytes(eclass[..])[..nblock] == b
  {
    assert InRange(b, 256);
    hide *;
    var ftabCopy := RadixPass(fmap, eclass, bhtab, nblock, b);
    Double(fmap, eclass, bhtab, nblock, b);
    Reconstruct(fmap, eclass, ftabCopy, nblock, b);
  }
}
