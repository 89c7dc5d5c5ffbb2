/** The initial run-length coding of a block: a run of four or more equal bytes
    is four bytes and a count of the rest. */
module RunLength {

  /** A run of len copies of byte ch. */
  datatype Unit = Unit(ch: int, len: int)

  ghost predicate IsUnit(u: Unit) {
    0 <= u.ch < 256 && 1 <= u.len <= 255
  }

  ghost function Copies(c: int, k: int): (s: seq<int>)
    requires k >= 0
    ensures |s| == k && forall i :: 0 <= i < k ==> s[i] == c
  {
    seq(k, _ => c)
  }

  /** How a run is stored in the block. */
  ghost function Pack(u: Unit): seq<int>
    requires IsUnit(u)
  {
    if u.len < 4 then Copies(u.ch, u.len) else Copies(u.ch, 4) + [u.len - 4]
  }

  ghost predicate Units(us: seq<Unit>) {
    forall i :: 0 <= i < |us| ==> IsUnit(us[i])
  }

  /** Neighbouring runs differ in their byte, or the first is as long as a run can be. */
  ghost predicate Separated(us: seq<Unit>) {
    forall i :: 0 < i < |us| ==> us[i - 1].ch != us[i].ch || us[i - 1].len == 255
  }

  ghost function PackAll(us: seq<Unit>): seq<int>
    requires Units(us)
  {
    if us == [] then [] else PackAll(us[..|us| - 1]) + Pack(us[|us| - 1])
  }

  /** The bytes the runs stand for. */
  ghost function ExpandAll(us: seq<Unit>): seq<int>
    requires Units(us)
  {
    if us == [] then [] else ExpandAll(us[..|us| - 1]) + Copies(us[|us| - 1].ch, us[|us| - 1].len)
  }

  lemma PackSnoc(us: seq<Unit>, u: Unit)
    requires Units(us) && IsUnit(u)
    ensures Units(us + [u]) && PackAll(us + [u]) == PackAll(us) + Pack(u)
    ensures ExpandAll(us + [u]) == ExpandAll(us) + Copies(u.ch, u.len)
  {
    assert (us + [u])[..|us|] == us;
  }

  // ---- decoding, as the format defines it ----

  /** The length of the run of equal bytes at the front of s, counted up to four. */
  ghost function Lead(s: seq<int>): (n: nat)
    requires |s| > 0
    ensures 1 <= n <= 4 && n <= |s| && forall i :: 0 <= i < n ==> s[i] == s[0]
    ensures n < 4 && n < |s| ==> s[n] != s[0]
  {
    if |s| < 2 || s[1] != s[0] then 1
    else if |s| < 3 || s[2] != s[0] then 2
    else if |s| < 4 || s[3] != s[0] then 3
    else 4
  }

  /** Four equal bytes are followed by a count; anything else stands for itself. */
  ghost function Decode(s: seq<int>): seq<int> {
    if s == [] then []
    else
      var n := Lead(s);
      if n < 4 || |s| == 4 || s[4] < 0 then Copies(s[0], n) + Decode(s[n..])
      else Copies(s[0], 4 + s[4]) + Decode(s[5..])
  }

  ghost function PackFrom(us: seq<Unit>): seq<int>
    requires Units(us)
  {
    if us == [] then [] else Pack(us[0]) + PackFrom(us[1..])
  }

  ghost function ExpandFrom(us: seq<Unit>): seq<int>
    requires Units(us)
  {
    if us == [] then [] else Copies(us[0].ch, us[0].len) + ExpandFrom(us[1..])
  }

  lemma {:induction false} FromSnoc(us: seq<Unit>, u: Unit)
    requires Units(us) && IsUnit(u)
    ensures Units(us + [u]) && PackFrom(us + [u]) == PackFrom(us) + Pack(u) && ExpandFrom(us + [u]) == ExpandFrom(us) +
            Copies(u.ch, u.len)
  {
    if us == [] {
      assert (us + [u])[1..] == [];
    } else {
      FromSnoc(us[1..], u);
      assert (us + [u])[1..] == us[1..] + [u];
      hide Pack;
    }
  }

  lemma {:induction false} FromAll(us: seq<Unit>)
    requires Units(us)
    ensures PackFrom(us) == PackAll(us) && ExpandFrom(us) == ExpandAll(us)
    decreases |us|
  {
    if us != [] {
      FromAll(us[..|us| - 1]);
      FromSnoc(us[..|us| - 1], us[|us| - 1]);
      assert us == us[..|us| - 1] + [us[|us| - 1]];
    }
  }

  /** The first run is read back, and decoding goes on at the second. */
  lemma {:induction false} LeadUnit(u: Unit, rest: seq<int>)
    requires IsUnit(u) && (u.len < 4 ==> rest == [] || rest[0] != u.ch)
    ensures Decode(Pack(u) + rest) == Copies(u.ch, u.len) + Decode(rest)
  {
    var s := Pack(u) + rest;
    if u.len < 4 {
      assert Lead(s) == u.len && s[u.len..] == rest;
    } else {
      assert Lead(s) == 4 && s[4] == u.len - 4 && s[5..] == rest;
    }
  }

  lemma {:induction false} DecodeFrom(us: seq<Unit>)
    requires Units(us) && Separated(us)
    ensures Decode(PackFrom(us)) == ExpandFrom(us)
  {
    if us != [] {
      var rest := us[1..];
      DecodeFrom(rest);
      if rest != [] {
        assert us[0].ch != us[1].ch || us[0].len == 255;
        assert PackFrom(rest)[0] == us[1].ch;
      }
      LeadUnit(us[0], PackFrom(rest));
    }
  }

  /** Decoding a block gives back the bytes of its runs. */
  lemma {:induction false} DecodePacked(us: seq<Unit>)
    requires Units(us) && Separated(us)
    ensures Decode(PackAll(us)) == ExpandAll(us)
  {
    FromAll(us);
    DecodeFrom(us);
  }

  /** No run of four is cut off before its count. */
  ghost predicate Whole(s: seq<int>) {
    s == [] || if Lead(s) < 4 then Whole(s[Lead(s)..]) else |s| > 4 && s[4] >= 0 && Whole(s[5..])
  }

  lemma {:induction false} UnitWhole(u: Unit, rest: seq<int>)
    requires IsUnit(u) && Whole(rest) && (u.len < 4 ==> rest == [] || rest[0] != u.ch)
    ensures Whole(Pack(u) + rest)
  {
    var s := Pack(u) + rest;
    if u.len < 4 {
      assert Lead(s) == u.len && s[u.len..] == rest;
    } else {
      assert Lead(s) == 4 && s[4] == u.len - 4 && s[5..] == rest;
    }
  }

  lemma {:induction false} WholeFrom(us: seq<Unit>)
    requires Units(us) && Separated(us)
    ensures Whole(PackFrom(us))
  {
    if us != [] {
      var rest := us[1..];
      WholeFrom(rest);
      if rest != [] {
        assert us[0].ch != us[1].ch || us[0].len == 255;
        assert PackFrom(rest)[0] == us[1].ch;
      }
      UnitWhole(us[0], PackFrom(rest));
    }
  }

  lemma {:induction false} PackedBytes(us: seq<Unit>)
    requires Units(us)
    ensures forall i :: 0 <= i < |PackAll(us)| ==> 0 <= PackAll(us)[i] < 256
    decreases |us|
  {
    if us != [] { PackedBytes(us[..|us| - 1]); }
  }

  /** A block the encoder makes is whole. */
  lemma PackedWhole(us: seq<Unit>)
    requires Units(us) && Separated(us)
    ensures Whole(PackAll(us))
  {
    FromAll(us);
    WholeFrom(us);
  }

  /** The run that starts at p, and where the next one starts. */
  lemma {:induction false} RunAt(b: seq<int>, p: nat)
    requires p < |b| && Whole(b[p..])
    ensures var n := Lead(b[p..]); n < 4 ==> p + n <= |b| && Whole(b[p + n..]) && Decode(b[p..]) == Copies(b[p], n) +
                                             Decode(b[p + n..])
    ensures Lead(b[p..]) == 4 ==> p + 5 <= |b| && b[p + 4] >= 0 && Whole(b[p + 5..]) &&
                                  Decode(b[p..]) == Copies(b[p], 4 + b[p + 4]) + Decode(b[p + 5..])
    ensures Lead(b[p..]) == 1 <==> p + 1 == |b| || b[p + 1] != b[p]
    ensures Lead(b[p..]) == 2 <==> p + 1 < |b| && b[p + 1] == b[p] && (p + 2 == |b| || b[p + 2] != b[p])
    ensures Lead(b[p..]) == 3 <==> p + 2 < |b| && b[p + 1] == b[p] == b[p + 2] && (p + 3 == |b| || b[p + 3] != b[p])
  {
    var s := b[p..];
    var n := Lead(s);
    if n < 4 { assert s[n..] == b[p + n..]; } else { assert s[5..] == b[p + 5..]; }
    assert forall i :: 0 <= i < |s| ==> s[i] == b[p + i];
  }

  lemma DecodeSome(s: seq<int>)
    ensures Decode(s) == [] <==> s == []
  {
  }

  /** BZ_INITIALISE_CRC */
  const CRC_START: int := 0xffff_ffff

  /** A running checksum over bytes, one step a byte. */
  ghost function Checksum(step: (int, int) -> int, init: int, s: seq<int>): int {
    if s == [] then init else step(Checksum(step, init, s[..|s| - 1]), s[|s| - 1])
  }

  lemma ChecksumSnoc(step: (int, int) -> int, init: int, s: seq<int>, c: int)
    ensures Checksum(step, init, s + [c]) == step(Checksum(step, init, s), c)
  {
    assert (s + [c])[..|s|] == s;
  }
}
