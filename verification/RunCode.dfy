/** Move-to-front with runs of the front entry written as bijective base-2
    numbers, as the encoder writes it and as the decoder reads it. */
module RunCode {
  import opened Bits
  import opened MoveToFront
  import RunLength

  const RUNA: int := 0
  const RUNB: int := 1

  // ---- run lengths ----

  ghost predicate IsRun(ds: seq<int>) {
    forall i :: 0 <= i < |ds| ==> ds[i] == RUNA || ds[i] == RUNB
  }

  ghost function Low(z: nat): int {
    if z % 2 == 1 then RUNB else RUNA
  }

  /** The digits the encoder writes for z more than one. */
  ghost function Digits(z: nat): seq<int> {
    [Low(z)] + (if z < 2 then [] else Digits((z - 2) / 2))
  }

  /** A run of n front entries. */
  ghost function Run(n: nat): seq<int> {
    if n == 0 then [] else Digits(n - 1)
  }

  /** What a string of run digits counts: digit i stands for 2^i or 2^(i+1). */
  ghost function Value(ds: seq<int>): nat {
    if ds == [] then 0 else (if ds[0] == RUNA then 1 else 2) + 2 * Value(ds[1..])
  }

  /** Every run length survives. */
  lemma {:induction false} RunValue(n: nat)
    ensures Value(Run(n)) == n && IsRun(Run(n)) && |Run(n)| <= n
  {
    if n > 0 {
      var z := n - 1;
      var d := Run(n);
      if z < 2 {
        assert d[1..] == [];
      } else {
        RunValue((z - 2) / 2 + 1);
        assert d[1..] == Run((z - 2) / 2 + 1);
      }
    }
  }

  /** And every string of run digits is one the encoder can write. */
  lemma {:induction false} ValueRun(ds: seq<int>)
    requires IsRun(ds)
    ensures Run(Value(ds)) == ds
  {
    if ds != [] {
      ValueRun(ds[1..]);
      var v := Value(ds[1..]);
      var z := Value(ds) - 1;
      assert ds == [ds[0]] + ds[1..];
      assert z == 2 * v + (if ds[0] == RUNA then 0 else 1);
      if v > 0 { assert (z - 2) / 2 == v - 1; }
    }
  }

  lemma {:induction false} ValueSnoc(ds: seq<int>, d: int)
    ensures Value(ds + [d]) == Value(ds) + (if d == RUNA then Pow2(|ds|) else 2 * Pow2(|ds|))
  {
    if ds == [] {
      assert (ds + [d])[1..] == [];
    } else {
      ValueSnoc(ds[1..], d);
      assert (ds + [d])[1..] == ds[1..] + [d];
    }
  }

  // ---- the encoder ----

  /** Where c stands in the list. */
  ghost function Position(s: seq<int>, c: int): (p: nat)
    requires c in s
    ensures p < |s| && s[p] == c && forall i :: 0 <= i < p ==> s[i] != c
  {
    if s[0] == c then 0 else 1 + Position(s[1..], c)
  }

  /** yy[0..nInUse-1], zPend and the symbols written. */
  datatype EncState = EncState(list: seq<int>, pend: nat, out: seq<int>)

  ghost function EncStep(st: EncState, c: int): EncState
    requires c in st.list
  {
    var p := Position(st.list, c);
    if p == 0 then st.(pend := st.pend + 1)
    else EncState(Front(st.list, p), 0, st.out + Run(st.pend) + [p + 1])
  }

  ghost predicate Over(n: nat, cs: seq<int>) {
    forall i :: 0 <= i < |cs| ==> 0 <= cs[i] < n
  }

  function UpTo(n: nat): (s: seq<int>)
    ensures |s| == n && forall i :: 0 <= i < n ==> s[i] == i
  {
    seq(n, i => i)
  }

  ghost predicate Listing(n: nat, s: seq<int>) {
    |s| == n && Distinct(s) && forall x :: x in s <==> 0 <= x < n
  }

  lemma UpToLists(n: nat)
    ensures Listing(n, UpTo(n))
  {
    forall x ensures x in UpTo(n) <==> 0 <= x < n {
      if 0 <= x < n { assert UpTo(n)[x] == x; }
    }
  }

  /** The encoder's state after the characters cs. */
  ghost function Enc(n: nat, cs: seq<int>): (st: EncState)
    requires Over(n, cs)
    ensures Listing(n, st.list)
    decreases |cs|
  {
    if cs == [] then
      UpToLists(n);
      EncState(UpTo(n), 0, [])
    else
      var st := Enc(n, cs[..|cs| - 1]);
      FrontKeepsDistinct(st.list, Position(st.list, cs[|cs| - 1]));
      EncStep(st, cs[|cs| - 1])
  }

  /** All symbols for cs, closed by the end-of-block symbol n+1. */
  ghost function Symbols(n: nat, cs: seq<int>): seq<int>
    requires Over(n, cs)
  {
    Enc(n, cs).out + Run(Enc(n, cs).pend) + [n + 1]
  }

  /** The output never gets ahead of the input: wr + zPend <= i. */
  lemma {:induction false} EncLength(n: nat, cs: seq<int>)
    requires Over(n, cs)
    ensures |Enc(n, cs).out| + Enc(n, cs).pend <= |cs|
    decreases |cs|
  {
    if cs != [] {
      var st := Enc(n, cs[..|cs| - 1]);
      EncLength(n, cs[..|cs| - 1]);
      RunValue(st.pend);
      hide Run, Front, Position;
    }
  }

  /** Character i is the front entry: it repeats the one before, or is the first entry of the fresh list. */
  ghost predicate Hit(cs: seq<int>, i: int)
    requires 0 <= i < |cs|
  {
    cs[i] == if i == 0 then 0 else cs[i - 1]
  }

  /** Two zeros at the start, or three equal neighbours. */
  ghost predicate Shrinks(cs: seq<int>) {
    exists i :: 0 < i < |cs| && Hit(cs, i - 1) && Hit(cs, i)
  }

  lemma ShrinksIs(cs: seq<int>)
    ensures Shrinks(cs) <==> (|cs| >= 2 && cs[0] == cs[1] == 0) || exists i ::
            1 < i < |cs| && cs[i] == cs[i - 1] == cs[i - 2]
  {
    if i :| 0 < i < |cs| && Hit(cs, i - 1) && Hit(cs, i) {
      if i > 1 { assert cs[i] == cs[i - 1] == cs[i - 2]; }
    }
    if |cs| >= 2 && cs[0] == cs[1] == 0 { assert Hit(cs, 1 - 1) && Hit(cs, 1); }
    if i :| 1 < i < |cs| && cs[i] == cs[i - 1] == cs[i - 2] { assert Hit(cs, i - 1) && Hit(cs, i); }
  }

  lemma {:induction false} ShrinksSnoc(cs: seq<int>, c: int)
    ensures Shrinks(cs + [c]) <==> Shrinks(cs) || (cs != [] && Hit(cs, |cs| - 1) && Hit(cs + [c], |cs|))
  {
    var d := cs + [c];
    assert forall i :: 0 <= i < |cs| ==> Hit(d, i) == Hit(cs, i);
    if i :| 0 < i < |cs| && Hit(cs, i - 1) && Hit(cs, i) { assert Hit(d, i - 1) && Hit(d, i); }
    if cs != [] && Hit(cs, |cs| - 1) && Hit(d, |cs|) { assert Hit(d, |cs| - 1); }
  }

  lemma {:induction false} RunShorter(k: nat)
    ensures |Run(k)| <= k && (k >= 2 ==> |Run(k)| < k) && (k == 1 ==> |Run(k)| == 1)
  {
    if k >= 3 { RunShorter((k - 3) / 2 + 1); }
  }

  /** The symbols and the pending run against the characters: they are as many until a run of two front entries. */
  lemma {:induction false} EncCount(n: nat, cs: seq<int>)
    requires Over(n, cs)
    ensures var st := Enc(n, cs); |st.out| + |Run(st.pend)| <= |cs| &&
                                  (|st.out| + |Run(st.pend)| == |cs| <==> !Shrinks(cs))
    ensures Enc(n, cs).pend > 0 <==> cs != [] && Hit(cs, |cs| - 1)
    ensures n > 0 ==> |Enc(n, cs).list| > 0 && Enc(n, cs).list[0] == if cs == [] then 0 else cs[|cs| - 1]
    decreases |cs|
  {
    if cs != [] {
      var f, c := cs[..|cs| - 1], cs[|cs| - 1];
      assert cs == f + [c];
      EncCount(n, f);
      EncLength(n, f);
      var st := Enc(n, f);
      ShrinksSnoc(f, c);
      RunShorter(st.pend + 1);
      CountStep(st, c);
      assert Hit(cs, |f|) <==> c == st.list[0];
      hide Run, Shrinks, Front, Position;
    }
  }

  lemma CountStep(st: EncState, c: int)
    requires c in st.list
    ensures c == st.list[0] ==> EncStep(st, c) == st.(pend := st.pend + 1)
    ensures c != st.list[0] ==> EncStep(st, c).pend == 0 && |EncStep(st, c).out| == |st.out| + |Run(st.pend)| + 1
    ensures |EncStep(st, c).list| > 0 && EncStep(st, c).list[0] == c && Run(0) == []
  {
    var p := Position(st.list, c);
    if p > 0 { FrontAt(st.list, p, 0); }
    hide Front;
  }

  /** There is one symbol more than characters, except exactly when the
      characters start with two zeros or three neighbours are equal. */
  lemma {:induction false} SymbolCount(n: nat, cs: seq<int>)
    requires Over(n, cs)
    ensures |Symbols(n, cs)| <= |cs| + 1
    ensures |Symbols(n, cs)| <= |cs| <==> (|cs| >= 2 && cs[0] == cs[1] == 0) || exists i ::
            1 < i < |cs| && cs[i] == cs[i - 1] == cs[i - 2]
  {
    EncCount(n, cs);
    ShrinksIs(cs);
    hide Enc, Run, Shrinks;
  }

  /** A block of one byte gives two symbols. */
  lemma {:induction false} OneByte(n: nat, c: int)
    requires Over(n, [c])
    ensures |Symbols(n, [c])| == 2
  {
    SymbolCount(n, [c]);
    hide Enc, Run;
  }

  // ---- the decoder ----

  /** The decoder's list, the run read so far (its digits), and the characters stored. */
  datatype DecState = DecState(list: seq<int>, run: seq<int>, out: seq<int>)

  /** The stored characters once the pending run is written out. */
  ghost function Flushed(st: DecState): seq<int> {
    if st.list == [] then [] else st.out + RunLength.Copies(st.list[0], Value(st.run))
  }

  ghost function DecStep(st: DecState, sym: int): (r: DecState)
    requires |st.list| == 256 && 0 <= sym <= 256
    ensures |r.list| == 256
  {
    if sym == RUNA || sym == RUNB then st.(run := st.run + [sym])
    else DecState(Front(st.list, sym - 1), [], Flushed(st) + [st.list[sym - 1]])
  }

  ghost predicate Symbolic(syms: seq<int>) {
    forall i :: 0 <= i < |syms| ==> 0 <= syms[i] <= 256
  }

  ghost function Dec(syms: seq<int>): (st: DecState)
    requires Symbolic(syms)
    ensures |st.list| == 256
  {
    if syms == [] then DecState(UpTo(256), [], [])
    else DecStep(Dec(syms[..|syms| - 1]), syms[|syms| - 1])
  }

  lemma {:induction false} DecRun(syms: seq<int>, ds: seq<int>)
    requires Symbolic(syms) && IsRun(ds) && Dec(syms).run == []
    ensures Symbolic(syms + ds) && Dec(syms + ds) == Dec(syms).(run := ds)
  {
    hide Dec, DecStep;
    if ds == [] {
      assert syms + ds == syms;
    } else {
      var ds', d := ds[..|ds| - 1], ds[|ds| - 1];
      DecRun(syms, ds');
      DecSnoc(syms + ds', d);
      DecDigit(Dec(syms + ds'), d);
      assert syms + ds == syms + ds' + [d] && ds == ds' + [d];
    }
  }

  lemma DecDigit(st: DecState, d: int)
    requires |st.list| == 256 && (d == RUNA || d == RUNB)
    ensures DecStep(st, d) == st.(run := st.run + [d])
  {
  }

  lemma {:induction false} FrontPrefix(s: seq<int>, t: seq<int>, p: nat)
    requires p < |t| <= |s| && s[..|t|] == t
    ensures Front(s, p)[..|t|] == Front(t, p)
  {
    forall i | 0 <= i < |t| ensures Front(s, p)[..|t|][i] == Front(t, p)[i] {
      FrontAt(s, p, i);
      FrontAt(t, p, i);
    }
  }

  /** The decoder of the symbols written so far has the encoder's list, and lacks
      only the pending run of the characters cs. */
  ghost predicate InStep(n: nat, e: EncState, cs: seq<int>) {
    && 1 <= n <= 256 && |e.list| == n && Symbolic(e.out) && (forall i :: 0 <= i < |e.out| ==> e.out[i] <= n)
    && Dec(e.out).list[..n] == e.list && Dec(e.out).run == []
    && cs == Dec(e.out).out + RunLength.Copies(e.list[0], e.pend)
  }

  lemma {:induction false} InStepPend(n: nat, e: EncState, cs: seq<int>)
    requires InStep(n, e, cs)
    ensures InStep(n, e.(pend := e.pend + 1), cs + [e.list[0]])
  {
    assert RunLength.Copies(e.list[0], e.pend + 1) == RunLength.Copies(e.list[0], e.pend) + [e.list[0]];
    hide Dec, Value;
  }

  /** Decoding a run of k and then the symbol of position p. */
  lemma {:induction false} DecMove(out: seq<int>, k: nat, p: nat)
    requires Symbolic(out) && Dec(out).run == [] && 1 <= p < 256
    ensures Symbolic(out + Run(k) + [p + 1])
    ensures var d := Dec(out); Dec(out + Run(k) + [p + 1]) ==
                               DecState(Front(d.list, p), [], d.out + RunLength.Copies(d.list[0], k) + [d.list[p]])
  {
    hide Run, Value, Front, Dec, Symbolic;
    RunValue(k);
    DecRun(out, Run(k));
    DecSnoc(out + Run(k), p + 1);
  }

  lemma DecSnoc(syms: seq<int>, sym: int)
    requires Symbolic(syms) && 0 <= sym <= 256
    ensures Symbolic(syms + [sym]) && Dec(syms + [sym]) == DecStep(Dec(syms), sym)
  {
    assert (syms + [sym])[..|syms|] == syms;
  }

  lemma {:induction false} InStepMove(n: nat, e: EncState, cs: seq<int>, p: nat)
    requires InStep(n, e, cs) && 1 <= p < n
    ensures InStep(n, EncState(Front(e.list, p), 0, e.out + Run(e.pend) + [p + 1]), cs + [e.list[p]])
  {
    var d := Dec(e.out);
    assert d.list[p] == e.list[p] && d.list[0] == e.list[0];
    hide Run, Value, Dec, Front;
    RunValue(e.pend);
    DecMove(e.out, e.pend, p);
    FrontPrefix(d.list, e.list, p);
    assert RunLength.Copies(Front(e.list, p)[0], 0) == [];
  }

  lemma {:induction false} AlwaysInStep(n: nat, cs: seq<int>)
    requires 1 <= n <= 256 && Over(n, cs)
    ensures InStep(n, Enc(n, cs), cs)
    decreases |cs|
  {
    hide *;
    EncCases(n, cs);
    if cs != [] {
      var cs', c := cs[..|cs| - 1], cs[|cs| - 1];
      AlwaysInStep(n, cs');
      StepInStep(n, Enc(n, cs'), cs', c);
      assert cs == cs' + [c];
    }
  }

  lemma EncCases(n: nat, cs: seq<int>)
    requires 1 <= n <= 256 && Over(n, cs)
    ensures cs == [] ==> InStep(n, Enc(n, cs), cs)
    ensures cs != [] ==> Over(n, cs[..|cs| - 1])
    ensures cs != [] ==> var e := Enc(n, cs[..|cs| - 1]); cs[|cs| - 1] in e.list &&
                                                          Enc(n, cs) == EncStep(e, cs[|cs| - 1])
  {
    if cs == [] {
      assert RunLength.Copies(UpTo(n)[0], 0) == [];
    } else {
      assert Listing(n, Enc(n, cs[..|cs| - 1]).list);
    }
  }

  lemma {:induction false} StepInStep(n: nat, e: EncState, cs: seq<int>, c: int)
    requires InStep(n, e, cs) && c in e.list
    ensures InStep(n, EncStep(e, c), cs + [c])
  {
    var p := Position(e.list, c);
    if p == 0 { InStepPend(n, e, cs); } else { InStepMove(n, e, cs, p); }
    hide InStep;
  }

  /** Decoding the symbols up to the end-of-block symbol gives the characters back. */
  lemma {:induction false} RoundTrip(n: nat, cs: seq<int>)
    requires n <= 256 && Over(n, cs)
    ensures var s := Symbols(n, cs); |s| >= 1 && s[|s| - 1] == n + 1 && |s| <= |cs| + 1
    ensures var s := Symbols(n, cs); forall i :: 0 <= i < |s| - 1 ==> 0 <= s[i] <= n
    ensures var s := Symbols(n, cs); Symbolic(s[..|s| - 1]) && Flushed(Dec(s[..|s| - 1])) == cs
  {
    var e := Enc(n, cs);
    var s := Symbols(n, cs);
    assert s == e.out + Run(e.pend) + [n + 1] && s[..|s| - 1] == e.out + Run(e.pend);
    EncLength(n, cs);
    RunValue(e.pend);
    if n > 0 {
      hide *;
      AlwaysInStep(n, cs);
      LastRun(n, e, cs);
    } else {
      assert cs == [];
    }
  }

  /** The pending run closes the decoder's gap. */
  lemma {:induction false} LastRun(n: nat, e: EncState, cs: seq<int>)
    requires InStep(n, e, cs)
    ensures Symbolic(e.out + Run(e.pend)) && Flushed(Dec(e.out + Run(e.pend))) == cs
    ensures forall i :: 0 <= i < |e.out + Run(e.pend)| ==> 0 <= (e.out + Run(e.pend))[i] <= n
  {
    RunValue(e.pend);
    DecRun(e.out, Run(e.pend));
    hide Dec, Run, Value;
  }
}
