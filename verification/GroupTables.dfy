/** Choosing coding tables in sendMTFValues: the cost of every group of 50
    symbols under every table, in packed and in plain form, the cheapest table
    of each group, and the tables rebuilt from what each was chosen for. */
module GroupTables {
  import opened Bits
  import opened Counting
  import opened CodeLengths
  import HuffmanCodes
  import HuffmanDepth

  const N_ITERS: int := 4

  /** Tables of code lengths no longer than 20, one length a symbol. */
  ghost predicate Costed(tables: seq<seq<int>>, alphaSize: int) {
    forall t :: 0 <= t < |tables| ==> |tables[t]| == alphaSize && forall v :: 0 <= v < alphaSize ==>
                                      0 <= tables[t][v] <= 20
  }

  ghost predicate Symbols(mtfv: seq<int>, alphaSize: int) {
    forall i :: 0 <= i < |mtfv| ==> 0 <= mtfv[i] < alphaSize
  }

  /** The bits that the symbols take when coded by one table. */
  ghost function Cost(table: seq<int>, syms: seq<int>): int {
    if syms == [] then 0 else Cost(table, syms[..|syms| - 1]) + At(table, syms[|syms| - 1])
  }

  ghost function At(table: seq<int>, v: int): int {
    if 0 <= v < |table| then table[v] else 0
  }

  lemma {:induction false} CostBounds(table: seq<int>, syms: seq<int>)
    requires forall v :: 0 <= v < |table| ==> 0 <= table[v] <= 20
    ensures 0 <= Cost(table, syms) <= 20 * |syms|
  {
    if syms != [] { CostBounds(table, syms[..|syms| - 1]); }
  }

  lemma CostStep(table: seq<int>, s: seq<int>, i: nat)
    requires i < |s|
    ensures Cost(table, s[..i + 1]) == Cost(table, s[..i]) + At(table, s[i])
  {
    assert s[..i + 1][..i] == s[..i];
  }

  // ---- two costs in one word ----

  /** (hi << 16) | lo */
  function PackTwo(lo: nat, hi: nat): nat {
    Or(Shl32(hi, 16), lo)
  }

  lemma {:induction false} PackTwoIs(lo: nat, hi: nat)
    requires lo < 0x1_0000 && hi < 0x1_0000
    ensures PackTwo(lo, hi) == 0x1_0000 * hi + lo
  {
    hide Or, Pow2;
    assert Pow2(16) == 0x1_0000 by { Pow2Values(); }
    OrDisjoint(hi, 16, lo);
  }

  /** Fifty additions of packed lengths never carry from one lane to the other or out of the word. */
  lemma {:induction false} LanesApart(lo: int, hi: int)
    requires 0 <= lo <= 1000 && 0 <= hi <= 1000
    ensures (0x1_0000 * hi + lo) % 0x1_0000_0000 == 0x1_0000 * hi + lo
    ensures And(0x1_0000 * hi + lo, 0xffff) == lo && (0x1_0000 * hi + lo) / 0x1_0000 == hi
  {
    hide And, Pow2;
    assert Pow2(16) == 0x1_0000 by { Pow2Values(); }
    AndLowMask(0x1_0000 * hi + lo, 16);
  }

  /** len_pack: lane pairs of the lengths in two tables. */
  method PackPair(a: seq<int>, b: seq<int>) returns (pack: seq<int>)
    requires |a| == |b| && forall v :: 0 <= v < |a| ==> 0 <= a[v] <= 20 && 0 <= b[v] <= 20
    ensures |pack| == |a| && forall v :: 0 <= v < |a| ==> pack[v] == 0x1_0000 * b[v] + a[v]
  {
    hide PackTwo;
    pack := [];
    for v := 0 to |a|
      invariant |pack| == v && forall k :: 0 <= k < v ==> pack[k] == 0x1_0000 * b[k] + a[k]
    {
      PackTwoIs(a[v], b[v]);
      pack := pack + [PackTwo(a[v], b[v])];
    }
  }

  /** Both costs of 50 symbols at once, in 32-bit arithmetic. */
  method PairCost(pack: seq<int>, syms: seq<int>, ghost a: seq<int>, ghost b: seq<int>) returns (lo: int, hi: int)
    requires |a| == |b| == |pack| && (forall v :: 0 <= v < |a| ==> 0 <= a[v] <= 20 && 0 <= b[v] <= 20)
    requires |syms| == 50 && Symbols(syms, |a|) && forall v :: 0 <= v < |a| ==> pack[v] == 0x1_0000 * b[v] + a[v]
    ensures lo == Cost(a, syms) && hi == Cost(b, syms)
  {
    hide Cost, And;
    var cost := 0;
    CostNone(a, syms);
    CostNone(b, syms);
    for nn := 0 to 50
      invariant cost == 0x1_0000 * Cost(b, syms[..nn]) + Cost(a, syms[..nn])
    {
      CostStep(a, syms, nn);
      CostStep(b, syms, nn);
      CostBounds(a, syms[..nn + 1]);
      CostBounds(b, syms[..nn + 1]);
      LanesApart(Cost(a, syms[..nn + 1]), Cost(b, syms[..nn + 1]));
      cost := (cost + pack[syms[nn]]) % 0x1_0000_0000;
    }
    assert syms[..50] == syms;
    CostBounds(a, syms);
    CostBounds(b, syms);
    LanesApart(Cost(a, syms), Cost(b, syms));
    lo, hi := And(cost, 0xffff), cost / 0x1_0000;
  }

  lemma CostNone(table: seq<int>, syms: seq<int>)
    ensures Cost(table, syms[..0]) == 0
  {
  }

  ghost predicate AreCosts(cost: seq<int>, tables: seq<seq<int>>, syms: seq<int>) {
    |cost| == |tables| && forall t :: 0 <= t < |tables| ==> cost[t] == Cost(tables[t], syms)
  }

  /** The fast track: six tables, fifty symbols. */
  method FastCosts(tables: seq<seq<int>>, syms: seq<int>, alphaSize: int) returns (cost: seq<int>)
    requires |tables| == 6 && |syms| == 50 && Costed(tables, alphaSize) && Symbols(syms, alphaSize) && alphaSize >= 0
    ensures AreCosts(cost, tables, syms)
  {
    hide Cost, Symbols;
    var pack0 := PackPair(tables[0], tables[1]);
    var pack1 := PackPair(tables[2], tables[3]);
    var pack2 := PackPair(tables[4], tables[5]);
    var c0, c1 := PairCost(pack0, syms, tables[0], tables[1]);
    var c2, c3 := PairCost(pack1, syms, tables[2], tables[3]);
    var c4, c5 := PairCost(pack2, syms, tables[4], tables[5]);
    cost := [c0, c1, c2, c3, c4, c5];
  }

  /** The slow loop, in 16-bit sums. */
  method SlowCosts(tables: seq<seq<int>>, syms: seq<int>, alphaSize: int) returns (cost: seq<int>)
    requires |syms| <= 50 && Costed(tables, alphaSize) && Symbols(syms, alphaSize)
    ensures AreCosts(cost, tables, syms)
  {
    hide Cost;
    var sums := new int[|tables|](_ => 0);
    assert forall t :: 0 <= t < |tables| ==> Cost(tables[t], syms[..0]) == 0 by {
      forall t | 0 <= t < |tables| ensures Cost(tables[t], syms[..0]) == 0 { CostNone(tables[t], syms); }
    }
    for i := 0 to |syms|
      invariant forall t :: 0 <= t < |tables| ==> sums[t] == Cost(tables[t], syms[..i])
    {
      var icv := syms[i];
      for t := 0 to |tables|
        invariant forall u :: 0 <= u < |tables| ==> sums[u] == Cost(tables[u], syms[..if u < t then i + 1 else i])
      {
        CostStep(tables[t], syms, i);
        CostBounds(tables[t], syms[..i + 1]);
        sums[t] := (sums[t] + tables[t][icv]) % 0x1_0000;
      }
    }
    assert syms[..|syms|] == syms;
    cost := sums[..];
  }

  /** The first cheapest table. */
  ghost predicate Cheapest(tables: seq<seq<int>>, syms: seq<int>, bt: int) {
    && 0 <= bt < |tables|
    && (forall t :: 0 <= t < |tables| ==> Cost(tables[bt], syms) <= Cost(tables[t], syms))
    && forall t :: 0 <= t < bt ==> Cost(tables[bt], syms) < Cost(tables[t], syms)
  }

  /** The table for one group: the fast track changes nothing about the choice. */
  method ChooseTable(tables: seq<seq<int>>, syms: seq<int>, alphaSize: int) returns (bt: int)
    requires 2 <= |tables| <= 6 && |syms| <= 50 && alphaSize >= 0 && Costed(tables, alphaSize) &&
             Symbols(syms, alphaSize)
    ensures Cheapest(tables, syms, bt)
  {
    hide Cost, Symbols;
    var cost;
    if |tables| == 6 && 50 == |syms| {
      cost := FastCosts(tables, syms, alphaSize);
    } else {
      cost := SlowCosts(tables, syms, alphaSize);
    }
    forall t | 0 <= t < |tables| ensures cost[t] <= 1000 { CostBounds(tables[t], syms); }
    var bc := 999999999;
    bt := -1;
    for t := 0 to |tables|
      invariant t == 0 ==> bt == -1 && bc == 999999999
      invariant t > 0 ==> 0 <= bt < t && bc == cost[bt]
      invariant forall u :: 0 <= u < t ==> bc <= cost[u]
      invariant forall u :: 0 <= u < bt ==> bc < cost[u]
    {
      if cost[t] < bc { bc, bt := cost[t], t; }
    }
  }

  // ---- one pass over the groups ----

  /** Group g of the symbols: fifty of them, or what is left. */
  ghost function Group(mtfv: seq<int>, g: int): seq<int> {
    if 0 <= g && 50 * g <= |mtfv| then mtfv[50 * g..if 50 * g + 50 < |mtfv| then 50 * g + 50 else |mtfv|] else []
  }

  /** The symbols of all groups below k that chose table t. */
  ghost function Chosen(mtfv: seq<int>, sels: seq<int>, t: int, k: nat): seq<int>
    requires k <= |sels|
  {
    if k == 0 then [] else Chosen(mtfv, sels, t, k - 1) + (if sels[k - 1] == t then Group(mtfv, k - 1) else [])
  }

  lemma {:induction false} ChosenSize(mtfv: seq<int>, sels: seq<int>, t: int, k: nat)
    requires k <= |sels| && 50 * (k - 1) < |mtfv|
    ensures |Chosen(mtfv, sels, t, k)| <= |mtfv| && |Chosen(mtfv, sels, t, k)| <= 50 * k
  {
    if k > 0 { ChosenSize(mtfv, sels, t, k - 1); }
  }

  lemma {:induction false} ChosenPrefix(mtfv: seq<int>, sels: seq<int>, b: int, t: int, k: nat)
    requires k <= |sels|
    ensures Chosen(mtfv, sels + [b], t, k) == Chosen(mtfv, sels, t, k)
  {
    if k > 0 { ChosenPrefix(mtfv, sels, b, t, k - 1); }
  }

  /** Each row of rfreq counts the symbols of the groups that chose its table. */
  ghost predicate Counted(rfreq: seq<seq<int>>, mtfv: seq<int>, sels: seq<int>, alphaSize: int) {
    && (forall t :: 0 <= t < |rfreq| ==> |rfreq[t]| == alphaSize)
    && forall t, v :: 0 <= t < |rfreq| && 0 <= v < alphaSize ==> rfreq[t][v] == Count(Chosen(mtfv, sels, t, |sels|), v)
  }

  /** Every group so far is coded by its cheapest table. */
  ghost predicate Selected(tables: seq<seq<int>>, mtfv: seq<int>, sels: seq<int>) {
    forall g :: 0 <= g < |sels| ==> Cheapest(tables, Group(mtfv, g), sels[g])
  }

  lemma {:induction false} CountAppend(s: seq<int>, t: seq<int>, c: int)
    ensures Count(s + t, c) == Count(s, c) + Count(t, c)
  {
    if t == [] {
      assert s + t == s;
    } else {
      CountAppend(s, t[..|t| - 1], c);
      assert (s + t)[..|s + t| - 1] == s + t[..|t| - 1];
    }
  }

  /** rfreq[bt][mtfv[i]]++ over one group. */
  method Tally(row: seq<int>, syms: seq<int>) returns (row': seq<int>)
    requires Symbols(syms, |row|)
    ensures |row'| == |row| && forall v :: 0 <= v < |row| ==> row'[v] == row[v] + Count(syms, v)
  {
    row' := row;
    for i := 0 to |syms|
      invariant |row'| == |row| && forall v :: 0 <= v < |row| ==> row'[v] == row[v] + Count(syms[..i], v)
    {
      forall v | 0 <= v < |row| ensures Count(syms[..i + 1], v) == Count(syms[..i], v) +
        (if syms[i] == v then 1 else 0) {
        CountStep(syms, i, v);
      }
      row' := row'[syms[i] := row'[syms[i]] + 1];
    }
    assert syms[..|syms|] == syms;
  }

  lemma {:induction false} CountedStep(rfreq: seq<seq<int>>, mtfv: seq<int>, sels: seq<int>, alphaSize: int, bt: int,
                                       row: seq<int>)
    requires Counted(rfreq, mtfv, sels, alphaSize) && 0 <= bt < |rfreq| && |row| == alphaSize
    requires forall v :: 0 <= v < alphaSize ==> row[v] == rfreq[bt][v] + Count(Group(mtfv, |sels|), v)
    ensures Counted(rfreq[bt := row], mtfv, sels + [bt], alphaSize)
  {
    var r, s := rfreq[bt := row], sels + [bt];
    forall t, v | 0 <= t < |r| && 0 <= v < alphaSize ensures r[t][v] == Count(Chosen(mtfv, s, t, |s|), v) {
      ChosenPrefix(mtfv, sels, bt, t, |sels|);
      hide Group, Count;
      assert Chosen(mtfv, s, t, |s|) == Chosen(mtfv, sels, t, |sels|) + (if bt == t then Group(mtfv, |sels|) else []);
      hide Chosen;
      if bt == t {
        CountAppend(Chosen(mtfv, sels, t, |sels|), Group(mtfv, |sels|), v);
      } else {
        assert Chosen(mtfv, sels, t, |sels|) + [] == Chosen(mtfv, sels, t, |sels|);
      }
    }
  }

  lemma GroupSymbols(mtfv: seq<int>, alphaSize: int, g: int)
    requires Symbols(mtfv, alphaSize)
    ensures |Group(mtfv, g)| <= 50 && Symbols(Group(mtfv, g), alphaSize)
  {
  }

  lemma SelectedStep(tables: seq<seq<int>>, mtfv: seq<int>, sels: seq<int>, bt: int)
    requires Selected(tables, mtfv, sels) && Cheapest(tables, Group(mtfv, |sels|), bt)
    ensures Selected(tables, mtfv, sels + [bt])
  {
    hide Cheapest, Group;
  }

  lemma CountedStart(rfreq: seq<seq<int>>, mtfv: seq<int>, alphaSize: int)
    requires (forall t :: 0 <= t < |rfreq| ==> |rfreq[t]| == alphaSize) && forall t, v ::
             0 <= t < |rfreq| && 0 <= v < alphaSize ==> rfreq[t][v] == 0
    ensures Counted(rfreq, mtfv, [], alphaSize)
  {
  }

  lemma CountedRow(rfreq: seq<seq<int>>, mtfv: seq<int>, sels: seq<int>, alphaSize: int, bt: int)
    requires Counted(rfreq, mtfv, sels, alphaSize) && 0 <= bt < |rfreq|
    ensures |rfreq[bt]| == alphaSize
  {
  }

  /** One iteration's selectors and frequencies. */
  method SelectTables(tables: seq<seq<int>>, mtfv: seq<int>, alphaSize: int)
      returns (sels: seq<int>, rfreq: seq<seq<int>>)
    requires 2 <= |tables| <= 6 && alphaSize >= 0 && Costed(tables, alphaSize) && Symbols(mtfv, alphaSize)
    ensures Selected(tables, mtfv, sels) && |rfreq| == |tables| && Counted(rfreq, mtfv, sels, alphaSize)
    ensures 50 * (|sels| - 1) < |mtfv| <= 50 * |sels| || (mtfv == [] && sels == [])
  {
    hide *;
    assert HuffmanCodes.G_SIZE == 50 by { GSizeIs(); }
    sels := [];
    rfreq := seq(|tables|, _ => seq(alphaSize, _ => 0));
    CountedStart(rfreq, mtfv, alphaSize);
    SelectedNone(tables, mtfv);
    var gs := 0;
    while true
      invariant Selected(tables, mtfv, sels) && |rfreq| == |tables| && Counted(rfreq, mtfv, sels, alphaSize)
      invariant 0 <= gs <= |mtfv| && (gs == 50 * |sels| || (gs == |mtfv| && 50 * (|sels| - 1) < gs < 50 * |sels|))
      decreases |mtfv| - gs
    {
      if gs >= |mtfv| { break; }
      var ge := gs + HuffmanCodes.G_SIZE - 1;
      if ge >= |mtfv| { ge := |mtfv| - 1; }
      GroupIs(mtfv, |sels|, ge + 1);
      GroupSymbols(mtfv, alphaSize, |sels|);
      var syms := mtfv[gs..ge + 1];
      var bt := ChooseTable(tables, syms, alphaSize);
      CheapestRange(tables, syms, bt);
      CountedRow(rfreq, mtfv, sels, alphaSize, bt);
      var row := Tally(rfreq[bt], syms);
      CountedStep(rfreq, mtfv, sels, alphaSize, bt, row);
      SelectedStep(tables, mtfv, sels, bt);
      rfreq := rfreq[bt := row];
      sels := sels + [bt];
      gs := ge + 1;
    }
  }

  lemma GSizeIs()
    ensures HuffmanCodes.G_SIZE == 50 && N_ITERS == 4
  {
  }

  lemma SelectedNone(tables: seq<seq<int>>, mtfv: seq<int>)
    ensures Selected(tables, mtfv, [])
  {
  }

  lemma GroupIs(mtfv: seq<int>, g: int, e: int)
    requires 0 <= g && 50 * g < |mtfv| && e == if 50 * g + 50 < |mtfv| then 50 * g + 50 else |mtfv|
    ensures Group(mtfv, g) == mtfv[50 * g..e]
  {
  }

  lemma CheapestRange(tables: seq<seq<int>>, syms: seq<int>, bt: int)
    requires Cheapest(tables, syms, bt)
    ensures 0 <= bt < |tables|
  {
  }

  // ---- rebuilding the tables ----

  lemma {:induction false} RowSum(row: seq<int>, s: seq<int>, k: nat)
    requires k <= |row| && forall v :: 0 <= v < |row| ==> row[v] == Count(s, v)
    ensures FreqSum(row[..k]) <= Below(s, k) - Below(s, 0) + k
  {
    if k > 0 {
      RowSum(row, s, k - 1);
      BelowStep(s, k - 1);
      assert row[..k][..k - 1] == row[..k - 1];
    }
  }

  lemma {:induction false} RowBound(rfreq: seq<seq<int>>, mtfv: seq<int>, sels: seq<int>, alphaSize: int, t: int)
    requires Counted(rfreq, mtfv, sels, alphaSize) && 0 <= t < |rfreq| && (50 * (|sels| - 1) < |mtfv| || sels == [])
    ensures |rfreq[t]| == alphaSize && FreqSum(rfreq[t]) <= |mtfv| + alphaSize && forall v :: 0 <= v < alphaSize ==>
            rfreq[t][v] >= 0
  {
    var s := Chosen(mtfv, sels, t, |sels|);
    if sels != [] { ChosenSize(mtfv, sels, t, |sels|); }
    hide Chosen;
    RowSum(rfreq[t], s, alphaSize);
    assert rfreq[t][..alphaSize] == rfreq[t];
  }

  /** Complete codes of length at most 20. */
  ghost predicate AllComplete(tables: seq<seq<int>>, alphaSize: int) {
    forall t :: 0 <= t < |tables| ==> |tables[t]| == alphaSize && Complete(tables[t], 20)
  }

  /** How often each symbol occurs in the groups that chose table t. */
  ghost function Tallies(mtfv: seq<int>, sels: seq<int>, t: int, alphaSize: int): (f: seq<int>)
    requires alphaSize >= 0
    ensures |f| == alphaSize && forall v :: 0 <= v < alphaSize ==> f[v] == Count(Chosen(mtfv, sels, t, |sels|), v)
  {
    seq(alphaSize, v => Count(Chosen(mtfv, sels, t, |sels|), v))
  }

  /** The first tables are those for the symbols of the groups that chose them. */
  ghost predicate Rebuilt(tables: seq<seq<int>>, mtfv: seq<int>, sels: seq<int>, alphaSize: int) {
    alphaSize >= 0 && forall t :: 0 <= t < |tables| ==> LengthsOf(Tallies(mtfv, sels, t, alphaSize), tables[t], 20)
  }

  lemma RebuiltNext(tables: seq<seq<int>>, len: seq<int>, rfreq: seq<seq<int>>, mtfv: seq<int>, sels: seq<int>,
                    alphaSize: int, deep: seq<seq<int>>, last: seq<int>)
    requires Rebuilt(tables, mtfv, sels, alphaSize) && Counted(rfreq, mtfv, sels, alphaSize) && |tables| < |rfreq|
    requires LengthsVia(rfreq[|tables|], len, 20, deep, last)
    ensures Rebuilt(tables + [len], mtfv, sels, alphaSize)
  {
    var t := |tables|;
    hide Count, Chosen;
    assert rfreq[t] == Tallies(mtfv, sels, t, alphaSize);
    hide LengthsVia, Counted;
    assert LengthsOf(Tallies(mtfv, sels, t, alphaSize), len, 20);
    hide LengthsOf, Tallies;
  }

  /** The selectors are those of all groups of the symbols. */
  ghost predicate AllGroups(mtfv: seq<int>, sels: seq<int>) {
    50 * (|sels| - 1) < |mtfv| <= 50 * |sels| || (mtfv == [] && sels == [])
  }

  /** One round: every group chooses its cheapest table, and the tables are made
      anew for the symbols of the groups that chose them. */
  ghost predicate Stage(tables: seq<seq<int>>, tables': seq<seq<int>>, mtfv: seq<int>, sels: seq<int>,
                        alphaSize: int) {
    AllGroups(mtfv, sels) && Selected(tables, mtfv, sels) && |tables'| == |tables| &&
    Rebuilt(tables', mtfv, sels, alphaSize)
  }

  /** From each of the tables to the next in one round, with these choices. */
  ghost predicate Stages(stages: seq<seq<seq<int>>>, choices: seq<seq<int>>, mtfv: seq<int>, alphaSize: int) {
    |stages| == |choices| + 1 &&
    forall k :: 0 <= k < |choices| ==> Stage(stages[k], stages[k + 1], mtfv, choices[k], alphaSize)
  }

  lemma StagesNext(stages: seq<seq<seq<int>>>, choices: seq<seq<int>>, tables: seq<seq<int>>, sels: seq<int>,
                   mtfv: seq<int>, alphaSize: int)
    requires Stages(stages, choices, mtfv, alphaSize) && Stage(stages[|choices|], tables, mtfv, sels, alphaSize)
    ensures Stages(stages + [tables], choices + [sels], mtfv, alphaSize)
  {
    hide Stage;
  }

  lemma CompleteCosted(tables: seq<seq<int>>, alphaSize: int)
    requires AllComplete(tables, alphaSize)
    ensures Costed(tables, alphaSize)
  {
    hide HuffmanCodes.KraftSum;
  }

  lemma CompleteSnoc(tables: seq<seq<int>>, len: seq<int>, alphaSize: int)
    requires AllComplete(tables, alphaSize) && |len| == alphaSize && Complete(len, 20)
    ensures AllComplete(tables + [len], alphaSize)
  {
    hide Complete;
  }

  method RebuildTables(rfreq: seq<seq<int>>, alphaSize: int, ghost mtfv: seq<int>, ghost sels: seq<int>)
      returns (tables: seq<seq<int>>)
    requires 2 <= alphaSize <= 258 && Counted(rfreq, mtfv, sels, alphaSize) &&
             (50 * (|sels| - 1) < |mtfv| || sels == []) && |mtfv| < 0x7f_0000
    ensures |tables| == |rfreq| && AllComplete(tables, alphaSize) && Rebuilt(tables, mtfv, sels, alphaSize)
  {
    hide *;
    tables := [];
    NoTables(mtfv, sels, alphaSize);
    for t := 0 to |rfreq|
      invariant |tables| == t && AllComplete(tables, alphaSize) && Rebuilt(tables, mtfv, sels, alphaSize)
    {
      RowBound(rfreq, mtfv, sels, alphaSize, t);
      HuffmanDepth.RoomyFrom15(|rfreq[t]|, 20);
      var len, deep, parents, kids := MakeCodeLengths(rfreq[t], 20);
      RebuiltNext(tables, len[..], rfreq, mtfv, sels, alphaSize, deep, parents);
      CompleteSnoc(tables, len[..], alphaSize);
      tables := tables + [len[..]];
    }
  }

  lemma NoTables(mtfv: seq<int>, sels: seq<int>, alphaSize: int)
    requires alphaSize >= 0
    ensures AllComplete([], alphaSize) && Rebuilt([], mtfv, sels, alphaSize)
  {
  }

  /** Four rounds of choosing and rebuilding, from any first guess: the selectors are the
      choices of the last round, and every table is a complete code. */
  method ImproveTables(initial: seq<seq<int>>, mtfv: seq<int>, alphaSize: int)
      returns (sels: seq<int>, tables: seq<seq<int>>, ghost stages: seq<seq<seq<int>>>, ghost choices: seq<seq<int>>)
    requires 2 <= |initial| <= 6 && 2 <= alphaSize <= 258 && Costed(initial, alphaSize) && Symbols(mtfv, alphaSize) &&
             |mtfv| < 0x7f_0000
    ensures |tables| == |initial| && AllComplete(tables, alphaSize) &&
            (forall g :: 0 <= g < |sels| ==> 0 <= sels[g] < |tables|)
    ensures 50 * (|sels| - 1) < |mtfv| <= 50 * |sels| || (mtfv == [] && sels == [])
    ensures |stages| == N_ITERS + 1 && stages[0] == initial && stages[N_ITERS] == tables
    ensures Stages(stages, choices, mtfv, alphaSize) && |choices| == N_ITERS && choices[N_ITERS - 1] == sels
  {
    hide *;
    GSizeIs();
    tables := initial;
    sels := [];
    stages, choices := [initial], [];
    NoStages(initial, mtfv, alphaSize);
    for iter := 0 to N_ITERS
      invariant |tables| == |initial| && Costed(tables, alphaSize) && (iter > 0 ==> AllComplete(tables, alphaSize))
      invariant |choices| == iter && |stages| == iter + 1 && stages[0] == initial && stages[iter] == tables
      invariant Stages(stages, choices, mtfv, alphaSize) && (iter > 0 ==> choices[iter - 1] == sels)
    {
      var rfreq;
      ghost var before := tables;
      sels, rfreq := SelectTables(tables, mtfv, alphaSize);
      tables := RebuildTables(rfreq, alphaSize, mtfv, sels);
      CompleteCosted(tables, alphaSize);
      StageIs(before, tables, mtfv, sels, alphaSize);
      StagesNext(stages, choices, tables, sels, mtfv, alphaSize);
      stages, choices := stages + [tables], choices + [sels];
    }
    LastStage(stages, choices, mtfv, alphaSize);
    SelectedRange(stages[N_ITERS - 1], mtfv, sels);
  }

  lemma NoStages(initial: seq<seq<int>>, mtfv: seq<int>, alphaSize: int)
    ensures Stages([initial], [], mtfv, alphaSize)
  {
  }

  lemma StageIs(tables: seq<seq<int>>, tables': seq<seq<int>>, mtfv: seq<int>, sels: seq<int>, alphaSize: int)
    ensures Stage(tables, tables', mtfv, sels, alphaSize) <==>
            (50 * (|sels| - 1) < |mtfv| <= 50 * |sels| || (mtfv == [] && sels == [])) &&
            Selected(tables, mtfv, sels) && |tables'| == |tables| && Rebuilt(tables', mtfv, sels, alphaSize)
  {
    hide Selected, Rebuilt;
  }

  /** The last choices are made from the tables before the last. */
  lemma LastStage(stages: seq<seq<seq<int>>>, choices: seq<seq<int>>, mtfv: seq<int>, alphaSize: int)
    requires Stages(stages, choices, mtfv, alphaSize) && |choices| > 0
    ensures |stages| == |choices| + 1 && |stages[|choices|]| == |stages[|choices| - 1]|
    ensures Selected(stages[|choices| - 1], mtfv, choices[|choices| - 1]) && AllGroups(mtfv, choices[|choices| - 1])
    ensures 50 * (|choices[|choices| - 1]| - 1) < |mtfv| <= 50 * |choices[|choices| - 1]| ||
            (mtfv == [] && choices[|choices| - 1] == [])
  {
    assert Stage(stages[|choices| - 1], stages[|choices|], mtfv, choices[|choices| - 1], alphaSize);
    hide Selected, Rebuilt;
  }

  lemma SelectedRange(tables: seq<seq<int>>, mtfv: seq<int>, sels: seq<int>)
    requires Selected(tables, mtfv, sels)
    ensures forall g :: 0 <= g < |sels| ==> 0 <= sels[g] < |tables|
  {
    forall g | 0 <= g < |sels| ensures 0 <= sels[g] < |tables| { assert Cheapest(tables, Group(mtfv, g), sels[g]); }
  }
}
