/** The path formulas against executions of the cut graph: exactness of edge
    conditions, uniqueness of paths, satisfiability.  Executions read every
    value through Run, never through the terms the formulas are built from. */
module PathRuns {
  import opened Bits
  import opened BitVectors
  import opened ValueConstraint
  import opened PathConstraint

  // ---- edge conditions against branching ----

  /** An execution at a block ending in t goes on to b; it goes nowhere when
      the value it branches on has no result. */
  predicate MayGo(t: Terminator, b: nat, rho: Valuation)
    requires TypedTerminator(t)
  {
    match t
    case Br(d) => b == d
    case CondBr(c, y, n) => Run(c, rho).Some? && b == if Run(c, rho) == Some(1) then y else n
    case Switch(c, cs, d) => Run(c, rho).Some? && b == Target(Run(c, rho).value, cs, d)
    case IndirectBr(ds) => b in ds
    case Invoke(n, u) => b == n || b == u
    case Return => false
    case Unhandled(ds) => b in ds
  }

  /** The value the block branches on has a result. */
  predicate Chosen(t: Terminator, rho: Valuation)
    requires TypedTerminator(t)
  {
    && (t.CondBr? ==> Run(t.cond, rho).Some?)
    && (t.Switch? ==> Run(t.on, rho).Some?)
  }

  /** The switch destination: the first case that matches, else the default. */
  function Target(x: int, cs: seq<Case>, d: nat): nat
    requires forall k :: 0 <= k < |cs| ==> cs[k].value.ConstantInt?
  {
    if cs == [] then d else if cs[0].value.bits == x then cs[0].dest else Target(x, cs[1..], d)
  }

  lemma {:induction false} TargetFound(x: int, cs: seq<Case>, d: nat, k: nat)
    requires forall k :: 0 <= k < |cs| ==> cs[k].value.ConstantInt?
    requires forall i, j :: 0 <= i < j < |cs| ==> cs[i].value.bits != cs[j].value.bits
    requires k < |cs| && cs[k].value.bits == x
    ensures Target(x, cs, d) == cs[k].dest
  {
    if k > 0 { TargetFound(x, cs[1..], d, k - 1); }
  }

  lemma {:induction false} TargetDefault(x: int, cs: seq<Case>, d: nat)
    requires forall k :: 0 <= k < |cs| ==> cs[k].value.ConstantInt? && cs[k].value.bits != x
    ensures Target(x, cs, d) == d
  {
    if cs != [] { TargetDefault(x, cs[1..], d); }
  }

  /** Where the value branched on has a result, the edge condition is what the
      branch does, for a successor b, exactly unless both arms of a conditional
      branch lead to b and its condition is false, or the terminator is one that
      EdgeCondition does not know.  Where it has none, no execution goes to b. */
  lemma {:induction false} EdgeExact(t: Terminator, b: nat, rho: Valuation)
    requires TypedTerminator(t) && IsSuccessor(t, b)
    ensures Chosen(t, rho) ==>
              ((EdgeTrue(t, b, rho) <==> MayGo(t, b, rho)) <==>
                 !t.Unhandled? && (t.CondBr? && t.yes == t.no ==> Run(t.cond, rho) == Some(1)))
    ensures !Chosen(t, rho) ==> !MayGo(t, b, rho)
  {
    hide EvalTerm, Get, Target, Run;
    match t {
      case CondBr(c, y, n) => OneBit(c, rho); GetPreserves(c, rho);
      case Switch(c, cs, d) => SwitchExact(c, cs, d, b, rho); GetPreserves(c, rho);
      case _ =>
    }
  }

  lemma {:induction false} SwitchExact(c: Value, cs: seq<Case>, d: nat, b: nat, rho: Valuation)
    requires TypedTerminator(Switch(c, cs, d))
    ensures EdgeTrue(Switch(c, cs, d), b, rho) <==> b == Target(EvalTerm(Get(c), rho), cs, d)
  {
    var x := EvalTerm(Get(c), rho);
    if k :| 0 <= k < |cs| && cs[k].value.bits == x {
      TargetFound(x, cs, d, k);
    } else {
      TargetDefault(x, cs, d);
    }
    hide EvalTerm, Get, Target;
  }

  lemma OneBit(c: Value, rho: Valuation)
    requires c.WellTyped() && c.Width() == 1
    ensures 0 <= EvalTerm(Get(c), rho) < 2
  {
    GetTyped(c, rho);
  }

  /** The edge conditions read the branch right at every valuation. */
  predicate ReadableTerminator(t: Terminator) {
    !t.Unhandled? && (t.CondBr? ==> t.yes != t.no)
  }

  /** A br i1 with equal arms: taken whatever the condition is, but the formula asks for the condition. */
  lemma EqualArmsMissed()
    ensures exists t, b, rho: Valuation ::
              TypedTerminator(t) && IsSuccessor(t, b) && MayGo(t, b, rho) && !EdgeTrue(t, b, rho)
  {
    var t := CondBr(ConstantInt(0, 1), 3, 3);
    var rho: Valuation := n => 0;
    assert ConstantInt(0, 1).WellTyped();
    assert TypedTerminator(t) && IsSuccessor(t, 3) && MayGo(t, 3, rho) && !EdgeTrue(t, 3, rho);
  }

  // ---- paths are unique ----

  /** Blocks that end only in br, switch or ret. */
  ghost predicate Deterministic(f: Graph) {
    forall b :: 0 <= b < |f| ==> ReadableTerminator(f[b].term) && !f[b].term.IndirectBr? && !f[b].term.Invoke?
  }

  /** A branching block has exactly one successor whose edge condition holds. */
  lemma {:induction false} OneSuccessor(t: Terminator, rho: Valuation) returns (s: nat)
    requires TypedTerminator(t) && ReadableTerminator(t) && !t.IndirectBr? && !t.Invoke? && !t.Return?
    ensures IsSuccessor(t, s) && EdgeTrue(t, s, rho)
    ensures forall b: nat :: IsSuccessor(t, b) && EdgeTrue(t, b, rho) ==> b == s
  {
    hide EvalTerm, Get, Target;
    if t.Br? {
      s := t.dest;
    } else if t.CondBr? {
      s := if EvalTerm(Get(t.cond), rho) == 1 then t.yes else t.no;
      OneBit(t.cond, rho);
    } else {
      s := Target(EvalTerm(Get(t.on), rho), t.cases, t.default);
      TargetIsSuccessor(EvalTerm(Get(t.on), rho), t.cases, t.default);
      forall b: nat ensures EdgeTrue(t, b, rho) <==> b == s {
        SwitchExact(t.on, t.cases, t.default, b, rho);
      }
    }
  }

  lemma {:induction false} TargetIsSuccessor(x: int, cs: seq<Case>, d: nat)
    requires forall k :: 0 <= k < |cs| ==> cs[k].value.ConstantInt?
    ensures Target(x, cs, d) == d || exists k :: 0 <= k < |cs| && cs[k].dest == Target(x, cs, d)
  {
    if cs != [] && cs[0].value.bits != x {
      TargetIsSuccessor(x, cs[1..], d);
      var rest := cs[1..];
      if k :| 0 <= k < |rest| && rest[k].dest == Target(x, rest, d) {
        assert cs[k + 1].dest == Target(x, cs, d);
      }
    }
  }

  /** Two satisfied paths under one valuation agree as long as both go on. */
  lemma {:induction false} PathsAgree(f: Graph, back: Edges, rho: Valuation, p: seq<nat>, b: nat, q: seq<nat>, c: nat,
                                      k: nat)
    requires WellFormed(f) && Deterministic(f)
    requires PathTrue(f, back, rho, p, b) && PathTrue(f, back, rho, q, c) && k < |p| && k < |q|
    ensures p[..k + 1] == q[..k + 1]
    decreases k
  {
    if k > 0 {
      PathsAgree(f, back, rho, p, b, q, c, k - 1);
      var from := p[k - 1];
      assert p[..k][k - 1] == q[..k][k - 1];
      assert StepTrue(f, back, rho, from, p[k]) && StepTrue(f, back, rho, from, q[k]);
      assert IsSuccessor(f[from].term, p[k]) && IsSuccessor(f[from].term, q[k]);
      var s := OneSuccessor(f[from].term, rho);
      assert p[..k + 1] == p[..k] + [p[k]] && q[..k + 1] == q[..k] + [q[k]];
    }
  }

  /** Blocks reached under one valuation lie on one path. */
  lemma {:induction false} OnePath(f: Graph, back: Edges, rho: Valuation, b: nat, c: nat)
    requires WellFormed(f) && Deterministic(f) && Reaches(f, back, rho, b) && Reaches(f, back, rho, c)
    ensures exists p, e: nat :: PathTrue(f, back, rho, p, e) && b in p && c in p
  {
    var p :| PathTrue(f, back, rho, p, b);
    var q :| PathTrue(f, back, rho, q, c);
    if |p| <= |q| {
      PathsAgree(f, back, rho, p, b, q, c, |p| - 1);
      assert q[..|p|][|p| - 1] == b && q[|p| - 1] == b;
      assert PathTrue(f, back, rho, q, c) && b in q && c in q;
    } else {
      PathsAgree(f, back, rho, p, b, q, c, |q| - 1);
      assert p[..|q|][|q| - 1] == c && p[|q| - 1] == c;
      assert PathTrue(f, back, rho, p, b) && b in p && c in p;
    }
  }

  // ---- runs ----

  /** Entering b from p gives b's phi nodes the results of their operands, which
      must have one; a skipped operand may give any value, and nothing else changes. */
  ghost predicate Entered(f: Graph, p: nat, b: nat, rho: Valuation, rho': Valuation)
    requires WellFormed(f) && b < |f| && p in f[b].preds
  {
    && (forall id: nat :: !Owns(f[b], id) ==> rho'(id) == rho(id))
    && forall k :: 0 <= k < |f[b].phis| ==> GetsOperand(f[b].phis[k], p, rho, rho')
  }

  predicate GetsOperand(phi: Phi, p: nat, rho: Valuation, rho': Valuation)
    requires p in phi.incoming && (phi.incoming[p].Known? ==> phi.incoming[p].v.WellTyped())
  {
    phi.incoming[p].Known? ==> Run(phi.incoming[p].v, rho) == Some(Wrap(rho'(phi.id), phi.width))
  }

  predicate Owns(b: Block, id: nat) {
    exists k :: 0 <= k < |b.phis| && b.phis[k].id == id
  }

  /** A run of the cut graph: the blocks visited, and the values on entry to each. */
  ghost predicate IsRun(f: Graph, back: Edges, path: seq<nat>, env: seq<Valuation>)
    requires WellFormed(f)
  {
    && |path| == |env| > 0 && path[0] == 0
    && (forall k :: 0 <= k < |path| ==> path[k] < |f|)
    && forall k :: 0 < k < |path| ==> RunStep(f, back, path[k - 1], env[k - 1], path[k], env[k])
  }

  ghost predicate RunStep(f: Graph, back: Edges, p: nat, rho: Valuation, b: nat, rho': Valuation)
    requires WellFormed(f)
  {
    && b < |f| && p in f[b].preds && (p, b) !in back
    && MayGo(f[p].term, b, rho) && Entered(f, p, b, rho, rho')
  }

  // ---- SSA form ----

  function Symbols(v: Value): set<nat> {
    match v
    case ConstantInt(_, _) => {}
    case Binary(_, l, r) => Symbols(l) + Symbols(r)
    case ICmp(_, l, r) => Symbols(l) + Symbols(r)
    case Trunc(s, _) => Symbols(s)
    case ZExt(s, _) => Symbols(s)
    case SExt(s, _) => Symbols(s)
    case Opaque(id, _) => {id}
  }

  lemma {:induction false} SameSymbols(v: Value, rho: Valuation, rho': Valuation)
    requires v.WellTyped() && forall id :: id in Symbols(v) ==> rho(id) == rho'(id)
    ensures Run(v, rho) == Run(v, rho')
  {
    match v {
      case ConstantInt(_, _) =>
      case Binary(_, l, r) => SameSymbols(l, rho, rho'); SameSymbols(r, rho, rho');
      case ICmp(_, l, r) => SameSymbols(l, rho, rho'); SameSymbols(r, rho, rho');
      case Trunc(s, _) => SameSymbols(s, rho, rho');
      case ZExt(s, _) => SameSymbols(s, rho, rho');
      case SExt(s, _) => SameSymbols(s, rho, rho');
      case Opaque(_, _) =>
    }
  }

  ghost predicate CutPath(f: Graph, back: Edges, path: seq<nat>)
  {
    && |path| > 0 && path[0] == 0 && (forall k :: 0 <= k < |path| ==> path[k] < |f|)
    && forall k :: 0 < k < |path| ==> path[k - 1] in f[path[k]].preds && (path[k - 1], path[k]) !in back
  }

  /** Every path from the entry to b visits d. */
  ghost predicate Dominates(f: Graph, back: Edges, d: nat, b: nat) {
    forall path :: CutPath(f, back, path) && path[|path| - 1] == b ==> d in path
  }

  /** v may be used at the end of block b: phi nodes it reads are in blocks that dominate b. */
  ghost predicate Usable(f: Graph, back: Edges, v: Value, b: nat) {
    forall id, d: nat :: id in Symbols(v) && d < |f| && Owns(f[d], id) ==> Dominates(f, back, d, b)
  }

  /** SSA form: one definition per phi, and definitions dominate uses. */
  ghost predicate Ssa(f: Graph, back: Edges)
    requires WellFormed(f)
  {
    && (forall d: nat, e: nat, id: nat :: d < |f| && e < |f| && Owns(f[d], id) && Owns(f[e], id) ==> d == e)
    && (forall b: nat, i, j :: b < |f| && 0 <= i < j < |f[b].phis| ==> f[b].phis[i].id != f[b].phis[j].id)
    && (forall b: nat :: b < |f| && f[b].term.CondBr? ==> Usable(f, back, f[b].term.cond, b))
    && (forall b: nat :: b < |f| && f[b].term.Switch? ==> Usable(f, back, f[b].term.on, b))
    && (forall b: nat, k, p: nat :: b < |f| && 0 <= k < |f[b].phis| && p in f[b].preds ==>
       OperandUsable(f, back, f[b].phis[k], p))
  }

  ghost predicate OperandUsable(f: Graph, back: Edges, phi: Phi, p: nat) {
    p in phi.incoming && phi.incoming[p].Known? ==> Usable(f, back, phi.incoming[p].v, p)
  }

  // ---- from formulas to runs ----

  predicate OperandDefined(phi: Phi, p: nat, rho: Valuation)
    requires p in phi.incoming && (phi.incoming[p].Known? ==> phi.incoming[p].v.WellTyped())
  {
    phi.incoming[p].Known? ==> Run(phi.incoming[p].v, rho).Some?
  }

  /** Everything that going from p to b reads has a result. */
  ghost predicate StepDefined(f: Graph, rho: Valuation, p: nat, b: nat)
    requires WellFormed(f) && b < |f| && p in f[b].preds
  {
    && p < |f| && Chosen(f[p].term, rho)
    && forall k :: 0 <= k < |f[b].phis| ==> OperandDefined(f[b].phis[k], p, rho)
  }

  /** Every branch condition and phi operand along the path has a result. */
  ghost predicate Defined(f: Graph, back: Edges, rho: Valuation, path: seq<nat>)
    requires WellFormed(f) && CutPath(f, back, path)
  {
    forall k :: 0 < k < |path| ==> StepDefined(f, rho, path[k - 1], path[k])
  }

  /** Every terminator is one the edge conditions read right. */
  ghost predicate Readable(f: Graph) {
    forall d :: 0 <= d < |f| ==> ReadableTerminator(f[d].term)
  }

  lemma {:induction false} TruePathCut(f: Graph, back: Edges, rho: Valuation, path: seq<nat>, b: nat)
    requires WellFormed(f) && PathTrue(f, back, rho, path, b)
    ensures CutPath(f, back, path)
  {
    forall k | 0 < k < |path| ensures path[k - 1] in f[path[k]].preds && (path[k - 1], path[k]) !in back {
      assert StepTrue(f, back, rho, path[k - 1], path[k]);
    }
  }

  lemma {:induction false} StepRuns(f: Graph, back: Edges, rho: Valuation, p: nat, b: nat)
    requires WellFormed(f) && Readable(f) && StepTrue(f, back, rho, p, b) && StepDefined(f, rho, p, b)
    ensures RunStep(f, back, p, rho, b, rho)
  {
    hide Run, Get, Target;
    EdgeExact(f[p].term, b, rho);
    forall m | 0 <= m < |f[b].phis| ensures GetsOperand(f[b].phis[m], p, rho, rho) {
      var phi := f[b].phis[m];
      assert PhiTrue(phi, p, rho) && OperandDefined(phi, p, rho);
      if phi.incoming[p].Known? { GetPreserves(phi.incoming[p].v, rho); }
    }
  }

  /** A satisfied path on which everything read has a result is a run in which no value ever changes. */
  lemma {:induction false} PathIsRun(f: Graph, back: Edges, rho: Valuation, path: seq<nat>, b: nat)
    requires WellFormed(f) && Readable(f) && PathTrue(f, back, rho, path, b)
    requires CutPath(f, back, path) && Defined(f, back, rho, path)
    ensures IsRun(f, back, path, seq(|path|, _ => rho))
  {
    var env := seq(|path|, _ => rho);
    hide StepTrue, RunStep, StepDefined;
    forall k | 0 < k < |path| ensures RunStep(f, back, path[k - 1], env[k - 1], path[k], env[k]) {
      StepRuns(f, back, rho, path[k - 1], path[k]);
    }
  }

  /** A run after which something read on the way to c has no result. */
  ghost predicate Stuck(f: Graph, back: Edges, path: seq<nat>, env: seq<Valuation>, c: nat)
    requires WellFormed(f)
  {
    && IsRun(f, back, path, env) && c < |f| && path[|path| - 1] in f[c].preds
    && !StepDefined(f, env[|path| - 1], path[|path| - 1], c)
  }

  lemma {:induction false} FrontRuns(f: Graph, back: Edges, rho: Valuation, path: seq<nat>, b: nat, k: nat)
    requires WellFormed(f) && Readable(f) && PathTrue(f, back, rho, path, b) && CutPath(f, back, path)
    requires 0 < k <= |path| && forall i :: 0 < i < k ==> StepDefined(f, rho, path[i - 1], path[i])
    ensures IsRun(f, back, path[..k], seq(k, _ => rho))
  {
    var front := path[..k];
    hide StepTrue, StepDefined, IsRun;
    assert PathTrue(f, back, rho, front, front[k - 1]);
    assert CutPath(f, back, front);
    assert Defined(f, back, rho, front);
    PathIsRun(f, back, rho, front, front[k - 1]);
  }

  /** What a satisfied path may stand for when it is no run: one of its fronts
      is a run that meets a division or shift without a result. */
  lemma {:induction false} StuckOnTheWay(f: Graph, back: Edges, rho: Valuation, path: seq<nat>, b: nat) returns (k: nat)
    requires WellFormed(f) && Readable(f) && PathTrue(f, back, rho, path, b)
    requires CutPath(f, back, path) && !Defined(f, back, rho, path)
    ensures 0 < k < |path| && Stuck(f, back, path[..k], seq(k, _ => rho), path[k])
  {
    hide StepTrue, StepDefined, PathTrue, IsRun;
    k := 1;
    while k < |path| && StepDefined(f, rho, path[k - 1], path[k])
      invariant 0 < k <= |path| && forall i :: 0 < i < k ==> StepDefined(f, rho, path[i - 1], path[i])
    {
      k := k + 1;
    }
    FrontRuns(f, back, rho, path, b, k);
    assert Stuck(f, back, path[..k], seq(k, _ => rho), path[k]);
  }

  // ---- from runs to formulas ----

  lemma {:induction false} RunPath(f: Graph, back: Edges, path: seq<nat>, env: seq<Valuation>)
    requires WellFormed(f) && IsRun(f, back, path, env)
    ensures CutPath(f, back, path)
  {
    forall k | 0 < k < |path| ensures path[k - 1] in f[path[k]].preds && (path[k - 1], path[k]) !in back {
      assert RunStep(f, back, path[k - 1], env[k - 1], path[k], env[k]);
    }
  }

  lemma {:induction false} RanksGrow(f: Graph, back: Edges, rank: seq<nat>, path: seq<nat>, i: nat, j: nat)
    requires WellFormed(f) && Ranked(f, back, rank) && CutPath(f, back, path) && i < j < |path|
    ensures rank[path[i]] < rank[path[j]]
    decreases j - i
  {
    assert path[j - 1] in f[path[j]].preds && (path[j - 1], path[j]) !in back;
    if i < j - 1 { RanksGrow(f, back, rank, path, i, j - 1); }
  }

  /** A value usable in block path[k] reads the same at every later point of the run. */
  lemma {:induction false} Settled(f: Graph, back: Edges, rank: seq<nat>, path: seq<nat>, env: seq<Valuation>,
                                   v: Value, k: nat, n: nat, id: nat)
    requires WellFormed(f) && Ssa(f, back) && Ranked(f, back, rank) && IsRun(f, back, path, env)
    requires k <= n < |path| && Usable(f, back, v, path[k]) && id in Symbols(v)
    ensures env[n](id) == env[k](id)
    decreases n - k
  {
    if k < n {
      Settled(f, back, rank, path, env, v, k, n - 1, id);
      RunPath(f, back, path, env);
      assert RunStep(f, back, path[n - 1], env[n - 1], path[n], env[n]);
      hide Ranked, CutPath, IsRun, Dominates;
      if Owns(f[path[n]], id) { DominatorEarlier(f, back, rank, path, k, n); }
    }
  }

  /** No block later on a path dominates an earlier one. */
  lemma {:induction false} DominatorEarlier(f: Graph, back: Edges, rank: seq<nat>, path: seq<nat>, k: nat, n: nat)
    requires WellFormed(f) && Ranked(f, back, rank) && CutPath(f, back, path) && k < n < |path|
    ensures !Dominates(f, back, path[n], path[k])
  {
    var front := path[..k + 1];
    assert CutPath(f, back, front) && front[|front| - 1] == path[k];
    if path[n] in front {
      var i :| 0 <= i < |front| && front[i] == path[n];
      RanksGrow(f, back, rank, path, i, n);
    }
  }

  lemma {:induction false} SettledValue(f: Graph, back: Edges, rank: seq<nat>, path: seq<nat>, env: seq<Valuation>,
                                        v: Value, k: nat, n: nat)
    requires WellFormed(f) && Ssa(f, back) && Ranked(f, back, rank) && IsRun(f, back, path, env)
    requires k <= n < |path| && Usable(f, back, v, path[k]) && v.WellTyped()
    ensures Run(v, env[n]) == Run(v, env[k])
  {
    forall id | id in Symbols(v) ensures env[n](id) == env[k](id) {
      Settled(f, back, rank, path, env, v, k, n, id);
    }
    SameSymbols(v, env[n], env[k]);
  }

  /** A phi node keeps the value it got on entry. */
  lemma {:induction false} PhiSettled(f: Graph, back: Edges, rank: seq<nat>, path: seq<nat>, env: seq<Valuation>,
                                      id: nat, k: nat, n: nat)
    requires WellFormed(f) && Ssa(f, back) && Ranked(f, back, rank) && IsRun(f, back, path, env)
    requires k <= n < |path| && Owns(f[path[k]], id)
    ensures env[n](id) == env[k](id)
    decreases n - k
  {
    if k < n {
      PhiSettled(f, back, rank, path, env, id, k, n - 1);
      RunPath(f, back, path, env);
      RanksGrow(f, back, rank, path, k, n);
      assert RunStep(f, back, path[n - 1], env[n - 1], path[n], env[n]);
      assert !Owns(f[path[n]], id);
    }
  }

  /** A branch reads the same value at every later point of the run. */
  lemma {:induction false} BranchSettled(f: Graph, back: Edges, rank: seq<nat>, path: seq<nat>, env: seq<Valuation>,
                                         k: nat, n: nat, c: nat)
    requires WellFormed(f) && Ssa(f, back) && Ranked(f, back, rank) && IsRun(f, back, path, env) && k <= n < |path|
    ensures MayGo(f[path[k]].term, c, env[n]) == MayGo(f[path[k]].term, c, env[k])
    ensures Chosen(f[path[k]].term, env[n]) == Chosen(f[path[k]].term, env[k])
  {
    var t := f[path[k]].term;
    if t.CondBr? { SettledValue(f, back, rank, path, env, t.cond, k, n); }
    if t.Switch? { SettledValue(f, back, rank, path, env, t.on, k, n); }
  }

  /** The values at the end of a run satisfy its path, and give everything read along it a result. */
  lemma {:induction false} RunIsPath(f: Graph, back: Edges, rank: seq<nat>, path: seq<nat>, env: seq<Valuation>)
    requires WellFormed(f) && Ssa(f, back) && Ranked(f, back, rank) && IsRun(f, back, path, env) && Readable(f)
    ensures PathTrue(f, back, env[|path| - 1], path, path[|path| - 1])
    ensures CutPath(f, back, path) && Defined(f, back, env[|path| - 1], path)
  {
    RunPath(f, back, path, env);
    hide Ssa, Ranked, StepTrue, RunStep, StepDefined;
    forall k | 0 < k < |path|
      ensures StepTrue(f, back, env[|path| - 1], path[k - 1], path[k])
      ensures StepDefined(f, env[|path| - 1], path[k - 1], path[k])
    {
      RunStepHolds(f, back, rank, path, env, k);
    }
  }

  lemma {:induction false} RunStepHolds(f: Graph, back: Edges, rank: seq<nat>, path: seq<nat>, env: seq<Valuation>,
                                        k: nat)
    requires WellFormed(f) && Ssa(f, back) && Ranked(f, back, rank) && IsRun(f, back, path, env) && 0 < k < |path|
    requires Readable(f)
    ensures StepTrue(f, back, env[|path| - 1], path[k - 1], path[k])
    ensures StepDefined(f, env[|path| - 1], path[k - 1], path[k])
  {
    var p, b, n := path[k - 1], path[k], |path| - 1;
    assert RunStep(f, back, p, env[k - 1], b, env[k]);
    hide Ssa, Ranked, EvalTerm, Get, Target, Run;
    EdgeExact(f[p].term, b, env[n]);
    BranchSettled(f, back, rank, path, env, k - 1, n, b);
    forall m | 0 <= m < |f[b].phis| ensures PhiTrue(f[b].phis[m], p, env[n]) &&
      OperandDefined(f[b].phis[m], p, env[n]) {
      PhiHolds(f, back, rank, path, env, k, m);
    }
  }

  lemma {:induction false} PhiHolds(f: Graph, back: Edges, rank: seq<nat>, path: seq<nat>, env: seq<Valuation>, k: nat,
                                    m: nat)
    requires WellFormed(f) && Ssa(f, back) && Ranked(f, back, rank) && IsRun(f, back, path, env)
    requires 0 < k < |path| && path[k] < |f| && m < |f[path[k]].phis|
    ensures path[k - 1] in f[path[k]].phis[m].incoming
    ensures f[path[k]].phis[m].incoming[path[k - 1]].Known? ==> f[path[k]].phis[m].incoming[path[k - 1]].v.WellTyped()
    ensures PhiTrue(f[path[k]].phis[m], path[k - 1], env[|path| - 1])
    ensures OperandDefined(f[path[k]].phis[m], path[k - 1], env[|path| - 1])
  {
    var p, b, n := path[k - 1], path[k], |path| - 1;
    var phi := f[b].phis[m];
    assert RunStep(f, back, p, env[k - 1], b, env[k]);
    assert TypedPhi(phi, f[b].preds);
    assert OperandUsable(f, back, phi, p);
    if phi.incoming[p].Known? {
      assert GetsOperand(phi, p, env[k - 1], env[k]);
      assert Owns(f[b], phi.id);
      PhiSettled(f, back, rank, path, env, phi.id, k, n);
      SettledValue(f, back, rank, path, env, phi.incoming[p].v, k - 1, n);
      GetPreserves(phi.incoming[p].v, env[n]);
    }
  }

  // ---- satisfiable exactly when reached ----

  /** A valuation ends a run along a path exactly if it satisfies the path and
      gives every branch condition and phi operand on it a result. */
  lemma {:induction false} EndsRunExactly(f: Graph, back: Edges, rank: seq<nat>, rho: Valuation, path: seq<nat>, b: nat)
    requires WellFormed(f) && Ssa(f, back) && Ranked(f, back, rank) && Readable(f)
    ensures (exists env :: IsRun(f, back, path, env) && path[|path| - 1] == b && env[|path| - 1] == rho) <==>
              PathTrue(f, back, rho, path, b) && CutPath(f, back, path) && Defined(f, back, rho, path)
  {
    if env :| IsRun(f, back, path, env) && path[|path| - 1] == b && env[|path| - 1] == rho {
      RunIsPath(f, back, rank, path, env);
    }
    if PathTrue(f, back, rho, path, b) && CutPath(f, back, path) && Defined(f, back, rho, path) {
      PathIsRun(f, back, rho, path, b);
      var env := seq(|path|, _ => rho);
      assert IsRun(f, back, path, env) && path[|path| - 1] == b && env[|path| - 1] == rho;
    }
  }

  /** No instruction under v can be without a result: a division, remainder or
      shift has a constant on the right for which it always has one. */
  predicate AlwaysDefined(v: Value) {
    match v
    case ConstantInt(_, _) => true
    case Binary(op, l, r) => AlwaysDefined(l) && AlwaysDefined(r) &&
      (Partial(op) ==> r.ConstantInt? && Harmless(op, r.bits, r.width))
    case ICmp(_, l, r) => AlwaysDefined(l) && AlwaysDefined(r)
    case Trunc(s, _) => AlwaysDefined(s)
    case ZExt(s, _) => AlwaysDefined(s)
    case SExt(s, _) => AlwaysDefined(s)
    case Opaque(_, _) => true
  }

  predicate Partial(op: BinaryOp) {
    op.UDiv? || op.URem? || op.SDiv? || op.SRem? || op.Shl? || op.LShr? || op.AShr?
  }

  predicate Harmless(op: BinaryOp, y: int, w: nat) {
    if op.UDiv? || op.URem? then y != 0
    else if op.SDiv? || op.SRem? then y != 0 && y != Mod(w) - 1
    else y < w
  }

  lemma {:induction false} HarmlessComputes(op: BinaryOp, x: int, y: int, w: nat)
    requires w > 0 && Fits(x, w) && Fits(y, w) && (Partial(op) ==> Harmless(op, y, w))
    ensures Compute(op, x, y, w).Some?
  {
    hide TruncDiv, TruncRem, SignedFits, DivisionUndefined, Wrap, And, Or, Xor, Pow2;
    OverflowCase(x, y, w);
  }

  lemma {:induction false} AlwaysRuns(v: Value, rho: Valuation)
    requires v.WellTyped() && AlwaysDefined(v)
    ensures Run(v, rho).Some?
  {
    hide Compute, Harmless, Partial;
    match v {
      case ConstantInt(_, _) =>
      case Binary(op, l, r) =>
        AlwaysRuns(l, rho);
        AlwaysRuns(r, rho);
        HarmlessComputes(op, Run(l, rho).value, Run(r, rho).value, l.Width());
      case ICmp(_, l, r) => AlwaysRuns(l, rho); AlwaysRuns(r, rho);
      case Trunc(s, _) => AlwaysRuns(s, rho);
      case ZExt(s, _) => AlwaysRuns(s, rho);
      case SExt(s, _) => AlwaysRuns(s, rho);
      case Opaque(_, _) =>
    }
  }

  /** Every value the graph branches on or hands to a phi node is always defined. */
  ghost predicate Total(f: Graph) {
    && (forall b :: 0 <= b < |f| ==> TotalTerminator(f[b].term))
    && forall b, k :: 0 <= b < |f| && 0 <= k < |f[b].phis| ==> TotalPhi(f[b].phis[k])
  }

  predicate TotalTerminator(t: Terminator) {
    (t.CondBr? ==> AlwaysDefined(t.cond)) && (t.Switch? ==> AlwaysDefined(t.on))
  }

  predicate TotalPhi(phi: Phi) {
    forall p :: p in phi.incoming && phi.incoming[p].Known? ==> AlwaysDefined(phi.incoming[p].v)
  }

  lemma {:induction false} TotalDefined(f: Graph, back: Edges, rho: Valuation, path: seq<nat>)
    requires WellFormed(f) && Total(f) && CutPath(f, back, path)
    ensures Defined(f, back, rho, path)
  {
    forall k | 0 < k < |path| ensures StepDefined(f, rho, path[k - 1], path[k]) {
      TotalStep(f, rho, path[k - 1], path[k]);
    }
  }

  lemma {:induction false} TotalStep(f: Graph, rho: Valuation, p: nat, b: nat)
    requires WellFormed(f) && Total(f) && b < |f| && p in f[b].preds
    ensures StepDefined(f, rho, p, b)
  {
    var t := f[p].term;
    assert TypedTerminator(t) && TotalTerminator(t);
    if t.CondBr? { AlwaysRuns(t.cond, rho); }
    if t.Switch? { AlwaysRuns(t.on, rho); }
    forall m | 0 <= m < |f[b].phis| ensures OperandDefined(f[b].phis[m], p, rho) {
      var phi := f[b].phis[m];
      assert TypedPhi(phi, f[b].preds) && TotalPhi(phi);
      if phi.incoming[p].Known? { AlwaysRuns(phi.incoming[p].v, rho); }
    }
  }

  /** Some run of the cut graph gets to b. */
  ghost predicate Reached(f: Graph, back: Edges, b: nat)
    requires WellFormed(f)
  {
    exists path, env :: IsRun(f, back, path, env) && path[|path| - 1] == b
  }

  /** Some run of the cut graph meets a value without a result. */
  ghost predicate MeetsUndefined(f: Graph, back: Edges)
    requires WellFormed(f)
  {
    exists path, env, c :: Stuck(f, back, path, env, c)
  }

  /** A block's path formula is satisfiable if a run gets there; if it is
      satisfiable, a run gets there or some run meets an undefined value; and
      where no value can be undefined, it is satisfiable exactly when a run
      gets there. */
  lemma {:induction false} SatisfiableIffReached(f: Graph, back: Edges, rank: seq<nat>, b: nat)
    requires WellFormed(f) && Ssa(f, back) && Ranked(f, back, rank) && b < |f| && Readable(f)
    ensures Reached(f, back, b) ==> exists rho :: Reaches(f, back, rho, b)
    ensures (exists rho :: Reaches(f, back, rho, b)) ==> Reached(f, back, b) || MeetsUndefined(f, back)
    ensures Total(f) ==> ((exists rho :: Reaches(f, back, rho, b)) <==> Reached(f, back, b))
  {
    if rho :| Reaches(f, back, rho, b) { ReachesRuns(f, back, rho, b); }
    if path, env :| IsRun(f, back, path, env) && path[|path| - 1] == b {
      RunIsPath(f, back, rank, path, env);
      assert Reaches(f, back, env[|path| - 1], b);
    }
  }

  /** Some run gets to b and leaves the values as rho has them. */
  ghost predicate EndsWith(f: Graph, back: Edges, b: nat, rho: Valuation)
    requires WellFormed(f)
  {
    exists path, env :: IsRun(f, back, path, env) && path[|path| - 1] == b && env[|path| - 1] == rho
  }

  /** From a satisfying valuation to a run that ends with it. */
  lemma {:induction false} ReachesRuns(f: Graph, back: Edges, rho: Valuation, b: nat)
    requires WellFormed(f) && b < |f| && Readable(f) && Reaches(f, back, rho, b)
    ensures MeetsUndefined(f, back) || EndsWith(f, back, b, rho)
    ensures Total(f) ==> EndsWith(f, back, b, rho)
  {
    var path :| PathTrue(f, back, rho, path, b);
    TruePathCut(f, back, rho, path, b);
    if Total(f) { TotalDefined(f, back, rho, path); }
    if Defined(f, back, rho, path) {
      DefinedEnds(f, back, rho, path, b);
    } else {
      UndefinedMet(f, back, rho, path, b);
    }
    hide *;
  }

  lemma {:induction false} DefinedEnds(f: Graph, back: Edges, rho: Valuation, path: seq<nat>, b: nat)
    requires WellFormed(f) && Readable(f) && PathTrue(f, back, rho, path, b)
    requires CutPath(f, back, path) && Defined(f, back, rho, path)
    ensures EndsWith(f, back, b, rho)
  {
    PathIsRun(f, back, rho, path, b);
    var env := seq(|path|, _ => rho);
    assert IsRun(f, back, path, env) && path[|path| - 1] == b && env[|path| - 1] == rho;
  }

  lemma {:induction false} UndefinedMet(f: Graph, back: Edges, rho: Valuation, path: seq<nat>, b: nat)
    requires WellFormed(f) && Readable(f) && PathTrue(f, back, rho, path, b)
    requires CutPath(f, back, path) && !Defined(f, back, rho, path)
    ensures MeetsUndefined(f, back)
  {
    var k := StuckOnTheWay(f, back, rho, path, b);
    hide PathTrue, CutPath, Defined, Stuck, Readable, WellFormed;
    assert Stuck(f, back, path[..k], seq(k, _ => rho), path[k]);
  }

  /** A run that gets to block b with the check operand computed as true. */
  ghost predicate RunHits(f: Graph, back: Edges, path: seq<nat>, env: seq<Valuation>, b: nat, check: Value)
    requires WellFormed(f) && check.WellTyped()
  {
    IsRun(f, back, path, env) && path[|path| - 1] == b && Run(check, env[|path| - 1]) == Some(1)
  }

  ghost predicate Hit(f: Graph, back: Edges, b: nat, check: Value)
    requires WellFormed(f) && check.WellTyped()
  {
    exists path, env :: RunHits(f, back, path, env, b, check)
  }

  /** A run that gets to block b, where the check operand has no result. */
  ghost predicate CheckUndefined(f: Graph, back: Edges, b: nat, check: Value)
    requires WellFormed(f) && check.WellTyped()
  {
    exists path, env :: IsRun(f, back, path, env) && path[|path| - 1] == b && Run(check, env[|path| - 1]).None?
  }

  /** visitCallInst: the constraint P && V built for a check is satisfiable if
      some run gets to the check with its operand true; if it is satisfiable,
      there is such a run or a run that meets an undefined value; and where none
      can be undefined, it is satisfiable exactly when there is such a run. */
  lemma {:induction false} CheckFailsIffSatisfiable(f: Graph, back: Edges, rank: seq<nat>, b: nat, check: Value,
                                                    p: Formula)
    requires WellFormed(f) && Ssa(f, back) && Ranked(f, back, rank) && b < |f| && Readable(f)
    requires check.WellTyped() && check.Width() == 1
    requires forall rho :: Holds(p, rho) <==> Reaches(f, back, rho, b)
    ensures Hit(f, back, b, check) ==> exists rho :: Holds(Conj(p, Bit2Bool(Get(check))), rho)
    ensures (exists rho :: Holds(Conj(p, Bit2Bool(Get(check))), rho)) ==>
              Hit(f, back, b, check) || CheckUndefined(f, back, b, check) || MeetsUndefined(f, back)
    ensures Total(f) && AlwaysDefined(check) ==>
              ((exists rho :: Holds(Conj(p, Bit2Bool(Get(check))), rho)) <==> Hit(f, back, b, check))
  {
    if rho :| Holds(Conj(p, Bit2Bool(Get(check))), rho) { HitByRun(f, back, b, check, p, rho); }
    if path, env :| RunHits(f, back, path, env, b, check) { HitSatisfies(f, back, rank, path, env, b, check, p); }
  }

  lemma {:induction false} HitSatisfies(f: Graph, back: Edges, rank: seq<nat>, path: seq<nat>, env: seq<Valuation>,
                                        b: nat, check: Value, p: Formula)
    requires WellFormed(f) && Ssa(f, back) && Ranked(f, back, rank) && b < |f| && check.WellTyped() && Readable(f)
    requires RunHits(f, back, path, env, b, check) &&
             (Reaches(f, back, env[|path| - 1], b) ==> Holds(p, env[|path| - 1]))
    ensures exists rho :: Holds(Conj(p, Bit2Bool(Get(check))), rho)
  {
    RunIsPath(f, back, rank, path, env);
    var rho := env[|path| - 1];
    assert Reaches(f, back, rho, b);
    GetPreserves(check, rho);
    assert Holds(Bit2Bool(Get(check)), rho);
    assert Holds(Conj(p, Bit2Bool(Get(check))), rho);
  }

  lemma {:induction false} HitByRun(f: Graph, back: Edges, b: nat, check: Value, p: Formula, rho: Valuation)
    requires WellFormed(f) && b < |f| && check.WellTyped() && check.Width() == 1 && Readable(f)
    requires Holds(Conj(p, Bit2Bool(Get(check))), rho) && Reaches(f, back, rho, b)
    ensures Hit(f, back, b, check) || CheckUndefined(f, back, b, check) || MeetsUndefined(f, back)
    ensures Total(f) && AlwaysDefined(check) ==> Hit(f, back, b, check)
  {
    CheckReads(check, rho);
    ReachesRuns(f, back, rho, b);
    if AlwaysDefined(check) { AlwaysRuns(check, rho); }
    hide *;
    hide Get, EvalTerm, Run, AlwaysDefined, IsRun, Total, MeetsUndefined, Holds;
    if EndsWith(f, back, b, rho) {
      var path, env :| IsRun(f, back, path, env) && path[|path| - 1] == b && env[|path| - 1] == rho;
      if Run(check, rho).Some? {
        assert RunHits(f, back, path, env, b, check);
      } else {
        assert CheckUndefined(f, back, b, check);
      }
    }
  }

  lemma {:induction false} CheckReads(check: Value, rho: Valuation)
    requires check.WellTyped() && check.Width() == 1 && Holds(Bit2Bool(Get(check)), rho)
    ensures Run(check, rho).Some? ==> Run(check, rho) == Some(1)
  {
    hide Get, Run;
    OneBit(check, rho);
    GetPreserves(check, rho);
  }

  // ---- where the formulas promise too much ----

  /** br (icmp eq i8 (udiv i8 7, %x), 255), 1, 2. */
  function QuotientBranch(): (f: Graph)
  {
    var quotient := Binary(UDiv, ConstantInt(7, 8), Opaque(0, 8));
    [Block([], CondBr(ICmp(EQ, quotient, ConstantInt(255, 8)), 1, 2), []), Block([], Return, [0]),
      Block([], Return, [0])]
  }

  lemma QuotientShape(f: Graph)
    requires f == QuotientBranch()
    ensures |f| == 3 && f[0].term.CondBr? && f[0].preds == [] && f[1].preds == [0] && f[2].preds == [0]
    ensures Mod(8) == 256 && f[0].term.cond.WellTyped() && f[0].term.cond.Width() == 1
    ensures f[1].term == Return && f[2].term == Return && f[0].term.yes == 1 && f[0].term.no == 2
    ensures forall b :: 0 <= b < 3 ==> f[b].phis == []
  {
    assert Mod(8) == 256 && Fits(7, 8) && Fits(255, 8);
  }

  lemma QuotientCondition(rho: Valuation)
    ensures QuotientBranch()[0].term.cond.WellTyped()
    ensures Run(QuotientBranch()[0].term.cond, rho) != Some(1)
    ensures rho(0) == 0 ==> EvalTerm(Get(QuotientBranch()[0].term.cond), rho) == 1
  {
    QuotientShape(QuotientBranch());
    var x := Wrap(rho(0), 8);
    if x > 0 { QuotientSmall(7, x); }
  }

  /** At %x = 0 the solver's quotient is 255, so block 1's formula is
      satisfiable; the instruction has no result there, and no run gets to block 1. */
  lemma {:induction false} UndefinedConditionTaken()
    ensures exists f: Graph, rank ::
              && WellFormed(f) && Ssa(f, []) && Ranked(f, [], rank) && Readable(f) && 1 < |f|
              && (exists rho :: Reaches(f, [], rho, 1)) && !Reached(f, [], 1)
  {
    var f, rank: seq<nat> := QuotientBranch(), [0, 1, 1];
    QuotientShape(f);
    var rho: Valuation := n => 0;
    QuotientCondition(rho);
    QuotientGraph(f, rank);
    QuotientReaches(f, rho);
    hide *;
    if Reached(f, [], 1) { QuotientMissed(f); }
  }

  lemma {:induction false} QuotientGraph(f: Graph, rank: seq<nat>)
    requires f == QuotientBranch() && rank == [0, 1, 1]
    ensures WellFormed(f) && Ssa(f, []) && Ranked(f, [], rank) && Readable(f) && 1 < |f|
  {
    QuotientShape(f);
    ThreeBlocks(f, rank);
    hide *;
    NothingOwned(f);
  }

  /** One branch and the two blocks it leads to. */
  lemma {:induction false} ThreeBlocks(f: Graph, rank: seq<nat>)
    requires |f| == 3 && f[0].term.CondBr? && f[0].preds == [] && f[1].preds == [0] && f[2].preds == [0]
    requires f[0].term.cond.WellTyped() && f[0].term.cond.Width() == 1 && f[0].term.yes == 1 && f[0].term.no == 2
    requires f[1].term == Return && f[2].term == Return && forall b :: 0 <= b < 3 ==> f[b].phis == []
    requires rank == [0, 1, 1]
    ensures WellFormed(f) && Ranked(f, [], rank) && Readable(f)
  {
    hide Value.WellTyped, Value.Width, EvalTerm, Get, Run;
    assert forall b :: 0 <= b < 3 ==> TypedTerminator(f[b].term);
  }

  /** With no phi nodes, definitions and uses are in order. */
  lemma {:induction false} NothingOwned(f: Graph)
    requires WellFormed(f) && forall b: nat :: b < |f| ==> f[b].phis == []
    ensures Ssa(f, [])
  {
    assert forall d: nat, id: nat :: d < |f| ==> !Owns(f[d], id);
    hide WellFormed, Dominates;
  }

  lemma {:induction false} QuotientReaches(f: Graph, rho: Valuation)
    requires f == QuotientBranch() && WellFormed(f) && rho(0) == 0
    ensures Reaches(f, [], rho, 1)
  {
    QuotientShape(f);
    QuotientCondition(rho);
    hide QuotientBranch, EvalTerm, Get, WellFormed;
    assert StepTrue(f, [], rho, 0, 1);
    assert PathTrue(f, [], rho, [0, 1], 1);
  }

  lemma {:induction false} QuotientMissed(f: Graph)
    requires f == QuotientBranch() && WellFormed(f)
    ensures !Reached(f, [], 1)
  {
    QuotientShape(f);
    hide QuotientBranch, EvalTerm, Get, Run, WellFormed, Entered;
    if path, env :| IsRun(f, [], path, env) && path[|path| - 1] == 1 {
      var k := |path| - 1;
      assert RunStep(f, [], path[k - 1], env[k - 1], path[k], env[k]);
      assert path[k - 1] == 0;
      QuotientCondition(env[k - 1]);
    }
  }
}
