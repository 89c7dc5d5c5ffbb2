/** PathConstraint: which valuations drive an execution of the cut control-flow
    graph into a block. */
module PathConstraint {
  import opened ValueConstraint

  /** A phi node's operand for one predecessor; undefined operands and operands
      of other than integer, pointer or function type are skipped. */
  datatype Incoming = Skipped | Known(v: Value)

  datatype Phi = Phi(id: nat, width: nat, incoming: map<nat, Incoming>)

  datatype Case = Case(value: Value, dest: nat)

  datatype Terminator =
    | Br(dest: nat)
    | CondBr(cond: Value, yes: nat, no: nat)
    | Switch(on: Value, cases: seq<Case>, default: nat)
    | IndirectBr(dests: seq<nat>)
    | Invoke(normal: nat, unwind: nat)
    | Return
    | Unhandled(targets: seq<nat>)

  /** `preds` lists predecessors as LLVM does: one entry per incoming edge, in any order. */
  datatype Block = Block(phis: seq<Phi>, term: Terminator, preds: seq<nat>)

  /** A function; block 0 is the entry. */
  type Graph = seq<Block>

  type Edges = seq<(nat, nat)>

  predicate IsSuccessor(t: Terminator, b: nat) {
    match t
    case Br(d) => b == d
    case CondBr(_, y, n) => b == y || b == n
    case Switch(_, cs, d) => b == d || exists k :: 0 <= k < |cs| && cs[k].dest == b
    case IndirectBr(ds) => b in ds
    case Invoke(n, u) => b == n || b == u
    case Return => false
    case Unhandled(ds) => b in ds
  }

  // ---- what LLVM's verifier guarantees ----

  predicate TypedTerminator(t: Terminator) {
    match t
    case CondBr(c, _, _) => c.WellTyped() && c.Width() == 1
    case Switch(c, cs, _) =>
      && c.WellTyped()
      && (forall k :: 0 <= k < |cs| ==> cs[k].value.ConstantInt? && cs[k].value.WellTyped() && cs[k].value.Width() ==
                                        c.Width())
      && (forall k, m :: 0 <= k < m < |cs| ==> cs[k].value.bits != cs[m].value.bits)
    case _ => true
  }

  predicate TypedPhi(p: Phi, preds: seq<nat>) {
    && p.width > 0
    && (forall q :: q in preds ==> q in p.incoming)
    && forall q :: q in p.incoming && p.incoming[q].Known? ==>
         p.incoming[q].v.WellTyped() && p.incoming[q].v.Width() == p.width
  }

  ghost predicate WellFormed(f: Graph) {
    && |f| > 0 && f[0].preds == []
    && (forall b :: 0 <= b < |f| ==> TypedTerminator(f[b].term))
    && (forall b, k :: 0 <= b < |f| && 0 <= k < |f[b].phis| ==> TypedPhi(f[b].phis[k], f[b].preds))
    && (forall b, p: nat :: 0 <= b < |f| && p in f[b].preds ==> p < |f|)
    && (forall b: nat, p: nat :: b < |f| && p < |f| ==> (p in f[b].preds <==> IsSuccessor(f[p].term, b)))
  }

  /** Dropping the back edges leaves a graph that rank orders. */
  ghost predicate Ranked(f: Graph, back: Edges, rank: seq<nat>) {
    && |rank| == |f|
    && forall b: nat, p: nat :: b < |f| && p < |f| && p in f[b].preds && (p, b) !in back ==> rank[p] < rank[b]
  }

  // ---- the meaning of the formulas ----

  /** EdgeCondition's meaning: the condition it puts on the edge p -> b. */
  predicate EdgeTrue(t: Terminator, b: nat, rho: Valuation)
    requires TypedTerminator(t)
  {
    match t
    case Br(_) => true
    case IndirectBr(_) => true
    case Invoke(_, _) => true
    case CondBr(c, y, _) => (EvalTerm(Get(c), rho) % 2 == 1) == (y == b)
    case Switch(c, cs, d) =>
      || (exists k :: 0 <= k < |cs| && cs[k].dest == b && EvalTerm(Get(c), rho) == cs[k].value.bits)
      || (d == b && forall k :: 0 <= k < |cs| ==> EvalTerm(Get(c), rho) != cs[k].value.bits)
    case Return => false
    case Unhandled(_) => false
  }

  predicate PhiTrue(p: Phi, from: nat, rho: Valuation)
    requires from in p.incoming && (p.incoming[from].Known? ==> p.incoming[from].v.WellTyped())
  {
    p.incoming[from].Known? ==> EvalTerm(Const(p.id, p.width), rho) == EvalTerm(Get(p.incoming[from].v), rho)
  }

  ghost predicate StepTrue(f: Graph, back: Edges, rho: Valuation, p: nat, b: nat)
    requires WellFormed(f)
  {
    && b < |f| && p in f[b].preds && (p, b) !in back
    && EdgeTrue(f[p].term, b, rho)
    && forall k :: 0 <= k < |f[b].phis| ==> PhiTrue(f[b].phis[k], p, rho)
  }

  /** path runs from the entry to b over kept edges whose conditions and phi equations all hold. */
  ghost predicate PathTrue(f: Graph, back: Edges, rho: Valuation, path: seq<nat>, b: nat)
    requires WellFormed(f)
  {
    && |path| > 0 && path[0] == 0 && path[|path| - 1] == b
    && (forall k :: 0 <= k < |path| ==> path[k] < |f|)
    && forall k :: 0 < k < |path| ==> StepTrue(f, back, rho, path[k - 1], path[k])
  }

  ghost predicate Reaches(f: Graph, back: Edges, rho: Valuation, b: nat)
    requires WellFormed(f)
  {
    exists path :: PathTrue(f, back, rho, path, b)
  }

  lemma {:induction false} ReachesEntry(f: Graph, back: Edges, rho: Valuation)
    requires WellFormed(f)
    ensures Reaches(f, back, rho, 0)
  {
    assert PathTrue(f, back, rho, [0], 0);
  }

  /** Only a predecessor that is reached leads on. */
  lemma {:induction false} ReachesStep(f: Graph, back: Edges, rho: Valuation, b: nat)
    requires WellFormed(f) && 0 < b < |f|
    ensures Reaches(f, back, rho, b) <==> exists p :: StepTrue(f, back, rho, p, b) && Reaches(f, back, rho, p)
  {
    if path :| PathTrue(f, back, rho, path, b) {
      var p := path[|path| - 2];
      assert StepTrue(f, back, rho, p, b);
      assert PathTrue(f, back, rho, path[..|path| - 1], p);
    }
    if p :| StepTrue(f, back, rho, p, b) && Reaches(f, back, rho, p) {
      var path :| PathTrue(f, back, rho, path, p);
      assert PathTrue(f, back, rho, path + [b], b);
    }
  }

  // ---- building the formulas ----

  /** EdgeCondition(BB, Pred). */
  method EdgeCondition(t: Terminator, b: nat) returns (r: Formula)
    requires TypedTerminator(t)
    ensures forall rho :: Holds(r, rho) <==> EdgeTrue(t, b, rho)
  {
    match t {
      case Br(_) => r := BoolVal(true);
      case IndirectBr(_) => r := BoolVal(true);
      case Invoke(_, _) => r := BoolVal(true);
      case CondBr(c, y, _) =>
        var cond := Bit2Bool(Get(c));
        r := if y == b then cond else Not(cond);
      case Switch(c, cs, d) => r := SwitchCondition(c, cs, d, b);
      case Return => r := BoolVal(false);
      case Unhandled(_) => r := BoolVal(false);
    }
  }

  /** One of the first n cases selects b. */
  predicate Selected(x: int, cs: seq<Case>, b: nat, n: nat)
    requires n <= |cs| && forall k :: 0 <= k < |cs| ==> cs[k].value.ConstantInt?
  {
    exists m :: 0 <= m < n && cs[m].dest == b && x == cs[m].value.bits
  }

  predicate Missed(x: int, cs: seq<Case>, n: nat)
    requires n <= |cs| && forall k :: 0 <= k < |cs| ==> cs[k].value.ConstantInt?
  {
    forall m :: 0 <= m < n ==> x != cs[m].value.bits
  }

  lemma CaseEquation(cond: Term, c: Case, rho: Valuation)
    requires c.value.ConstantInt? && c.value.WellTyped()
    ensures Holds(Eq(cond, Get(c.value)), rho) <==> EvalTerm(cond, rho) == c.value.bits
  {
  }

  method SwitchCondition(c: Value, cs: seq<Case>, d: nat, b: nat) returns (r: Formula)
    requires TypedTerminator(Switch(c, cs, d))
    ensures forall rho :: Holds(r, rho) <==> EdgeTrue(Switch(c, cs, d), b, rho)
  {
    var cond := Get(c);
    var nonDefault := BoolVal(false);
    for k := 0 to |cs|
      invariant forall rho :: Holds(nonDefault, rho) <==> Selected(EvalTerm(cond, rho), cs, b, k)
    {
      if cs[k].dest == b {
        var next := Disj(nonDefault, Eq(cond, Get(cs[k].value)));
        forall rho ensures Holds(next, rho) <==> Selected(EvalTerm(cond, rho), cs, b, k + 1) {
          CaseEquation(cond, cs[k], rho);
        }
        nonDefault := next;
      }
    }
    if d != b { return nonDefault; }
    var defaultCase := BoolVal(true);
    for k := 0 to |cs|
      invariant forall rho :: Holds(defaultCase, rho) <==> Missed(EvalTerm(cond, rho), cs, k)
    {
      var next := Conj(defaultCase, Not(Eq(cond, Get(cs[k].value))));
      forall rho ensures Holds(next, rho) <==> Missed(EvalTerm(cond, rho), cs, k + 1) {
        CaseEquation(cond, cs[k], rho);
        assert Holds(Not(Eq(cond, Get(cs[k].value))), rho) == !Holds(Eq(cond, Get(cs[k].value)), rho);
      }
      defaultCase := next;
    }
    r := Disj(nonDefault, defaultCase);
  }

  /** PhiAssignment(BB, Pred). */
  method PhiAssignment(phis: seq<Phi>, from: nat) returns (r: Formula)
    requires forall k :: 0 <= k < |phis| ==> from in phis[k].incoming
    requires forall k :: 0 <= k < |phis| && phis[k].incoming[from].Known? ==> phis[k].incoming[from].v.WellTyped()
    ensures forall rho :: Holds(r, rho) <==> forall k :: 0 <= k < |phis| ==> PhiTrue(phis[k], from, rho)
  {
    r := BoolVal(true);
    for k := 0 to |phis|
      invariant forall rho :: Holds(r, rho) <==> forall m :: 0 <= m < k ==> PhiTrue(phis[m], from, rho)
    {
      var inc := phis[k].incoming[from];
      if inc.Known? {
        r := Conj(r, Eq(Const(phis[k].id, phis[k].width), Get(inc.v)));
      }
    }
  }

  /** Some predecessor among the first n leads into b. */
  ghost predicate Through(f: Graph, back: Edges, rho: Valuation, b: nat, n: nat)
    requires WellFormed(f) && b < |f| && n <= |f[b].preds|
  {
    exists k :: 0 <= k < n && StepTrue(f, back, rho, f[b].preds[k], b) && Reaches(f, back, rho, f[b].preds[k])
  }

  lemma {:induction false} ThroughAll(f: Graph, back: Edges, rho: Valuation, b: nat)
    requires WellFormed(f) && 0 < b < |f|
    ensures Through(f, back, rho, b, |f[b].preds|) <==> Reaches(f, back, rho, b)
  {
    ReachesStep(f, back, rho, b);
    if p :| StepTrue(f, back, rho, p, b) && Reaches(f, back, rho, p) {
      var k :| 0 <= k < |f[b].preds| && f[b].preds[k] == p;
    }
  }

  lemma HoldsJoin(u: Formula, edge: Formula, phi: Formula, pred: Formula, rho: Valuation)
    ensures Holds(Disj(u, Conj(Conj(edge, phi), pred)), rho)
       <==> Holds(u, rho) || (Holds(edge, rho) && Holds(phi, rho) && Holds(pred, rho))
  {
    assert Holds(Conj(Conj(edge, phi), pred), rho) == (Holds(Conj(edge, phi), rho) && Holds(pred, rho));
  }

  /** PathConstraint::Get: true under exactly the valuations that satisfy some path into b. */
  method Path(f: Graph, back: Edges, ghost rank: seq<nat>, b: nat) returns (r: Formula)
    requires WellFormed(f) && Ranked(f, back, rank) && b < |f|
    ensures forall rho :: Holds(r, rho) <==> Reaches(f, back, rho, b)
    decreases rank[b]
  {
    if b == 0 {
      forall rho ensures Reaches(f, back, rho, 0) { ReachesEntry(f, back, rho); }
      return BoolVal(true);
    }
    r := BoolVal(false);
    var preds := f[b].preds;
    for k := 0 to |preds|
      invariant forall rho :: Holds(r, rho) <==> Through(f, back, rho, b, k)
    {
      var p := preds[k];
      assert p in f[b].preds && p < |f|;
      if (p, b) in back {
        continue;
      }
      var edge := EdgeCondition(f[p].term, b);
      var phi := PhiAssignment(f[b].phis, p);
      var pred := Path(f, back, rank, p);
      var next := Disj(r, Conj(Conj(edge, phi), pred));
      forall rho ensures Holds(next, rho) <==> Through(f, back, rho, b, k + 1) {
        HoldsJoin(r, edge, phi, pred, rho);
        assert Holds(edge, rho) && Holds(phi, rho) <==> StepTrue(f, back, rho, p, b);
      }
      r := next;
    }
    forall rho ensures Holds(r, rho) <==> Reaches(f, back, rho, b) { ThroughAll(f, back, rho, b); }
  }
}
