/** CheckInsertion: the conditions inserted before divisions and shifts, and
    which instructions get one. */
module Checks {
  import opened Bits
  import opened BitVectors
  import opened ValueConstraint
  import opened PathConstraint
  import opened PathRuns
  import Reachability
  import Counting

  predicate IsDivision(op: BinaryOp) { op.UDiv? || op.URem? || op.SDiv? || op.SRem? }

  predicate IsShift(op: BinaryOp) { op.Shl? || op.LShr? || op.AShr? }

  /** insertDivCheck's condition. */
  function DivCheck(op: BinaryOp, num: Value, den: Value): Value
    requires den.Width() > 0
  {
    var w := den.Width();
    var zero := ICmp(EQ, den, ConstantInt(0, w));
    if op.SDiv? || op.SRem? then
      var negOne := ICmp(EQ, den, ConstantInt(Mod(w) - 1, w));
      var min := ICmp(EQ, num, ConstantInt(Mod(w - 1), w));
      Binary(BitOr, zero, Binary(BitAnd, negOne, min))
    else zero
  }

  /** insertShiftCheck's condition: the constant is the bit width, cut to the type. */
  function ShiftCheck(amount: Value): Value {
    ICmp(UGE, amount, ConstantInt(Wrap(amount.Width(), amount.Width()), amount.Width()))
  }

  /** The bit width is representable in the type itself. */
  lemma {:induction false} WidthFits(w: nat)
    requires w > 0
    ensures w < Mod(w) && Wrap(w, w) == w
  {
    if w > 1 { WidthFits(w - 1); }
    WrapSmall(w, w);
  }

  lemma {:induction false} CheckBit(pred: Predicate, l: Value, r: Value, rho: Valuation)
    requires l.WellTyped() && r.WellTyped() && l.Width() == r.Width()
    ensures EvalTerm(Get(ICmp(pred, l, r)), rho)
         == if Compare(pred, EvalTerm(Get(l), rho), EvalTerm(Get(r), rho), l.Width()) then 1 else 0
  {
    GetTyped(l, rho);
    GetTyped(r, rho);
    CompareMeaning(pred, Get(l), Get(r), rho, l.Width());
    hide Compare, GetICmp;
  }

  lemma {:induction false} ConstantFits(w: nat)
    requires w > 0
    ensures Fits(0, w) && Fits(Mod(w) - 1, w) && Fits(Mod(w - 1), w) && Fits(Wrap(w, w), w)
  {
    ModHalf(w);
    WidthFits(w);
  }

  lemma {:induction false} DivCheckTyped(op: BinaryOp, num: Value, den: Value)
    requires num.WellTyped() && den.WellTyped() && num.Width() == den.Width()
    ensures den.Width() > 0 && DivCheck(op, num, den).WellTyped() && DivCheck(op, num, den).Width() == 1
  {
    PositiveWidth(den);
    var w := den.Width();
    ConstantFits(w);
    hide Mod, Fits;
    ICmpTyped(EQ, den, ConstantInt(0, w));
    ICmpTyped(EQ, den, ConstantInt(Mod(w) - 1, w));
    ICmpTyped(EQ, num, ConstantInt(Mod(w - 1), w));
    BitTyped(BitAnd, ICmp(EQ, den, ConstantInt(Mod(w) - 1, w)), ICmp(EQ, num, ConstantInt(Mod(w - 1), w)));
  }

  lemma ICmpTyped(pred: Predicate, l: Value, r: Value)
    requires l.WellTyped() && r.WellTyped() && l.Width() == r.Width()
    ensures ICmp(pred, l, r).WellTyped() && ICmp(pred, l, r).Width() == 1
  {
  }

  lemma BitTyped(op: BinaryOp, l: Value, r: Value)
    requires l.WellTyped() && r.WellTyped() && l.Width() == r.Width() == 1
    ensures Binary(op, l, r).WellTyped() && Binary(op, l, r).Width() == 1
  {
  }

  lemma PositiveWidth(v: Value)
    requires v.WellTyped()
    ensures v.Width() > 0
  {
    GetTyped(v, n => 0);
  }

  lemma SmallBits(x: nat, y: nat)
    requires x < 2 && y < 2
    ensures Or(x, y) == (if x == 1 || y == 1 then 1 else 0) && And(x, y) == if x == 1 && y == 1 then 1 else 0
  {
    assert Or(0, 0) == 0 && Or(1, 0) == 1 && Or(0, 1) == 1 && Or(1, 1) == 1;
  }

  /** The inserted division check is true exactly when the division is undefined. */
  lemma {:induction false} DivCheckExact(op: BinaryOp, num: Value, den: Value, rho: Valuation)
    requires num.WellTyped() && den.WellTyped() && num.Width() == den.Width() && IsDivision(op)
    ensures den.Width() > 0 && DivCheck(op, num, den).WellTyped()
    ensures Fits(EvalTerm(Get(num), rho), den.Width()) && Fits(EvalTerm(Get(den), rho), den.Width())
    ensures Holds(Bit2Bool(Get(DivCheck(op, num, den))), rho)
       <==> Compute(op, EvalTerm(Get(num), rho), EvalTerm(Get(den), rho), den.Width()).None?
  {
    DivCheckTyped(op, num, den);
    GetTyped(num, rho);
    GetTyped(den, rho);
    var w, x, y := den.Width(), EvalTerm(Get(num), rho), EvalTerm(Get(den), rho);
    DivCheckValue(op, num, den, rho);
    hide EvalTerm, Get, DivCheck, TruncDiv, TruncRem, SignedFits, DivisionUndefined;
    OverflowCase(x, y, w);
  }

  lemma {:induction false} DivCheckValue(op: BinaryOp, num: Value, den: Value, rho: Valuation)
    requires num.WellTyped() && den.WellTyped() && num.Width() == den.Width()
    requires den.Width() > 0 && DivCheck(op, num, den).WellTyped()
    ensures var x, y, w := EvalTerm(Get(num), rho), EvalTerm(Get(den), rho), den.Width();
            Holds(Bit2Bool(Get(DivCheck(op, num, den))), rho) <==>
              y == 0 || ((op.SDiv? || op.SRem?) && y == Mod(w) - 1 && x == Mod(w - 1))
  {
    var w := den.Width();
    ConstantFits(w);
    CheckBit(EQ, den, ConstantInt(0, w), rho);
    if op.SDiv? || op.SRem? {
      var zero, negOne, min := ICmp(EQ, den, ConstantInt(0, w)), ICmp(EQ, den, ConstantInt(Mod(w) - 1, w)),
        ICmp(EQ, num, ConstantInt(Mod(w - 1), w));
      CheckBit(EQ, den, ConstantInt(Mod(w) - 1, w), rho);
      CheckBit(EQ, num, ConstantInt(Mod(w - 1), w), rho);
      JoinedCheck(zero, negOne, min, rho);
    }
  }

  lemma {:induction false} JoinedCheck(a: Value, b: Value, c: Value, rho: Valuation)
    requires a.WellTyped() && b.WellTyped() && c.WellTyped()
    requires EvalTerm(Get(a), rho) in {0, 1} && EvalTerm(Get(b), rho) in {0, 1} && EvalTerm(Get(c), rho) in {0, 1}
    requires Binary(BitOr, a, Binary(BitAnd, b, c)).WellTyped()
    ensures Holds(Bit2Bool(Get(Binary(BitOr, a, Binary(BitAnd, b, c)))), rho) <==>
              EvalTerm(Get(a), rho) == 1 || (EvalTerm(Get(b), rho) == 1 && EvalTerm(Get(c), rho) == 1)
  {
    var x, y, z := EvalTerm(Get(a), rho), EvalTerm(Get(b), rho), EvalTerm(Get(c), rho);
    SmallBits(y, z);
    SmallBits(x, And(y, z));
    assert EvalTerm(Get(Binary(BitAnd, b, c)), rho) == And(y, z);
  }

  /** The inserted shift check is true exactly when the shift is undefined. */
  lemma {:induction false} ShiftCheckExact(op: BinaryOp, lhs: Value, amount: Value, rho: Valuation)
    requires lhs.WellTyped() && amount.WellTyped() && lhs.Width() == amount.Width() && IsShift(op)
    ensures amount.Width() > 0 && ShiftCheck(amount).WellTyped()
    ensures Fits(EvalTerm(Get(lhs), rho), amount.Width()) && Fits(EvalTerm(Get(amount), rho), amount.Width())
    ensures Holds(Bit2Bool(Get(ShiftCheck(amount))), rho)
       <==> Compute(op, EvalTerm(Get(lhs), rho), EvalTerm(Get(amount), rho), amount.Width()).None?
  {
    GetTyped(lhs, rho);
    GetTyped(amount, rho);
    var w := amount.Width();
    WidthFits(w);
    ConstantFits(w);
    hide Signed, Wrap, Fits, And, Or, Xor;
    ICmpTyped(UGE, amount, ConstantInt(w, w));
    CheckBit(UGE, amount, ConstantInt(w, w), rho);
    OneBit(ShiftCheck(amount), rho);
    BitIsOne(Get(ShiftCheck(amount)), rho);
  }

  /** An execution that gets to the instruction finds its operands computed and its result undefined. */
  predicate UndefinedAt(op: BinaryOp, lhs: Value, rhs: Value, rho: Valuation)
    requires lhs.WellTyped() && rhs.WellTyped() && lhs.Width() == rhs.Width()
  {
    Run(lhs, rho).Some? && Run(rhs, rho).Some? && Run(Binary(op, lhs, rhs), rho).None?
  }

  /** Some run gets to block b and finds the instruction undefined there. */
  ghost predicate Fails(f: Graph, back: Edges, b: nat, op: BinaryOp, lhs: Value, rhs: Value)
    requires WellFormed(f) && lhs.WellTyped() && rhs.WellTyped() && lhs.Width() == rhs.Width()
  {
    exists path, env :: FailsOn(f, back, path, env, b, op, lhs, rhs)
  }

  ghost predicate FailsOn(f: Graph, back: Edges, path: seq<nat>, env: seq<Valuation>, b: nat, op: BinaryOp, lhs: Value,
                          rhs: Value)
    requires WellFormed(f) && lhs.WellTyped() && rhs.WellTyped() && lhs.Width() == rhs.Width()
  {
    IsRun(f, back, path, env) && path[|path| - 1] == b && UndefinedAt(op, lhs, rhs, env[|path| - 1])
  }

  /** Where the operands have values, executions compute the check as true exactly when the result is undefined. */
  ghost predicate Guards(check: Value, op: BinaryOp, lhs: Value, rhs: Value)
    requires check.WellTyped() && lhs.WellTyped() && rhs.WellTyped() && lhs.Width() == rhs.Width()
  {
    forall rho :: Run(lhs, rho).Some? && Run(rhs, rho).Some? ==>
                    (Run(check, rho) == Some(1) <==> UndefinedAt(op, lhs, rhs, rho))
  }

  /** From a check that guards an instruction to its query. */
  lemma {:induction false} GuardedQuery(f: Graph, back: Edges, rank: seq<nat>, b: nat, check: Value, op: BinaryOp,
                                        lhs: Value, rhs: Value, p: Formula)
    requires WellFormed(f) && Ssa(f, back) && Ranked(f, back, rank) && b < |f| && Readable(f)
    requires lhs.WellTyped() && rhs.WellTyped() && lhs.Width() == rhs.Width()
    requires check.WellTyped() && check.Width() == 1 && Guards(check, op, lhs, rhs)
    requires forall rho :: Holds(p, rho) <==> Reaches(f, back, rho, b)
    ensures Fails(f, back, b, op, lhs, rhs) ==> exists rho :: Holds(Conj(p, Bit2Bool(Get(check))), rho)
    ensures Total(f) && AlwaysDefined(lhs) && AlwaysDefined(rhs) && AlwaysDefined(check) ==>
              ((exists rho :: Holds(Conj(p, Bit2Bool(Get(check))), rho)) <==> Fails(f, back, b, op, lhs, rhs))
  {
    hide *;
    CheckFailsIffSatisfiable(f, back, rank, b, check, p);
    if Fails(f, back, b, op, lhs, rhs) { FailsHits(f, back, b, check, op, lhs, rhs); }
    if AlwaysDefined(lhs) && AlwaysDefined(rhs) && Hit(f, back, b, check) { HitsFails(f, back, b, check, op, lhs, rhs);
       }
  }

  lemma {:induction false} FailsHits(f: Graph, back: Edges, b: nat, check: Value, op: BinaryOp, lhs: Value, rhs: Value)
    requires WellFormed(f) && lhs.WellTyped() && rhs.WellTyped() && lhs.Width() == rhs.Width()
    requires check.WellTyped() && Guards(check, op, lhs, rhs) && Fails(f, back, b, op, lhs, rhs)
    ensures Hit(f, back, b, check)
  {
    hide WellFormed, Run, RunStep;
    var path, env :| FailsOn(f, back, path, env, b, op, lhs, rhs);
    assert RunHits(f, back, path, env, b, check);
  }

  lemma {:induction false} HitsFails(f: Graph, back: Edges, b: nat, check: Value, op: BinaryOp, lhs: Value, rhs: Value)
    requires WellFormed(f) && lhs.WellTyped() && rhs.WellTyped() && lhs.Width() == rhs.Width()
    requires AlwaysDefined(lhs) && AlwaysDefined(rhs)
    requires check.WellTyped() && Guards(check, op, lhs, rhs) && Hit(f, back, b, check)
    ensures Fails(f, back, b, op, lhs, rhs)
  {
    hide WellFormed, Run, RunStep, AlwaysDefined;
    var path, env :| RunHits(f, back, path, env, b, check);
    var rho := env[|path| - 1];
    AlwaysRuns(lhs, rho);
    AlwaysRuns(rhs, rho);
    assert FailsOn(f, back, path, env, b, op, lhs, rhs);
  }

  /** From an inserted division check to its query.  A run that reaches the
      division with computed operands for which it has no result makes the
      solver's constraint satisfiable; and where no branch condition, phi
      operand or operand of the division can itself be undefined, the constraint
      is satisfiable only if there is such a run. */
  lemma {:induction false} UndefinedDivisionIffSatisfiable(f: Graph, back: Edges, rank: seq<nat>, b: nat, op: BinaryOp,
                                                           num: Value, den: Value, p: Formula)
    requires WellFormed(f) && Ssa(f, back) && Ranked(f, back, rank) && b < |f| && Readable(f)
    requires num.WellTyped() && den.WellTyped() && num.Width() == den.Width() && IsDivision(op)
    requires forall rho :: Holds(p, rho) <==> Reaches(f, back, rho, b)
    ensures den.Width() > 0 && DivCheck(op, num, den).WellTyped()
    ensures Fails(f, back, b, op, num, den) ==>
              exists rho :: Holds(Conj(p, Bit2Bool(Get(DivCheck(op, num, den)))), rho)
    ensures Total(f) && AlwaysDefined(num) && AlwaysDefined(den) ==>
              ((exists rho :: Holds(Conj(p, Bit2Bool(Get(DivCheck(op, num, den)))), rho)) <==>
                 Fails(f, back, b, op, num, den))
  {
    hide *;
    DivCheckTyped(op, num, den);
    DivGuards(op, num, den);
    if AlwaysDefined(num) && AlwaysDefined(den) { DivCheckAlways(op, num, den); }
    GuardedQuery(f, back, rank, b, DivCheck(op, num, den), op, num, den, p);
  }

  /** The same for an inserted shift check and its shift. */
  lemma {:induction false} UndefinedShiftIffSatisfiable(f: Graph, back: Edges, rank: seq<nat>, b: nat, op: BinaryOp,
                                                        lhs: Value, amount: Value, p: Formula)
    requires WellFormed(f) && Ssa(f, back) && Ranked(f, back, rank) && b < |f| && Readable(f)
    requires lhs.WellTyped() && amount.WellTyped() && lhs.Width() == amount.Width() && IsShift(op)
    requires forall rho :: Holds(p, rho) <==> Reaches(f, back, rho, b)
    ensures ShiftCheck(amount).WellTyped()
    ensures Fails(f, back, b, op, lhs, amount) ==>
              exists rho :: Holds(Conj(p, Bit2Bool(Get(ShiftCheck(amount)))), rho)
    ensures Total(f) && AlwaysDefined(lhs) && AlwaysDefined(amount) ==>
              ((exists rho :: Holds(Conj(p, Bit2Bool(Get(ShiftCheck(amount)))), rho)) <==>
                 Fails(f, back, b, op, lhs, amount))
  {
    hide *;
    ShiftCheckTyped(amount);
    ShiftGuards(op, lhs, amount);
    if AlwaysDefined(amount) { ShiftCheckAlways(amount); }
    GuardedQuery(f, back, rank, b, ShiftCheck(amount), op, lhs, amount, p);
  }

  lemma {:induction false} DivGuards(op: BinaryOp, num: Value, den: Value)
    requires num.WellTyped() && den.WellTyped() && num.Width() == den.Width() && IsDivision(op)
    ensures den.Width() > 0 && DivCheck(op, num, den).WellTyped() && Guards(DivCheck(op, num, den), op, num, den)
  {
    DivCheckTyped(op, num, den);
    hide DivCheck, Run, UndefinedAt;
    forall rho | Run(num, rho).Some? && Run(den, rho).Some?
      ensures Run(DivCheck(op, num, den), rho) == Some(1) <==> UndefinedAt(op, num, den, rho)
    {
      HitIsUndefined(op, num, den, rho);
    }
  }

  lemma {:induction false} ShiftGuards(op: BinaryOp, lhs: Value, amount: Value)
    requires lhs.WellTyped() && amount.WellTyped() && lhs.Width() == amount.Width() && IsShift(op)
    ensures ShiftCheck(amount).WellTyped() && Guards(ShiftCheck(amount), op, lhs, amount)
  {
    ShiftCheckTyped(amount);
    hide ShiftCheck, Run, UndefinedAt;
    forall rho | Run(lhs, rho).Some? && Run(amount, rho).Some?
      ensures Run(ShiftCheck(amount), rho) == Some(1) <==> UndefinedAt(op, lhs, amount, rho)
    {
      ShiftHitIsUndefined(op, lhs, amount, rho);
    }
  }

  lemma ShiftCheckTyped(amount: Value)
    requires amount.WellTyped()
    ensures amount.Width() > 0 && ShiftCheck(amount).WellTyped() && ShiftCheck(amount).Width() == 1
  {
    PositiveWidth(amount);
    ConstantFits(amount.Width());
    hide Wrap, Fits;
    ICmpTyped(UGE, amount, ConstantInt(Wrap(amount.Width(), amount.Width()), amount.Width()));
  }

  lemma ShiftCheckAlways(amount: Value)
    requires AlwaysDefined(amount)
    ensures AlwaysDefined(ShiftCheck(amount))
  {
  }

  /** Where the operands have values, the check computes true exactly when the shift has no result. */
  lemma {:induction false} ShiftHitIsUndefined(op: BinaryOp, lhs: Value, amount: Value, rho: Valuation)
    requires lhs.WellTyped() && amount.WellTyped() && lhs.Width() == amount.Width() && IsShift(op)
    requires Run(lhs, rho).Some? && Run(amount, rho).Some?
    ensures amount.Width() > 0 && ShiftCheck(amount).WellTyped()
    ensures Run(ShiftCheck(amount), rho) == Some(1) <==> UndefinedAt(op, lhs, amount, rho)
  {
    ShiftCheckTyped(amount);
    ShiftCheckRuns(amount, rho);
    UndefinedIs(op, lhs, amount, rho);
    hide *;
    ShiftCheckExact(op, lhs, amount, rho);
    GetPreserves(lhs, rho);
    GetPreserves(amount, rho);
    GetPreserves(ShiftCheck(amount), rho);
    OneBit(ShiftCheck(amount), rho);
    BitIsOne(Get(ShiftCheck(amount)), rho);
  }

  lemma ShiftCheckRuns(amount: Value, rho: Valuation)
    requires amount.WellTyped() && ShiftCheck(amount).WellTyped() && Run(amount, rho).Some?
    ensures Run(ShiftCheck(amount), rho).Some?
  {
    hide Compare, Wrap;
  }

  lemma UndefinedIs(op: BinaryOp, lhs: Value, rhs: Value, rho: Valuation)
    requires lhs.WellTyped() && rhs.WellTyped() && lhs.Width() == rhs.Width()
    requires Run(lhs, rho).Some? && Run(rhs, rho).Some?
    ensures rhs.Width() > 0 && Fits(Run(lhs, rho).value, rhs.Width()) && Fits(Run(rhs, rho).value, rhs.Width())
    ensures UndefinedAt(op, lhs, rhs, rho) <==>
              Compute(op, Run(lhs, rho).value, Run(rhs, rho).value, rhs.Width()).None?
  {
    hide Compute, Fits;
  }

  /** Where the operands have values, the check computes true exactly when the division has no result. */
  lemma {:induction false} HitIsUndefined(op: BinaryOp, num: Value, den: Value, rho: Valuation)
    requires num.WellTyped() && den.WellTyped() && num.Width() == den.Width() && IsDivision(op)
    requires Run(num, rho).Some? && Run(den, rho).Some?
    ensures den.Width() > 0 && DivCheck(op, num, den).WellTyped()
    ensures Run(DivCheck(op, num, den), rho) == Some(1) <==> UndefinedAt(op, num, den, rho)
  {
    DivCheckTyped(op, num, den);
    DivCheckRuns(op, num, den, rho);
    UndefinedIs(op, num, den, rho);
    hide *;
    DivCheckExact(op, num, den, rho);
    GetPreserves(num, rho);
    GetPreserves(den, rho);
    GetPreserves(DivCheck(op, num, den), rho);
    OneBit(DivCheck(op, num, den), rho);
    BitIsOne(Get(DivCheck(op, num, den)), rho);
  }

  lemma {:induction false} DivCheckRuns(op: BinaryOp, num: Value, den: Value, rho: Valuation)
    requires num.WellTyped() && den.WellTyped() && num.Width() == den.Width()
    requires Run(num, rho).Some? && Run(den, rho).Some?
    ensures den.Width() > 0 && DivCheck(op, num, den).WellTyped() && Run(DivCheck(op, num, den), rho).Some?
  {
    DivCheckTyped(op, num, den);
    PositiveWidth(den);
    var w := den.Width();
    ConstantFits(w);
    EqualsRuns(den, 0, w, rho);
    EqualsRuns(den, Mod(w) - 1, w, rho);
    EqualsRuns(num, Mod(w - 1), w, rho);
    hide Run, Mod, Fits, Value.WellTyped;
    if op.SDiv? || op.SRem? {
      var zero, negOne, min := ICmp(EQ, den, ConstantInt(0, w)), ICmp(EQ, den, ConstantInt(Mod(w) - 1, w)),
        ICmp(EQ, num, ConstantInt(Mod(w - 1), w));
      BitRuns(BitAnd, negOne, min, rho);
      BitRuns(BitOr, zero, Binary(BitAnd, negOne, min), rho);
    }
  }

  /** Comparing a value that has a result with a constant has one. */
  lemma EqualsRuns(v: Value, bits: int, w: nat, rho: Valuation)
    requires v.WellTyped() && v.Width() == w > 0 && Fits(bits, w) && Run(v, rho).Some?
    ensures ICmp(EQ, v, ConstantInt(bits, w)).WellTyped() && ICmp(EQ, v, ConstantInt(bits, w)).Width() == 1
    ensures Run(ICmp(EQ, v, ConstantInt(bits, w)), rho).Some?
  {
    ICmpRuns(EQ, v, ConstantInt(bits, w), rho);
  }

  lemma ICmpRuns(pred: Predicate, l: Value, r: Value, rho: Valuation)
    requires l.WellTyped() && r.WellTyped() && l.Width() == r.Width() && Run(l, rho).Some? && Run(r, rho).Some?
    ensures Run(ICmp(pred, l, r), rho).Some?
  {
    hide Compare;
  }

  lemma BitRuns(op: BinaryOp, l: Value, r: Value, rho: Valuation)
    requires l.WellTyped() && r.WellTyped() && l.Width() == r.Width() && Run(l, rho).Some? && Run(r, rho).Some?
    requires op.BitAnd? || op.BitOr?
    ensures Binary(op, l, r).WellTyped() && Binary(op, l, r).Width() == l.Width() && Run(Binary(op, l, r), rho).Some?
  {
    hide And, Or;
  }

  lemma {:induction false} DivCheckAlways(op: BinaryOp, num: Value, den: Value)
    requires den.Width() > 0 && AlwaysDefined(num) && AlwaysDefined(den)
    ensures AlwaysDefined(DivCheck(op, num, den))
  {
    var w := den.Width();
    var zero, negOne, min := ICmp(EQ, den, ConstantInt(0, w)), ICmp(EQ, den, ConstantInt(Mod(w) - 1, w)),
      ICmp(EQ, num, ConstantInt(Mod(w - 1), w));
    assert AlwaysDefined(zero) && AlwaysDefined(negOne) && AlwaysDefined(min);
    assert AlwaysDefined(Binary(BitAnd, negOne, min));
  }

  lemma BitIsOne(t: Term, rho: Valuation)
    requires 0 <= EvalTerm(t, rho) < 2
    ensures Holds(Bit2Bool(t), rho) <==> EvalTerm(t, rho) == 1
  {
  }

  // ---- which instructions are checked ----

  /** A directly observable instruction is reached by following users through
      instructions only, the start included. */
  ghost predicate Observable(users: Reachability.Arrows, instr: seq<bool>, direct: seq<bool>, start: nat)
    requires |users| == |instr| == |direct|
  {
    exists path :: UserPath(users, instr, direct, path) && path[0] == start
  }

  /** Only instructions pass their users on; the last one is directly observable. */
  ghost predicate UserPath(users: Reachability.Arrows, instr: seq<bool>, direct: seq<bool>, path: seq<nat>)
    requires |users| == |instr| == |direct|
  {
    && Reachability.IsWalk(users, path) && (forall k :: 0 <= k < |path| ==> instr[path[k]])
    && direct[path[|path| - 1]]
  }

  ghost predicate Exploring(users: Reachability.Arrows, instr: seq<bool>, direct: seq<bool>, start: nat,
                            visited: set<nat>, work: seq<nat>)
    requires |users| == |instr| == |direct|
  {
    && start < |users| && visited <= Reachability.Blocks(|users|)
    && (forall k :: 0 <= k < |work| ==> work[k] < |users|)
    && (start in visited || start in work)
    && (forall v :: v in visited ==> !(instr[v] && direct[v]))
    && (forall v, u :: v in visited && instr[v] && u in users[v] ==> u in visited || u in work)
    && (forall v :: v in visited || v in work ==> FromStart(users, instr, start, v))
  }

  /** A walk through instructions leads from start to v. */
  ghost predicate FromStart(users: Reachability.Arrows, instr: seq<bool>, start: nat, v: nat)
    requires |users| == |instr|
  {
    exists path: seq<nat> :: Reachability.IsWalk(users, path) && path[0] == start && path[|path| - 1] == v
                   && forall k :: 0 <= k < |path| - 1 ==> instr[path[k]]
  }

  lemma {:induction false} ExploredAll(users: Reachability.Arrows, instr: seq<bool>, direct: seq<bool>, start: nat,
                                       visited: set<nat>)
    requires |users| == |instr| == |direct| && Exploring(users, instr, direct, start, visited, [])
    ensures !Observable(users, instr, direct, start)
  {
    if path :| UserPath(users, instr, direct, path) && path[0] == start {
      StaysVisited(users, instr, direct, start, visited, path, |path| - 1);
    }
  }

  lemma {:induction false} StaysVisited(users: Reachability.Arrows, instr: seq<bool>, direct: seq<bool>, start: nat,
                                        visited: set<nat>, path: seq<nat>, k: nat)
    requires |users| == |instr| == |direct| && Exploring(users, instr, direct, start, visited, [])
    requires UserPath(users, instr, direct, path) && path[0] == start && k < |path|
    ensures path[k] in visited
  {
    if k > 0 {
      StaysVisited(users, instr, direct, start, visited, path, k - 1);
      assert path[k] in users[path[k - 1]];
    }
  }

  lemma {:induction false} FoundOne(users: Reachability.Arrows, instr: seq<bool>, direct: seq<bool>, start: nat, v: nat)
    requires |users| == |instr| == |direct| && v < |users| && FromStart(users, instr, start, v) && instr[v] && direct[v]
    ensures Observable(users, instr, direct, start)
  {
    var path: seq<nat> :| Reachability.IsWalk(users, path) && path[0] == start && path[|path| - 1] == v
                && forall k :: 0 <= k < |path| - 1 ==> instr[path[k]];
    assert UserPath(users, instr, direct, path);
  }

  lemma {:induction false} UserFromStart(users: Reachability.Arrows, instr: seq<bool>, start: nat, v: nat, u: nat)
    requires |users| == |instr| && v < |users| && u < |users| && FromStart(users, instr, start, v) && instr[v] &&
             u in users[v]
    ensures FromStart(users, instr, start, u)
  {
    var path: seq<nat> :| Reachability.IsWalk(users, path) && path[0] == start && path[|path| - 1] == v
                && forall k :: 0 <= k < |path| - 1 ==> instr[path[k]];
    assert Reachability.IsWalk(users, path + [u]);
  }

  lemma {:induction false} ExploreUsers(users: Reachability.Arrows, instr: seq<bool>, direct: seq<bool>, start: nat,
                                        visited: set<nat>, work: seq<nat>, v: nat)
    requires |users| == |instr| == |direct| && Reachability.Closed(users) && v !in visited
    requires Exploring(users, instr, direct, start, visited, work + [v]) && !(instr[v] && direct[v])
    ensures Exploring(users, instr, direct, start, visited + {v}, if instr[v] then work + users[v] else work)
  {
    assert (work + [v])[|work|] == v;
    forall u | instr[v] && u in users[v] ensures FromStart(users, instr, start, u) && u < |users| {
      UserFromStart(users, instr, start, v, u);
    }
    hide FromStart;
    var work' := if instr[v] then work + users[v] else work;
    assert forall x :: x in work + [v] <==> x in work || x == v;
    forall x | x in work' ensures FromStart(users, instr, start, x) && x < |users| {
      if x in work { assert x in work + [v]; }
    }
    forall x, u | x in visited + {v} && instr[x] && u in users[x] ensures u in visited + {v} || u in work' {
      if x == v { assert u in work'; } else { assert u in visited || u in work + [v]; }
    }
    forall x | x in visited + {v} ensures FromStart(users, instr, start, x) && !(instr[x] && direct[x]) {
      if x == v { assert v in work + [v]; }
    }
    forall k | 0 <= k < |work'| ensures work'[k] < |users| { assert work'[k] in work'; }
    assert v in Reachability.Blocks(|users|);
    assert start in visited + {v} || start in work' by { assert start in visited || start in work + [v]; }
  }

  /** isObservable: the worklist over users. */
  method IsObservable(users: Reachability.Arrows, instr: seq<bool>, direct: seq<bool>, start: nat) returns (r: bool)
    requires |users| == |instr| == |direct| && Reachability.Closed(users) && start < |users|
    ensures r <==> Observable(users, instr, direct, start)
  {
    var visited: set<nat> := {};
    var work := [start];
    assert FromStart(users, instr, start, start) by { assert Reachability.IsWalk(users, [start]); }
    while work != []
      invariant Exploring(users, instr, direct, start, visited, work)
      decreases |users| - |visited|, |work|
    {
      var v := work[|work| - 1];
      ghost var all := work;
      work := work[..|work| - 1];
      assert all == work + [v];
      if v in visited {
        continue;
      }
      if instr[v] && direct[v] {
        FoundOne(users, instr, direct, start, v);
        return true;
      }
      ExploreUsers(users, instr, direct, start, visited, work, v);
      visited := visited + {v};
      Counting.SubsetSize(visited, Reachability.Blocks(|users|));
      if instr[v] { work := work + users[v]; }
    }
    ExploredAll(users, instr, direct, start, visited);
    r := false;
  }
}
