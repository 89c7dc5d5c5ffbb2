/** ValueConstraint::Get: SSA integer values become bit-vector terms. */
module ValueConstraint {
  import opened Bits
  import opened BitVectors

  datatype BinaryOp = Add | Sub | Mul | UDiv | SDiv | URem | SRem | Shl | LShr | AShr | BitAnd | BitOr | BitXor

  datatype Predicate = EQ | NE | UGT | UGE | ULT | ULE | SGT | SGE | SLT | SLE

  /** The LLVM values that Get translates structurally.  Opaque stands for every
      value it falls back on a symbol for: arguments, loads, calls, phi nodes. */
  datatype Value =
    | ConstantInt(bits: int, width: nat)
    | Binary(op: BinaryOp, lhs: Value, rhs: Value)
    | ICmp(pred: Predicate, lhs: Value, rhs: Value)
    | Trunc(src: Value, dest: nat)
    | ZExt(src: Value, dest: nat)
    | SExt(src: Value, dest: nat)
    | Opaque(id: nat, width: nat)
  {
    function Width(): nat {
      match this
      case ConstantInt(_, w) => w
      case Binary(_, l, _) => l.Width()
      case ICmp(_, _, _) => 1
      case Trunc(_, d) => d
      case ZExt(_, d) => d
      case SExt(_, d) => d
      case Opaque(_, w) => w
    }

    /** LLVM's typing rules for these instructions. */
    predicate WellTyped() {
      match this
      case ConstantInt(b, w) => w > 0 && Fits(b, w)
      case Binary(_, l, r) => l.WellTyped() && r.WellTyped() && l.Width() == r.Width()
      case ICmp(_, l, r) => l.WellTyped() && r.WellTyped() && l.Width() == r.Width()
      case Trunc(s, d) => s.WellTyped() && 0 < d < s.Width()
      case ZExt(s, d) => s.WellTyped() && s.Width() < d
      case SExt(s, d) => s.WellTyped() && s.Width() < d
      case Opaque(_, w) => w > 0
    }
  }

  datatype CmpOp = Ult | Ule | Ugt | Uge | Slt | Sle | Sgt | Sge

  datatype TermOp = BvAdd | BvSub | BvMul | Udiv | Sdiv | Urem | Srem | BvShift(left: bool,
    arith: bool) | BvAnd | BvOr | BvXor

  /** Z3 terms of bit-vector sort, and Z3 formulas. */
  datatype Term =
    | Num(v: int, w: nat)
    | Const(name: nat, w: nat)
    | App(op: TermOp, l: Term, r: Term)
    | Extract(hi: nat, arg: Term)
    | ZeroExt(extra: nat, arg: Term)
    | SignExt(extra: nat, arg: Term)
    | Ite(cond: Formula, thn: Term, els: Term)
  {
    function Sort(): nat {
      match this
      case Num(_, w) => w
      case Const(_, w) => w
      case App(_, l, _) => l.Sort()
      case Extract(hi, _) => hi + 1
      case ZeroExt(i, a) => a.Sort() + i
      case SignExt(i, a) => a.Sort() + i
      case Ite(_, t, _) => t.Sort()
    }
  }

  datatype Formula =
    | BoolVal(b: bool)
    | Eq(l: Term, r: Term)
    | Cmp(cmp: CmpOp, l: Term, r: Term)
    | Bit2Bool(t: Term)
    | Not(f: Formula)
    | Conj(f: Formula, g: Formula)
    | Disj(f: Formula, g: Formula)

  type Valuation = nat -> int

  function ApplyTerm(op: TermOp, x: int, y: int, w: nat): int
    requires x >= 0 && y >= 0
  {
    match op
    case BvAdd => Wrap(x + y, w)
    case BvSub => Wrap(x - y, w)
    case BvMul => Wrap(x * y, w)
    case Udiv => BvUdiv(x, y, w)
    case Sdiv => BvSdiv(x, y, w)
    case Urem => BvUrem(x, y)
    case Srem => BvSrem(x, y, w)
    case BvShift(left, arith) => if left then BvShl(x, y, w) else if arith then BvAshr(x, y, w) else BvLshr(x, y)
    case BvAnd => And(x, y)
    case BvOr => Or(x, y)
    case BvXor => Xor(x, y)
  }

  predicate ApplyCmp(cmp: CmpOp, x: int, y: int, w: nat) {
    match cmp
    case Ult => x < y
    case Ule => x <= y
    case Ugt => y < x
    case Uge => y <= x
    case Slt => BvSlt(x, y, w)
    case Sle => !BvSlt(y, x, w)
    case Sgt => BvSlt(y, x, w)
    case Sge => !BvSlt(x, y, w)
  }

  function NonNegative(x: int): (y: nat) { if x < 0 then 0 else x }

  /** The value of a term in the bit-vector theory. */
  function EvalTerm(t: Term, rho: Valuation): int {
    match t
    case Num(v, _) => v
    case Const(n, w) => Wrap(rho(n), w)
    case App(op, l, r) => ApplyTerm(op, NonNegative(EvalTerm(l, rho)), NonNegative(EvalTerm(r, rho)), l.Sort())
    case Extract(hi, a) => Wrap(EvalTerm(a, rho), hi + 1)
    case ZeroExt(_, a) => EvalTerm(a, rho)
    case SignExt(i, a) => BvSext(EvalTerm(a, rho), a.Sort(), a.Sort() + i)
    case Ite(c, x, y) => if Holds(c, rho) then EvalTerm(x, rho) else EvalTerm(y, rho)
  }

  predicate Holds(f: Formula, rho: Valuation) {
    match f
    case BoolVal(b) => b
    case Eq(l, r) => EvalTerm(l, rho) == EvalTerm(r, rho)
    case Cmp(c, l, r) => ApplyCmp(c, EvalTerm(l, rho), EvalTerm(r, rho), l.Sort())
    case Bit2Bool(t) => EvalTerm(t, rho) % 2 == 1
    case Not(g) => !Holds(g, rho)
    case Conj(g, h) => Holds(g, rho) && Holds(h, rho)
    case Disj(g, h) => Holds(g, rho) || Holds(h, rho)
  }

  // ---- the translation ----

  function GetOp(op: BinaryOp): TermOp {
    match op
    case Add => BvAdd
    case Sub => BvSub
    case Mul => BvMul
    case UDiv => Udiv
    case SDiv => Sdiv
    case URem => Urem
    case SRem => Srem
    case Shl => BvShift(true, false)
    case LShr => BvShift(false, false)
    case AShr => BvShift(false, true)
    case BitAnd => BvAnd
    case BitOr => BvOr
    case BitXor => BvXor
  }

  function GetICmp(pred: Predicate, l: Term, r: Term): Formula {
    match pred
    case EQ => Eq(l, r)
    case NE => Not(Eq(l, r))
    case UGT => Cmp(Ugt, l, r)
    case UGE => Cmp(Uge, l, r)
    case ULT => Cmp(Ult, l, r)
    case ULE => Cmp(Ule, l, r)
    case SGT => Cmp(Sgt, l, r)
    case SGE => Cmp(Sge, l, r)
    case SLT => Cmp(Slt, l, r)
    case SLE => Cmp(Sle, l, r)
  }

  function Bool2BV(f: Formula): Term {
    Ite(f, Num(1, 1), Num(0, 1))
  }

  function Get(v: Value): Term
    requires v.WellTyped()
  {
    match v
    case ConstantInt(b, w) => Num(b, w)
    case Binary(op, l, r) => App(GetOp(op), Get(l), Get(r))
    case ICmp(p, l, r) => Bool2BV(GetICmp(p, Get(l), Get(r)))
    case Trunc(s, d) => Extract(d - 1, Get(s))
    case ZExt(s, d) => ZeroExt(d - s.Width(), Get(s))
    case SExt(s, d) => SignExt(d - s.Width(), Get(s))
    case Opaque(id, w) => Const(id, w)
  }

  // ---- what the instructions compute ----

  datatype Option<T> = None | Some(value: T)

  /** The result of an LLVM instruction, or None where it is undefined or poison. */
  function Compute(op: BinaryOp, x: int, y: int, w: nat): Option<int>
    requires w > 0 && Fits(x, w) && Fits(y, w)
  {
    match op
    case Add => Some(Wrap(Signed(x, w) + Signed(y, w), w))
    case Sub => Some(Wrap(Signed(x, w) - Signed(y, w), w))
    case Mul => Some(Wrap(Signed(x, w) * Signed(y, w), w))
    case UDiv => if y == 0 then None else Some(x / y)
    case URem => if y == 0 then None else Some(x % y)
    case SDiv => if DivisionUndefined(x, y, w) then None else Some(Wrap(TruncDiv(Signed(x, w), Signed(y, w)), w))
    case SRem => if DivisionUndefined(x, y, w) then None else Some(Wrap(TruncRem(Signed(x, w), Signed(y, w)), w))
    case Shl => if y >= w then None else Some(Wrap(Signed(x, w) * Pow2(y), w))
    case LShr => if y >= w then None else Some(x / Pow2(y))
    case AShr => if y >= w then None else Some(Wrap(Signed(x, w) / Pow2(y), w))
    case BitAnd => Some(Digitwise(op, x, y, w))
    case BitOr => Some(Digitwise(op, x, y, w))
    case BitXor => Some(Digitwise(op, x, y, w))
  }

  /** What a bitwise operator makes of two digits. */
  predicate Digit(op: BinaryOp, a: bool, b: bool) {
    if op.BitAnd? then a && b else if op.BitOr? then a || b else a != b
  }

  /** The number below 2^w whose digits are made from those of x and y, one by one. */
  function Digitwise(op: BinaryOp, x: nat, y: nat, w: nat): nat {
    if w == 0 then 0
    else Digitwise(op, x, y, w - 1) + (if Digit(op, Bit(x, w - 1), Bit(y, w - 1)) then Pow2(w - 1) else 0)
  }

  /** Division by zero, or a signed quotient that does not fit in w bits. */
  predicate DivisionUndefined(x: int, y: int, w: nat)
    requires w > 0 && Fits(x, w) && Fits(y, w)
  {
    Signed(y, w) == 0 || !SignedFits(TruncDiv(Signed(x, w), Signed(y, w)), w)
  }

  /** The only signed quotient that overflows is the least value over -1. */
  lemma {:induction false} OverflowCase(x: int, y: int, w: nat)
    requires w > 0 && Fits(x, w) && Fits(y, w)
    ensures DivisionUndefined(x, y, w) <==> y == 0 || (y == Mod(w) - 1 && x == Mod(w - 1))
  {
    ModHalf(w);
    var a, b, h := Signed(x, w), Signed(y, w), Mod(w - 1);
    if y != 0 {
      QuotientSmall(Abs(a), Abs(b));
      if Abs(b) >= 2 { HalfQuotient(Abs(a), Abs(b)); } else { DivModUnique(Abs(a), 1, Abs(a), 0); }
    }
  }

  lemma {:induction false} HalfQuotient(a: int, b: int)
    requires a >= 0 && b >= 2
    ensures 2 * (a / b) <= a
  {
    var q := a / b;
    assert a >= q * b && q >= 0;
    assert q * b == 2 * q + q * (b - 2);
  }

  predicate Compare(pred: Predicate, x: int, y: int, w: nat) {
    match pred
    case EQ => x == y
    case NE => x != y
    case UGT => x > y
    case UGE => x >= y
    case ULT => x < y
    case ULE => x <= y
    case SGT => Signed(x, w) > Signed(y, w)
    case SGE => Signed(x, w) >= Signed(y, w)
    case SLT => Signed(x, w) < Signed(y, w)
    case SLE => Signed(x, w) <= Signed(y, w)
  }

  /** The value an execution computes, given what the opaque values are. */
  function Run(v: Value, rho: Valuation): (r: Option<int>)
    requires v.WellTyped()
    ensures r.Some? ==> v.Width() > 0 && Fits(r.value, v.Width())
  {
    match v
    case ConstantInt(b, w) => Some(b)
    case Binary(op, l, r) =>
      var x, y := Run(l, rho), Run(r, rho);
      if x.None? || y.None? then None
      else
        ComputeFits(op, x.value, y.value, l.Width());
        Compute(op, x.value, y.value, l.Width())
    case ICmp(p, l, r) =>
      var x, y := Run(l, rho), Run(r, rho);
      if x.None? || y.None? then None
      else Some(if Compare(p, x.value, y.value, l.Width()) then 1 else 0)
    case Trunc(s, d) =>
      var x := Run(s, rho);
      if x.None? then None else Some(Wrap(x.value, d))
    case ZExt(s, d) =>
      Pow2Monotone(s.Width(), d);
      Run(s, rho)
    case SExt(s, d) =>
      var x := Run(s, rho);
      if x.None? then None else Some(Wrap(Signed(x.value, s.Width()), d))
    case Opaque(id, w) => Some(Wrap(rho(id), w))
  }

  // ---- the translation preserves meaning ----

  lemma {:induction false} RingMeaning(op: BinaryOp, x: int, y: int, w: nat)
    requires w > 0 && Fits(x, w) && Fits(y, w) && (op.Add? || op.Sub? || op.Mul?)
    ensures Compute(op, x, y, w) == Some(ApplyTerm(GetOp(op), x, y, w))
  {
    var m := Mod(w);
    var i, j := if Msb(x, w) then 1 else 0, if Msb(y, w) then 1 else 0;
    var a, b := Signed(x, w), Signed(y, w);
    assert a == x - i * m && b == y - j * m;
    if op.Add? {
      assert a + b == x + y + (0 - i - j) * m;
      WrapShift(x + y, 0 - i - j, m);
    } else if op.Sub? {
      assert a - b == x - y + (j - i) * m;
      WrapShift(x - y, j - i, m);
    } else {
      SignedProduct(x, y, i, j, m);
    }
  }

  lemma {:induction false} SignedProduct(x: int, y: int, i: int, j: int, m: int)
    requires m > 0
    ensures ((x - i * m) * (y - j * m)) % m == (x * y) % m
  {
    var b := y - j * m;
    ShiftFactor(x, i, b, m);
    ShiftFactor(y, j, x, m);
    assert x * b == (y - j * m) * x && x * y == y * x;
  }

  lemma {:induction false} ShiftFactor(x: int, i: int, b: int, m: int)
    requires m > 0
    ensures ((x - i * m) * b) % m == (x * b) % m
  {
    assert (x - i * m) * b == x * b + (-(i * b)) * m by {
      assert (i * m) * b == (i * b) * m;
      assert (x - i * m) * b == x * b - (i * m) * b;
    }
    WrapShift(x * b, -(i * b), m);
  }

  lemma {:induction false} ShlMeaning(x: int, y: nat, w: nat)
    requires w > 0 && Fits(x, w)
    ensures Wrap(Signed(x, w) * Pow2(y), w) == BvShl(x, y, w)
  {
    if Msb(x, w) {
      var m, p := Mod(w), Pow2(y);
      assert (x - m) * p == x * p + (-p) * m;
      WrapShift(x * p, -p, m);
    }
  }

  /** Where LLVM defines the result, the theory's operator gives it. */
  lemma {:induction false} OpMeaning(op: BinaryOp, x: int, y: int, w: nat)
    requires w > 0 && Fits(x, w) && Fits(y, w)
    ensures Fits(ApplyTerm(GetOp(op), x, y, w), w)
    ensures Compute(op, x, y, w).Some? ==> Compute(op, x, y, w) == Some(ApplyTerm(GetOp(op), x, y, w))
  {
    hide BvSdiv, BvSrem, BvAshr, BvShl, BvLshr, BvUdiv, BvUrem, Wrap, TruncDiv, TruncRem, SignedFits, And, Or, Xor,
         Pow2, Digitwise;
    match op {
      case Add => RingMeaning(op, x, y, w);
      case Sub => RingMeaning(op, x, y, w);
      case Mul => RingMeaning(op, x, y, w);
      case UDiv => UnsignedMeaning(x, y, w);
      case URem => UnsignedMeaning(x, y, w);
      case SDiv => SignedMeaning(x, y, w);
      case SRem => SignedMeaning(x, y, w);
      case Shl => ShlMeaning(x, y, w); ShiftFits(x, y, w);
      case LShr => LshrMeaning(x, y, w);
      case AShr => AshrMeaning(x, y, w); ShiftFits(x, y, w);
      case BitAnd => BitwiseMeaning(op, x, y, w); BitOpsFit(x, y, w);
      case BitOr => BitwiseMeaning(op, x, y, w); BitOpsFit(x, y, w);
      case BitXor => BitwiseMeaning(op, x, y, w); BitOpsFit(x, y, w);
    }
  }

  lemma {:induction false} DigitwiseDigits(op: BinaryOp, x: nat, y: nat, w: nat, k: nat)
    ensures Digitwise(op, x, y, w) < Pow2(w)
    ensures k < w ==> Bit(Digitwise(op, x, y, w), k) == Digit(op, Bit(x, k), Bit(y, k))
  {
    if w > 0 {
      DigitwiseDigits(op, x, y, w - 1, k);
      BitHigh(Digitwise(op, x, y, w - 1), w - 1, if k < w then k else 0);
      hide Bit, Digit;
    }
  }

  /** The theory's bitwise operators make each digit as the instructions do. */
  lemma {:induction false} BitwiseMeaning(op: BinaryOp, x: nat, y: nat, w: nat)
    requires Fits(x, w) && Fits(y, w) && (op.BitAnd? || op.BitOr? || op.BitXor?)
    ensures Digitwise(op, x, y, w) == if op.BitAnd? then And(x, y) else if op.BitOr? then Or(x, y) else Xor(x, y)
  {
    var z := if op.BitAnd? then And(x, y) else if op.BitOr? then Or(x, y) else Xor(x, y);
    BitOpsFit(x, y, w);
    DigitwiseDigits(op, x, y, w, 0);
    hide And, Or, Xor, Digitwise, Bit;
    forall k: nat | k < w ensures Bit(Digitwise(op, x, y, w), k) == Bit(z, k) {
      DigitwiseDigits(op, x, y, w, k);
      AndDigit(x, y, k);
      OrDigit(x, y, k);
      XorDigit(x, y, k);
    }
    BitsDetermine(Digitwise(op, x, y, w), z, w);
  }

  lemma UnsignedMeaning(x: int, y: int, w: nat)
    requires w > 0 && Fits(x, w) && Fits(y, w)
    ensures Fits(BvUdiv(x, y, w), w) && Fits(BvUrem(x, y), w)
    ensures y != 0 ==> BvUdiv(x, y, w) == x / y && BvUrem(x, y) == x % y
  {
    DivisionFits(x, y, w);
  }

  lemma LshrMeaning(x: int, y: nat, w: nat)
    requires w > 0 && Fits(x, w)
    ensures BvLshr(x, y) == x / Pow2(y) && Fits(BvLshr(x, y), w)
  {
    ShiftFits(x, y, w);
  }

  lemma SignedMeaning(x: int, y: int, w: nat)
    requires w > 0 && Fits(x, w) && Fits(y, w)
    ensures Fits(BvSdiv(x, y, w), w) && Fits(BvSrem(x, y, w), w)
    ensures Signed(y, w) != 0 ==> BvSdiv(x, y, w) == Wrap(TruncDiv(Signed(x, w), Signed(y, w)), w)
    ensures Signed(y, w) != 0 ==> BvSrem(x, y, w) == Wrap(TruncRem(Signed(x, w), Signed(y, w)), w)
  {
    DivisionFits(x, y, w);
    if y != 0 {
      SdivMeaning(x, y, w);
      SremMeaning(x, y, w);
    }
  }

  lemma {:induction false} ComputeFits(op: BinaryOp, x: int, y: int, w: nat)
    requires w > 0 && Fits(x, w) && Fits(y, w)
    ensures Compute(op, x, y, w).Some? ==> Fits(Compute(op, x, y, w).value, w)
  {
    OpMeaning(op, x, y, w);
  }

  lemma {:induction false} CompareMeaning(pred: Predicate, l: Term, r: Term, rho: Valuation, w: nat)
    requires l.Sort() == w && Fits(EvalTerm(l, rho), w) && Fits(EvalTerm(r, rho), w)
    ensures Holds(GetICmp(pred, l, r), rho) == Compare(pred, EvalTerm(l, rho), EvalTerm(r, rho), w)
  {
    hide EvalTerm, BvSlt, Signed, Fits;
    var x, y := EvalTerm(l, rho), EvalTerm(r, rho);
    SltMeaning(x, y, w);
    SltMeaning(y, x, w);
  }

  /** Terms have the width of the value they stand for, at every valuation. */
  lemma {:induction false} GetTyped(v: Value, rho: Valuation)
    requires v.WellTyped()
    ensures v.Width() > 0 && Get(v).Sort() == v.Width() && Fits(EvalTerm(Get(v), rho), v.Width())
  {
    hide ApplyTerm, ApplyCmp;
    match v {
      case ConstantInt(_, _) =>
      case Binary(op, l, r) =>
        GetTyped(l, rho);
        GetTyped(r, rho);
        OpMeaning(op, EvalTerm(Get(l), rho), EvalTerm(Get(r), rho), l.Width());
      case ICmp(_, l, r) =>
        GetTyped(l, rho);
        GetTyped(r, rho);
      case Trunc(s, _) => GetTyped(s, rho);
      case ZExt(s, d) =>
        GetTyped(s, rho);
        Pow2Monotone(s.Width(), d);
      case SExt(s, d) =>
        GetTyped(s, rho);
        SextMeaning(EvalTerm(Get(s), rho), s.Width(), d);
      case Opaque(_, _) =>
    }
  }

  /** Get is faithful: whatever an execution computes, the term evaluates to. */
  lemma {:induction false} GetPreserves(v: Value, rho: Valuation)
    requires v.WellTyped()
    ensures Run(v, rho).Some? ==> EvalTerm(Get(v), rho) == Run(v, rho).value
  {
    hide ApplyTerm, ApplyCmp, Compute, Compare, GetICmp;
    GetTyped(v, rho);
    match v {
      case ConstantInt(_, _) =>
      case Binary(op, l, r) =>
        GetPreserves(l, rho);
        GetPreserves(r, rho);
        GetTyped(l, rho);
        GetTyped(r, rho);
        OpMeaning(op, EvalTerm(Get(l), rho), EvalTerm(Get(r), rho), l.Width());
      case ICmp(p, l, r) =>
        GetPreserves(l, rho);
        GetPreserves(r, rho);
        GetTyped(l, rho);
        GetTyped(r, rho);
        CompareMeaning(p, Get(l), Get(r), rho, l.Width());
      case Trunc(s, _) => GetPreserves(s, rho);
      case ZExt(s, _) => GetPreserves(s, rho);
      case SExt(s, d) =>
        GetPreserves(s, rho);
        GetTyped(s, rho);
        SextMeaning(EvalTerm(Get(s), rho), s.Width(), d);
      case Opaque(_, _) =>
    }
  }
}
