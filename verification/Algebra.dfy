/**
 Symbolic arithmetic, substitutions and constraints (circom_algebra/src/algebra.rs).

 An expression stands for the polynomial it evaluates to; a constraint A*B - C = 0 stands for
 the set of assignments under which it holds.
 */
module Algebra {
  import opened Wrappers
  import opened Field
  import opened LinearForms

  datatype Expr =
    | Number(value: int)
    | Signal(symbol: nat)
    | Linear(coefficients: Form)
    | Quadratic(a: Form, b: Form, c: Form)
    | NonQuadratic

  /** The maps inside an expression must hold the constant's coefficient. */
  ghost predicate WellFormed(e: Expr) {
    match e
    case Linear(m) => CONSTANT in m
    case Quadratic(a, b, c) => CONSTANT in a && CONSTANT in b && CONSTANT in c
    case _ => true
  }

  /** The value of an expression under an assignment. */
  ghost function ValueOf(e: Expr, w: Assignment): int
    requires !e.NonQuadratic?
  {
    match e
    case Number(value) => value
    case Signal(symbol) => Wire(w, symbol)
    case Linear(m) => Eval(m, w)
    case Quadratic(a, b, c) => Eval(a, w) * Eval(b, w) + Eval(c, w)
  }

  const ZERO_FORM: Form := map[CONSTANT := 0]

  // ------------------------------------------------------------------ the operations

  function AddExpr(left: Expr, right: Expr, field: int): (r: Expr)
    requires field > 0 && WellFormed(left) && WellFormed(right)
    ensures WellFormed(r)
    ensures r.NonQuadratic? <==>
            left.NonQuadratic? || right.NonQuadratic? || (left.Quadratic? && right.Quadratic?)
  {
    match (left, right)
    case (NonQuadratic, _) => NonQuadratic
    case (_, NonQuadratic) => NonQuadratic
    case (Quadratic(_, _, _), Quadratic(_, _, _)) => NonQuadratic
    case (Number(v0), Number(v1)) => Number(Add(v0, v1, field))
    case (Number(v), Signal(s)) => Linear(AddSymbol(s, 1, AddConstant(v, ZERO_FORM, field), field))
    case (Signal(s), Number(v)) => Linear(AddSymbol(s, 1, AddConstant(v, ZERO_FORM, field), field))
    case (Number(v), Linear(m)) => Linear(AddConstant(v, m, field))
    case (Linear(m), Number(v)) => Linear(AddConstant(v, m, field))
    case (Number(v), Quadratic(a, b, c)) => Quadratic(a, b, AddConstant(v, c, field))
    case (Quadratic(a, b, c), Number(v)) => Quadratic(a, b, AddConstant(v, c, field))
    case (Signal(s0), Signal(s1)) => Linear(AddSymbol(s1, 1, AddSymbol(s0, 1, ZERO_FORM, field), field))
    case (Signal(s), Linear(m)) => Linear(AddSymbol(s, 1, m, field))
    case (Linear(m), Signal(s)) => Linear(AddSymbol(s, 1, m, field))
    case (Signal(s), Quadratic(a, b, c)) => Quadratic(a, b, AddSymbol(s, 1, c, field))
    case (Quadratic(a, b, c), Signal(s)) => Quadratic(a, b, AddSymbol(s, 1, c, field))
    case (Linear(m0), Linear(m1)) => Linear(AddForms(m0, m1, field))
    case (Linear(m), Quadratic(a, b, c)) => Quadratic(a, b, AddForms(m, c, field))
    case (Quadratic(a, b, c), Linear(m)) => Quadratic(a, b, AddForms(m, c, field))
  }

  function MulExpr(left: Expr, right: Expr, field: int): (r: Expr)
    requires field > 0 && WellFormed(left) && WellFormed(right)
    ensures WellFormed(r)
    ensures r.NonQuadratic? <==>
            left.NonQuadratic? || right.NonQuadratic?
            || (left.Quadratic? && !right.Number?) || (right.Quadratic? && !left.Number?)
  {
    match (left, right)
    case (NonQuadratic, _) => NonQuadratic
    case (_, NonQuadratic) => NonQuadratic
    case (Quadratic(_, _, _), Quadratic(_, _, _)) => NonQuadratic
    case (Quadratic(_, _, _), Linear(_)) => NonQuadratic
    case (Linear(_), Quadratic(_, _, _)) => NonQuadratic
    case (Quadratic(_, _, _), Signal(_)) => NonQuadratic
    case (Signal(_), Quadratic(_, _, _)) => NonQuadratic
    case (Number(v0), Number(v1)) => Number(Mul(v0, v1, field))
    case (Number(v), Signal(s)) => Linear(AddSymbol(s, v, ZERO_FORM, field))
    case (Signal(s), Number(v)) => Linear(AddSymbol(s, v, ZERO_FORM, field))
    case (Number(v), Linear(m)) => Linear(Scale(v, m, field))
    case (Linear(m), Number(v)) => Linear(Scale(v, m, field))
    case (Number(v), Quadratic(a, b, c)) => Quadratic(Scale(v, a, field), b, Scale(v, c, field))
    case (Quadratic(a, b, c), Number(v)) => Quadratic(Scale(v, a, field), b, Scale(v, c, field))
    case (Signal(s0), Signal(s1)) =>
      Quadratic(AddSymbol(s0, 1, ZERO_FORM, field), AddSymbol(s1, 1, ZERO_FORM, field), ZERO_FORM)
    case (Signal(s), Linear(m)) => Quadratic(m, AddSymbol(s, 1, ZERO_FORM, field), ZERO_FORM)
    case (Linear(m), Signal(s)) => Quadratic(m, AddSymbol(s, 1, ZERO_FORM, field), ZERO_FORM)
    case (Linear(m0), Linear(m1)) => Quadratic(m0, m1, ZERO_FORM)
  }

  function SubExpr(left: Expr, right: Expr, field: int): (r: Expr)
    requires field > 0 && WellFormed(left) && WellFormed(right)
    ensures WellFormed(r)
    ensures r.NonQuadratic? <==>
            left.NonQuadratic? || right.NonQuadratic? || (left.Quadratic? && right.Quadratic?)
  {
    AddExpr(left, MulExpr(Number(-1), right, field), field)
  }

  function DivideForm(constant: int, m: Form, field: int): Result<Form, ArithmeticError>
    requires field >= 2
  {
    match Div(1, constant, field)
    case Err(e) => Err(e)
    case Ok(inverse) => Ok(Scale(inverse, m, field))
  }

  function DivExpr(left: Expr, right: Expr, field: int): (r: Result<Expr, ArithmeticError>)
    requires field >= 2 && WellFormed(left) && WellFormed(right)
    ensures r.Ok? ==> WellFormed(r.value)
    ensures r.Ok? ==> (r.value.NonQuadratic? <==> left.NonQuadratic? || !right.Number?)
  {
    match (left, right)
    case (Number(v0), Number(v1)) =>
      (match Div(v0, v1, field)
       case Err(e) => Err(e)
       case Ok(v) => Ok(Number(v)))
    case (Signal(s), Number(v)) =>
      (match DivideForm(v, AddSymbol(s, 1, ZERO_FORM, field), field)
       case Err(e) => Err(e)
       case Ok(m) => Ok(Linear(m)))
    case (Linear(m), Number(v)) =>
      (match DivideForm(v, m, field)
       case Err(e) => Err(e)
       case Ok(n) => Ok(Linear(n)))
    case (Quadratic(a, b, c), Number(v)) =>
      (match DivideForm(v, a, field)
       case Err(e) => Err(e)
       case Ok(na) =>
         match DivideForm(v, c, field)
         case Err(e) => Err(e)
         case Ok(nc) => Ok(Quadratic(na, b, nc)))
    case _ => Ok(NonQuadratic)
  }

  /** The library's modular power, by repeated multiplication. */
  function PowMod(base: int, exp: nat, field: int): int
    requires field > 0
  {
    if exp == 0 then Modulus(1, field) else Mul(PowMod(base, exp - 1, field), base, field)
  }

  function PowExpr(left: Expr, right: Expr, field: int): (r: Expr)
    requires field > 0 && WellFormed(left) && WellFormed(right)
    requires left.Number? && right.Number? ==> right.value >= 0
    ensures WellFormed(r)
    ensures r.NonQuadratic? <==>
            !right.Number? || left.NonQuadratic? || left.Quadratic? || (!left.Number? && right.value != 2)
  {
    match (left, right)
    case (Number(v0), Number(v1)) => Number(PowMod(v0, v1, field))
    case (Signal(s), Number(v)) => if v == 2 then MulExpr(left, left, field) else NonQuadratic
    case (Linear(m), Number(v)) => if v == 2 then MulExpr(left, left, field) else NonQuadratic
    case _ => NonQuadratic
  }

  // ------------------------------------------------------------------ degrees and coefficients

  /** The degree of an expression, 3 if it is too high to be a constraint. */
  function Degree(e: Expr): nat {
    match e
    case Number(_) => 0
    case Signal(_) => 1
    case Linear(_) => 1
    case Quadratic(_, _, _) => 2
    case NonQuadratic => 3
  }

  function Max(a: nat, b: nat): nat { if a < b then b else a }

  /** No operation makes an expression look of higher degree than it is. */
  lemma DegreesAdd(left: Expr, right: Expr, p: int)
    requires p > 0 && WellFormed(left) && WellFormed(right)
    ensures Degree(AddExpr(left, right, p)) ==
            if left.Quadratic? && right.Quadratic? then 3 else Max(Degree(left), Degree(right))
    ensures Degree(SubExpr(left, right, p)) == Degree(AddExpr(left, right, p))
  {
    hide AddSymbol, AddForms, Scale, AddConstant;
    DegreesMul(Number(-1), right, p);
  }

  lemma DegreesMul(left: Expr, right: Expr, p: int)
    requires p > 0 && WellFormed(left) && WellFormed(right)
    ensures var sum := Degree(left) + Degree(right); Degree(MulExpr(left, right, p)) == if sum < 3 then sum else 3
  {
    hide AddSymbol, AddForms, Scale, AddConstant;
  }

  lemma DegreesDiv(left: Expr, right: Expr, p: int)
    requires p >= 2 && WellFormed(left) && WellFormed(right) && DivExpr(left, right, p).Ok?
    ensures Degree(DivExpr(left, right, p).value) == if right.Number? then Degree(left) else 3
  {
    hide AddSymbol, Scale, Div;
  }

  lemma DegreesPow(left: Expr, right: Expr, p: int)
    requires p > 0 && WellFormed(left) && WellFormed(right)
    requires left.Number? && right.Number? ==> right.value >= 0
    ensures Degree(PowExpr(left, right, p)) ==
            if !right.Number? then 3 else if left.Number? then 0 else if Degree(left) == 1 && right.value == 2 then 2 else 3
  {
    hide AddSymbol, Scale, PowMod;
  }

  /** Every number in the expression is a residue. */
  ghost predicate CanonicalExpr(e: Expr, p: int) {
    match e
    case Number(value) => 0 <= value < p
    case Signal(_) => true
    case Linear(m) => Canonical(m, p)
    case Quadratic(a, b, c) => Canonical(a, p) && Canonical(b, p) && Canonical(c, p)
    case NonQuadratic => true
  }

  /** Operations on residues give residues. */
  lemma ResiduesAdd(left: Expr, right: Expr, p: int)
    requires p >= 2 && WellFormed(left) && WellFormed(right) && CanonicalExpr(left, p) && CanonicalExpr(right, p)
    ensures CanonicalExpr(AddExpr(left, right, p), p)
  {
    hide Add, Residue, Modulus;
  }

  lemma ResiduesMul(left: Expr, right: Expr, p: int)
    requires p >= 2 && WellFormed(left) && WellFormed(right) && CanonicalExpr(right, p) && (CanonicalExpr(left, p) || left.Number?)
    ensures CanonicalExpr(MulExpr(left, right, p), p)
  {}

  lemma ResiduesSub(left: Expr, right: Expr, p: int)
    requires p >= 2 && WellFormed(left) && WellFormed(right) && CanonicalExpr(left, p) && CanonicalExpr(right, p)
    ensures CanonicalExpr(SubExpr(left, right, p), p)
  {
    ResiduesMul(Number(-1), right, p);
    ResiduesAdd(left, MulExpr(Number(-1), right, p), p);
  }

  lemma ResiduesDiv(left: Expr, right: Expr, p: int)
    requires p >= 2 && WellFormed(left) && WellFormed(right) && CanonicalExpr(left, p) && DivExpr(left, right, p).Ok?
    ensures CanonicalExpr(DivExpr(left, right, p).value, p)
  {
    hide Div;
  }

  lemma ResiduesPow(left: Expr, right: Expr, p: int)
    requires p >= 2 && WellFormed(left) && WellFormed(right) && CanonicalExpr(left, p)
    requires left.Number? && right.Number? ==> right.value >= 0
    ensures CanonicalExpr(PowExpr(left, right, p), p)
  {
    if left.Signal? || left.Linear? {
      ResiduesMul(left, left, p);
    }
  }

  // ------------------------------------------------------------------ homomorphism

  lemma EvalZeroForm(w: Assignment)
    ensures Eval(ZERO_FORM, w) == 0
  {
    EvalSingle(ZERO_FORM, CONSTANT, w);
  }

  lemma EvalSymbolForm(s: nat, v: int, w: Assignment, p: int)
    requires p > 0
    ensures Eqv(Eval(AddSymbol(s, v, ZERO_FORM, p), w), v * Wire(w, s), p)
  {
    EvalZeroForm(w);
    EvalAddSymbol(s, v, ZERO_FORM, w, p);
  }

  lemma EvalAddConstant(v: int, m: Form, w: Assignment, p: int)
    requires p > 0
    ensures Eqv(Eval(AddConstant(v, m, p), w), Eval(m, w) + v, p)
  {
    EvalAddSymbol(CONSTANT, v, m, w, p);
  }

  /** Adding to the linear part of an expression. */
  lemma AddLinearPart(q: int, c: int, d: int, r: int, p: int)
    requires p > 0 && Eqv(r, c + d, p)
    ensures Eqv(q + r, (q + c) + d, p)
  {
    EqvAdd(q, q, r, c + d, p);
  }

  lemma AddHomomorphism(left: Expr, right: Expr, w: Assignment, p: int)
    requires p > 0 && WellFormed(left) && WellFormed(right)
    requires !AddExpr(left, right, p).NonQuadratic?
    ensures Eqv(ValueOf(AddExpr(left, right, p), w), ValueOf(left, w) + ValueOf(right, w), p)
  {
    if left.Quadratic? {
      AddToQuadratic(left, right, w, p);
    } else if right.Quadratic? {
      AddToQuadratic(right, left, w, p);
    } else {
      AddWithoutQuadratic(left, right, w, p);
    }
  }

  /** The linear expression an addition to c produces. */
  lemma AddToForm(c: Form, other: Expr, w: Assignment, p: int)
    requires p > 0 && CONSTANT in c && WellFormed(other)
    requires !other.Quadratic? && !other.NonQuadratic?
    ensures AddExpr(Linear(c), other, p).Linear? || other.Linear?
    ensures other.Linear? ==> Eqv(Eval(AddForms(other.coefficients, c, p), w), Eval(c, w) + ValueOf(other, w), p)
    ensures !other.Linear? ==>
              Eqv(Eval(AddExpr(Linear(c), other, p).coefficients, w), Eval(c, w) + ValueOf(other, w), p)
  {
    match other
    case Number(v) => EvalAddConstant(v, c, w, p);
    case Signal(s) => EvalAddSymbol(s, 1, c, w, p);
    case Linear(m) => EvalAddForms(m, c, w, p);
  }

  lemma AddToQuadratic(quadratic: Expr, other: Expr, w: Assignment, p: int)
    requires p > 0 && WellFormed(quadratic) && WellFormed(other)
    requires quadratic.Quadratic? && !other.Quadratic? && !other.NonQuadratic?
    ensures Eqv(ValueOf(AddExpr(quadratic, other, p), w), ValueOf(quadratic, w) + ValueOf(other, w), p)
    ensures AddExpr(other, quadratic, p) == AddExpr(quadratic, other, p)
  {
    var r := AddExpr(quadratic, other, p);
    AddToForm(quadratic.c, other, w, p);
    assert r.a == quadratic.a && r.b == quadratic.b;
    AddLinearPart(Eval(r.a, w) * Eval(r.b, w), Eval(quadratic.c, w), ValueOf(other, w), Eval(r.c, w), p);
  }

  lemma AddWithoutQuadratic(left: Expr, right: Expr, w: Assignment, p: int)
    requires p > 0 && WellFormed(left) && WellFormed(right)
    requires !left.Quadratic? && !left.NonQuadratic? && !right.Quadratic? && !right.NonQuadratic?
    ensures Eqv(ValueOf(AddExpr(left, right, p), w), ValueOf(left, w) + ValueOf(right, w), p)
  {
    hide Residue, Modulus, Eval, AddSymbol, AddForms;
    match (left, right)
    case (Number(v0), Number(v1)) =>
    case (Number(v), Signal(s)) => AddNumberSignal(v, s, w, p);
    case (Signal(s), Number(v)) => AddNumberSignal(v, s, w, p);
    case (Number(v), Linear(m)) => EvalAddConstant(v, m, w, p);
    case (Linear(m), Number(v)) => EvalAddConstant(v, m, w, p);
    case (Signal(s0), Signal(s1)) =>
      var m := AddSymbol(s0, 1, ZERO_FORM, p);
      EvalSymbolForm(s0, 1, w, p);
      EvalAddSymbol(s1, 1, m, w, p);
      EqvAdd(Eval(m, w), Wire(w, s0), Wire(w, s1), Wire(w, s1), p);
    case (Signal(s), Linear(m)) => EvalAddSymbol(s, 1, m, w, p);
    case (Linear(m), Signal(s)) => EvalAddSymbol(s, 1, m, w, p);
    case (Linear(m0), Linear(m1)) => EvalAddForms(m0, m1, w, p);
  }

  lemma AddNumberSignal(v: int, s: nat, w: Assignment, p: int)
    requires p > 0
    ensures Eqv(Eval(AddSymbol(s, 1, AddConstant(v, ZERO_FORM, p), p), w), v + Wire(w, s), p)
  {
    var m := AddConstant(v, ZERO_FORM, p);
    EvalZeroForm(w);
    EvalAddConstant(v, ZERO_FORM, w, p);
    EvalAddSymbol(s, 1, m, w, p);
    EqvAdd(Eval(m, w), v, Wire(w, s), Wire(w, s), p);
  }

  lemma ScaleQuadratic(v: int, a: Form, b: Form, c: Form, w: Assignment, p: int)
    requires p > 0
    ensures Eqv(Eval(Scale(v, a, p), w) * Eval(b, w) + Eval(Scale(v, c, p), w),
                v * (Eval(a, w) * Eval(b, w) + Eval(c, w)), p)
  {
    hide Residue, Modulus, Eval, Scale;
    EvalScale(v, a, w, p);
    EvalScale(v, c, w, p);
    var x, y, z := Eval(a, w), Eval(b, w), Eval(c, w);
    EqvMul(Eval(Scale(v, a, p), w), v * x, y, y, p);
    EqvAdd(Eval(Scale(v, a, p), w) * y, v * x * y, Eval(Scale(v, c, p), w), v * z, p);
    DistributeScale(v, x, y, z);
  }

  lemma DistributeScale(v: int, x: int, y: int, z: int)
    ensures v * x * y + v * z == v * (x * y + z)
  {}

  lemma EqvCommuted(r: int, x: int, y: int, p: int)
    requires p > 0 && Eqv(r, x * y, p)
    ensures Eqv(r, y * x, p)
  {}

  lemma ProductWithUnit(x: int, y: int, s: int, p: int)
    requires p > 0 && Eqv(y, s, p)
    ensures Eqv(x * y + 0, x * s, p)
  {
    EqvScale(x, y, s, p);
  }

  lemma MulHomomorphism(left: Expr, right: Expr, w: Assignment, p: int)
    requires p > 0 && WellFormed(left) && WellFormed(right)
    requires !MulExpr(left, right, p).NonQuadratic?
    ensures Eqv(ValueOf(MulExpr(left, right, p), w), ValueOf(left, w) * ValueOf(right, w), p)
  {
    hide Residue, Modulus, Eval, Scale, AddSymbol;
    EvalZeroForm(w);
    match (left, right)
    case (Number(v0), Number(v1)) =>
    case (Number(v), Signal(s)) => EvalSymbolForm(s, v, w, p);
    case (Signal(s), Number(v)) =>
      EvalSymbolForm(s, v, w, p);
      EqvCommuted(ValueOf(MulExpr(left, right, p), w), v, Wire(w, s), p);
    case (Number(v), Linear(m)) => EvalScale(v, m, w, p);
    case (Linear(m), Number(v)) =>
      EvalScale(v, m, w, p);
      EqvCommuted(ValueOf(MulExpr(left, right, p), w), v, Eval(m, w), p);
    case (Number(v), Quadratic(a, b, c)) => ScaleQuadratic(v, a, b, c, w, p);
    case (Quadratic(a, b, c), Number(v)) =>
      ScaleQuadratic(v, a, b, c, w, p);
      EqvCommuted(ValueOf(MulExpr(left, right, p), w), v, ValueOf(left, w), p);
    case (Signal(s0), Signal(s1)) =>
      EvalSymbolForm(s0, 1, w, p);
      EvalSymbolForm(s1, 1, w, p);
      EqvMul(Eval(AddSymbol(s0, 1, ZERO_FORM, p), w), Wire(w, s0), Eval(AddSymbol(s1, 1, ZERO_FORM, p), w), Wire(w, s1), p);
    case (Signal(s), Linear(m)) =>
      EvalSymbolForm(s, 1, w, p);
      ProductWithUnit(Eval(m, w), Eval(AddSymbol(s, 1, ZERO_FORM, p), w), Wire(w, s), p);
      EqvCommuted(ValueOf(MulExpr(left, right, p), w), Eval(m, w), Wire(w, s), p);
    case (Linear(m), Signal(s)) =>
      EvalSymbolForm(s, 1, w, p);
      ProductWithUnit(Eval(m, w), Eval(AddSymbol(s, 1, ZERO_FORM, p), w), Wire(w, s), p);
    case (Linear(m0), Linear(m1)) =>
  }

  lemma SubHomomorphism(left: Expr, right: Expr, w: Assignment, p: int)
    requires p > 0 && WellFormed(left) && WellFormed(right)
    requires !SubExpr(left, right, p).NonQuadratic?
    ensures Eqv(ValueOf(SubExpr(left, right, p), w), ValueOf(left, w) - ValueOf(right, w), p)
  {
    var negated := MulExpr(Number(-1), right, p);
    MulHomomorphism(Number(-1), right, w, p);
    AddHomomorphism(left, negated, w, p);
    EqvAdd(ValueOf(left, w), ValueOf(left, w), ValueOf(negated, w), -ValueOf(right, w), p);
  }

  lemma EvalDivide(constant: int, m: Form, w: Assignment, p: int)
    requires p >= 2 && DivideForm(constant, m, p).Ok?
    ensures Eqv(Eval(DivideForm(constant, m, p).value, w) * constant, Eval(m, w), p)
  {
    var inverse := Div(1, constant, p).value;
    var n := Eval(Scale(inverse, m, p), w);
    EvalScale(inverse, m, w, p);
    EqvMul(n, inverse * Eval(m, w), constant, constant, p);
    EqvMul(inverse * constant, 1, Eval(m, w), Eval(m, w), p);
    Regroup(inverse, Eval(m, w), constant);
    Regroup(inverse, constant, Eval(m, w));
    assert constant * Eval(m, w) == Eval(m, w) * constant;
  }

  /** A quotient times the divisor is the dividend; division fails exactly on non-invertible divisors. */
  lemma DivHomomorphism(left: Expr, right: Expr, w: Assignment, p: int)
    requires p >= 2 && WellFormed(left) && WellFormed(right)
    ensures DivExpr(left, right, p).Err? <==>
            !left.NonQuadratic? && right.Number? && forall x: int :: !Eqv(Times(right.value, x), 1, p)
    ensures DivExpr(left, right, p).Ok? && !DivExpr(left, right, p).value.NonQuadratic? ==>
            !left.NonQuadratic? && right.Number?
            && Eqv(ValueOf(DivExpr(left, right, p).value, w) * right.value, ValueOf(left, w), p)
  {
    hide Residue, Modulus, Eval, Scale, AddSymbol;
    match (left, right)
    case (Number(v0), Number(v1)) =>
    case (Signal(s), Number(v)) =>
      if Div(1, v, p).Ok? {
        EvalDivide(v, AddSymbol(s, 1, ZERO_FORM, p), w, p);
        EvalSymbolForm(s, 1, w, p);
      }
    case (Linear(m), Number(v)) =>
      if Div(1, v, p).Ok? {
        EvalDivide(v, m, w, p);
      }
    case (Quadratic(a, b, c), Number(v)) =>
      if Div(1, v, p).Ok? {
        EvalDivide(v, a, w, p);
        EvalDivide(v, c, w, p);
        DivideQuadratic(Eval(DivideForm(v, a, p).value, w), Eval(a, w), Eval(b, w),
                        Eval(DivideForm(v, c, p).value, w), Eval(c, w), v, p);
      }
    case _ =>
  }

  lemma DivideQuadratic(na: int, a: int, b: int, nc: int, c: int, v: int, p: int)
    requires p > 0 && Eqv(na * v, a, p) && Eqv(nc * v, c, p)
    ensures Eqv((na * b + nc) * v, a * b + c, p)
  {
    EqvMul(na * v, a, b, b, p);
    EqvAdd(na * v * b, a * b, nc * v, c, p);
    DistributeDivisor(na, b, nc, v);
  }

  lemma DistributeDivisor(na: int, b: int, nc: int, v: int)
    ensures (na * b + nc) * v == na * v * b + nc * v
  {}

  /** The n-fold product. */
  ghost function Power(base: int, exp: nat): int {
    if exp == 0 then 1 else Power(base, exp - 1) * base
  }

  lemma {:induction false} PowModCorrect(base: int, exp: nat, p: int)
    requires p > 0
    ensures Eqv(PowMod(base, exp, p), Power(base, exp), p)
  {
    if exp == 0 {
    } else {
      PowModCorrect(base, exp - 1, p);
      EqvMul(PowMod(base, exp - 1, p), Power(base, exp - 1), base, base, p);
    }
  }

  lemma PowHomomorphism(left: Expr, right: Expr, w: Assignment, p: int)
    requires p > 0 && WellFormed(left) && WellFormed(right)
    requires left.Number? && right.Number? ==> right.value >= 0
    requires !PowExpr(left, right, p).NonQuadratic?
    ensures !left.NonQuadratic? && right.Number? && right.value >= 0
    ensures Eqv(ValueOf(PowExpr(left, right, p), w), Power(ValueOf(left, w), right.value), p)
  {
    if left.Number? {
      PowModCorrect(left.value, right.value, p);
    } else {
      MulHomomorphism(left, left, w, p);
      assert Power(ValueOf(left, w), 2) == ValueOf(left, w) * ValueOf(left, w) by {
        assert Power(ValueOf(left, w), 1) == ValueOf(left, w);
      }
    }
  }

  // ------------------------------------------------------------------ substitutions

  /** Replace signal `from` by the linear form `to`. */
  datatype Substitution = Substitution(from: nat, to: Form)

  ghost predicate SubHolds(s: Substitution, w: Assignment, p: int)
    requires p > 0
  {
    Eqv(Wire(w, s.from), Eval(s.to, w), p)
  }

  function NewSubstitution(from: nat, to: Expr): (r: Option<Substitution>)
    ensures r.None? <==> to.Quadratic? || to.NonQuadratic? || (to.Linear? && from in to.coefficients)
    ensures r.Some? ==> r.value.from == from
  {
    match to
    case Number(value) => Some(Substitution(from, map[CONSTANT := value]))
    case Signal(symbol) => Some(Substitution(from, map[symbol := 1]))
    case Linear(m) => if from in m then None else Some(Substitution(from, m))
    case _ => None
  }

  lemma NewSubstitutionMeans(from: nat, to: Expr, w: Assignment)
    requires NewSubstitution(from, to).Some?
    ensures Eval(NewSubstitution(from, to).value.to, w) == ValueOf(to, w)
  {
    match to
    case Number(value) => EvalSingle(map[CONSTANT := value], CONSTANT, w);
    case Signal(symbol) => EvalSingle(map[symbol := 1], symbol, w);
    case Linear(m) =>
  }

  /** A form as an expression: a number, a signal, or a linear expression holding the constant. */
  function FormIntoExpr(m: Form): (e: Expr)
    ensures WellFormed(e) && !e.Quadratic? && !e.NonQuadratic?
  {
    if |m| == 1 && CONSTANT in m then Number(m[CONSTANT])
    else if |m| == 1 then
      SingletonKey(m);
      var k :| k in m;
      if m[k] == 1 then Signal(k) else Linear(InitConstant(m))
    else Linear(InitConstant(m))
  }

  lemma SizeTwo(ks: set<nat>, i: nat, k: nat)
    requires i in ks && k in ks && i != k
    ensures |ks| >= 2
  {
    assert {i, k} <= ks;
    assert |ks - {i, k}| == |ks| - |{i, k}|;
  }

  lemma SingletonKey(m: Form)
    requires |m| == 1
    ensures exists k :: k in m
    ensures forall i, j :: i in m && j in m ==> i == j
  {
    var k :| k in m.Keys;
    forall i | i in m
      ensures i == k
    {
      if i != k {
        SizeTwo(m.Keys, i, k);
        assert false;
      }
    }
  }

  lemma FormIntoExprMeans(m: Form, w: Assignment)
    ensures ValueOf(FormIntoExpr(m), w) == Eval(m, w)
  {
    EvalInit(m, w);
    if |m| == 1 {
      SingletonKey(m);
      var k :| k in m;
      EvalSingle(m, k, w);
    }
  }

  // ------------------------------------------------------------------ constraints

  /** A*B - C = 0. */
  datatype Constraint = Constraint(a: Form, b: Form, c: Form)

  const EMPTY: Constraint := Constraint(map[], map[], map[])

  ghost predicate Holds(c: Constraint, w: Assignment, p: int)
    requires p > 0
  {
    Eqv(Eval(c.a, w) * Eval(c.b, w), Eval(c.c, w), p)
  }

  function IsEmpty(c: Constraint): bool { c == EMPTY }

  function IsLinear(c: Constraint): bool { c.a == map[] && c.b == map[] }

  /** The signals of a constraint, the constant wire excluded. */
  function Signals(c: Constraint): set<nat> {
    c.a.Keys + c.b.Keys + c.c.Keys - {CONSTANT}
  }

  ghost predicate CanonicalConstraint(c: Constraint, p: int) {
    Canonical(c.a, p) && Canonical(c.b, p) && Canonical(c.c, p)
  }

  /** A linear constraint says that its form vanishes. */
  lemma LinearHolds(c: Constraint, w: Assignment, p: int)
    requires p > 0 && IsLinear(c)
    ensures Holds(c, w, p) <==> Eqv(Eval(c.c, w), 0, p)
  {}

  /** Only the signals of a constraint decide whether it holds. */
  lemma HoldsAgree(c: Constraint, w: Assignment, v: Assignment, p: int)
    requires p > 0
    requires forall k :: k in Signals(c) ==> w(k) == v(k)
    ensures Holds(c, w, p) <==> Holds(c, v, p)
  {
    EvalAgree(c.a, w, v);
    EvalAgree(c.b, w, v);
    EvalAgree(c.c, w, v);
  }

  function TransformExpressionToConstraintForm(e: Expr, field: int): (r: Option<Constraint>)
    requires field > 0
    ensures r.None? <==> e.NonQuadratic?
  {
    match e
    case NonQuadratic => None
    case Quadratic(a, b, c) => Some(Constraint(a, b, Scale(-1, c, field)))
    case Number(value) => Some(Constraint(ZERO_FORM, ZERO_FORM, Scale(-1, map[CONSTANT := value], field)))
    case Signal(symbol) => Some(Constraint(ZERO_FORM, ZERO_FORM, Scale(-1, ZERO_FORM[symbol := 1], field)))
    case Linear(m) => Some(Constraint(ZERO_FORM, ZERO_FORM, Scale(-1, m, field)))
  }

  /** The constraint built from an expression holds exactly where the expression vanishes. */
  lemma TransformHolds(e: Expr, w: Assignment, p: int)
    requires p > 0 && !e.NonQuadratic?
    ensures Holds(TransformExpressionToConstraintForm(e, p).value, w, p) <==> Eqv(ValueOf(e, w), 0, p)
  {
    hide Residue, Modulus, Eval, Scale;
    EvalZeroForm(w);
    match e
    case Quadratic(a, b, c) => ProductVanishes(Eval(a, w) * Eval(b, w), c, w, p);
    case Number(value) =>
      ProductVanishes(0, map[CONSTANT := value], w, p);
      EvalSingle(map[CONSTANT := value], CONSTANT, w);
    case Signal(symbol) =>
      var m := ZERO_FORM[symbol := 1];
      ProductVanishes(0, m, w, p);
      EvalSplit(m, CONSTANT, w);
      EvalSingle(m - {CONSTANT}, symbol, w);
    case Linear(m) => ProductVanishes(0, m, w, p);
  }

  /** The factors of a product are its operands, a linear one before a signal; a number goes to the first factor. */
  lemma MulFactors(left: Expr, right: Expr, w: Assignment, p: int)
    requires p > 0 && WellFormed(left) && WellFormed(right) && MulExpr(left, right, p).Quadratic?
    ensures var r := MulExpr(left, right, p);
            if left.Number? then r.b == right.b && Eqv(Eval(r.a, w), left.value * Eval(right.a, w), p)
            else if right.Number? then r.b == left.b && Eqv(Eval(r.a, w), right.value * Eval(left.a, w), p)
            else
              var swapped := left.Signal? && right.Linear?;
              && r.c == ZERO_FORM && Eqv(Eval(r.a, w), ValueOf(if swapped then right else left, w), p)
              && Eqv(Eval(r.b, w), ValueOf(if swapped then left else right, w), p)
  {
    hide Residue, Modulus, Eval, Scale, AddSymbol;
    match (left, right)
    case (Number(v), Quadratic(a, b, c)) => EvalScale(v, a, w, p);
    case (Quadratic(a, b, c), Number(v)) => EvalScale(v, a, w, p);
    case (Signal(s0), Signal(s1)) =>
      EvalSymbolForm(s0, 1, w, p);
      EvalSymbolForm(s1, 1, w, p);
    case (Signal(s), Linear(m)) => EvalSymbolForm(s, 1, w, p);
    case (Linear(m), Signal(s)) => EvalSymbolForm(s, 1, w, p);
    case (Linear(m0), Linear(m1)) =>
    case (_, _) =>
  }

  /** The constraint has residues as coefficients if the expression has, and is quadratic only if the expression is. */
  lemma TransformShape(e: Expr, p: int)
    requires p >= 2 && CanonicalExpr(e, p) && !e.NonQuadratic?
    ensures var c := TransformExpressionToConstraintForm(e, p).value;
            && CanonicalConstraint(c, p)
            && (if e.Quadratic? then c.a == e.a && c.b == e.b else c.a == ZERO_FORM && c.b == ZERO_FORM)
  {}

  lemma ProductVanishes(product: int, c: Form, w: Assignment, p: int)
    requires p > 0
    ensures Eqv(product, Eval(Scale(-1, c, p), w), p) <==> Eqv(product + Eval(c, w), 0, p)
  {
    EvalScale(-1, c, w, p);
    EqvDifference(product, -Eval(c, w), p);
  }

  function RemoveConstraintZeros(c: Constraint): Constraint {
    Constraint(RemoveZeros(c.a), RemoveZeros(c.b), RemoveZeros(c.c))
  }

  lemma RemoveZerosHolds(c: Constraint, w: Assignment, p: int)
    requires p > 0
    ensures Holds(RemoveConstraintZeros(c), w, p) <==> Holds(c, w, p)
  {
    EvalRemoveZeros(c.a, w);
    EvalRemoveZeros(c.b, w);
    EvalRemoveZeros(c.c, w);
  }

  function ApplySubstitution(c: Constraint, s: Substitution, field: int): Constraint
    requires field > 0
  {
    Constraint(Substitute(c.a, s.from, s.to, field),
               Substitute(c.b, s.from, s.to, field),
               Substitute(c.c, s.from, s.to, field))
  }

  /** A substituted constraint holds where the original holds after updating the signal. */
  lemma ApplyIsUpdate(c: Constraint, s: Substitution, w: Assignment, p: int)
    requires p > 0 && s.from != CONSTANT
    ensures Holds(ApplySubstitution(c, s, p), w, p) <==> Holds(c, Update(w, s.from, Eval(s.to, w)), p)
    ensures var r, v := ApplySubstitution(c, s, p), Update(w, s.from, Eval(s.to, w));
            Eqv(Eval(r.a, w), Eval(c.a, v), p) && Eqv(Eval(r.b, w), Eval(c.b, v), p) && Eqv(Eval(r.c, w), Eval(c.c, v), p)
  {
    var v := Update(w, s.from, Eval(s.to, w));
    SubstituteIsUpdate(c.a, s.from, s.to, w, p);
    SubstituteIsUpdate(c.b, s.from, s.to, w, p);
    SubstituteIsUpdate(c.c, s.from, s.to, w, p);
    var r := ApplySubstitution(c, s, p);
    EqvMul(Eval(r.a, w), Eval(c.a, v), Eval(r.b, w), Eval(c.b, v), p);
  }

  lemma SubstituteSame(m: Form, s: Substitution, w: Assignment, p: int)
    requires p > 0 && SubHolds(s, w, p)
    ensures Eqv(Eval(Substitute(m, s.from, s.to, p), w), Eval(m, w), p)
  {
    EvalSubstitute(m, s.from, s.to, w, p);
    EvalSplit(m, s.from, w);
    EqvScale(Coef(m, s.from), Wire(w, s.from), Eval(s.to, w), p);
    EqvAdd(Coef(m, s.from) * Wire(w, s.from), Coef(m, s.from) * Eval(s.to, w),
           Eval(m - {s.from}, w), Eval(m - {s.from}, w), p);
  }

  /** Where the substitution itself holds, applying it changes nothing. */
  lemma ApplySame(c: Constraint, s: Substitution, w: Assignment, p: int)
    requires p > 0 && SubHolds(s, w, p)
    ensures Holds(ApplySubstitution(c, s, p), w, p) <==> Holds(c, w, p)
  {
    SubstituteSame(c.a, s, w, p);
    SubstituteSame(c.b, s, w, p);
    SubstituteSame(c.c, s, w, p);
    var r := ApplySubstitution(c, s, p);
    EqvMul(Eval(r.a, w), Eval(c.a, w), Eval(r.b, w), Eval(c.b, w), p);
  }

  // ------------------------------------------------------------------ normalising a constraint

  function IsConstantExpression(m: Form): bool { CONSTANT in m && |m| == 1 }

  function ConstantLinearLinearReduction(a: Form, b: Form, c: Form, field: int): Constraint
    requires field > 0 && CONSTANT in a
  {
    var scaled := Scale(-1, Scale(a[CONSTANT], InitConstant(b), field), field);
    Constraint(map[], map[], RemoveZeros(AddForms(scaled, InitConstant(c), field)))
  }

  function FixConstraint(k: Constraint, field: int): Constraint
    requires field > 0
  {
    var r := RemoveConstraintZeros(k);
    if r.a == map[] || r.b == map[] then r.(a := map[], b := map[])
    else if IsConstantExpression(r.a) then ConstantLinearLinearReduction(r.a, r.b, r.c, field)
    else if IsConstantExpression(r.b) then ConstantLinearLinearReduction(r.b, r.a, r.c, field)
    else r
  }

  lemma ReductionEval(k: int, b: Form, c: Form, w: Assignment, p: int)
    requires p > 0
    ensures Eqv(Eval(AddForms(Scale(-1, Scale(k, b, p), p), c, p), w), Eval(c, w) - Times(k, Eval(b, w)), p)
  {
    hide Residue, Modulus, Eval, Scale, AddForms;
    var once := Scale(k, b, p);
    EvalScale(k, b, w, p);
    EvalScale(-1, once, w, p);
    EvalAddForms(Scale(-1, once, p), c, w, p);
    NegateAndAdd(Eval(Scale(-1, once, p), w), Eval(once, w), Times(k, Eval(b, w)), Eval(c, w), p);
  }

  lemma NegateAndAdd(negated: int, x: int, y: int, c: int, p: int)
    requires p > 0 && Eqv(x, y, p) && Eqv(negated, -1 * x, p)
    ensures Eqv(negated + c, c - y, p)
  {
    EqvScale(-1, x, y, p);
    EqvAdd(negated, -1 * y, c, c, p);
  }

  lemma ReductionHolds(a: Form, b: Form, c: Form, w: Assignment, p: int)
    requires p > 0 && IsConstantExpression(a)
    ensures Holds(ConstantLinearLinearReduction(a, b, c, p), w, p)
            <==> Eqv(Eval(a, w) * Eval(b, w), Eval(c, w), p)
  {
    var k := a[CONSTANT];
    SingletonKey(a);
    EvalSingle(a, CONSTANT, w);
    EvalInit(b, w);
    EvalInit(c, w);
    ReductionEval(k, InitConstant(b), InitConstant(c), w, p);
    EvalRemoveZeros(AddForms(Scale(-1, Scale(k, InitConstant(b), p), p), InitConstant(c), p), w);
    EqvDifference(Eval(c, w), k * Eval(b, w), p);
  }

  /** Normalising a constraint keeps its meaning. */
  lemma FixHolds(k: Constraint, w: Assignment, p: int)
    requires p > 0
    ensures Holds(FixConstraint(k, p), w, p) <==> Holds(k, w, p)
  {
    hide Residue, Modulus, Eval, ConstantLinearLinearReduction, RemoveZeros;
    RemoveZerosHolds(k, w, p);
    var r := RemoveConstraintZeros(k);
    EvalEmpty(map[], w);
    if r.a == map[] || r.b == map[] {
    } else if IsConstantExpression(r.a) {
      ReductionHolds(r.a, r.b, r.c, w, p);
    } else if IsConstantExpression(r.b) {
      ReductionHolds(r.b, r.a, r.c, w, p);
      assert Eval(r.a, w) * Eval(r.b, w) == Eval(r.b, w) * Eval(r.a, w);
    }
  }

  /** Every coefficient of a normalised form is a nonzero residue. */
  ghost predicate Reduced(m: Form, p: int) {
    forall k :: k in m ==> 0 < m[k] < p
  }

  ghost predicate ReducedConstraint(c: Constraint, p: int) {
    Reduced(c.a, p) && Reduced(c.b, p) && Reduced(c.c, p)
  }

  lemma ReductionShape(a: Form, b: Form, c: Form, p: int)
    requires p > 0 && IsConstantExpression(a) && Canonical(c, p)
    ensures var r := ConstantLinearLinearReduction(a, b, c, p);
            Signals(r) <= b.Keys + c.Keys - {CONSTANT} && Reduced(r.c, p)
  {
    hide Residue, Modulus;
    var scaled := Scale(-1, Scale(a[CONSTANT], InitConstant(b), p), p);
    assert Canonical(AddForms(scaled, InitConstant(c), p), p);
  }

  /** Normalising leaves nonzero residues only, introduces no signal, and never leaves a product with a constant. */
  lemma FixShape(k: Constraint, p: int)
    requires p > 0 && CanonicalConstraint(k, p)
    ensures Signals(FixConstraint(k, p)) <= Signals(k)
    ensures ReducedConstraint(FixConstraint(k, p), p)
    ensures FixConstraint(k, p).a == map[] <==> FixConstraint(k, p).b == map[]
    ensures !IsConstantExpression(FixConstraint(k, p).a) && !IsConstantExpression(FixConstraint(k, p).b)
  {
    var r := RemoveConstraintZeros(k);
    if r.a == map[] || r.b == map[] {
    } else if IsConstantExpression(r.a) {
      ReductionShape(r.a, r.b, r.c, p);
    } else if IsConstantExpression(r.b) {
      ReductionShape(r.b, r.a, r.c, p);
    }
  }

  method FixRawConstraint(a: Form, b: Form, c: Form, field: int) returns (r: Constraint)
    requires field > 0
    ensures r == FixConstraint(Constraint(a, b, c), field)
  {
    var x := RemoveZeroValueCoefficients(a);
    var y := RemoveZeroValueCoefficients(b);
    var z := RemoveZeroValueCoefficients(c);
    if x == map[] || y == map[] {
      x, y := map[], map[];
    } else {
      if !IsConstantExpression(x) && IsConstantExpression(y) {
        x, y := y, x;
      }
      if IsConstantExpression(x) {
        z := InitConstant(z);
        y := InitConstant(y);
        y := MultiplyCoefficientsByConstant(x[CONSTANT], y, field);
        y := MultiplyCoefficientsByConstant(-1, y, field);
        z := AddCoefficientsToCoefficients(y, z, field);
        z := RemoveZeroValueCoefficients(z);
        x, y := map[], map[];
      }
    }
    r := Constraint(x, y, z);
  }

  // ------------------------------------------------------------------ classification

  /** Two signals, no constant, opposite coefficients. */
  predicate IsEquality(k: Constraint, field: int)
    requires field > 0
  {
    IsLinear(k) && CONSTANT !in k.c && |k.c| == 2
    && exists x, y :: x in k.c && y in k.c && x != y && k.c[x] == Mul(-1, k.c[y], field)
  }

  /** One signal, with or without a constant. */
  function IsConstantEquality(k: Constraint): bool {
    IsLinear(k) && ((CONSTANT in k.c && |k.c| == 2) || (CONSTANT !in k.c && |k.c| == 1))
  }
}
