/**
 Rows of the linear elimination (circom_algebra/src/simplification_utils.rs): a row says
 coefficient * from = to, the pivot's coefficient not yet divided out.
 */
module Rows {
  import opened Field
  import opened LinearForms
  import opened Algebra

  datatype Row = Row(coefficient: int, sub: Substitution)

  /** The rows found so far, by the signal they eliminate. */
  type Holder = map<nat, Row>

  ghost predicate RowHolds(r: Row, w: Assignment, p: int)
    requires p > 0
  {
    Eqv(r.coefficient * Wire(w, r.sub.from), Eval(r.sub.to, w), p)
  }

  ghost predicate HolderHolds(h: Holder, w: Assignment, p: int)
    requires p > 0
  {
    forall s :: s in h ==> RowHolds(h[s], w, p)
  }

  ghost predicate AllHold(cs: seq<Constraint>, w: Assignment, p: int)
    requires p > 0
  {
    forall c :: c in cs ==> Holds(c, w, p)
  }

  /** What the elimination expects of a constraint: linear, residues as coefficients, none of a signal zero. */
  ghost predicate LinearRow(c: Constraint, p: int) {
    IsLinear(c) && Canonical(c.c, p) && NoZero(c.c)
  }

  /** A row that may be used as a pivot, over the signals u. */
  ghost predicate PivotRow(r: Row, from: nat, u: set<nat>, p: int) {
    && r.sub.from == from && from != CONSTANT && from in u
    && 0 < r.coefficient < p
    && from !in r.sub.to && CONSTANT in r.sub.to
    && Canonical(r.sub.to, p)
    && r.sub.to.Keys <= u + {CONSTANT}
  }

  // ------------------------------------------------------------------ a constraint as a row

  function ClearSignalNotNormalized(c: Constraint, signal: nat, field: int): Row
    requires field > 0 && signal in c.c
  {
    Row(Mul(c.c[signal], -1, field), Substitution(signal, InitConstant(c.c - {signal})))
  }

  lemma MinusResidueNonzero(v: int, p: int)
    requires 0 < v < p
    ensures 0 < Mul(v, -1, p) < p
  {}

  lemma ClearIsPivot(c: Constraint, signal: nat, u: set<nat>, p: int)
    requires p > 0 && LinearRow(c, p) && Signals(c) <= u
    requires signal in c.c && signal != CONSTANT
    ensures PivotRow(ClearSignalNotNormalized(c, signal, p), signal, u, p)
  {
    MinusResidueNonzero(c.c[signal], p);
  }

  /** Moving a signal to the left-hand side keeps the constraint's meaning. */
  lemma ClearHolds(c: Constraint, signal: nat, w: Assignment, p: int)
    requires p > 0 && IsLinear(c) && signal in c.c
    ensures RowHolds(ClearSignalNotNormalized(c, signal, p), w, p) <==> Holds(c, w, p)
  {
    var r := ClearSignalNotNormalized(c, signal, p);
    var rest := c.c - {signal};
    EvalSplit(c.c, signal, w);
    EvalInit(rest, w);
    MoveToLeft(c.c[signal], Wire(w, signal), r.coefficient, Eval(rest, w), p);
  }

  lemma MoveToLeft(v: int, x: int, negated: int, rest: int, p: int)
    requires p > 0 && Eqv(negated, v * -1, p)
    ensures Eqv(negated * x, rest, p) <==> Eqv(v * x + rest, 0, p)
  {
    EqvMul(negated, v * -1, x, x, p);
    NegatedProduct(v, x);
    EqvDifference(rest, -(v * x), p);
  }

  lemma NegatedProduct(v: int, x: int)
    ensures (v * -1) * x == -(v * x)
  {}

  // ------------------------------------------------------------------ cancelling a pivot

  /** The constraint left when a row for an eliminated signal meets the row that eliminated it. */
  function MergeRows(pivot: Row, row: Row, field: int): (r: Constraint)
    requires field > 0
  {
    var right := FormIntoExpr(pivot.sub.to);
    var left := FormIntoExpr(row.sub.to);
    var newLeft := MulExpr(Number(pivot.coefficient), left, field);
    var newRight := MulExpr(Number(row.coefficient), right, field);
    var merge := SubExpr(newLeft, newRight, field);
    RemoveConstraintZeros(TransformExpressionToConstraintForm(merge, field).value)
  }

  /** The keys of an expression's linear part. */
  ghost function ExprKeys(e: Expr): set<nat> {
    match e
    case Number(_) => {CONSTANT}
    case Linear(m) => m.Keys
    case _ => {}
  }

  lemma FormIntoExprShape(m: Form)
    requires CONSTANT in m
    ensures FormIntoExpr(m).Number? || FormIntoExpr(m).Linear?
    ensures ExprKeys(FormIntoExpr(m)) <= m.Keys
  {}

  /** The expressions a merge goes through are numbers or linear, over the signals of the rows. */
  lemma MergeParts(pivot: Row, row: Row, p: int)
    requires p > 0 && CONSTANT in pivot.sub.to && CONSTANT in row.sub.to
    ensures var newLeft := MulExpr(Number(pivot.coefficient), FormIntoExpr(row.sub.to), p);
            var newRight := MulExpr(Number(row.coefficient), FormIntoExpr(pivot.sub.to), p);
            var merge := SubExpr(newLeft, newRight, p);
            && !newLeft.NonQuadratic? && !newRight.NonQuadratic? && (merge.Number? || merge.Linear?)
            && ExprKeys(merge) <= pivot.sub.to.Keys + row.sub.to.Keys
  {
    hide FormIntoExpr, Modulus;
    FormIntoExprShape(pivot.sub.to);
    FormIntoExprShape(row.sub.to);
    var newLeft := MulExpr(Number(pivot.coefficient), FormIntoExpr(row.sub.to), p);
    var newRight := MulExpr(Number(row.coefficient), FormIntoExpr(pivot.sub.to), p);
    var merge := SubExpr(newLeft, newRight, p);
    assert newLeft.Number? || newLeft.Linear?;
    assert newRight.Number? || newRight.Linear?;
    assert ExprKeys(newLeft) <= row.sub.to.Keys && ExprKeys(newRight) <= pivot.sub.to.Keys;
    assert ExprKeys(merge) <= ExprKeys(newLeft) + ExprKeys(newRight);
  }

  lemma LinearConstraintShape(e: Expr, p: int)
    requires p > 0 && (e.Number? || e.Linear?)
    ensures var c := RemoveConstraintZeros(TransformExpressionToConstraintForm(e, p).value);
            LinearRow(c, p) && c.c.Keys <= ExprKeys(e)
  {
    hide Modulus;
  }

  /** A merged row is again a row the elimination accepts, and it holds no signal but those of its parts. */
  lemma MergeShape(pivot: Row, row: Row, p: int)
    requires p > 0 && CONSTANT in pivot.sub.to && CONSTANT in row.sub.to
    ensures LinearRow(MergeRows(pivot, row, p), p)
    ensures MergeRows(pivot, row, p).c.Keys <= pivot.sub.to.Keys + row.sub.to.Keys
  {
    hide FormIntoExpr, MulExpr, SubExpr, ExprKeys, LinearRow, RemoveConstraintZeros, TransformExpressionToConstraintForm;
    MergeParts(pivot, row, p);
    var newLeft := MulExpr(Number(pivot.coefficient), FormIntoExpr(row.sub.to), p);
    var newRight := MulExpr(Number(row.coefficient), FormIntoExpr(pivot.sub.to), p);
    LinearConstraintShape(SubExpr(newLeft, newRight, p), p);
  }

  /** Where the pivot's row holds, the merged constraint says exactly what the other row said. */
  lemma MergeHolds(pivot: Row, row: Row, w: Assignment, p: int)
    requires Prime(p) && 0 < pivot.coefficient < p
    requires CONSTANT in pivot.sub.to && CONSTANT in row.sub.to
    requires pivot.sub.from == row.sub.from && RowHolds(pivot, w, p)
    ensures Holds(MergeRows(pivot, row, p), w, p) <==> RowHolds(row, w, p)
  {
    hide Residue, Modulus, Eval, FormIntoExpr, MulExpr, SubExpr, ExprKeys, TransformExpressionToConstraintForm, RemoveConstraintZeros, Prime, Holds;
    MergeParts(pivot, row, p);
    var left, right := FormIntoExpr(row.sub.to), FormIntoExpr(pivot.sub.to);
    var newLeft := MulExpr(Number(pivot.coefficient), left, p);
    var newRight := MulExpr(Number(row.coefficient), right, p);
    var merge := SubExpr(newLeft, newRight, p);
    FormIntoExprMeans(pivot.sub.to, w);
    FormIntoExprMeans(row.sub.to, w);
    MulHomomorphism(Number(pivot.coefficient), left, w, p);
    MulHomomorphism(Number(row.coefficient), right, w, p);
    SubHomomorphism(newLeft, newRight, w, p);
    TransformHolds(merge, w, p);
    RemoveZerosHolds(TransformExpressionToConstraintForm(merge, p).value, w, p);
    NonzeroResidue(pivot.coefficient, p);
    CancelPivot(pivot.coefficient, row.coefficient, Wire(w, pivot.sub.from), ValueOf(left, w), ValueOf(right, w),
                ValueOf(newLeft, w), ValueOf(newRight, w), ValueOf(merge, w), p);
  }

  lemma NonzeroResidue(v: int, p: int)
    requires 0 < v < p
    ensures !Eqv(v, 0, p)
  {}

  lemma CancelPivot(a: int, b: int, x: int, left: int, right: int, newLeft: int, newRight: int, merge: int, p: int)
    requires Prime(p) && !Eqv(a, 0, p)
    requires Eqv(a * x, right, p)
    requires Eqv(newLeft, a * left, p) && Eqv(newRight, b * right, p) && Eqv(merge, newLeft - newRight, p)
    ensures Eqv(merge, 0, p) <==> Eqv(b * x, left, p)
  {
    EqvDifference(newLeft, newRight, p);
    EqvScale(b, a * x, right, p);
    Regroup(b, a, x);
    Regroup(a, b, x);
    Cancel(a, left, b * x, p);
  }

  // ------------------------------------------------------------------ one constraint against the rows

  /** Where the rows hold, the two constraints say the same. */
  ghost predicate Reduces(h: Holder, work: Constraint, constraint: Constraint, p: int)
    requires p > 0
  {
    forall w: Assignment :: HolderHolds(h, w, p) ==> (Holds(work, w, p) <==> Holds(constraint, w, p))
  }

  /** The new rows and leftovers say what the old ones said together with the constraint. */
  ghost predicate Accounts(h': Holder, lconst': seq<Constraint>, h: Holder, lconst: seq<Constraint>, constraint: Constraint, p: int)
    requires p > 0
  {
    forall w: Assignment :: HolderHolds(h', w, p) && AllHold(lconst', w, p)
                            <==> HolderHolds(h, w, p) && AllHold(lconst, w, p) && Holds(constraint, w, p)
  }

  lemma ReducesItself(h: Holder, constraint: Constraint, p: int)
    requires p > 0
    ensures Reduces(h, constraint, constraint, p)
  {}

  lemma EmptyHolds(w: Assignment, p: int)
    requires p > 0
    ensures Holds(EMPTY, w, p)
  {}

  lemma AccountsEmpty(h: Holder, lconst: seq<Constraint>, constraint: Constraint, p: int)
    requires p > 0 && Reduces(h, EMPTY, constraint, p)
    ensures Accounts(h, lconst, h, lconst, constraint, p)
  {}

  lemma AllHoldAppend(cs: seq<Constraint>, c: Constraint, w: Assignment, p: int)
    requires p > 0
    ensures AllHold(cs + [c], w, p) <==> AllHold(cs, w, p) && Holds(c, w, p)
  {
    assert c in cs + [c];
    assert forall k :: k in cs ==> k in cs + [c];
  }

  lemma AccountsLeftover(h: Holder, lconst: seq<Constraint>, work: Constraint, constraint: Constraint, p: int)
    requires p > 0 && Reduces(h, work, constraint, p)
    ensures Accounts(h, lconst + [work], h, lconst, constraint, p)
  {}

  lemma HolderExtend(h: Holder, s: nat, row: Row, w: Assignment, p: int)
    requires p > 0 && s !in h
    ensures HolderHolds(h[s := row], w, p) <==> HolderHolds(h, w, p) && RowHolds(row, w, p)
  {
    var extended := h[s := row];
    assert extended[s] == row;
    assert forall t :: t in h ==> extended[t] == h[t];
  }

  lemma AccountsRow(h: Holder, lconst: seq<Constraint>, work: Constraint, s: nat, constraint: Constraint, p: int)
    requires p > 0 && IsLinear(work) && s in work.c && s !in h
    requires Reduces(h, work, constraint, p)
    ensures Accounts(h[s := ClearSignalNotNormalized(work, s, p)], lconst, h, lconst, constraint, p)
  {
    var row := ClearSignalNotNormalized(work, s, p);
    forall w: Assignment
      ensures HolderHolds(h[s := row], w, p) && AllHold(lconst, w, p)
              <==> HolderHolds(h, w, p) && AllHold(lconst, w, p) && Holds(constraint, w, p)
    {
      ClearHolds(work, s, w, p);
      HolderExtend(h, s, row, w, p);
    }
  }

  lemma ReducesMerge(h: Holder, work: Constraint, s: nat, constraint: Constraint, p: int)
    requires Prime(p) && LinearRow(work, p) && s in work.c && s in h
    requires 0 < h[s].coefficient < p && CONSTANT in h[s].sub.to && h[s].sub.from == s
    requires Reduces(h, work, constraint, p)
    ensures Reduces(h, MergeRows(h[s], ClearSignalNotNormalized(work, s, p), p), constraint, p)
  {
    var row := ClearSignalNotNormalized(work, s, p);
    forall w: Assignment | HolderHolds(h, w, p)
      ensures Holds(MergeRows(h[s], row, p), w, p) <==> Holds(constraint, w, p)
    {
      ClearHolds(work, s, w, p);
      MergeHolds(h[s], row, w, p);
    }
  }

  // ------------------------------------------------------------------ lists of constraints

  /** The signals of a list of constraints. */
  ghost function SignalsOf(cs: seq<Constraint>): set<nat> {
    set c, s | c in cs && s in Signals(c) :: s
  }

  lemma AllHoldReplace(cs: seq<Constraint>, i: nat, c: Constraint, w: Assignment, p: int)
    requires p > 0 && i < |cs| && Holds(c, w, p)
    ensures AllHold(cs, w, p) <==> AllHold(cs[i := c], w, p) && Holds(cs[i], w, p)
  {
    forall k | k in cs
      ensures k in cs[i := c] || k == cs[i]
    {
      var j :| 0 <= j < |cs| && cs[j] == k;
      if j != i {
        assert cs[i := c][j] == k;
      }
    }
    forall k | k in cs[i := c]
      ensures k in cs || k == c
    {
      var j :| 0 <= j < |cs| && cs[i := c][j] == k;
    }
  }
}
