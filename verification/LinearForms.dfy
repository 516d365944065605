/**
 Linear forms: a map from signals to coefficients, with signal 0 standing for the constant
 wire. The update operations are those of circom_algebra/src/algebra.rs; what a form means is
 its value under an assignment of the signals.
 */
module LinearForms {
  import opened Field

  type Form = map<nat, int>

  /** A value for every signal. */
  type Assignment = nat -> int

  const CONSTANT: nat := 0

  // ------------------------------------------------------------------ meaning

  /** The constant wire is always one. */
  ghost function Wire(w: Assignment, k: nat): int {
    if k == CONSTANT then 1 else w(k)
  }

  function Coef(m: Form, k: nat): int {
    if k in m then m[k] else 0
  }

  ghost function SumTo(m: Form, w: Assignment, n: nat): int {
    if n == 0 then 0 else SumTo(m, w, n - 1) + Coef(m, n - 1) * Wire(w, n - 1)
  }

  /** A number above every element. */
  ghost function Bound(ks: set<nat>): (n: nat)
    ensures forall k :: k in ks ==> k < n
  {
    if ks == {} then 0
    else
      var k :| k in ks;
      var rest := Bound(ks - {k});
      assert forall j :: j in ks ==> j == k || j in ks - {k};
      if k < rest then rest else k + 1
  }

  /** The value of a form: the sum of its terms. */
  ghost function Eval(m: Form, w: Assignment): int {
    SumTo(m, w, Bound(m.Keys))
  }

  lemma {:induction false} SumBeyond(m: Form, w: Assignment, low: nat, n: nat)
    requires low <= n
    requires forall k :: k in m ==> k < low
    ensures SumTo(m, w, n) == SumTo(m, w, low)
  {
    if low < n {
      SumBeyond(m, w, low, n - 1);
    }
  }

  lemma EvalAt(m: Form, w: Assignment, n: nat)
    requires forall k :: k in m ==> k < n
    ensures SumTo(m, w, n) == Eval(m, w)
  {
    var b := Bound(m.Keys);
    if b <= n {
      SumBeyond(m, w, b, n);
    } else {
      SumBeyond(m, w, n, b);
    }
  }

  lemma CombineTerm(r: int, a: int, c0: int, b: int, c1: int, v: int, p: int)
    requires p > 0 && Eqv(r, a * c0 + b * c1, p)
    ensures Eqv(r * v, a * (c0 * v) + b * (c1 * v), p)
  {
    EqvMul(r, a * c0 + b * c1, v, v, p);
    Distribute(a, c0, b, c1, v);
  }

  lemma Distribute(a: int, c0: int, b: int, c1: int, v: int)
    ensures (a * c0 + b * c1) * v == a * (c0 * v) + b * (c1 * v)
  {}

  lemma CombineStep(rn: int, sn: int, tn: int, r: int, rt: int, a: int, s0: int, t0: int, b: int, s1: int, t1: int, p: int)
    requires p > 0 && rn == r + rt && sn == s0 + t0 && tn == s1 + t1
    requires Eqv(r, a * s0 + b * s1, p) && Eqv(rt, a * t0 + b * t1, p)
    ensures Eqv(rn, a * sn + b * tn, p)
  {
    hide Residue;
    EqvAdd(r, a * s0 + b * s1, rt, a * t0 + b * t1, p);
  }

  lemma CombineNothing(a: int, b: int, p: int)
    requires p > 0
    ensures Eqv(0, a * 0 + b * 0, p)
  {}

  lemma {:induction false} CombineTo(r: Form, a: int, m0: Form, b: int, m1: Form, w: Assignment, n: nat, p: int)
    requires p > 0
    requires forall k: nat :: Eqv(Coef(r, k), a * Coef(m0, k) + b * Coef(m1, k), p)
    ensures Eqv(SumTo(r, w, n), a * SumTo(m0, w, n) + b * SumTo(m1, w, n), p)
  {
    hide Eqv;
    if n == 0 {
      CombineNothing(a, b, p);
    } else {
      CombineTo(r, a, m0, b, m1, w, n - 1, p);
      var v := Wire(w, n - 1);
      CombineTerm(Coef(r, n - 1), a, Coef(m0, n - 1), b, Coef(m1, n - 1), v, p);
      CombineStep(SumTo(r, w, n), SumTo(m0, w, n), SumTo(m1, w, n),
                  SumTo(r, w, n - 1), Coef(r, n - 1) * v, a, SumTo(m0, w, n - 1), Coef(m0, n - 1) * v,
                  b, SumTo(m1, w, n - 1), Coef(m1, n - 1) * v, p);
    }
  }

  /** A form whose coefficients are a combination of two others has that combination as its value. */
  lemma EvalCombine(r: Form, a: int, m0: Form, b: int, m1: Form, w: Assignment, p: int)
    requires p > 0
    requires forall k: nat :: Eqv(Coef(r, k), a * Coef(m0, k) + b * Coef(m1, k), p)
    ensures Eqv(Eval(r, w), a * Eval(m0, w) + b * Eval(m1, w), p)
  {
    var n := Bound(r.Keys + m0.Keys + m1.Keys);
    EvalAt(r, w, n);
    EvalAt(m0, w, n);
    EvalAt(m1, w, n);
    CombineTo(r, a, m0, b, m1, w, n, p);
  }

  lemma EvalEmpty(m: Form, w: Assignment)
    requires m == map[]
    ensures Eval(m, w) == 0
  {}

  /** A form with at most one term. */
  lemma EvalSingle(m: Form, k: nat, w: Assignment)
    requires forall j :: j in m ==> j == k
    ensures Eval(m, w) == Coef(m, k) * Wire(w, k)
  {
    EvalAt(m, w, k + 1);
    SumZero(m, w, k);
  }

  lemma {:induction false} SumZero(m: Form, w: Assignment, n: nat)
    requires forall j :: j in m ==> j >= n
    ensures SumTo(m, w, n) == 0
  {
    if n > 0 {
      SumZero(m, w, n - 1);
    }
  }

  /** The value of a form is one term plus the value of the others. */
  lemma EvalSplit(m: Form, k: nat, w: Assignment)
    ensures Eval(m, w) == Coef(m, k) * Wire(w, k) + Eval(m - {k}, w)
  {
    var n := Bound(m.Keys + {k});
    EvalAt(m, w, n);
    EvalAt(m - {k}, w, n);
    SplitTo(m, k, w, n);
  }

  lemma {:induction false} SplitTo(m: Form, k: nat, w: Assignment, n: nat)
    ensures SumTo(m, w, n) == SumTo(m - {k}, w, n) + (if k < n then Coef(m, k) * Wire(w, k) else 0)
  {
    if n > 0 {
      SplitTo(m, k, w, n - 1);
    }
  }

  /** The value of a form depends only on the signals in it. */
  lemma EvalAgree(m: Form, w: Assignment, v: Assignment)
    requires forall k :: k in m && k != CONSTANT ==> w(k) == v(k)
    ensures Eval(m, w) == Eval(m, v)
  {
    AgreeTo(m, w, v, Bound(m.Keys));
  }

  lemma {:induction false} AgreeTo(m: Form, w: Assignment, v: Assignment, n: nat)
    requires forall k :: k in m && k != CONSTANT ==> w(k) == v(k)
    ensures SumTo(m, w, n) == SumTo(m, v, n)
  {
    if n > 0 {
      AgreeTo(m, w, v, n - 1);
    }
  }

  // ------------------------------------------------------------------ canonical coefficients

  /** Every coefficient is a residue, and none but the constant's may be zero. */
  ghost predicate Canonical(m: Form, p: int) {
    forall k :: k in m ==> 0 <= m[k] < p
  }

  ghost predicate NoZero(m: Form) {
    forall k :: k in m && k != CONSTANT ==> m[k] != 0
  }

  // ------------------------------------------------------------------ the operations

  function InitConstant(m: Form): Form {
    if CONSTANT in m then m else m[CONSTANT := 0]
  }

  function AddSymbol(symbol: nat, coefficient: int, m: Form, field: int): Form
    requires field > 0
  {
    m[symbol := Add(Coef(m, symbol), coefficient, field)]
  }

  function AddConstant(value: int, m: Form, field: int): Form
    requires field > 0
  {
    AddSymbol(CONSTANT, value, m, field)
  }

  /** m1 with every term of m0 added to it. */
  function AddForms(m0: Form, m1: Form, field: int): Form
    requires field > 0
  {
    map k | k in m0.Keys + m1.Keys :: if k in m0 then Add(Coef(m1, k), m0[k], field) else m1[k]
  }

  function Scale(constant: int, m: Form, field: int): Form
    requires field > 0
  {
    map k | k in m :: Mul(m[k], constant, field)
  }

  function RemoveZeros(m: Form): Form {
    map k | k in m && m[k] != 0 :: m[k]
  }

  /** Replaces signal `from` by the form `to`. */
  function Substitute(change: Form, from: nat, to: Form, field: int): Form
    requires field > 0
  {
    var m := InitConstant(change);
    if from in m then AddForms(Scale(m[from], InitConstant(to), field), m - {from}, field) else m
  }

  // ---- the same operations as the loops that update the map in place

  method AddCoefficientsToCoefficients(m0: Form, m1: Form, field: int) returns (r: Form)
    requires field > 0
    ensures r == AddForms(m0, m1, field)
  {
    r := m1;
    var todo := m0.Keys;
    while todo != {}
      invariant todo <= m0.Keys
      invariant r.Keys == m1.Keys + (m0.Keys - todo)
      invariant forall k :: k in m0 && k !in todo ==> r[k] == Add(Coef(m1, k), m0[k], field)
      invariant forall k :: k in m1 && (k !in m0 || k in todo) ==> r[k] == m1[k]
      decreases todo
    {
      var k :| k in todo;
      r := AddSymbol(k, m0[k], r, field);
      todo := todo - {k};
    }
  }

  method MultiplyCoefficientsByConstant(constant: int, m: Form, field: int) returns (r: Form)
    requires field > 0
    ensures r == Scale(constant, m, field)
  {
    r := m;
    var todo := m.Keys;
    while todo != {}
      invariant todo <= m.Keys
      invariant r.Keys == m.Keys
      invariant forall k :: k in m ==> r[k] == if k in todo then m[k] else Mul(m[k], constant, field)
      decreases todo
    {
      var k :| k in todo;
      r := r[k := Mul(r[k], constant, field)];
      todo := todo - {k};
    }
  }

  method RemoveZeroValueCoefficients(m: Form) returns (r: Form)
    ensures r == RemoveZeros(m)
  {
    r := map[];
    var todo := m.Keys;
    while todo != {}
      invariant todo <= m.Keys
      invariant r.Keys == set k | k in m && k !in todo && m[k] != 0
      invariant forall k :: k in r ==> r[k] == m[k]
      decreases todo
    {
      var k :| k in todo;
      if m[k] != 0 {
        r := r[k := m[k]];
      }
      todo := todo - {k};
    }
  }

  method RawSubstitution(change: Form, from: nat, to: Form, field: int) returns (r: Form)
    requires field > 0
    ensures r == Substitute(change, from, to, field)
  {
    r := InitConstant(change);
    if from in r {
      var val := r[from];
      r := r - {from};
      var coefficients := InitConstant(to);
      coefficients := MultiplyCoefficientsByConstant(val, coefficients, field);
      r := AddCoefficientsToCoefficients(coefficients, r, field);
    }
  }

  // ------------------------------------------------------------------ what the operations mean

  lemma EvalInit(m: Form, w: Assignment)
    ensures Eval(InitConstant(m), w) == Eval(m, w)
  {
    EvalSplit(InitConstant(m), CONSTANT, w);
    EvalSplit(m, CONSTANT, w);
    assert InitConstant(m) - {CONSTANT} == m - {CONSTANT};
  }

  lemma EvalAddSymbol(symbol: nat, coefficient: int, m: Form, w: Assignment, p: int)
    requires p > 0
    ensures Eqv(Eval(AddSymbol(symbol, coefficient, m, p), w), Eval(m, w) + coefficient * Wire(w, symbol), p)
  {
    hide Residue, Modulus, Eval;
    var r := AddSymbol(symbol, coefficient, m, p);
    EvalSplit(r, symbol, w);
    EvalSplit(m, symbol, w);
    assert r - {symbol} == m - {symbol};
    var v := Wire(w, symbol);
    CombineTerm(Coef(r, symbol), 1, Coef(m, symbol), 1, coefficient, v, p);
    EqvAdd(Coef(r, symbol) * v, Coef(m, symbol) * v + coefficient * v, Eval(r - {symbol}, w), Eval(r - {symbol}, w), p);
  }

  lemma EvalAddForms(m0: Form, m1: Form, w: Assignment, p: int)
    requires p > 0
    ensures Eqv(Eval(AddForms(m0, m1, p), w), Eval(m0, w) + Eval(m1, w), p)
  {
    EvalCombine(AddForms(m0, m1, p), 1, m0, 1, m1, w, p);
  }

  lemma ScaleTerm(constant: int, c: int, p: int)
    requires p > 0
    ensures Eqv(Mul(c, constant, p), constant * c + 0, p)
    ensures c == 0 ==> constant * c == 0
  {}

  lemma EvalScale(constant: int, m: Form, w: Assignment, p: int)
    requires p > 0
    ensures Eqv(Eval(Scale(constant, m, p), w), constant * Eval(m, w), p)
  {
    var r := Scale(constant, m, p);
    forall k: nat
      ensures Eqv(Coef(r, k), constant * Coef(m, k) + 0 * Coef(map[], k), p)
    {
      ScaleTerm(constant, Coef(m, k), p);
      if k !in m {
        assert Coef(r, k) == 0;
      }
    }
    EvalCombine(r, constant, m, 0, map[], w, p);
  }

  lemma EvalRemoveZeros(m: Form, w: Assignment)
    ensures Eval(RemoveZeros(m), w) == Eval(m, w)
  {
    var n := Bound(m.Keys);
    EvalAt(RemoveZeros(m), w, n);
    RemoveZerosTo(m, w, n);
  }

  lemma {:induction false} RemoveZerosTo(m: Form, w: Assignment, n: nat)
    ensures SumTo(RemoveZeros(m), w, n) == SumTo(m, w, n)
  {
    if n > 0 {
      RemoveZerosTo(m, w, n - 1);
    }
  }

  /** Reading a form after a substitution is reading it with the signal replaced by the form's value. */
  lemma EvalSubstitute(change: Form, from: nat, to: Form, w: Assignment, p: int)
    requires p > 0
    ensures Eqv(Eval(Substitute(change, from, to, p), w),
                Coef(change, from) * Eval(to, w) + Eval(change - {from}, w), p)
  {
    hide Residue, Modulus, Eval, Scale, AddForms;
    var m := InitConstant(change);
    EvalInit(change, w);
    EvalInit(to, w);
    if from in m {
      EvalScale(m[from], InitConstant(to), w, p);
      EvalAddForms(Scale(m[from], InitConstant(to), p), m - {from}, w, p);
      EqvAdd(Eval(Scale(m[from], InitConstant(to), p), w), m[from] * Eval(to, w),
             Eval(m - {from}, w), Eval(m - {from}, w), p);
      EvalSplit(m, from, w);
      EvalSplit(change, from, w);
      assert Coef(change, from) == m[from];
      assert Eval(m - {from}, w) == Eval(change - {from}, w);
    } else {
      assert change - {from} == change;
    }
  }

  /** Substituting in a form evaluates like updating the assignment at the signal. */
  lemma SubstituteIsUpdate(change: Form, from: nat, to: Form, w: Assignment, p: int)
    requires p > 0 && from != CONSTANT
    ensures Eqv(Eval(Substitute(change, from, to, p), w), Eval(change, Update(w, from, Eval(to, w))), p)
  {
    var v := Update(w, from, Eval(to, w));
    EvalSubstitute(change, from, to, w, p);
    EvalSplit(change, from, v);
    EvalAgree(change - {from}, w, v);
  }

  ghost function Update(w: Assignment, k: nat, value: int): Assignment {
    (j: nat) => if j == k then value else w(j)
  }
}
