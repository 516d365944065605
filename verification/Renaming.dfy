/**
 Renaming the signals of forms and constraints (circom_algebra/src/algebra.rs, apply_raw_correspondence and
 apply_raw_offset). The constant wire keeps its place.
 */
module Renaming {
  import opened LinearForms
  import opened Algebra

  /** Where a signal goes. */
  function Target(names: map<nat, nat>, k: nat): nat
    requires k == CONSTANT || k in names
  {
    if k == CONSTANT then CONSTANT else names[k]
  }

  /** The signals have names, different ones, and none is called like the constant wire. */
  ghost predicate Injective(names: map<nat, nat>, signals: set<nat>) {
    && (forall k :: k in signals && k != CONSTANT ==> k in names && names[k] != CONSTANT)
    && (forall j, k :: j in signals && k in signals && j != CONSTANT && k != CONSTANT && j != k ==> names[j] != names[k])
  }

  /** r is m with its signals renamed. */
  ghost predicate IsRenamed(m: Form, names: map<nat, nat>, r: Form) {
    && Injective(names, m.Keys)
    && r.Keys == (set k | k in m :: Target(names, k))
    && (forall k :: k in m ==> r[Target(names, k)] == m[k])
  }

  method ApplyRawCorrespondence(symbols: Form, names: map<nat, nat>) returns (r: Form)
    requires Injective(names, symbols.Keys)
    ensures IsRenamed(symbols, names, r)
  {
    r := map[];
    var todo := symbols.Keys;
    while todo != {}
      invariant todo <= symbols.Keys
      invariant r.Keys == set k | k in symbols && k !in todo :: Target(names, k)
      invariant forall k :: k in symbols && k !in todo ==> r[Target(names, k)] == symbols[k]
      decreases todo
    {
      var key :| key in todo;
      todo := todo - {key};
      r := r[Target(names, key) := symbols[key]];
    }
  }

  /** The assignment of the old signals that an assignment of the new ones stands for. */
  ghost function Pull(names: map<nat, nat>, w: Assignment): Assignment {
    (k: nat) => if k in names then w(names[k]) else 0
  }

  /** A renamed form has the value the form had. */
  lemma {:induction false} EvalRenamed(m: Form, names: map<nat, nat>, r: Form, w: Assignment)
    requires IsRenamed(m, names, r)
    ensures Eval(r, w) == Eval(m, Pull(names, w))
    decreases |m|
  {
    hide IsRenamed, Eval;
    if m == map[] {
      RenamedNothing(names, r);
      EvalEmpty(m, Pull(names, w));
      EvalEmpty(r, w);
    } else {
      var k :| k in m;
      RenamedHas(m, names, r, k);
      var t := Target(names, k);
      EvalSplit(m, k, Pull(names, w));
      EvalSplit(r, t, w);
      assert |m - {k}| < |m| by {
        assert (m - {k}).Keys == m.Keys - {k};
        assert |(m - {k}).Keys| == |m - {k}| && |m.Keys| == |m|;
      }
      RenamedWithout(m, names, r, k);
      RenamedAt(m, names, r, k, w);
      EvalRenamed(m - {k}, names, r - {t}, w);
    }
  }

  lemma RenamedNothing(names: map<nat, nat>, r: Form)
    requires IsRenamed(map[], names, r)
    ensures r == map[]
  {}

  lemma RenamedHas(m: Form, names: map<nat, nat>, r: Form, k: nat)
    requires IsRenamed(m, names, r) && k in m
    ensures k == CONSTANT || k in names
  {}

  lemma RenamedAt(m: Form, names: map<nat, nat>, r: Form, k: nat, w: Assignment)
    requires IsRenamed(m, names, r) && k in m && (k == CONSTANT || k in names)
    ensures Coef(r, Target(names, k)) == Coef(m, k) && Wire(Pull(names, w), k) == Wire(w, Target(names, k))
  {}

  lemma RenamedWithout(m: Form, names: map<nat, nat>, r: Form, k: nat)
    requires IsRenamed(m, names, r) && k in m
    ensures IsRenamed(m - {k}, names, r - {Target(names, k)})
  {}

  ghost predicate IsRenamedConstraint(c: Constraint, names: map<nat, nat>, r: Constraint) {
    IsRenamed(c.a, names, r.a) && IsRenamed(c.b, names, r.b) && IsRenamed(c.c, names, r.c)
  }

  method ApplyCorrespondence(c: Constraint, names: map<nat, nat>) returns (r: Constraint)
    requires Injective(names, Signals(c))
    ensures IsRenamedConstraint(c, names, r)
  {
    var a := ApplyRawCorrespondence(c.a, names);
    var b := ApplyRawCorrespondence(c.b, names);
    var d := ApplyRawCorrespondence(c.c, names);
    r := Constraint(a, b, d);
  }

  /** Renumbering a constraint keeps what it says. */
  lemma RenamedHolds(c: Constraint, names: map<nat, nat>, r: Constraint, w: Assignment, p: int)
    requires p > 0 && IsRenamedConstraint(c, names, r)
    ensures Holds(r, w, p) <==> Holds(c, Pull(names, w), p)
  {
    hide IsRenamed;
    EvalRenamed(c.a, names, r.a, w);
    EvalRenamed(c.b, names, r.b, w);
    EvalRenamed(c.c, names, r.c, w);
  }
}
