/**
 Solutions and substitutions: a list of substitutions in elimination order determines the
 eliminated signals from the others, uniquely.
 */
module Extension {
  import opened Field
  import opened LinearForms
  import opened Algebra
  import opened Rows
  import opened MaxElimination
  import opened Elimination

  /** No substitution mentions its own signal or one eliminated before it, and no signal is eliminated twice. */
  ghost predicate Triangular(subs: seq<Substitution>) {
    && (forall i :: 0 <= i < |subs| ==> subs[i].from != CONSTANT)
    && (forall i, j :: 0 <= i < j < |subs| ==> subs[i].from != subs[j].from)
    && (forall i, j :: 0 <= i <= j < |subs| ==> subs[i].from !in subs[j].to)
  }

  ghost predicate Eliminates(subs: seq<Substitution>, k: nat) {
    exists i :: 0 <= i < |subs| && subs[i].from == k
  }

  /** The assignment whose eliminated signals have the values the substitutions give them, the last one first. */
  ghost function Extend(subs: seq<Substitution>, w: Assignment): Assignment {
    if |subs| == 0 then w
    else
      var v := Extend(subs[1..], w);
      Update(v, subs[0].from, Eval(subs[0].to, v))
  }

  lemma {:induction false} ExtendKeeps(subs: seq<Substitution>, w: Assignment, k: nat)
    requires !Eliminates(subs, k)
    ensures Extend(subs, w)(k) == w(k)
  {
    if |subs| > 0 {
      assert subs[0].from != k;
      forall i | 0 <= i < |subs| - 1
        ensures subs[1..][i].from != k
      {
        assert subs[1..][i] == subs[i + 1];
      }
      ExtendKeeps(subs[1..], w, k);
    }
  }

  /** The extension satisfies every substitution, and leaves the signals that were not eliminated alone. */
  lemma {:induction false} ExtendHolds(subs: seq<Substitution>, w: Assignment, p: int)
    requires p > 0 && Triangular(subs)
    ensures SubsHold(subs, Extend(subs, w), p)
  {
    if |subs| > 0 {
      var rest := subs[1..];
      assert forall i :: 0 <= i < |rest| ==> rest[i] == subs[i + 1];
      ExtendHolds(rest, w, p);
      var v := Extend(rest, w);
      var x := Extend(subs, w);
      EvalAgree(subs[0].to, x, v);
      forall s | s in subs
        ensures SubHolds(s, x, p)
      {
        var i :| 0 <= i < |subs| && subs[i] == s;
        if i > 0 {
          assert rest[i - 1] == s && s in rest;
          EvalAgree(s.to, x, v);
        }
      }
    }
  }

  /** Two assignments that satisfy the substitutions and agree elsewhere are the same modulo p. */
  lemma {:induction false} ExtensionUnique(subs: seq<Substitution>, v: Assignment, x: Assignment, p: int)
    requires p > 0 && Triangular(subs)
    requires SubsHold(subs, v, p) && SubsHold(subs, x, p)
    requires forall k :: !Eliminates(subs, k) ==> Eqv(v(k), x(k), p)
    ensures forall k :: Eqv(v(k), x(k), p)
  {
    if |subs| == 0 {
      forall k: nat
        ensures Eqv(v(k), x(k), p)
      {
        assert !Eliminates(subs, k);
      }
    } else {
      var last := |subs| - 1;
      var s := subs[last];
      assert s in subs;
      forall k | k in s.to && k != CONSTANT
        ensures Eqv(v(k), x(k), p)
      {
        if Eliminates(subs, k) {
          assert false;
        }
      }
      EvalSimilar(s.to, v, x, p);
      assert Eqv(v(s.from), x(s.from), p);
      assert forall k :: !Eliminates(subs[..last], k) ==> Eqv(v(k), x(k), p);
      ExtensionUnique(subs[..last], v, x, p);
    }
  }

  lemma {:induction false} SimilarTo(m: Form, v: Assignment, x: Assignment, n: nat, p: int)
    requires p > 0
    requires forall k :: k in m && k != CONSTANT ==> Eqv(v(k), x(k), p)
    ensures Eqv(SumTo(m, v, n), SumTo(m, x, n), p)
  {
    if n > 0 {
      SimilarTo(m, v, x, n - 1, p);
      var c := Coef(m, n - 1);
      if n - 1 in m {
        EqvScale(c, Wire(v, n - 1), Wire(x, n - 1), p);
      }
      EqvAdd(SumTo(m, v, n - 1), SumTo(m, x, n - 1), c * Wire(v, n - 1), c * Wire(x, n - 1), p);
    }
  }

  /** A form has the same value modulo p under assignments equal modulo p. */
  lemma EvalSimilar(m: Form, v: Assignment, x: Assignment, p: int)
    requires p > 0
    requires forall k :: k in m && k != CONSTANT ==> Eqv(v(k), x(k), p)
    ensures Eqv(Eval(m, v), Eval(m, x), p)
  {
    SimilarTo(m, v, x, Bound(m.Keys), p);
  }

  /** Substitutions in solved form are in elimination order, whatever their order. */
  lemma SolvedIsTriangular(subs: seq<Substitution>, forbidden: set<nat>, u: set<nat>, p: int)
    requires Solved(subs) && GoodSubstitutions(subs, forbidden, u, p)
    ensures Triangular(subs)
  {}

  // ------------------------------------------------------------------ what an elimination is good for

  lemma LeftoverSignals(r: Simplified, constraints: seq<Constraint>, forbidden: set<nat>, p: int)
    requires p > 0 && SimplifiedFrom(r, constraints, forbidden, p)
    ensures forall c, s :: c in r.constraints && s in Signals(c) ==> s in forbidden && !Eliminates(r.substitutions, s)
  {}

  /** Every solution of the leftovers, whatever the other signals, extends to a solution of the constraints. */
  lemma LeftoversExtend(r: Simplified, constraints: seq<Constraint>, forbidden: set<nat>, w: Assignment, p: int)
    requires p > 0 && SimplifiedFrom(r, constraints, forbidden, p) && AllHold(r.constraints, w, p)
    ensures AllHold(constraints, Extend(r.substitutions, w), p)
    ensures forall s :: !Eliminates(r.substitutions, s) ==> Extend(r.substitutions, w)(s) == w(s)
  {
    hide Holds, SubsHold, Signals, SignalsOf, GoodSubstitutions, Solved, Triangular, Extend, Leftover, Eliminates;
    var v := Extend(r.substitutions, w);
    SolvedIsTriangular(r.substitutions, forbidden, SignalsOf(constraints), p);
    ExtendHolds(r.substitutions, w, p);
    LeftoverSignals(r, constraints, forbidden, p);
    forall s | !Eliminates(r.substitutions, s)
      ensures v(s) == w(s)
    {
      ExtendKeeps(r.substitutions, w, s);
    }
    forall c | c in r.constraints
      ensures Holds(c, v, p)
    {
      HoldsAgree(c, v, w, p);
    }
  }

  /** And only to one: two solutions of the constraints that agree on the signals that stay agree everywhere. */
  lemma LeftoversExtendOnce(r: Simplified, constraints: seq<Constraint>, forbidden: set<nat>, v: Assignment, x: Assignment, p: int)
    requires p > 0 && SimplifiedFrom(r, constraints, forbidden, p) && AllHold(constraints, v, p) && AllHold(constraints, x, p)
    requires forall k :: !Eliminates(r.substitutions, k) ==> Eqv(v(k), x(k), p)
    ensures forall k :: Eqv(v(k), x(k), p)
  {
    hide AllHold, SubsHold, SignalsOf, GoodSubstitutions, Solved, Triangular, Leftover, Eliminates;
    SolvedIsTriangular(r.substitutions, forbidden, SignalsOf(constraints), p);
    ExtensionUnique(r.substitutions, v, x, p);
  }

  /** Whatever heuristic either elimination used, their results are equivalent systems. */
  lemma HeuristicsAgree(a: Simplified, b: Simplified, constraints: seq<Constraint>, forbidden: set<nat>, w: Assignment, p: int)
    requires p > 0 && SimplifiedFrom(a, constraints, forbidden, p) && SimplifiedFrom(b, constraints, forbidden, p)
    ensures AllHold(a.constraints, w, p) && SubsHold(a.substitutions, w, p) <==>
            AllHold(b.constraints, w, p) && SubsHold(b.substitutions, w, p)
  {
    hide AllHold, SubsHold, SignalsOf, GoodSubstitutions, Solved, Leftover;
    assert AllHold(constraints, w, p) <==> AllHold(a.constraints, w, p) && SubsHold(a.substitutions, w, p);
  }
}
