/**
 Equalities between signals (circom/constraint_list/src/constraint_simplification.rs): every
 cluster of equalities collapses to one representative.
 */
module Equalities {
  import opened Wrappers
  import opened Field
  import opened LinearForms
  import opened Algebra
  import opened Rows
  import opened Orders
  import opened Elimination
  import opened Clusters
  import opened ClusterFacts

  /** v*x - v*y = 0 with v not zero. */
  ghost predicate GoodEquality(c: Constraint, p: int)
    requires p > 0
  {
    IsEquality(c, p) && LinearRow(c, p)
  }

  lemma EqualitySignals(c: Constraint, p: int) returns (x: nat, y: nat)
    requires p > 0 && GoodEquality(c, p)
    ensures x != y && x != CONSTANT && y != CONSTANT && c.c.Keys == {x, y} && Signals(c) == {x, y}
    ensures c.c[x] == Mul(-1, c.c[y], p)
  {
    x, y :| x in c.c && y in c.c && x != y && c.c[x] == Mul(-1, c.c[y], p);
    forall k | k in c.c
      ensures k in {x, y}
    {
      if k !in {x, y} {
        ThreeKeys(c.c.Keys, x, y, k);
      }
    }
  }

  lemma ThreeKeys(ks: set<nat>, x: nat, y: nat, z: nat)
    requires x in ks && y in ks && z in ks && x != y && y != z && x != z
    ensures |ks| >= 3
  {
    assert {x, y, z} <= ks;
    assert |ks - {x, y, z}| == |ks| - |{x, y, z}|;
  }

  /** An equality says that its two signals have the same value. */
  lemma EqualityHolds(c: Constraint, x: nat, y: nat, w: Assignment, p: int)
    requires Prime(p) && GoodEquality(c, p)
    requires x in Signals(c) && y in Signals(c) && x != y
    ensures Holds(c, w, p) <==> Eqv(w(x), w(y), p)
  {
    hide IsEquality, Holds, LinearRow, IsLinear, Residue;
    var a, b := EqualitySignals(c, p);
    EqualityMeans(c, a, b, w, p);
  }

  lemma EqualityMeans(c: Constraint, a: nat, b: nat, w: Assignment, p: int)
    requires Prime(p) && LinearRow(c, p) && c.c.Keys == {a, b} && a != b && a != CONSTANT && b != CONSTANT
    requires c.c[a] == Mul(-1, c.c[b], p)
    ensures Holds(c, w, p) <==> Eqv(w(a), w(b), p)
  {
    hide Residue, Modulus, Eval, Holds;
    LinearHolds(c, w, p);
    EvalTwo(c.c, a, b, w);
    NonzeroResidue(c.c[b], p);
    OppositeTerms(c.c[a], c.c[b], w(a), w(b), p);
  }

  lemma EvalTwo(m: Form, a: nat, b: nat, w: Assignment)
    requires m.Keys == {a, b} && a != b && a != CONSTANT && b != CONSTANT
    ensures Eval(m, w) == m[a] * w(a) + m[b] * w(b)
  {
    EvalSplit(m, a, w);
    EvalSplit(m - {a}, b, w);
    EvalEmpty(m - {a} - {b}, w);
  }

  lemma OppositeTerms(negated: int, v: int, x: int, y: int, p: int)
    requires Prime(p) && !Eqv(v, 0, p) && Eqv(negated, -1 * v, p)
    ensures Eqv(negated * x + v * y, 0, p) <==> Eqv(x, y, p)
  {
    EqvMul(negated, -1 * v, x, x, p);
    EqvAdd(negated * x, -1 * v * x, v * y, v * y, p);
    Cancel(v, y, x, p);
    EqvDifference(v * y, v * x, p);
    NegatedTerm(v, x, y);
  }

  lemma NegatedTerm(v: int, x: int, y: int)
    ensures -1 * v * x + v * y == v * y - v * x
  {}

  /** A linear constraint between two signals is an equality exactly if it holds wherever they are equal. */
  lemma EqualityExactly(c: Constraint, x: nat, y: nat, p: int)
    requires p >= 2 && LinearRow(c, p) && c.c.Keys == {x, y} && x != y && x != CONSTANT && y != CONSTANT
    ensures IsEquality(c, p) <==> forall w: Assignment :: Eqv(w(x), w(y), p) ==> Holds(c, w, p)
  {
    hide Residue, Modulus, Eval, Holds;
    OppositeIsEquality(c, x, y, p);
    forall w: Assignment
      ensures Holds(c, w, p) <==> Eqv(c.c[x] * w(x) + c.c[y] * w(y), 0, p)
    {
      LinearHolds(c, w, p);
      EvalTwo(c.c, x, y, w);
    }
    if IsEquality(c, p) {
      forall w: Assignment | Eqv(w(x), w(y), p)
        ensures Holds(c, w, p)
      {
        SumCancels(c.c[x], c.c[y], w(x), w(y), p);
      }
    }
    if forall w: Assignment :: Eqv(w(x), w(y), p) ==> Holds(c, w, p) {
      var one: Assignment := (k: nat) => 1;
      assert Eqv(one(x), one(y), p) && Holds(c, one, p);
      assert c.c[x] * one(x) + c.c[y] * one(y) == c.c[x] + c.c[y];
    }
  }

  lemma OppositeIsEquality(c: Constraint, x: nat, y: nat, p: int)
    requires p >= 2 && LinearRow(c, p) && c.c.Keys == {x, y} && x != y && x != CONSTANT && y != CONSTANT
    ensures IsEquality(c, p) <==> Eqv(c.c[x] + c.c[y], 0, p)
  {
    assert |c.c| == |c.c.Keys| == |{x, y}| == 2;
    OppositeResidue(c.c[x], c.c[y], p);
    OppositeResidue(c.c[y], c.c[x], p);
  }

  lemma OppositeResidue(a: int, b: int, p: int)
    requires p >= 2 && 0 <= a < p && 0 <= b < p
    ensures a == Mul(-1, b, p) <==> Eqv(a + b, 0, p)
  {
    hide Residue;
    EqvDifference(a, -1 * b, p);
    ResidueFixed(a, p);
    ResidueFixed(Mul(-1, b, p), p);
  }

  lemma SumCancels(a: int, b: int, x: int, y: int, p: int)
    requires p > 0 && Eqv(a + b, 0, p) && Eqv(x, y, p)
    ensures Eqv(a * x + b * y, 0, p)
  {
    hide Residue;
    EqvMul(a, a, x, y, p);
    EqvAdd(a * x, a * y, b * y, b * y, p);
    EqvMul(a + b, 0, y, y, p);
    assert (a + b) * y == a * y + b * y;
  }

  /** A linear constraint fixes one signal exactly if it has one. */
  lemma ConstantEqualityExactly(c: Constraint)
    ensures IsConstantEquality(c) <==> IsLinear(c) && |Signals(c)| == 1
  {
    if IsLinear(c) {
      assert Signals(c) == c.c.Keys - {CONSTANT};
      assert |c.c| == |c.c.Keys|;
      if CONSTANT in c.c {
        assert |c.c.Keys| == |c.c.Keys - {CONSTANT}| + 1;
      } else {
        assert c.c.Keys - {CONSTANT} == c.c.Keys;
      }
    }
  }

  // ------------------------------------------------------------------ connected equalities

  /** Under connected equalities every signal has the same value. */
  lemma ConnectedEqual(cs: seq<Constraint>, w: Assignment, x: nat, y: nat, p: int)
    requires Prime(p) && Connected(cs) && AllHold(cs, w, p)
    requires forall c :: c in cs ==> GoodEquality(c, p)
    requires x in SignalsOf(cs) && y in SignalsOf(cs)
    ensures Eqv(w(x), w(y), p)
  {
    hide GoodEquality, Holds, Signals;
    var cx :| cx in cs && x in Signals(cx);
    var i :| 0 <= i < |cs| && cs[i] == cx;
    var cy :| cy in cs && y in Signals(cy);
    var j :| 0 <= j < |cs| && cs[j] == cy;
    var same := set k: nat | k < |cs| && Uniform(cs[k], w, w(x), p);
    UniformFrom(cs[i], x, w, p);
    UniformClosed(cs, w, w(x), same, p);
    assert Linked(cs, i, j);
    assert j in same;
  }

  lemma UniformClosed(cs: seq<Constraint>, w: Assignment, value: int, same: set<nat>, p: int)
    requires Prime(p) && AllHold(cs, w, p) && forall c :: c in cs ==> GoodEquality(c, p)
    requires same == set k: nat | k < |cs| && Uniform(cs[k], w, value, p)
    ensures Closed(cs, same)
  {
    hide GoodEquality, Holds, Signals;
    forall a: nat, b: nat | a in same && Share(cs, a, b)
      ensures b in same
    {
      var s :| s in Signals(cs[a]) && s in Signals(cs[b]);
      assert cs[b] in cs;
      UniformFrom(cs[b], s, w, p);
    }
  }

  /** Every signal of the constraint has the value. */
  ghost predicate Uniform(c: Constraint, w: Assignment, value: int, p: int)
    requires p > 0
  {
    forall s :: s in Signals(c) ==> Eqv(w(s), value, p)
  }

  lemma UniformFrom(c: Constraint, x: nat, w: Assignment, p: int)
    requires Prime(p) && GoodEquality(c, p) && Holds(c, w, p) && x in Signals(c)
    ensures Uniform(c, w, w(x), p)
  {
    forall s | s in Signals(c)
      ensures Eqv(w(s), w(x), p)
    {
      if s != x {
        EqualityHolds(c, s, x, w, p);
      }
    }
  }

  // ------------------------------------------------------------------ one cluster

  function SignalSubstitution(from: nat, to: nat): Substitution { Substitution(from, map[to := 1]) }

  lemma SignalSubstitutionHolds(from: nat, to: nat, w: Assignment, p: int)
    requires p > 0 && from != CONSTANT && to != CONSTANT
    ensures SubHolds(SignalSubstitution(from, to), w, p) <==> Eqv(w(from), w(to), p)
  {
    EvalSingle(map[to := 1], to, w);
  }

  /** The explicit constraint signal - representative = 0. */
  function DifferenceConstraint(signal: nat, rhSignal: nat, field: int): Constraint
    requires field > 0
  {
    TransformExpressionToConstraintForm(SubExpr(Signal(signal), Signal(rhSignal), field), field).value
  }

  lemma DifferenceHolds(signal: nat, rhSignal: nat, w: Assignment, p: int)
    requires p > 0 && signal != CONSTANT && rhSignal != CONSTANT
    ensures Holds(DifferenceConstraint(signal, rhSignal, p), w, p) <==> Eqv(w(signal), w(rhSignal), p)
  {
    var e := SubExpr(Signal(signal), Signal(rhSignal), p);
    SubHomomorphism(Signal(signal), Signal(rhSignal), w, p);
    TransformHolds(e, w, p);
    EqvDifference(w(signal), w(rhSignal), p);
  }

  /** A constraint kept as it is: over forbidden signals of u, with residues as coefficients. */
  ghost predicate Kept(c: Constraint, forbidden: set<nat>, u: set<nat>, p: int) {
    CanonicalConstraint(c, p) && Signals(c) <= forbidden && Signals(c) <= u
  }

  lemma DifferenceKept(signal: nat, rhSignal: nat, forbidden: set<nat>, u: set<nat>, p: int)
    requires p > 0 && signal in forbidden && rhSignal in forbidden && signal in u && rhSignal in u
    ensures Kept(DifferenceConstraint(signal, rhSignal, p), forbidden, u, p)
  {}

  /** What collapsing equalities promises. */
  ghost predicate Collapsed(subs: seq<Substitution>, cons: seq<Constraint>, cs: seq<Constraint>, forbidden: set<nat>, p: int)
    requires p > 0
  {
    && (forall w: Assignment :: AllHold(cs, w, p) <==> AllHold(cons, w, p) && SubsHold(subs, w, p))
    && Solved(subs)
    && GoodSubstitutions(subs, forbidden, SignalsOf(cs), p)
    && (exists rep: nat :: Represents(rep, subs, SignalsOf(cs), forbidden))
    && (forall c :: c in cons ==> Kept(c, forbidden, SignalsOf(cs), p))
  }

  ghost predicate RenamesTo(subs: seq<Substitution>, rep: nat) {
    forall s :: s in subs ==> s.to == map[rep := 1]
  }

  /**
   Every substitution renames to the one representative, the least forbidden signal if the signals u hold one and
   the least signal otherwise; every other signal that is not forbidden is renamed.
   */
  ghost predicate Represents(rep: nat, subs: seq<Substitution>, u: set<nat>, forbidden: set<nat>) {
    && rep in u && rep != CONSTANT
    && (u * forbidden != {} ==> rep in forbidden)
    && LeastOf(rep, u, forbidden)
    && RenamesTo(subs, rep)
    && (forall x :: x in u && x !in forbidden && x != rep ==> IsFrom(subs, x))
  }

  ghost predicate LeastOf(rep: nat, u: set<nat>, forbidden: set<nat>) {
    forall y :: y in u && (rep in forbidden ==> y in forbidden) ==> rep <= y
  }

  ghost predicate IsFrom(subs: seq<Substitution>, x: nat) {
    exists s :: s in subs && s.from == x
  }

  lemma OneRepresents(from: nat, to: nat, forbidden: set<nat>)
    requires from != to && from !in forbidden && to != CONSTANT && (to in forbidden || to < from)
    ensures Represents(to, [SignalSubstitution(from, to)], {from, to}, forbidden)
  {}

  lemma OneRenaming(from: nat, to: nat, c: Constraint, forbidden: set<nat>, p: int)
    requires Prime(p) && GoodEquality(c, p)
    requires Signals(c) == {from, to} && from != to && from !in forbidden && (to in forbidden || to < from)
    ensures Collapsed([SignalSubstitution(from, to)], [], [c], forbidden, p)
  {
    hide GoodEquality, Holds, SubHolds, Represents, SignalsOf;
    var s := SignalSubstitution(from, to);
    SignalsOfOne(c);
    assert from != CONSTANT && to != CONSTANT;
    OneRepresents(from, to, forbidden);
    RenamingShape(s, to, {from}, forbidden, {from, to}, p);
    forall w: Assignment
      ensures AllHold([c], w, p) <==> AllHold([], w, p) && SubsHold([s], w, p)
    {
      EqualityHolds(c, from, to, w, p);
      SignalSubstitutionHolds(from, to, w, p);
      OneHolds(c, s, w, p);
    }
  }

  lemma OneHolds(c: Constraint, s: Substitution, w: Assignment, p: int)
    requires p > 0
    ensures AllHold([c], w, p) <==> Holds(c, w, p)
    ensures SubsHold([s], w, p) <==> SubHolds(s, w, p)
  {
    assert c in [c] && s in [s];
  }

  lemma KeptRepresents(x: nat, y: nat, forbidden: set<nat>)
    requires x in forbidden && y in forbidden && x != CONSTANT && x <= y
    ensures Represents(x, [], {x, y}, forbidden)
  {}

  lemma EqualityCanonical(c: Constraint, p: int)
    requires p > 0 && GoodEquality(c, p)
    ensures CanonicalConstraint(c, p)
  {}

  lemma OneKept(c: Constraint, forbidden: set<nat>, p: int)
    requires p > 0 && GoodEquality(c, p) && Signals(c) <= forbidden
    ensures Collapsed([], [c], [c], forbidden, p)
  {
    hide GoodEquality, CanonicalConstraint, Holds, Represents, SignalsOf, Signals, AllHold;
    var x, y := EqualitySignals(c, p);
    EqualityCanonical(c, p);
    SignalsOfOne(c);
    if x <= y {
      KeptRepresents(x, y, forbidden);
    } else {
      KeptRepresents(y, x, forbidden);
      assert {x, y} == {y, x};
    }
    forall w: Assignment
      ensures AllHold([c], w, p) <==> AllHold([c], w, p) && SubsHold([], w, p)
    {}
  }

  method SingleEquality(constraint: Constraint, forbidden: set<nat>, field: int)
    returns (substitutions: seq<Substitution>, constraints: seq<Constraint>)
    requires Prime(field) && GoodEquality(constraint, field)
    ensures Collapsed(substitutions, constraints, [constraint], forbidden, field)
  {
    hide Collapsed, GoodEquality;
    ghost var x, y := EqualitySignals(constraint, field);
    var signals := SortedKeys(Signals(constraint));
    TwoSorted(signals, x, y);
    assert Signals(constraint) == {signals[0], signals[1]};
    var s0, s1 := signals[0], signals[1];
    if s0 in forbidden && s1 in forbidden {
      substitutions, constraints := [], [constraint];
      OneKept(constraint, forbidden, field);
    } else if s0 in forbidden {
      substitutions, constraints := [SignalSubstitution(s1, s0)], [];
      OneRenaming(s1, s0, constraint, forbidden, field);
    } else if s1 in forbidden {
      substitutions, constraints := [SignalSubstitution(s0, s1)], [];
      OneRenaming(s0, s1, constraint, forbidden, field);
    } else {
      var l, r := if s0 > s1 then s0 else s1, if s0 > s1 then s1 else s0;
      substitutions, constraints := [SignalSubstitution(l, r)], [];
      OneRenaming(l, r, constraint, forbidden, field);
    }
  }

  lemma TwoSorted(s: seq<nat>, x: nat, y: nat)
    requires Ascending(s) && x != y && forall k :: k in {x, y} <==> k in s
    ensures |s| == 2 && {s[0], s[1]} == {x, y}
  {
    assert x in s && y in s;
    assert s[0] in s;
    AscendingLength(s, {x, y});
  }

  // ------------------------------------------------------------------ a cluster of several equalities

  /** A set with its least element, as the two are built together. */
  ghost predicate WithLeast(ks: set<nat>, least: Option<nat>) {
    if ks == {} then least.None? else least.Some? && IsLeast(least.value, ks)
  }

  function MinWith(least: Option<nat>, k: nat): Option<nat> {
    match least
    case None => Some(k)
    case Some(s) => if s < k then Some(s) else Some(k)
  }

  lemma WithLeastAdd(ks: set<nat>, least: Option<nat>, k: nat)
    requires WithLeast(ks, least)
    ensures WithLeast(ks + {k}, MinWith(least, k))
  {}

  /** Sorts the signals of one constraint into those that stay and those that go. */
  method SplitConstraint(constraint: Constraint, forbidden: set<nat>,
                         remains0: set<nat>, minRemains0: Option<nat>, remove0: set<nat>, minRemove0: Option<nat>)
    returns (remains: set<nat>, minRemains: Option<nat>, remove: set<nat>, minRemove: Option<nat>)
    requires WithLeast(remains0, minRemains0) && WithLeast(remove0, minRemove0)
    ensures remains == remains0 + Signals(constraint) * forbidden && remove == remove0 + (Signals(constraint) - forbidden)
    ensures WithLeast(remains, minRemains) && WithLeast(remove, minRemove)
  {
    hide WithLeast, MinWith, Signals, Elements, Ascending;
    remains, minRemains, remove, minRemove := remains0, minRemains0, remove0, minRemove0;
    var signals := SortedKeys(Signals(constraint));
    NoElements(signals);
    for i := 0 to |signals|
      invariant remains == remains0 + Elements(signals[..i]) * forbidden
      invariant remove == remove0 + (Elements(signals[..i]) - forbidden)
      invariant WithLeast(remains, minRemains) && WithLeast(remove, minRemove)
    {
      var signal := signals[i];
      PrefixStep(signals, i);
      ElementsAppend(signals[..i], signal);
      if signal in forbidden {
        WithLeastAdd(remains, minRemains, signal);
        remains := remains + {signal};
        minRemains := MinWith(minRemains, signal);
      } else {
        WithLeastAdd(remove, minRemove, signal);
        minRemove := MinWith(minRemove, signal);
        remove := remove + {signal};
      }
    }
    PrefixAll(signals);
    ElementsAll(signals, Signals(constraint));
  }

  lemma NoElements(s: seq<nat>)
    ensures Elements(s[..0]) == {}
  {}

  lemma ElementsAll(s: seq<nat>, ks: set<nat>)
    requires forall k :: k in ks <==> k in s
    ensures Elements(s) == ks
  {}

  /** The signals of a cluster split into the forbidden ones and the others, with the least of each. */
  method SplitSignals(constraints: seq<Constraint>, forbidden: set<nat>)
    returns (remains: set<nat>, minRemains: Option<nat>, remove: set<nat>, minRemove: Option<nat>)
    ensures remains == SignalsOf(constraints) * forbidden && remove == SignalsOf(constraints) - forbidden
    ensures WithLeast(remains, minRemains) && WithLeast(remove, minRemove)
  {
    remains, minRemains, remove, minRemove := {}, None, {}, None;
    for n := 0 to |constraints|
      invariant remains == SignalsOf(constraints[..n]) * forbidden && remove == SignalsOf(constraints[..n]) - forbidden
      invariant WithLeast(remains, minRemains) && WithLeast(remove, minRemove)
    {
      PrefixStep(constraints, n);
      SignalsOfAppend(constraints[..n], [constraints[n]]);
      SignalsOfOne(constraints[n]);
      remains, minRemains, remove, minRemove :=
        SplitConstraint(constraints[n], forbidden, remains, minRemains, remove, minRemove);
    }
    PrefixAll(constraints);
  }

  function Elements(s: seq<nat>): set<nat> { set k | k in s }

  lemma ElementsAppend(s: seq<nat>, k: nat)
    ensures Elements(s + [k]) == Elements(s) + {k}
  {}

  lemma SignalsOfOne(c: Constraint)
    ensures SignalsOf([c]) == Signals(c)
  {}

  /** All signals of the cluster have the representative's value. */
  ghost predicate AllEqual(u: set<nat>, rep: nat, w: Assignment, p: int)
    requires p > 0
  {
    forall s :: s in u ==> Eqv(w(s), w(rep), p)
  }

  /** Connected equalities say that every signal has the representative's value. */
  lemma EqualitiesAreAllEqual(cs: seq<Constraint>, rep: nat, w: Assignment, p: int)
    requires Prime(p) && Connected(cs) && rep in SignalsOf(cs)
    requires forall c :: c in cs ==> GoodEquality(c, p)
    ensures AllHold(cs, w, p) <==> AllEqual(SignalsOf(cs), rep, w, p)
  {
    hide GoodEquality, Holds, Signals;
    if AllHold(cs, w, p) {
      forall s | s in SignalsOf(cs)
        ensures Eqv(w(s), w(rep), p)
      {
        ConnectedEqual(cs, w, s, rep, p);
      }
    }
    if AllEqual(SignalsOf(cs), rep, w, p) {
      forall c | c in cs
        ensures Holds(c, w, p)
      {
        var x, y := EqualitySignals(c, p);
        assert x in Signals(c) && y in Signals(c);
        assert x in SignalsOf(cs) && y in SignalsOf(cs);
        EqualityHolds(c, x, y, w, p);
      }
    }
  }

  /** The differences and renamings to the representative say that every signal has its value. */
  ghost predicate Spans(cons: seq<Constraint>, keep: set<nat>, subs: seq<Substitution>, remove: set<nat>, rep: nat, p: int)
    requires p > 0
  {
    && (forall c :: c in cons ==> exists s :: s in keep && c == DifferenceConstraint(s, rep, p))
    && (forall s :: s in keep ==> DifferenceConstraint(s, rep, p) in cons)
    && (forall s :: s in subs ==> s.from in remove && s == SignalSubstitution(s.from, rep))
    && (forall s :: s in remove ==> SignalSubstitution(s, rep) in subs)
    && (forall i, j :: 0 <= i < j < |subs| ==> subs[i].from != subs[j].from)
  }

  lemma SpansHold(cons: seq<Constraint>, keep: set<nat>, subs: seq<Substitution>, remove: set<nat>, rep: nat,
                  w: Assignment, p: int)
    requires p > 0 && Spans(cons, keep, subs, remove, rep, p)
    requires CONSTANT !in keep && CONSTANT !in remove && rep != CONSTANT
    ensures AllHold(cons, w, p) && SubsHold(subs, w, p) <==> AllEqual(keep + remove + {rep}, rep, w, p)
  {
    hide DifferenceConstraint, SignalSubstitution, Holds, SubHolds;
    forall s | s in keep
      ensures Holds(DifferenceConstraint(s, rep, p), w, p) <==> Eqv(w(s), w(rep), p)
    {
      DifferenceHolds(s, rep, w, p);
    }
    forall s | s in remove
      ensures SubHolds(SignalSubstitution(s, rep), w, p) <==> Eqv(w(s), w(rep), p)
    {
      SignalSubstitutionHolds(s, rep, w, p);
    }
  }

  lemma RenamingShape(s: Substitution, rep: nat, remove: set<nat>, forbidden: set<nat>, u: set<nat>, p: int)
    requires p >= 2 && s.from in remove && s == SignalSubstitution(s.from, rep)
    requires remove !! forbidden && rep !in remove && rep != CONSTANT && rep in u && remove <= u && CONSTANT !in remove
    ensures s.from !in forbidden && GoodSubstitution(s, s.from, u, p) && s.to == map[rep := 1]
  {}

  lemma RenamingsSolved(subs: seq<Substitution>, remove: set<nat>, rep: nat)
    requires forall s :: s in subs ==> s.from in remove && s == SignalSubstitution(s.from, rep)
    requires forall i, j :: 0 <= i < j < |subs| ==> subs[i].from != subs[j].from
    requires rep !in remove
    ensures Solved(subs)
  {}

  lemma SpansRepresent(cons: seq<Constraint>, keep: set<nat>, subs: seq<Substitution>, remove: set<nat>, rep: nat,
                       u: set<nat>, forbidden: set<nat>, p: int)
    requires p > 0 && Spans(cons, keep, subs, remove, rep, p)
    requires u == keep + remove + {rep} && rep != CONSTANT
    requires keep <= forbidden && remove !! forbidden && (keep != {} ==> rep in forbidden) && LeastOf(rep, u, forbidden)
    ensures Represents(rep, subs, u, forbidden)
  {
    hide DifferenceConstraint;
    forall x | x in remove
      ensures IsFrom(subs, x)
    {
      assert SignalSubstitution(x, rep) in subs;
    }
  }

  lemma SpansCollapse(cons: seq<Constraint>, keep: set<nat>, subs: seq<Substitution>, remove: set<nat>, rep: nat,
                      cs: seq<Constraint>, forbidden: set<nat>, p: int)
    requires Prime(p) && Connected(cs) && forall c :: c in cs ==> GoodEquality(c, p)
    requires Spans(cons, keep, subs, remove, rep, p)
    requires SignalsOf(cs) == keep + remove + {rep} && rep !in keep && rep !in remove
    requires keep <= forbidden && remove !! forbidden && (keep != {} ==> rep in forbidden) && LeastOf(rep, SignalsOf(cs), forbidden)
    ensures Collapsed(subs, cons, cs, forbidden, p)
  {
    hide DifferenceConstraint, SignalSubstitution, Holds, SubHolds, SignalsOf, GoodEquality, AllEqual, Connected, Represents;
    assert CONSTANT !in SignalsOf(cs) by { NoConstantSignal(cs); }
    forall w: Assignment
      ensures AllHold(cs, w, p) <==> AllHold(cons, w, p) && SubsHold(subs, w, p)
    {
      EqualitiesAreAllEqual(cs, rep, w, p);
      SpansHold(cons, keep, subs, remove, rep, w, p);
    }
    forall s | s in subs
      ensures s.from !in forbidden && GoodSubstitution(s, s.from, SignalsOf(cs), p) && s.to == map[rep := 1]
    {
      RenamingShape(s, rep, remove, forbidden, SignalsOf(cs), p);
    }
    RenamingsSolved(subs, remove, rep);
    SpansRepresent(cons, keep, subs, remove, rep, SignalsOf(cs), forbidden, p);
    forall c | c in cons
      ensures Kept(c, forbidden, SignalsOf(cs), p)
    {
      var s :| s in keep && c == DifferenceConstraint(s, rep, p);
      DifferenceKept(s, rep, forbidden, SignalsOf(cs), p);
    }
  }

  lemma NoConstantSignal(cs: seq<Constraint>)
    ensures CONSTANT !in SignalsOf(cs)
  {}

  method EqClusterSimplification(cluster: Cluster, forbidden: set<nat>, field: int)
    returns (subs: seq<Substitution>, cons: seq<Constraint>)
    requires Prime(field) && cluster.constraints != [] && Connected(cluster.constraints)
    requires forall c :: c in cluster.constraints ==> GoodEquality(c, field)
    ensures Collapsed(subs, cons, cluster.constraints, forbidden, field)
  {
    hide GoodEquality, Collapsed, Spans, Connected, SignalsOf;
    if |cluster.constraints| == 1 {
      assert cluster.constraints == [cluster.constraints[0]];
      subs, cons := SingleEquality(cluster.constraints[0], forbidden, field);
    } else {
      var remains, minRemains, remove, minRemove := SplitSignals(cluster.constraints, forbidden);
      SomeSignal(cluster.constraints, field);
      var rhSignal;
      if minRemains.Some? {
        rhSignal := minRemains.value;
        remains := remains - {rhSignal};
      } else {
        rhSignal := minRemove.value;
        remove := remove - {rhSignal};
      }
      cons, subs := SpanningSystem(remains, remove, rhSignal, field);
      SpansCollapse(cons, remains, subs, remove, rhSignal, cluster.constraints, forbidden, field);
    }
  }

  lemma SomeSignal(cs: seq<Constraint>, p: int)
    requires p > 0 && cs != [] && forall c :: c in cs ==> GoodEquality(c, p)
    ensures SignalsOf(cs) != {}
  {
    assert cs[0] in cs;
    var x, y := EqualitySignals(cs[0], p);
    assert x in Signals(cs[0]);
    assert x in SignalsOf(cs);
  }

  /** Differences for the signals that stay, renamings for those that go. */
  method SpanningSystem(remains: set<nat>, remove: set<nat>, rhSignal: nat, field: int)
    returns (cons: seq<Constraint>, subs: seq<Substitution>)
    requires field > 0
    ensures Spans(cons, remains, subs, remove, rhSignal, field)
  {
    hide DifferenceConstraint;
    cons, subs := [], [];
    var order := SortedKeys(remains);
    for i := 0 to |order|
      invariant forall c :: c in cons ==> exists s :: s in remains && c == DifferenceConstraint(s, rhSignal, field)
      invariant forall j :: 0 <= j < i ==> DifferenceConstraint(order[j], rhSignal, field) in cons
    {
      assert order[i] in order;
      cons := cons + [DifferenceConstraint(order[i], rhSignal, field)];
    }
    forall s | s in remains
      ensures DifferenceConstraint(s, rhSignal, field) in cons
    {
      assert s in order;
    }
    var todo := remove;
    while todo != {}
      invariant todo <= remove
      invariant forall s :: s in subs ==> s.from in remove && s.from !in todo && s == SignalSubstitution(s.from, rhSignal)
      invariant forall s :: s in remove && s !in todo ==> SignalSubstitution(s, rhSignal) in subs
      invariant forall i, j :: 0 <= i < j < |subs| ==> subs[i].from != subs[j].from
      decreases todo
    {
      var signal :| signal in todo;
      assert forall i :: 0 <= i < |subs| ==> subs[i] in subs;
      subs := subs + [SignalSubstitution(signal, rhSignal)];
      todo := todo - {signal};
    }
  }
}
