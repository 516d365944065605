/** What the simplification of a circuit means: for every circuit, every number of rounds and both heuristics. */
module WholePass {
  import opened Field
  import opened LinearForms
  import opened Algebra
  import opened Rows
  import opened Elimination
  import opened Extension
  import opened Equalities
  import opened ClusterPass
  import opened Constants
  import opened Conflicts
  import opened NonLinear
  import opened Renaming
  import opened Witness
  import opened Simplification

  ghost predicate Agree(kept: set<nat>, v: Assignment, w: Assignment) {
    forall s :: s in kept ==> v(s) == w(s)
  }

  /** Two constant equalities of the circuit fix one eliminable signal to different values. */
  ghost predicate HasConflict(k: Circuit, p: int)
    requires p > 0
  {
    Conflict(k.equalities, k.consEqualities, k.forbidden, p)
  }

  lemma AllFix(k: Circuit, p: int)
    requires p > 0 && ValidCircuit(k, p)
    ensures forall c :: c in k.equalities ==> GoodEquality(c, p)
    ensures forall c :: c in k.consEqualities ==> exists x: nat :: FixesSignal(c, x, p)
  {
    hide IsConstantEquality, LinearRow, FixesSignal, GoodEquality, SignalsOf, CanonicalConstraint;
    forall c | c in k.consEqualities
      ensures exists x: nat :: FixesSignal(c, x, p)
    {
      var x := ConstantEqualityFixes(c, p);
    }
  }

  /** Without a conflict, the surviving constraints are the circuit. */
  lemma SurvivingIsAll(k: Circuit, w: Assignment, p: int)
    requires Prime(p) && ValidCircuit(k, p) && !HasConflict(k, p)
    ensures SurvivingHolds(k, w, p) <==> CircuitHolds(k, w, p)
  {
    hide ValidCircuit, SurvivorsHold, AllHold, FixesSignal, GoodEquality;
    AllFix(k, p);
    if AllHold(k.equalities, w, p) {
      NoConflictKeepsAll(k.equalities, k.consEqualities, k.forbidden, w, p);
    }
  }

  lemma SurvivingIsImplied(k: Circuit, w: Assignment, p: int)
    requires p > 0 && CircuitHolds(k, w, p)
    ensures SurvivingHolds(k, w, p)
  {}

  /** Every solution of the circuit satisfies the simplified constraints. */
  lemma SolutionsStay(k: Circuit, out: seq<Constraint>, names: map<nat, nat>, subs: seq<Substitution>, w: Assignment, p: int)
    requires p > 0 && SimplifiedTo(k, out, names, subs, p) && CircuitHolds(k, w, p)
    ensures AllHold(out, w, p)
  {
    hide CircuitHolds, SurvivingHolds, AllHold, SubsHold, Triangular, IsRanking, Froms, SignalsOf;
    SurvivingIsImplied(k, w, p);
  }

  lemma KeptNotEliminated(subs: seq<Substitution>, kept: set<nat>, w: Assignment)
    requires kept !! Froms(subs)
    ensures Agree(kept, Extend(subs, w), w)
  {}

  /** Every solution of the simplified constraints extends, on the eliminated signals, to one of the surviving constraints. */
  lemma SolutionsExtend(k: Circuit, out: seq<Constraint>, names: map<nat, nat>, subs: seq<Substitution>, w: Assignment, p: int)
    requires p > 0 && SimplifiedTo(k, out, names, subs, p) && AllHold(out, w, p)
    ensures SurvivingHolds(k, Extend(subs, w), p) && Agree(names.Keys, Extend(subs, w), w)
  {
    hide SurvivingHolds, Holds, SubsHold, Triangular, IsRanking, Froms, Extend, Signals;
    var v := Extend(subs, w);
    KeptNotEliminated(subs, names.Keys, w);
    ExtendHolds(subs, w, p);
    forall c | c in out
      ensures Holds(c, v, p)
    {
      assert forall s :: s in Signals(c) ==> s in SignalsOf(out);
      HoldsAgree(c, v, w, p);
    }
  }

  /** What the simplification is for: solutions of its result, on the kept signals, are solutions of the circuit. */
  ghost predicate PreservesSolutions(k: Circuit, out: seq<Constraint>, names: map<nat, nat>, p: int)
    requires p > 0
  {
    forall w: Assignment :: AllHold(out, w, p) ==> exists v: Assignment :: Agree(names.Keys, v, w) && CircuitHolds(k, v, p)
  }

  ghost predicate Satisfiable(k: Circuit, p: int)
    requires p > 0
  {
    exists w: Assignment :: SurvivingHolds(k, w, p)
  }

  /**
   Exactly when the result extends: there is no conflict between constant equalities, or what is left of the circuit
   without the overwritten ones has no solution either.
   */
  lemma PreservedExactly(k: Circuit, out: seq<Constraint>, names: map<nat, nat>, subs: seq<Substitution>, p: int)
    requires Prime(p) && ValidCircuit(k, p) && SimplifiedTo(k, out, names, subs, p)
    ensures PreservesSolutions(k, out, names, p) <==> !HasConflict(k, p) || !Satisfiable(k, p)
  {
    hide SimplifiedTo, ValidCircuit, SurvivingHolds, CircuitHolds, HasConflict, AllHold, Agree;
    if !HasConflict(k, p) || !Satisfiable(k, p) {
      forall w: Assignment | AllHold(out, w, p)
        ensures exists v: Assignment :: Agree(names.Keys, v, w) && CircuitHolds(k, v, p)
      {
        SolutionsExtend(k, out, names, subs, w, p);
        SurvivingIsAll(k, Extend(subs, w), p);
      }
    }
    if PreservesSolutions(k, out, names, p) && HasConflict(k, p) && Satisfiable(k, p) {
      var w: Assignment :| SurvivingHolds(k, w, p);
      SurvivorSatisfies(k, out, names, subs, w, p);
      var v: Assignment :| Agree(names.Keys, v, w) && CircuitHolds(k, v, p);
      ConflictMeansNone(k, v, p);
    }
  }

  /** While what is left has a solution, conflicts alone decide. */
  lemma PreservedUnlessConflict(k: Circuit, out: seq<Constraint>, names: map<nat, nat>, subs: seq<Substitution>, p: int)
    requires Prime(p) && ValidCircuit(k, p) && SimplifiedTo(k, out, names, subs, p) && Satisfiable(k, p)
    ensures PreservesSolutions(k, out, names, p) <==> !HasConflict(k, p)
  {
    hide SimplifiedTo, ValidCircuit, PreservesSolutions, HasConflict, Satisfiable;
    PreservedExactly(k, out, names, subs, p);
  }

  /** Decides beforehand whether there is a conflict, from the stages for equalities and constants alone. */
  method DecideConflict(k: Circuit, field: int) returns (conflict: bool)
    requires Prime(field) && ValidCircuit(k, field)
    ensures conflict <==> HasConflict(k, field)
  {
    hide ValidCircuit, HasConflict, EqualityStage, ConstantStage, Agreeing;
    var st := EqualityPart(k, field);
    st := ConstantPart(k, st, field);
    ConflictSeen(k, st, field);
    var agree := AllAgree(st.constantSubs, field);
    conflict := !agree;
  }

  /** Compares the constants of every two substitutions of one signal. */
  method AllAgree(subs: seq<Substitution>, field: int) returns (agree: bool)
    requires field > 0
    ensures agree <==> Agreeing(subs, field)
  {
    hide SameConstant;
    for i := 0 to |subs|
      invariant forall a, b :: 0 <= a < i && 0 <= b < |subs| && subs[a].from == subs[b].from ==> SameConstant(subs[a], subs[b], field)
    {
      for j := 0 to |subs|
        invariant forall b :: 0 <= b < j && subs[i].from == subs[b].from ==> SameConstant(subs[i], subs[b], field)
      {
        if subs[i].from == subs[j].from {
          var same := DecideSame(subs[i], subs[j], field);
          if !same {
            assert subs[i] in subs && subs[j] in subs;
            return false;
          }
        }
      }
    }
    agree := true;
  }

  method DecideSame(s: Substitution, t: Substitution, field: int) returns (same: bool)
    requires field > 0
    ensures same <==> SameConstant(s, t, field)
  {
    ModulusIsResidue(Coef(s.to, CONSTANT), field);
    ModulusIsResidue(Coef(t.to, CONSTANT), field);
    same := Modulus(Coef(s.to, CONSTANT), field) == Modulus(Coef(t.to, CONSTANT), field);
  }

  lemma ConflictSeen(k: Circuit, st: Stages, p: int)
    requires Prime(p) && ValidCircuit(k, p) && EqualityStage(k, st, p) && ConstantStage(k, st, p)
    ensures HasConflict(k, p) <==> !Agreeing(st.constantSubs, p)
  {
    hide Conflict, Agreeing, ImagesOk, ConstantsResult, Renamed, Solved, ValidCircuit, GoodSubstitutions, AllRewritten;
    EqualityStageFacts(k, st, p);
    RenamingsGood(k, st.equalitySubs, st.equalityCons, p);
    RenamingsFrom(st.equalitySubs, k.forbidden, Ids(k.maxSignal), p);
    var origin: seq<nat> :| ConstantsResult(st.consEqualities, st.constantSubs, st.constantCons, origin, SignalsOf(st.consEqualities), k.forbidden, p);
    ConflictIsDisagreement(k.equalities, st.equalitySubs, k.consEqualities, st.consEqualities, st.constantSubs, st.constantCons, origin,
                           SignalsOf(st.consEqualities), k.forbidden, p);
  }

  lemma RenamingsFrom(subs: seq<Substitution>, forbidden: set<nat>, u: set<nat>, p: int)
    requires GoodSubstitutions(subs, forbidden, u, p)
    ensures forall s :: s in subs ==> s.from != CONSTANT
  {}

  lemma SurvivorSatisfies(k: Circuit, out: seq<Constraint>, names: map<nat, nat>, subs: seq<Substitution>, w: Assignment, p: int)
    requires p > 0 && SimplifiedTo(k, out, names, subs, p) && SurvivingHolds(k, w, p)
    ensures AllHold(out, w, p)
  {}

  /** A circuit with a conflict has no solution. */
  lemma ConflictMeansNone(k: Circuit, w: Assignment, p: int)
    requires Prime(p) && ValidCircuit(k, p) && HasConflict(k, p)
    ensures !CircuitHolds(k, w, p)
  {
    hide ValidCircuit, AllHold, FixesSignal, GoodEquality, Conflict;
    AllFix(k, p);
    ConflictIsUnsatisfiable(k.equalities, k.consEqualities, k.forbidden, w, p);
  }

  /** The eliminated signals are determined by the others: solutions that agree on those agree everywhere. */
  lemma EliminatedAreDetermined(k: Circuit, out: seq<Constraint>, names: map<nat, nat>, subs: seq<Substitution>, v: Assignment, x: Assignment, p: int)
    requires p > 0 && SimplifiedTo(k, out, names, subs, p) && CircuitHolds(k, v, p) && CircuitHolds(k, x, p)
    requires forall s :: s !in Froms(subs) ==> Eqv(v(s), x(s), p)
    ensures forall s :: Eqv(v(s), x(s), p)
  {
    hide CircuitHolds, SurvivingHolds, AllHold, SubsHold, Triangular, IsRanking, SignalsOf;
    SurvivingIsImplied(k, v, p);
    SurvivingIsImplied(k, x, p);
    forall s | !Eliminates(subs, s)
      ensures Eqv(v(s), x(s), p)
    {}
    ExtensionUnique(subs, v, x, p);
  }

  // ------------------------------------------------------------------ renumbered

  lemma NamesInjective(names: map<nat, nat>, signals: set<nat>)
    requires IsRanking(names, names.Keys) && CONSTANT in names && signals <= names.Keys
    ensures Injective(names, signals)
  {
    RanksDiffer(names, names.Keys);
    RankingKeepsConstant(names, names.Keys);
  }

  /** The constraints with the numbers of the wires. */
  ghost predicate Renumbered(constraints: seq<Constraint>, names: map<nat, nat>, r: seq<Constraint>) {
    |r| == |constraints| && forall i :: 0 <= i < |r| ==> IsRenamedConstraint(constraints[i], names, r[i])
  }

  /** Renumbers the constraints into the dense witness. */
  method Renumber(constraints: seq<Constraint>, names: map<nat, nat>) returns (r: seq<Constraint>)
    requires IsRanking(names, names.Keys) && CONSTANT in names && SignalsOf(constraints) <= names.Keys
    ensures Renumbered(constraints, names, r)
  {
    hide IsRenamedConstraint, Signals, IsRanking;
    r := [];
    for i := 0 to |constraints|
      invariant |r| == i && forall j :: 0 <= j < i ==> IsRenamedConstraint(constraints[j], names, r[j])
    {
      assert constraints[i] in constraints;
      assert forall s :: s in Signals(constraints[i]) ==> s in SignalsOf(constraints);
      NamesInjective(names, Signals(constraints[i]));
      var c := ApplyCorrespondence(constraints[i], names);
      r := r + [c];
    }
  }

  /** An assignment of the dense witness satisfies the renumbered constraints exactly if, read back, it satisfies the others. */
  lemma RenumberedHold(cs: seq<Constraint>, names: map<nat, nat>, rs: seq<Constraint>, w: Assignment, p: int)
    requires p > 0 && Renumbered(cs, names, rs)
    ensures AllHold(rs, w, p) <==> AllHold(cs, Pull(names, w), p)
  {
    hide IsRenamedConstraint, Holds, Pull;
    forall i | 0 <= i < |rs|
      ensures Holds(rs[i], w, p) <==> Holds(cs[i], Pull(names, w), p)
      ensures rs[i] in rs && cs[i] in cs
    {
      RenamedHolds(cs[i], names, rs[i], w, p);
    }
    if AllHold(rs, w, p) {
      forall c | c in cs
        ensures Holds(c, Pull(names, w), p)
      {
        var i :| 0 <= i < |cs| && cs[i] == c;
      }
    }
    if AllHold(cs, Pull(names, w), p) {
      forall c | c in rs
        ensures Holds(c, w, p)
      {
        var i :| 0 <= i < |rs| && rs[i] == c;
      }
    }
  }

  /** The wires carry the values of the kept signals. */
  ghost predicate Carries(names: map<nat, nat>, v: Assignment, w: Assignment) {
    forall s :: s in names ==> w(names[s]) == v(s)
  }

  /**
   The compiled circuit: without conflicts, every dense witness that satisfies the renumbered constraints gives the kept
   signals of a solution of the circuit, and every solution gives such a witness.
   */
  lemma CompiledIsEquivalent(k: Circuit, out: seq<Constraint>, names: map<nat, nat>, subs: seq<Substitution>, rs: seq<Constraint>, p: int)
    requires Prime(p) && ValidCircuit(k, p) && SimplifiedTo(k, out, names, subs, p) && !HasConflict(k, p)
    requires Renumbered(out, names, rs)
    ensures forall w: Assignment :: AllHold(rs, w, p) ==> exists v: Assignment :: CircuitHolds(k, v, p) && Carries(names, v, w)
    ensures forall v: Assignment, w: Assignment :: CircuitHolds(k, v, p) && Carries(names, v, w) ==> AllHold(rs, w, p)
  {
    hide ValidCircuit, CircuitHolds, HasConflict, AllHold, IsRenamedConstraint, SimplifiedTo;
    forall w: Assignment | AllHold(rs, w, p)
      ensures exists v: Assignment :: CircuitHolds(k, v, p) && Carries(names, v, w)
    {
      RenumberedHold(out, names, rs, w, p);
      PreservedExactly(k, out, names, subs, p);
      var v: Assignment :| Agree(names.Keys, v, Pull(names, w)) && CircuitHolds(k, v, p);
      assert forall s :: s in names ==> s in names.Keys && Pull(names, w)(s) == w(names[s]);
      assert Carries(names, v, w);
    }
    forall v: Assignment, w: Assignment | CircuitHolds(k, v, p) && Carries(names, v, w)
      ensures AllHold(rs, w, p)
    {
      SolutionsStay(k, out, names, subs, v, p);
      AgreeingOutHolds(k, out, names, subs, v, Pull(names, w), p);
      RenumberedHold(out, names, rs, w, p);
    }
  }

  lemma AgreeingOutHolds(k: Circuit, out: seq<Constraint>, names: map<nat, nat>, subs: seq<Substitution>, v: Assignment, w: Assignment, p: int)
    requires p > 0 && SimplifiedTo(k, out, names, subs, p) && AllHold(out, v, p) && Agree(names.Keys, v, w)
    ensures AllHold(out, w, p)
  {
    hide SurvivingHolds, Holds, SubsHold, Triangular, IsRanking, Froms, Signals;
    forall c | c in out
      ensures Holds(c, w, p)
    {
      assert forall s :: s in Signals(c) ==> s in SignalsOf(out);
      HoldsAgree(c, v, w, p);
    }
  }

  // ------------------------------------------------------------------ a circuit that loses a constraint

  const IS_ZERO := Constraint(map[], map[], map[1 := 1])
  const IS_MINUS_ONE := Constraint(map[], map[], map[CONSTANT := 1, 1 := 1])

  /** One signal, fixed to 0 and then to -1. */
  const INCONSISTENT := Circuit([], [IS_ZERO, IS_MINUS_ONE], [], [], {CONSTANT}, 2)

  lemma FixedValues(w: Assignment, p: int)
    requires p >= 2
    ensures Holds(IS_ZERO, w, p) <==> Eqv(w(1), 0, p)
    ensures Holds(IS_MINUS_ONE, w, p) <==> Eqv(w(1), -1, p)
  {
    EvalSingle(map[1 := 1], 1, w);
    EvalSplit(IS_MINUS_ONE.c, CONSTANT, w);
    EvalSingle(IS_MINUS_ONE.c - {CONSTANT}, 1, w);
    EqvDifference(w(1), -1, p);
  }

  lemma InconsistentTies(p: int)
    requires p >= 2
    ensures SameTarget([], {CONSTANT}, IS_ZERO, IS_MINUS_ONE)
  {
    var e: seq<Constraint> := [];
    assert Free(e, {CONSTANT}, 1) by {
      assert TiedClosed(e, {1}) && 1 in {1} && CONSTANT !in {1};
    }
    assert 1 in Signals(IS_ZERO) && 1 in Signals(IS_MINUS_ONE);
  }

  lemma InconsistentConflicts(p: int)
    requires p >= 2
    ensures HasConflict(INCONSISTENT, p)
  {
    InconsistentTies(p);
    assert IS_ZERO in INCONSISTENT.consEqualities && IS_MINUS_ONE in INCONSISTENT.consEqualities;
    forall value: int
      ensures !(HoldsAt(IS_ZERO, value, p) && HoldsAt(IS_MINUS_ONE, value, p))
    {
      FixedValues((k: nat) => value, p);
      NonzeroMinusOne(p);
    }
  }

  lemma InconsistentSurvives(p: int)
    requires p >= 2
    ensures Satisfiable(INCONSISTENT, p)
  {
    hide Holds, SameTarget;
    var w: Assignment := (k: nat) => -1;
    var cs := INCONSISTENT.consEqualities;
    InconsistentTies(p);
    FixedValues(w, p);
    assert cs[0] == IS_ZERO && cs[1] == IS_MINUS_ONE;
    assert SameTarget([], {CONSTANT}, cs[0], cs[1]);
    assert SurvivingHolds(INCONSISTENT, w, p);
  }

  lemma SmallForms(m: Form, n: Form, p: int)
    requires p >= 2 && m == map[1 := 1] && n == map[CONSTANT := 1, 1 := 1]
    ensures Canonical(m, p) && NoZero(m) && Canonical(n, p) && NoZero(n) && Canonical(map[], p)
  {}

  lemma InconsistentShape(p: int)
    requires p >= 2
    ensures IsConstantEquality(IS_ZERO) && LinearRow(IS_ZERO, p) && Signals(IS_ZERO) == {1}
    ensures IsConstantEquality(IS_MINUS_ONE) && LinearRow(IS_MINUS_ONE, p) && Signals(IS_MINUS_ONE) == {1}
  {
    hide Canonical, NoZero;
    var m, n: Form := map[1 := 1], map[CONSTANT := 1, 1 := 1];
    assert m.Keys == {1} && |m.Keys| == 1;
    assert n.Keys == {CONSTANT, 1} && |n.Keys| == 2;
    SmallForms(m, n, p);
  }

  lemma InconsistentIsValid(p: int)
    requires p >= 2
    ensures ValidCircuit(INCONSISTENT, p)
  {
    hide IsConstantEquality, LinearRow, Signals;
    InconsistentShape(p);
    assert 1 in Ids(2);
  }

  /** Over every field, whatever the simplification returns for this circuit has solutions, and the circuit has none. */
  lemma ConstraintLost(out: seq<Constraint>, names: map<nat, nat>, subs: seq<Substitution>, p: int)
    requires Prime(p) && SimplifiedTo(INCONSISTENT, out, names, subs, p)
    ensures ValidCircuit(INCONSISTENT, p) && !PreservesSolutions(INCONSISTENT, out, names, p)
  {
    hide SimplifiedTo, PreservesSolutions, HasConflict, Satisfiable, ValidCircuit;
    InconsistentIsValid(p);
    InconsistentConflicts(p);
    InconsistentSurvives(p);
    PreservedExactly(INCONSISTENT, out, names, subs, p);
  }
}
