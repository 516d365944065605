/**
 The simplification of a circuit (circom/constraint_list/src/constraint_simplification.rs, simplification): equalities,
 constants and linear constraints are eliminated, the results pushed into the quadratic constraints, and the
 constraints that become linear eliminated in turn, round after round.
 */
module Simplification {
  import opened Field
  import opened LinearForms
  import opened Algebra
  import opened Rows
  import opened Orders
  import opened Elimination
  import opened Extension
  import opened Clusters
  import opened ClusterFacts
  import opened Equalities
  import opened ClusterPass
  import opened EncodedSubstitution
  import opened Constants
  import opened Conflicts
  import opened NonLinear
  import opened Relevance
  import opened Witness

  /** What the simplifier is given; the quadratic constraints are listed in the order of the circuit's tree. */
  datatype Circuit = Circuit(equalities: seq<Constraint>, consEqualities: seq<Constraint>, linear: seq<Constraint>,
                             nonLinear: seq<Constraint>, forbidden: set<nat>, maxSignal: nat)

  /** The kinds the mapping sorts the constraints into, over signals below maxSignal. */
  ghost predicate ValidCircuit(k: Circuit, p: int)
    requires p > 0
  {
    && CONSTANT in k.forbidden
    && (forall c :: c in k.equalities ==> GoodEquality(c, p))
    && (forall c :: c in k.consEqualities ==> IsConstantEquality(c) && LinearRow(c, p))
    && (forall c :: c in k.linear ==> LinearRow(c, p))
    && (forall c :: c in k.nonLinear ==> CanonicalConstraint(c, p))
    && SignalsOf(k.equalities) <= Ids(k.maxSignal) && SignalsOf(k.consEqualities) <= Ids(k.maxSignal)
    && SignalsOf(k.linear) <= Ids(k.maxSignal) && SignalsOf(k.nonLinear) <= Ids(k.maxSignal)
  }

  ghost predicate CircuitHolds(k: Circuit, w: Assignment, p: int)
    requires p > 0
  {
    AllHold(k.equalities, w, p) && AllHold(k.consEqualities, w, p) && AllHold(k.linear, w, p) && AllHold(k.nonLinear, w, p)
  }

  /** The circuit without the constant equalities that a later one takes the place of. */
  ghost predicate SurvivingHolds(k: Circuit, w: Assignment, p: int)
    requires p > 0
  {
    && AllHold(k.equalities, w, p)
    && SurvivorsHold(k.equalities, k.consEqualities, k.forbidden, w, p)
    && AllHold(k.linear, w, p)
    && AllHold(k.nonLinear, w, p)
  }

  // ------------------------------------------------------------------ the state between rounds

  /** The signals still in use. */
  ghost function Current(lconst: seq<Constraint>, linear: seq<Constraint>, stored: seq<Constraint>): set<nat> {
    SignalsOf(lconst) + SignalsOf(linear) + SignalsOf(stored)
  }

  /** The eliminated signals and the constraints left say exactly what the circuit said. */
  ghost predicate Exact(k: Circuit, subs: seq<Substitution>, lconst: seq<Constraint>, linear: seq<Constraint>, stored: seq<Constraint>, p: int)
    requires p > 0
  {
    forall w: Assignment :: SurvivingHolds(k, w, p) <==>
                            SubsHold(subs, w, p) && AllHold(lconst, w, p) && AllHold(linear, w, p) && AllHold(stored, w, p)
  }

  ghost predicate InProgress(k: Circuit, subs: seq<Substitution>, lconst: seq<Constraint>, linear: seq<Constraint>, stored: seq<Constraint>, p: int)
    requires p > 0
  {
    && Exact(k, subs, lconst, linear, stored, p)
    && Triangular(subs)
    && Froms(subs) !! k.forbidden && Froms(subs) !! Current(lconst, linear, stored)
    && Froms(subs) <= Ids(k.maxSignal) && Current(lconst, linear, stored) <= Ids(k.maxSignal)
    && CanonicalAll(lconst, p) && CanonicalAll(stored, p)
    && (forall c :: c in linear ==> LinearRow(c, p))
  }

  lemma FromsAppend(a: seq<Substitution>, b: seq<Substitution>)
    ensures Froms(a + b) == Froms(a) + Froms(b)
  {}

  lemma FromsMember(subs: seq<Substitution>, i: nat)
    requires i < |subs|
    ensures subs[i].from in Froms(subs)
  {}

  /** Later substitutions over signals that are still in use keep the elimination order. */
  lemma TriangularAppend(a: seq<Substitution>, b: seq<Substitution>, forbidden: set<nat>, u: set<nat>, p: int)
    requires Triangular(a) && Solved(b) && GoodSubstitutions(b, forbidden, u, p) && Froms(a) !! u
    ensures Triangular(a + b)
  {
    var s := a + b;
    forall j | 0 <= j < |b|
      ensures b[j].from in u && b[j].to.Keys <= u + {CONSTANT}
    {
      assert b[j] in b;
    }
    assert forall i :: 0 <= i < |a| ==> a[i].from in Froms(a);
  }

  lemma GoodTargets(subs: seq<Substitution>, forbidden: set<nat>, u: set<nat>, p: int)
    requires GoodSubstitutions(subs, forbidden, u, p)
    ensures Targets(subs) <= u && Froms(subs) <= u && Froms(subs) !! forbidden
  {}

  // ------------------------------------------------------------------ one round

  lemma RoundExact(k: Circuit, subs: seq<Substitution>, lconst: seq<Constraint>, linear: seq<Constraint>, stored: seq<Constraint>,
                   round: seq<Substitution>, cons: seq<Constraint>, lconst': seq<Constraint>, mid: seq<Constraint>,
                   stored': seq<Constraint>, linear': seq<Constraint>, p: int)
    requires p > 0 && Exact(k, subs, lconst, linear, stored, p)
    requires PassResult(linear, round, cons, k.forbidden, p)
    requires PropagatedAll(round, |round|, lconst + cons, lconst', p)
    requires RoundResult(round, stored, mid, stored', linear', p)
    ensures Exact(k, subs + round, lconst', linear', stored', p)
  {
    hide SurvivingHolds, AllHold, SubsHold, PropagatedAll, RoundResult, Kept, Solved, GoodSubstitutions;
    forall w: Assignment
      ensures SurvivingHolds(k, w, p) <==>
              SubsHold(subs + round, w, p) && AllHold(lconst', w, p) && AllHold(linear', w, p) && AllHold(stored', w, p)
    {
      SubsHoldAppend(subs, round, w, p);
      AllHoldConcat(lconst, cons, w, p);
      if SubsHold(round, w, p) {
        PropagatedHold(round, lconst + cons, lconst', w, p);
        RoundHolds(round, stored, mid, stored', linear', w, p);
      }
    }
  }

  lemma KeptSignals(cons: seq<Constraint>, forbidden: set<nat>, u: set<nat>, p: int)
    requires forall c :: c in cons ==> Kept(c, forbidden, u, p)
    ensures SignalsOf(cons) <= forbidden && SignalsOf(cons) <= u && CanonicalAll(cons, p)
  {
    forall i | 0 <= i < |cons|
      ensures CanonicalConstraint(cons[i], p)
    {
      assert cons[i] in cons;
    }
  }

  lemma CanonicalConcat(a: seq<Constraint>, b: seq<Constraint>, p: int)
    requires CanonicalAll(a, p) && CanonicalAll(b, p)
    ensures CanonicalAll(a + b, p)
  {}

  lemma PassFacts(linear: seq<Constraint>, subs: seq<Substitution>, cons: seq<Constraint>, forbidden: set<nat>, p: int)
    requires p > 0 && PassResult(linear, subs, cons, forbidden, p)
    ensures Solved(subs) && GoodSubstitutions(subs, forbidden, SignalsOf(linear), p)
    ensures forall c :: c in cons ==> Kept(c, forbidden, SignalsOf(linear), p)
  {}

  lemma RoundRows(subs: seq<Substitution>, olds: seq<Constraint>, mid: seq<Constraint>, news: seq<Constraint>, linear: seq<Constraint>, p: int)
    requires p > 0 && RoundResult(subs, olds, mid, news, linear, p)
    ensures forall c :: c in linear ==> LinearRow(c, p)
  {}

  /** A round keeps everything, and the signals it eliminates are gone for good. */
  lemma RoundProgress(k: Circuit, subs: seq<Substitution>, lconst: seq<Constraint>, linear: seq<Constraint>, stored: seq<Constraint>,
                      round: seq<Substitution>, cons: seq<Constraint>, lconst': seq<Constraint>, mid: seq<Constraint>,
                      stored': seq<Constraint>, linear': seq<Constraint>, p: int)
    requires p > 0 && InProgress(k, subs, lconst, linear, stored, p)
    requires PassResult(linear, round, cons, k.forbidden, p)
    requires PropagatedAll(round, |round|, lconst + cons, lconst', p)
    requires RoundResult(round, stored, mid, stored', linear', p)
    ensures InProgress(k, subs + round, lconst', linear', stored', p)
    ensures Current(lconst', linear', stored') <= Current(lconst, linear, stored) - Froms(round)
    ensures Froms(round) <= Current(lconst, linear, stored)
  {
    hide Exact, PassResult, PropagatedAll, SignalsOf, Froms, Targets, Solved, GoodSubstitutions, CanonicalAll, Triangular, Kept, Extracted,
         LinearRow, Ids, RoundResult;
    RoundExact(k, subs, lconst, linear, stored, round, cons, lconst', mid, stored', linear', p);
    RoundRows(round, stored, mid, stored', linear', p);
    PassFacts(linear, round, cons, k.forbidden, p);
    GoodTargets(round, k.forbidden, SignalsOf(linear), p);
    KeptSignals(cons, k.forbidden, SignalsOf(linear), p);
    SignalsOfAppend(lconst, cons);
    PropagatedSignals(round, lconst + cons, lconst', p);
    RoundSignals(round, stored, mid, stored', linear', p);
    TriangularAppend(subs, round, k.forbidden, SignalsOf(linear), p);
    FromsAppend(subs, round);
  }

  lemma FromsEmpty(subs: seq<Substitution>)
    requires subs != []
    ensures Froms(subs) != {}
  {
    FromsMember(subs, 0);
  }

  lemma SmallerCurrent(before: set<nat>, after: set<nat>, gone: set<nat>)
    requires after <= before - gone && gone <= before && gone != {}
    ensures |after| < |before| && after < before
  {
    assert after <= before - gone;
    SubsetSize(after, before - gone);
    assert |before - gone| == |before| - |gone|;
  }

  lemma {:induction false} SubsetSize(a: set<nat>, b: set<nat>)
    requires a <= b
    ensures |a| <= |b|
  {
    assert b == a + (b - a);
    assert |b| == |a| + |b - a|;
  }

  /** The rows of a list that is in use have their signals in range. */
  lemma RowsInRange(k: Circuit, subs: seq<Substitution>, lconst: seq<Constraint>, linear: seq<Constraint>, stored: seq<Constraint>, p: int)
    requires p > 0 && InProgress(k, subs, lconst, linear, stored, p)
    ensures forall c, s :: c in linear && s in Signals(c) ==> s < k.maxSignal
    ensures forall c :: c in linear ==> LinearRow(c, p)
    ensures CanonicalAll(lconst, p) && CanonicalAll(stored, p)
  {
    hide Exact, Signals, LinearRow, CanonicalAll, Triangular;
    forall c, s | c in linear && s in Signals(c)
      ensures s < k.maxSignal
    {
      assert s in SignalsOf(linear);
    }
  }

  /** Constraints over forbidden signals stay that. */
  lemma StaysForbidden(round: seq<Substitution>, lconst: seq<Constraint>, cons: seq<Constraint>, lconst': seq<Constraint>,
                       forbidden: set<nat>, u: set<nat>, p: int)
    requires p > 0 && PropagatedAll(round, |round|, lconst + cons, lconst', p)
    requires GoodSubstitutions(round, forbidden, u, p) && forall c :: c in cons ==> Kept(c, forbidden, u, p)
    ensures SignalsOf(lconst) <= forbidden ==> SignalsOf(lconst') <= forbidden
  {
    hide PropagatedAll, SignalsOf, Froms, Targets, GoodSubstitutions, Kept;
    KeptSignals(cons, forbidden, u, p);
    SignalsOfAppend(lconst, cons);
    GoodTargets(round, forbidden, u, p);
    PropagatedSignals(round, lconst + cons, lconst', p);
  }

  /** One simplification of linear constraints: the list, and the substitutions it gave. */
  datatype Pass = Pass(linear: seq<Constraint>, subs: seq<Substitution>)

  ghost predicate Passed(s: Pass, forbidden: set<nat>, useOldHeuristics: bool, p: int)
    requires p > 0
  {
    && ChosenByCluster(s.linear, s.subs, forbidden, useOldHeuristics)
    && exists cons: seq<Constraint> :: PassResult(s.linear, s.subs, cons, forbidden, p)
  }

  ghost predicate AllPassed(passes: seq<Pass>, forbidden: set<nat>, useOldHeuristics: bool, p: int)
    requires p > 0
  {
    forall s :: s in passes ==> Passed(s, forbidden, useOldHeuristics, p)
  }

  ghost function PassSubs(passes: seq<Pass>): seq<Substitution> {
    if passes == [] then [] else PassSubs(passes[..|passes| - 1]) + passes[|passes| - 1].subs
  }

  lemma InCurrent(lconst: seq<Constraint>, linear: seq<Constraint>, stored: seq<Constraint>)
    ensures SignalsOf(linear) + SignalsOf(stored) <= Current(lconst, linear, stored)
  {}

  lemma NoPasses(forbidden: set<nat>, useOldHeuristics: bool, p: int)
    requires p > 0
    ensures AllPassed([], forbidden, useOldHeuristics, p) && PassSubs([]) == []
  {}

  lemma NextPass(passes: seq<Pass>, s: Pass, subs0: seq<Substitution>, cons: seq<Constraint>, forbidden: set<nat>, useOldHeuristics: bool, p: int)
    requires p > 0 && AllPassed(passes, forbidden, useOldHeuristics, p)
    requires ChosenByCluster(s.linear, s.subs, forbidden, useOldHeuristics) && PassResult(s.linear, s.subs, cons, forbidden, p)
    ensures AllPassed(passes + [s], forbidden, useOldHeuristics, p)
    ensures subs0 + PassSubs(passes + [s]) == subs0 + PassSubs(passes) + s.subs
  {
    SnocSubs(passes, s);
  }

  /**
   The rounds. A round that triggers another eliminated a signal that was still in use, so the rounds end whatever
   number of them is allowed.
   */
  method Rounds(k: Circuit, storage: ConstraintStorage, index0: SignalToConstraints, lconst0: seq<Constraint>, linear0: seq<Constraint>,
                deleted0: set<nat>, noRounds0: nat, applyLinear: bool, useOldHeuristics: bool, field: int, ghost subs0: seq<Substitution>)
    returns (index: SignalToConstraints, lconst: seq<Constraint>, linear: seq<Constraint>, deleted: set<nat>, roundId: nat,
             ghost subs: seq<Substitution>, ghost passes: seq<Pass>)
    requires Prime(field) && CONSTANT in k.forbidden
    requires InProgress(k, subs0, lconst0, linear0, storage.constraints, field)
    requires IndexCovers(index0, storage.constraints) && IndexWithin(index0, |storage.constraints|)
    requires deleted0 == Froms(subs0)
    modifies storage
    ensures InProgress(k, subs, lconst, linear, storage.constraints, field)
    ensures IndexCovers(index, storage.constraints) && IndexWithin(index, |storage.constraints|)
    ensures deleted == Froms(subs) && subs == subs0 + PassSubs(passes)
    ensures index.Keys <= index0.Keys + Current(lconst0, linear0, old(storage.constraints)) + {CONSTANT}
    ensures roundId == 0 ==> index == index0 && linear == linear0 && lconst == lconst0 && storage.constraints == old(storage.constraints)
    ensures Current(lconst, linear, storage.constraints) <= Current(lconst0, linear0, old(storage.constraints))
    ensures |passes| == roundId && (roundId > 0 ==> passes[0].linear == linear0)
    ensures AllPassed(passes, k.forbidden, useOldHeuristics, field)
    ensures roundId <= |Current(lconst0, linear0, old(storage.constraints))| + 1
    ensures roundId <= noRounds0
    ensures if applyLinear then linear == [] || roundId == noRounds0 else roundId == 0
    ensures SignalsOf(lconst0) <= k.forbidden ==> SignalsOf(lconst) <= k.forbidden
    ensures NoneLinear(old(storage.constraints)) ==> NoneLinear(storage.constraints)
  {
    hide InProgress, IndexCovers, IndexWithin, PassResult, Solved, GoodSubstitutions, CanonicalAll, LinearRow, Signals, SignalsOf, Froms,
         PropagatedAll, RoundResult, Kept, Current, IndexGrows, NoneLinear, AllPassed, ChosenByCluster, Targets;
    index, lconst, linear, deleted, subs, passes := index0, lconst0, linear0, deleted0, subs0, [];
    NoPasses(k.forbidden, useOldHeuristics, field);
    roundId := 0;
    var noRounds := noRounds0;
    var applyRound := applyLinear && noRounds > 0 && linear != [];
    while applyRound
      invariant InProgress(k, subs, lconst, linear, storage.constraints, field)
      invariant IndexCovers(index, storage.constraints) && IndexWithin(index, |storage.constraints|)
      invariant deleted == Froms(subs) && subs == subs0 + PassSubs(passes)
      invariant Current(lconst, linear, storage.constraints) <= Current(lconst0, linear0, old(storage.constraints))
      invariant index.Keys <= index0.Keys + Current(lconst0, linear0, old(storage.constraints)) + {CONSTANT}
      invariant roundId == 0 ==> index == index0 && linear == linear0 && lconst == lconst0 && storage.constraints == old(storage.constraints)
      invariant |passes| == roundId && AllPassed(passes, k.forbidden, useOldHeuristics, field)
      invariant roundId > 0 ==> passes[0].linear == linear0
      invariant applyRound <==> applyLinear && linear != [] && noRounds > 0
      invariant noRounds >= 0 && roundId + noRounds == noRounds0
      invariant !applyLinear ==> roundId == 0
      invariant SignalsOf(lconst0) <= k.forbidden ==> SignalsOf(lconst) <= k.forbidden
      invariant NoneLinear(old(storage.constraints)) ==> NoneLinear(storage.constraints)
      invariant roundId + |Current(lconst, linear, storage.constraints)|
                <= |Current(lconst0, linear0, old(storage.constraints))| + (if applyRound then 0 else 1)
      decreases |Current(lconst, linear, storage.constraints)|, applyRound
    {
      RowsInRange(k, subs, lconst, linear, storage.constraints, field);
      ghost var before := Current(lconst, linear, storage.constraints);
      ghost var stored := storage.constraints;
      var substitutions, constants := LinearSimplification(linear, k.forbidden, k.maxSignal, field, useOldHeuristics);
      PassFacts(linear, substitutions, constants, k.forbidden, field);
      KeptSignals(constants, k.forbidden, SignalsOf(linear), field);
      CanonicalConcat(lconst, constants, field);
      var lconst', index', linear';
      ghost var mid;
      lconst' := ApplySubstitutions(lconst + constants, substitutions, k.forbidden, SignalsOf(linear), field);
      index', linear', mid := ApplySubstitutionToMap(storage, index, substitutions, k.forbidden, SignalsOf(linear), field);
      RoundProgress(k, subs, lconst, linear, stored, substitutions, constants, lconst', mid, storage.constraints, linear', field);
      FromsAppend(subs, substitutions);
      GoodTargets(substitutions, k.forbidden, SignalsOf(linear), field);
      InCurrent(lconst, linear, stored);
      StaysForbidden(substitutions, lconst, constants, lconst', k.forbidden, SignalsOf(linear), field);
      if substitutions != [] {
        FromsEmpty(substitutions);
        SmallerCurrent(before, Current(lconst', linear', storage.constraints), Froms(substitutions));
      } else {
        SubsetSize(Current(lconst', linear', storage.constraints), before);
      }
      NextPass(passes, Pass(linear, substitutions), subs0, constants, k.forbidden, useOldHeuristics, field);
      passes := passes + [Pass(linear, substitutions)];
      deleted := deleted + FromSet(substitutions);
      lconst, index, linear, subs := lconst', index', linear', subs + substitutions;
      roundId := roundId + 1;
      noRounds := noRounds - 1;
      applyRound := linear != [] && noRounds > 0;
    }
  }

  /** The eliminated signals of a list of substitutions. */
  function FromSet(subs: seq<Substitution>): (r: set<nat>)
    ensures r == Froms(subs)
  {
    set s | s in subs :: s.from
  }

  // ------------------------------------------------------------------ the stages before the first round

  /** Everything the stages produce. */
  datatype Stages = Stages(equalitySubs: seq<Substitution>, equalityCons: seq<Constraint>, renamings: Encoded,
                           consEqualities: seq<Constraint>, linear: seq<Constraint>,
                           constantSubs: seq<Substitution>, constantCons: seq<Constraint>, constants: Encoded,
                           reduced: seq<Constraint>,
                           linearSubs: seq<Substitution>, lconst: seq<Constraint>, eliminations: Encoded)

  ghost predicate AllRewritten(enc: Encoded, cs: seq<Constraint>, rs: seq<Constraint>, p: int)
    requires p > 0
  {
    |rs| == |cs| && forall i :: 0 <= i < |rs| ==> Rewritten(enc, cs[i], rs[i], p)
  }

  ghost predicate EqualityStage(k: Circuit, st: Stages, p: int)
    requires p > 0
  {
    && PassResult(k.equalities, st.equalitySubs, st.equalityCons, k.forbidden, p)
    && ImagesOk(k.equalities, st.equalitySubs, k.forbidden)
    && st.renamings == Encode(st.equalitySubs)
    && AllRewritten(st.renamings, k.consEqualities, st.consEqualities, p)
    && AllRewritten(st.renamings, k.linear, st.linear, p)
  }

  ghost predicate ConstantStage(k: Circuit, st: Stages, p: int)
    requires p > 0
  {
    && (exists origin: seq<nat> :: ConstantsResult(st.consEqualities, st.constantSubs, st.constantCons, origin, SignalsOf(st.consEqualities), k.forbidden, p))
    && st.constants == Encode(st.constantSubs)
    && AllRewritten(st.constants, st.linear, st.reduced, p)
  }

  ghost predicate LinearStage(k: Circuit, st: Stages, relevant: set<nat>, p: int)
    requires p > 0
  {
    && (forall w: Assignment :: AllHold(st.equalityCons + st.constantCons, w, p) && AllHold(st.reduced, w, p)
                                <==> AllHold(st.lconst, w, p) && SubsHold(st.linearSubs, w, p))
    && Solved(st.linearSubs) && GoodSubstitutions(st.linearSubs, k.forbidden, SignalsOf(st.reduced), p)
    && st.eliminations == Restrict(Encode(st.linearSubs), relevant)
    && SignalsOf(st.lconst) <= SignalsOf(st.equalityCons + st.constantCons) + (SignalsOf(st.reduced) - Froms(st.linearSubs))
    && CanonicalAll(st.lconst, p)
  }

  lemma RewrittenRows(enc: Encoded, cs: seq<Constraint>, rs: seq<Constraint>, forbidden: set<nat>, u: set<nat>, p: int)
    requires p > 0 && AllRewritten(enc, cs, rs, p) && GoodEncoded(enc, forbidden, u, p) && SolvedEncoded(enc)
    ensures (forall c :: c in cs ==> LinearRow(c, p)) ==> (forall c :: c in rs ==> LinearRow(c, p))
    ensures (forall c :: c in cs ==> CanonicalConstraint(c, p)) ==> CanonicalAll(rs, p)
    ensures SignalsOf(rs) <= SignalsOf(cs) + u && SignalsOf(rs) !! enc.Keys
    ensures SignalsOf(rs) <= EncodedImage(enc, SignalsOf(cs))
  {
    hide LinearRow, CanonicalConstraint, Signals, EncodedImage, ReadsAs, Holds, EncodedHolds, GoodEncoded, SolvedEncoded;
    forall i | 0 <= i < |rs|
      ensures Signals(rs[i]) <= EncodedImage(enc, SignalsOf(cs))
      ensures LinearRow(cs[i], p) ==> LinearRow(rs[i], p)
      ensures CanonicalConstraint(cs[i], p) ==> CanonicalConstraint(rs[i], p)
      ensures cs[i] in cs
    {
      assert Rewritten(enc, cs[i], rs[i], p);
      assert cs[i] in cs;
      assert Signals(cs[i]) <= SignalsOf(cs);
      ImageMonotonic(enc, Signals(cs[i]), SignalsOf(cs));
    }
    ImageWithin(enc, SignalsOf(cs), forbidden, u, p);
    ImageAvoidsKeys(enc, SignalsOf(cs));
    forall s | s in SignalsOf(rs)
      ensures s in EncodedImage(enc, SignalsOf(cs))
    {
      var c :| c in rs && s in Signals(c);
      var i :| 0 <= i < |rs| && rs[i] == c;
    }
  }

  lemma ConstantEqualityFixes(c: Constraint, p: int) returns (x: nat)
    requires IsConstantEquality(c) && LinearRow(c, p)
    ensures FixesSignal(c, x, p)
  {
    var ks := c.c.Keys - {CONSTANT};
    assert |c.c.Keys| == |c.c|;
    assert |ks| == 1;
    x :| x in ks;
    forall y | y in ks
      ensures y == x
    {
      if y != x {
        SizeTwo(ks, x, y);
        assert false;
      }
    }
    assert Signals(c) == {x};
  }

  lemma GoodWiden(subs: seq<Substitution>, forbidden: set<nat>, u: set<nat>, v: set<nat>, p: int)
    requires GoodSubstitutions(subs, forbidden, u, p) && u <= v
    ensures GoodSubstitutions(subs, forbidden, v, p)
  {}

  lemma EncodeKeys(subs: seq<Substitution>)
    ensures Encode(subs).Keys == Froms(subs)
  {}

  lemma EncodeRenames(equalities: seq<Constraint>, subs: seq<Substitution>, forbidden: set<nat>)
    requires ImagesOk(equalities, subs, forbidden)
    ensures AllRename(Encode(subs))
    ensures forall s :: s in subs ==> exists r: nat :: r != CONSTANT && s.to == map[r := 1]
  {
    hide Tied, Free, ImageOf, FormIntoExpr;
    EncodeEntries(subs);
    forall x | x in Encode(subs)
      ensures Encode(subs)[x].Signal?
    {
      var s :| s in subs && s.from == x && Encode(subs)[x] == FormIntoExpr(s.to);
      var r: nat :| r != CONSTANT && s.to == map[r := 1] && Tied(equalities, s.from, r);
      RenamingExpr(r);
    }
  }

  lemma SolvedTargets(subs: seq<Substitution>)
    requires Solved(subs)
    ensures forall s, t :: s in subs && t in subs ==> s.from !in t.to
  {}

  /** The renamings as a map. */
  lemma RenamingsGood(k: Circuit, subs: seq<Substitution>, cons: seq<Constraint>, p: int)
    requires p > 0 && ValidCircuit(k, p) && PassResult(k.equalities, subs, cons, k.forbidden, p)
    ensures GoodSubstitutions(subs, k.forbidden, Ids(k.maxSignal), p) && Solved(subs)
    ensures GoodEncoded(Encode(subs), k.forbidden, Ids(k.maxSignal), p) && SolvedEncoded(Encode(subs))
  {
    hide Solved, GoodSubstitutions, Encode, Kept, LinearRow, CanonicalConstraint, GoodEquality, SignalsOf, IsConstantEquality, GoodEncoded, SolvedEncoded;
    PassFacts(k.equalities, subs, cons, k.forbidden, p);
    GoodWiden(subs, k.forbidden, SignalsOf(k.equalities), Ids(k.maxSignal), p);
    EncodeGood(subs, k.forbidden, Ids(k.maxSignal), p);
    SolvedTargets(subs);
    EncodeSolved(subs, k.forbidden, Ids(k.maxSignal), p);
  }

  /** What the equalities leave behind. */
  lemma EqualityStageFacts(k: Circuit, st: Stages, p: int)
    requires Prime(p) && ValidCircuit(k, p) && EqualityStage(k, st, p)
    ensures GoodEncoded(st.renamings, k.forbidden, Ids(k.maxSignal), p) && SolvedEncoded(st.renamings) && AllRename(st.renamings)
    ensures st.renamings.Keys == Froms(st.equalitySubs)
    ensures Renamed(st.equalitySubs, k.consEqualities, st.consEqualities, p)
    ensures forall c :: c in st.linear ==> LinearRow(c, p)
    ensures SignalsOf(st.linear) <= Ids(k.maxSignal) && SignalsOf(st.linear) !! st.renamings.Keys
    ensures SignalsOf(st.consEqualities) <= Ids(k.maxSignal) && SignalsOf(st.consEqualities) !! st.renamings.Keys
  {
    hide PassResult, ImagesOk, Encode, SignalsOf, LinearRow, GoodEquality, IsConstantEquality, CanonicalConstraint, AllRewritten, GoodEncoded,
         SolvedEncoded, AllRename, Froms, Ids, Solved, GoodSubstitutions;
    RenamingsGood(k, st.equalitySubs, st.equalityCons, p);
    EncodeKeys(st.equalitySubs);
    EncodeRenames(k.equalities, st.equalitySubs, k.forbidden);
    RewrittenRows(st.renamings, k.linear, st.linear, k.forbidden, Ids(k.maxSignal), p);
    RewrittenRows(st.renamings, k.consEqualities, st.consEqualities, k.forbidden, Ids(k.maxSignal), p);
    AllRenamed(k, st.equalitySubs, st.consEqualities, p);
  }

  lemma AllRenamed(k: Circuit, subs: seq<Substitution>, cEq: seq<Constraint>, p: int)
    requires Prime(p) && forall c :: c in k.consEqualities ==> IsConstantEquality(c) && LinearRow(c, p)
    requires AllRewritten(Encode(subs), k.consEqualities, cEq, p)
    requires GoodSubstitutions(subs, k.forbidden, Ids(k.maxSignal), p)
    requires forall s :: s in subs ==> exists r: nat :: r != CONSTANT && s.to == map[r := 1]
    ensures Renamed(subs, k.consEqualities, cEq, p)
  {
    hide IsConstantEquality, LinearRow, Rewritten, FixesSignal, ImageOf, GoodSubstitutions, SubsHold, Encode, Holds;
    forall i | 0 <= i < |cEq|
      ensures RenamedOne(subs, k.consEqualities[i], cEq[i], p)
    {
      assert k.consEqualities[i] in k.consEqualities;
      RenamesOne(subs, k.consEqualities[i], cEq[i], k.forbidden, Ids(k.maxSignal), p);
    }
  }

  lemma RenamesOne(subs: seq<Substitution>, c: Constraint, d: Constraint, forbidden: set<nat>, u: set<nat>, p: int)
    requires Prime(p) && IsConstantEquality(c) && LinearRow(c, p) && Rewritten(Encode(subs), c, d, p)
    requires GoodSubstitutions(subs, forbidden, u, p)
    requires forall s :: s in subs ==> exists r: nat :: r != CONSTANT && s.to == map[r := 1]
    ensures RenamedOne(subs, c, d, p)
  {
    hide IsConstantEquality, LinearRow, FixesSignal, ImageOf, GoodSubstitutions, SubsHold, Encode, Holds, EncodedHolds;
    var x := ConstantEqualityFixes(c, p);
    var r := FixesRenamed(subs, c, x, d, p);
    forall w: Assignment | SubsHold(subs, w, p)
      ensures Holds(d, w, p) <==> Holds(c, w, p)
    {
      EncodeHolds(subs, forbidden, u, w, p);
    }
  }

  lemma ConstantsGood(cEq: seq<Constraint>, subs: seq<Substitution>, cons: seq<Constraint>, origin: seq<nat>, u: set<nat>, forbidden: set<nat>, p: int)
    requires p > 0 && ConstantsResult(cEq, subs, cons, origin, u, forbidden, p)
    ensures GoodSubstitutions(subs, forbidden, u, p)
    ensures GoodEncoded(Encode(subs), forbidden, u, p) && SolvedEncoded(Encode(subs)) && AllConstant(Encode(subs))
    ensures Encode(subs).Keys <= u
    ensures forall c :: c in cons ==> Kept(c, forbidden, u, p)
  {
    hide Encode, Solves, Signals, Kept, GoodEncoded, SolvedEncoded, AllConstant, ConstantSubstitution, GoodSubstitutions;
    forall s | s in subs
      ensures ConstantSubstitution(s, u, forbidden, p)
    {
      var i :| 0 <= i < |subs| && subs[i] == s;
    }
    ConstantGood(subs, u, forbidden, p);
    EncodeGood(subs, forbidden, u, p);
    EncodeSolved(subs, forbidden, u, p);
    EncodeConstant(subs, u, forbidden, p);
    EncodeKeys(subs);
    GoodTargets(subs, forbidden, u, p);
  }

  lemma EncodeConstant(subs: seq<Substitution>, u: set<nat>, forbidden: set<nat>, p: int)
    requires p > 0 && forall s :: s in subs ==> ConstantSubstitution(s, u, forbidden, p)
    ensures AllConstant(Encode(subs))
  {
    hide FormIntoExpr, AsSubstitution;
    EncodeEntries(subs);
    forall x | x in Encode(subs)
      ensures AsSubstitution(x, Encode(subs)[x]).to.Keys <= {CONSTANT}
    {
      var s :| s in subs && s.from == x && Encode(subs)[x] == FormIntoExpr(s.to);
      RoundTripShape(x, s.to, p);
    }
  }

  /** What the constants leave behind. */
  lemma ConstantStageFacts(k: Circuit, st: Stages, p: int)
    requires Prime(p) && ValidCircuit(k, p) && EqualityStage(k, st, p) && ConstantStage(k, st, p)
    ensures GoodEncoded(st.constants, k.forbidden, Ids(k.maxSignal), p) && SolvedEncoded(st.constants) && AllConstant(st.constants)
    ensures st.constants.Keys !! st.renamings.Keys && st.constants.Keys <= Ids(k.maxSignal)
    ensures forall c :: c in st.reduced ==> LinearRow(c, p)
    ensures SignalsOf(st.reduced) <= Ids(k.maxSignal) - st.renamings.Keys - st.constants.Keys
  {
    hide SignalsOf, LinearRow, GoodEncoded, SolvedEncoded, AllConstant, Ids, ValidCircuit, EqualityStage, ConstantsResult, AllRewritten, EncodedImage;
    EqualityStageFacts(k, st, p);
    var origin: seq<nat> :| ConstantsResult(st.consEqualities, st.constantSubs, st.constantCons, origin, SignalsOf(st.consEqualities), k.forbidden, p);
    ConstantsGood(st.consEqualities, st.constantSubs, st.constantCons, origin, SignalsOf(st.consEqualities), k.forbidden, p);
    EncodedWiden(st.constants, k.forbidden, SignalsOf(st.consEqualities), Ids(k.maxSignal), p);
    RewrittenRows(st.constants, st.linear, st.reduced, k.forbidden, Ids(k.maxSignal), p);
    ConstantImage(st.constants, SignalsOf(st.linear));
  }

  lemma EncodedWiden(enc: Encoded, forbidden: set<nat>, u: set<nat>, v: set<nat>, p: int)
    requires GoodEncoded(enc, forbidden, u, p) && u <= v
    ensures GoodEncoded(enc, forbidden, v, p)
  {}

  /** What the linear constraints leave behind. */
  lemma LinearStageFacts(k: Circuit, st: Stages, relevant: set<nat>, p: int)
    requires Prime(p) && ValidCircuit(k, p) && EqualityStage(k, st, p) && ConstantStage(k, st, p) && LinearStage(k, st, relevant, p)
    ensures var enc := Encode(st.linearSubs);
            GoodEncoded(enc, k.forbidden, SignalsOf(st.reduced), p) && SolvedEncoded(enc) && enc.Keys == Froms(st.linearSubs)
    ensures GoodEncoded(st.eliminations, k.forbidden, Ids(k.maxSignal), p) && SolvedEncoded(st.eliminations)
  {
    hide SignalsOf, LinearRow, GoodEncoded, SolvedEncoded, Ids, ValidCircuit, EqualityStage, ConstantStage, EncodedImage, Encode, Restrict,
         Solved, GoodSubstitutions, AllConstant;
    ConstantStageFacts(k, st, p);
    EncodeGood(st.linearSubs, k.forbidden, SignalsOf(st.reduced), p);
    SolvedTargets(st.linearSubs);
    EncodeSolved(st.linearSubs, k.forbidden, SignalsOf(st.reduced), p);
    EncodeKeys(st.linearSubs);
    RestrictGood(Encode(st.linearSubs), relevant, k.forbidden, SignalsOf(st.reduced), p);
    EncodedWiden(st.eliminations, k.forbidden, SignalsOf(st.reduced), Ids(k.maxSignal), p);
  }

  // ------------------------------------------------------------------ the stages together

  /** All substitutions of the stages, in elimination order. */
  ghost function AllSubs(st: Stages): seq<Substitution> {
    st.equalitySubs + ListOf(st.constants) + st.linearSubs
  }

  ghost function RelevantOnce(k: Circuit): set<nat> { RelevantSignals(k.nonLinear, map[], map[]) }

  ghost function RelevantTwice(k: Circuit, st: Stages): set<nat> {
    RelevantSignals(k.nonLinear, Restrict(st.renamings, RelevantOnce(k)), st.constants)
  }

  ghost function FramesOf(k: Circuit, st: Stages): seq<Encoded> {
    [Restrict(st.renamings, RelevantOnce(k)), st.constants, st.eliminations]
  }

  /** All stages, with the relevant signals each of them uses. */
  ghost predicate Staged(k: Circuit, st: Stages, p: int)
    requires p > 0
  {
    EqualityStage(k, st, p) && ConstantStage(k, st, p) && LinearStage(k, st, RelevantTwice(k, st), p)
  }

  lemma AllSubsHold(st: Stages, w: Assignment, p: int)
    requires p > 0
    ensures SubsHold(AllSubs(st), w, p) <==>
            SubsHold(st.equalitySubs, w, p) && EncodedHolds(st.constants, w, p) && SubsHold(st.linearSubs, w, p)
  {
    hide ListOf, SubsHold, EncodedHolds;
    SubsHoldAppend(st.equalitySubs + ListOf(st.constants), st.linearSubs, w, p);
    SubsHoldAppend(st.equalitySubs, ListOf(st.constants), w, p);
    ListOfHolds(st.constants, w, p);
  }

  /** The equalities and constant equalities, in terms of what the first two stages produced. */
  lemma ConstraintsSurvive(k: Circuit, st: Stages, w: Assignment, p: int)
    requires Prime(p) && ValidCircuit(k, p) && EqualityStage(k, st, p) && ConstantStage(k, st, p)
    ensures AllHold(k.equalities, w, p) && SurvivorsHold(k.equalities, k.consEqualities, k.forbidden, w, p) && AllHold(k.linear, w, p)
            <==> && AllHold(st.equalityCons, w, p) && AllHold(st.constantCons, w, p) && AllHold(st.reduced, w, p)
                 && SubsHold(st.equalitySubs, w, p) && EncodedHolds(st.constants, w, p)
  {
    hide SignalsOf, LinearRow, GoodEncoded, SolvedEncoded, AllRename, AllConstant, Ids, ValidCircuit, ImagesOk, Rewritten, Encode, Renamed, SurvivorsHold,
         AllHold, SubsHold, EncodedHolds, ConstantsResult, Solved, GoodSubstitutions, Kept;
    EqualityStageFacts(k, st, p);
    RenamingsGood(k, st.equalitySubs, st.equalityCons, p);
    assert AllHold(k.equalities, w, p) <==> AllHold(st.equalityCons, w, p) && SubsHold(st.equalitySubs, w, p);
    if SubsHold(st.equalitySubs, w, p) {
      EncodeHolds(st.equalitySubs, k.forbidden, Ids(k.maxSignal), w, p);
      RewrittenListHolds(st.renamings, k.linear, st.linear, w, p);
      var origin: seq<nat> :| ConstantsResult(st.consEqualities, st.constantSubs, st.constantCons, origin, SignalsOf(st.consEqualities), k.forbidden, p);
      ConstantsMean(k.equalities, st.equalitySubs, k.consEqualities, st.consEqualities, st.constantSubs, st.constantCons, origin,
                    SignalsOf(st.consEqualities), k.forbidden, w, p);
      if EncodedHolds(st.constants, w, p) {
        RewrittenListHolds(st.constants, st.linear, st.reduced, w, p);
      }
    }
  }

  /** Where all substitutions hold, so do the frames. */
  lemma AllFramesHold(k: Circuit, st: Stages, w: Assignment, p: int)
    requires Prime(p) && ValidCircuit(k, p) && Staged(k, st, p)
    requires SubsHold(st.equalitySubs, w, p) && EncodedHolds(st.constants, w, p) && SubsHold(st.linearSubs, w, p)
    ensures FramesHold(FramesOf(k, st), w, p)
  {
    hide SignalsOf, LinearRow, GoodEncoded, SolvedEncoded, AllRename, AllConstant, Ids, ImagesOk, Rewritten, Encode,
         AllHold, SubsHold, EncodedHolds, ConstantsResult, Solved, GoodSubstitutions, Kept, Restrict, RelevantOnce, RelevantTwice, ValidCircuit, PassResult;
    RenamingsGood(k, st.equalitySubs, st.equalityCons, p);
    EncodeHolds(st.equalitySubs, k.forbidden, Ids(k.maxSignal), w, p);
    RestrictHolds(st.renamings, RelevantOnce(k), w, p);
    EncodeHolds(st.linearSubs, k.forbidden, SignalsOf(st.reduced), w, p);
    RestrictHolds(Encode(st.linearSubs), RelevantTwice(k, st), w, p);
  }

  /** The circuit's meaning after all stages and after pushing the frames into the quadratic constraints. */
  lemma StagesExact(k: Circuit, st: Stages, linear: seq<Constraint>, stored: seq<Constraint>, p: int)
    requires Prime(p) && ValidCircuit(k, p) && Staged(k, st, p)
    requires FromList(FramesOf(k, st), k.nonLinear, |k.nonLinear|, linear + stored, p)
    ensures Exact(k, AllSubs(st), st.lconst, linear, stored, p)
  {
    hide AllHold, SubsHold, EncodedHolds, FramesOf, FramesHold, FromList, AllSubs, EqualityStage, ConstantStage, ValidCircuit, RelevantTwice, SurvivorsHold,
         Solved, GoodSubstitutions, SignalsOf, CanonicalAll, Restrict, Encode;
    forall w: Assignment
      ensures SurvivingHolds(k, w, p) <==>
              SubsHold(AllSubs(st), w, p) && AllHold(st.lconst, w, p) && AllHold(linear, w, p) && AllHold(stored, w, p)
    {
      ConstraintsSurvive(k, st, w, p);
      AllSubsHold(st, w, p);
      AllHoldConcat(st.equalityCons, st.constantCons, w, p);
      AllHoldConcat(linear, stored, w, p);
      if SubsHold(st.equalitySubs, w, p) && EncodedHolds(st.constants, w, p) && SubsHold(st.linearSubs, w, p) {
        AllFramesHold(k, st, w, p);
        FromListHolds(FramesOf(k, st), k.nonLinear, linear + stored, w, p);
      }
    }
  }

  // ------------------------------------------------------------------ the stages eliminate for good

  /** The constraints made by the frames mention no eliminated signal. */
  lemma FromListSignals(k: Circuit, frames: seq<Encoded>, rs: seq<Constraint>, gone: set<nat>, u: set<nat>, p: int)
    requires p > 0 && FromList(frames, k.nonLinear, |k.nonLinear|, rs, p)
    requires forall c :: c in k.nonLinear ==> FramesImage(frames, Signals(c)) !! gone && FramesImage(frames, Signals(c)) <= u
    ensures SignalsOf(rs) !! gone && SignalsOf(rs) <= u
    ensures forall r :: r in rs ==> CanonicalConstraint(r, p)
  {
    hide IntoSome, Holds, FramesHold, Signals, FramesImage, CanonicalConstraint;
    forall r | r in rs
      ensures Signals(r) !! gone && Signals(r) <= u && CanonicalConstraint(r, p)
    {
      var i :| 0 <= i < |k.nonLinear| && Framed(frames, k.nonLinear[i], r, p);
      assert k.nonLinear[i] in k.nonLinear;
    }
  }

  lemma SplitList(a: seq<Constraint>, b: seq<Constraint>, p: int)
    requires forall r :: r in a + b ==> CanonicalConstraint(r, p)
    ensures CanonicalAll(b, p)
    ensures SignalsOf(a + b) == SignalsOf(a) + SignalsOf(b)
  {}

  /** The frames leave no eliminated signal in a quadratic constraint. */
  lemma FramesClear(k: Circuit, st: Stages, c: Constraint, p: int)
    requires Prime(p) && ValidCircuit(k, p) && Staged(k, st, p) && c in k.nonLinear
    ensures FramesImage(FramesOf(k, st), Signals(c)) !! st.renamings.Keys + st.constants.Keys + Froms(st.linearSubs)
    ensures FramesImage(FramesOf(k, st), Signals(c)) <= Ids(k.maxSignal)
  {
    var enc := Encode(st.linearSubs);
    NonLinearInRange(k, c, p);
    hide SignalsOf, LinearRow, GoodEncoded, SolvedEncoded, AllRename, AllConstant, Ids, ValidCircuit, EqualityStage, ConstantStage, LinearStage,
         RelevantTwice, Froms, FramesImage, Signals, Restrict, Encode;
    EqualityStageFacts(k, st, p);
    ConstantStageFacts(k, st, p);
    LinearStageFacts(k, st, RelevantTwice(k, st), p);
    StageFrames(k, st, p);
    FramesEliminate(k.nonLinear, st.renamings, st.constants, enc, Signals(c), SignalsOf(st.reduced), k.forbidden, p);
    RestrictGood(st.renamings, RelevantOnce(k), k.forbidden, Ids(k.maxSignal), p);
    FramesWithin(Restrict(st.renamings, RelevantOnce(k)), st.constants, st.eliminations, Signals(c), k.forbidden, Ids(k.maxSignal), p);
  }

  lemma NonLinearInRange(k: Circuit, c: Constraint, p: int)
    requires p > 0 && ValidCircuit(k, p) && c in k.nonLinear
    ensures Signals(c) <= SignalsOf(k.nonLinear) && Signals(c) <= Ids(k.maxSignal) && CanonicalConstraint(c, p)
  {}

  lemma StageFrames(k: Circuit, st: Stages, p: int)
    requires p > 0 && LinearStage(k, st, RelevantTwice(k, st), p)
    ensures FramesOf(k, st) == [Restrict(st.renamings, RelevantSignals(k.nonLinear, map[], map[])), st.constants,
                                Restrict(Encode(st.linearSubs), RelevantSignals(k.nonLinear, Restrict(st.renamings, RelevantSignals(k.nonLinear, map[], map[])), st.constants))]
  {}

  /** The frames are fit to be applied. */
  lemma FramesGood(k: Circuit, st: Stages, p: int)
    requires Prime(p) && ValidCircuit(k, p) && Staged(k, st, p)
    ensures GoodFrames(FramesOf(k, st), k.forbidden, Ids(k.maxSignal), p)
  {
    hide SignalsOf, LinearRow, GoodEncoded, SolvedEncoded, AllRename, AllConstant, Ids, ValidCircuit, EqualityStage, ConstantStage, LinearStage,
         RelevantTwice, Froms, Restrict, Encode;
    EqualityStageFacts(k, st, p);
    ConstantStageFacts(k, st, p);
    LinearStageFacts(k, st, RelevantTwice(k, st), p);
    RestrictGood(st.renamings, RelevantOnce(k), k.forbidden, Ids(k.maxSignal), p);
  }

  /** The substitutions of all stages are in elimination order and eliminate distinct signals. */
  lemma StagesTriangular(k: Circuit, st: Stages, p: int)
    requires Prime(p) && ValidCircuit(k, p) && Staged(k, st, p)
    ensures Triangular(AllSubs(st))
    ensures Froms(AllSubs(st)) == st.renamings.Keys + st.constants.Keys + Froms(st.linearSubs)
    ensures Froms(AllSubs(st)) !! k.forbidden && Froms(AllSubs(st)) <= Ids(k.maxSignal)
  {
    hide SignalsOf, LinearRow, GoodEncoded, SolvedEncoded, AllRename, AllConstant, Ids, ValidCircuit, PassResult, ImagesOk, AllRewritten, ConstantsResult,
         RelevantTwice, Froms, ListOf, Triangular, Solved, GoodSubstitutions, Encode, Kept, AllHold, SubsHold, CanonicalAll, Restrict;
    var cEq := SignalsOf(st.consEqualities);
    EqualityStageFacts(k, st, p);
    RenamingsGood(k, st.equalitySubs, st.equalityCons, p);
    ConstantStageFacts(k, st, p);
    var origin: seq<nat> :| ConstantsResult(st.consEqualities, st.constantSubs, st.constantCons, origin, SignalsOf(st.consEqualities), k.forbidden, p);
    ConstantsGood(st.consEqualities, st.constantSubs, st.constantCons, origin, cEq, k.forbidden, p);
    ListOfSolved(st.constants, k.forbidden, cEq, p);
    SolvedIsTriangular(st.equalitySubs, k.forbidden, Ids(k.maxSignal), p);
    TriangularAppend(st.equalitySubs, ListOf(st.constants), k.forbidden, cEq, p);
    FromsAppend(st.equalitySubs, ListOf(st.constants));
    TriangularAppend(st.equalitySubs + ListOf(st.constants), st.linearSubs, k.forbidden, SignalsOf(st.reduced), p);
    FromsAppend(st.equalitySubs + ListOf(st.constants), st.linearSubs);
    GoodTargets(st.equalitySubs, k.forbidden, Ids(k.maxSignal), p);
    GoodTargets(ListOf(st.constants), k.forbidden, cEq, p);
    GoodTargets(st.linearSubs, k.forbidden, SignalsOf(st.reduced), p);
  }

  /** Renaming brings in signals of equalities only. */
  lemma RenamedSignals(k: Circuit, st: Stages, p: int)
    requires Prime(p) && ValidCircuit(k, p) && EqualityStage(k, st, p)
    ensures st.renamings.Keys <= SignalsOf(k.equalities)
    ensures SignalsOf(st.consEqualities) <= SignalsOf(k.consEqualities) + SignalsOf(k.equalities)
    ensures SignalsOf(st.linear) <= SignalsOf(k.linear) + SignalsOf(k.equalities)
  {
    hide SignalsOf, LinearRow, GoodEncoded, SolvedEncoded, AllRename, Ids, ValidCircuit, PassResult, ImagesOk, AllRewritten, Solved,
         GoodSubstitutions, Encode, Kept, AllHold, SubsHold, CanonicalAll, Froms;
    var eq := SignalsOf(k.equalities);
    PassFacts(k.equalities, st.equalitySubs, st.equalityCons, k.forbidden, p);
    GoodTargets(st.equalitySubs, k.forbidden, eq, p);
    EncodeKeys(st.equalitySubs);
    EqualityStageFacts(k, st, p);
    EncodeGood(st.equalitySubs, k.forbidden, eq, p);
    RewrittenRows(st.renamings, k.consEqualities, st.consEqualities, k.forbidden, eq, p);
    RewrittenRows(st.renamings, k.linear, st.linear, k.forbidden, eq, p);
  }

  /** The stages eliminate signals of equalities, constant equalities and linear constraints only. */
  lemma StagesFroms(k: Circuit, st: Stages, p: int)
    requires Prime(p) && ValidCircuit(k, p) && Staged(k, st, p)
    ensures Froms(AllSubs(st)) <= SignalsOf(k.equalities) + SignalsOf(k.consEqualities) + SignalsOf(k.linear)
    ensures st.linearSubs == [] ==> Froms(AllSubs(st)) <= SignalsOf(k.equalities) + SignalsOf(k.consEqualities)
  {
    hide SignalsOf, LinearRow, GoodEncoded, SolvedEncoded, AllRename, AllConstant, Ids, ValidCircuit, PassResult, ImagesOk, AllRewritten, ConstantsResult,
         RelevantTwice, ListOf, Triangular, Solved, GoodSubstitutions, Encode, Kept, AllHold, SubsHold, CanonicalAll, Restrict, AllSubs;
    hide EqualityStage;
    var cEq := SignalsOf(st.consEqualities);
    StagesTriangular(k, st, p);
    RenamedSignals(k, st, p);
    var origin: seq<nat> :| ConstantsResult(st.consEqualities, st.constantSubs, st.constantCons, origin, SignalsOf(st.consEqualities), k.forbidden, p);
    ConstantsGood(st.consEqualities, st.constantSubs, st.constantCons, origin, cEq, k.forbidden, p);
    GoodTargets(st.constantSubs, k.forbidden, cEq, p);
    EncodeKeys(st.constantSubs);
    RewrittenRows(st.constants, st.linear, st.reduced, k.forbidden, cEq, p);
    GoodTargets(st.linearSubs, k.forbidden, SignalsOf(st.reduced), p);
    if st.linearSubs == [] {
      assert Froms(st.linearSubs) == {};
    }
  }

  /** The constraints kept so far mention no eliminated signal. */
  lemma KeptClear(k: Circuit, st: Stages, p: int)
    requires Prime(p) && ValidCircuit(k, p) && Staged(k, st, p)
    ensures SignalsOf(st.lconst) !! Froms(AllSubs(st)) && SignalsOf(st.lconst) <= Ids(k.maxSignal)
    ensures CanonicalAll(st.lconst, p)
  {
    hide SignalsOf, LinearRow, GoodEncoded, SolvedEncoded, AllRename, AllConstant, Ids, PassResult, ImagesOk, AllRewritten, ConstantsResult,
         RelevantTwice, Froms, AllSubs, Solved, GoodSubstitutions, Encode, Kept, AllHold, SubsHold, CanonicalAll, Restrict, GoodEquality, IsConstantEquality,
         CanonicalConstraint;
    StagesTriangular(k, st, p);
    EqualityStageFacts(k, st, p);
    ConstantStageFacts(k, st, p);
    PassFacts(k.equalities, st.equalitySubs, st.equalityCons, k.forbidden, p);
    KeptSignals(st.equalityCons, k.forbidden, SignalsOf(k.equalities), p);
    var origin: seq<nat> :| ConstantsResult(st.consEqualities, st.constantSubs, st.constantCons, origin, SignalsOf(st.consEqualities), k.forbidden, p);
    ConstantsGood(st.consEqualities, st.constantSubs, st.constantCons, origin, SignalsOf(st.consEqualities), k.forbidden, p);
    KeptSignals(st.constantCons, k.forbidden, SignalsOf(st.consEqualities), p);
    SignalsOfAppend(st.equalityCons, st.constantCons);
  }

  /** Before the first round. */
  lemma StagesProgress(k: Circuit, st: Stages, linear: seq<Constraint>, stored: seq<Constraint>, p: int)
    requires Prime(p) && ValidCircuit(k, p) && Staged(k, st, p)
    requires FromList(FramesOf(k, st), k.nonLinear, |k.nonLinear|, linear + stored, p)
    requires forall c :: c in linear ==> LinearRow(c, p)
    ensures InProgress(k, AllSubs(st), st.lconst, linear, stored, p)
  {
    hide SignalsOf, LinearRow, Ids, ValidCircuit, Staged, FramesOf, FromList, FramesImage, Signals, CanonicalConstraint, CanonicalAll, Exact, Triangular,
         AllSubs, Froms;
    StagesExact(k, st, linear, stored, p);
    StagesTriangular(k, st, p);
    KeptClear(k, st, p);
    forall c | c in k.nonLinear
      ensures FramesImage(FramesOf(k, st), Signals(c)) !! Froms(AllSubs(st)) && FramesImage(FramesOf(k, st), Signals(c)) <= Ids(k.maxSignal)
    {
      FramesClear(k, st, c, p);
    }
    FromListSignals(k, FramesOf(k, st), linear + stored, Froms(AllSubs(st)), Ids(k.maxSignal), p);
    SplitList(linear, stored, p);
  }

  // ------------------------------------------------------------------ the stages as the program runs them

  lemma ValidLists(k: Circuit, p: int)
    requires p > 0 && ValidCircuit(k, p)
    ensures CONSTANT in k.forbidden
    ensures forall c :: c in k.linear || c in k.consEqualities ==> LinearRow(c, p)
    ensures SignalsOf(k.equalities) <= Ids(k.maxSignal)
    ensures forall c :: c in k.equalities ==> GoodEquality(c, p)
    ensures forall c :: c in k.nonLinear ==> CanonicalConstraint(c, p)
  {}

  lemma InRange(cs: seq<Constraint>, n: nat)
    requires SignalsOf(cs) <= Ids(n)
    ensures forall c, s :: c in cs && s in Signals(c) ==> s < n
  {
    hide Ids, Signals;
    forall c, s | c in cs && s in Signals(c)
      ensures s < n
    {
      assert s in SignalsOf(cs);
    }
  }

  method EqualityPart(k: Circuit, field: int) returns (st: Stages)
    requires Prime(field) && ValidCircuit(k, field)
    ensures EqualityStage(k, st, field) && LeastImages(k.equalities, st.equalitySubs, k.forbidden)
  {
    hide PassResult, ImagesOk, LeastImages, Signals, LinearRow, CanonicalConstraint, GoodEquality, SignalsOf, Ids, GoodEncoded, SolvedEncoded, Rewritten, Encode;
    ValidLists(k, field);
    InRange(k.equalities, k.maxSignal);
    RowsCanonical(k.linear, field);
    RowsCanonical(k.consEqualities, field);
    var subs, cons := EqSimplification(k.equalities, k.forbidden, k.maxSignal, field);
    RenamingsGood(k, subs, cons, field);
    var renamings := BuildEncodedFastSubstitutions(subs);
    var linear := SubstituteAll(k.linear, renamings, k.forbidden, Ids(k.maxSignal), field);
    var consEqualities := SubstituteAll(k.consEqualities, renamings, k.forbidden, Ids(k.maxSignal), field);
    st := Stages(subs, cons, renamings, consEqualities, linear, [], [], map[], [], [], [], map[]);
  }

  lemma RenamedFixes(subs: seq<Substitution>, consEq: seq<Constraint>, cEq: seq<Constraint>, p: int)
    requires p > 0 && Renamed(subs, consEq, cEq, p)
    ensures forall c :: c in cEq ==> exists x :: x in SignalsOf(cEq) && FixesSignal(c, x, p)
  {}

  lemma RowsCanonical(cs: seq<Constraint>, p: int)
    requires forall c :: c in cs ==> LinearRow(c, p)
    ensures forall c :: c in cs ==> CanonicalConstraint(c, p)
  {}

  method ConstantPart(k: Circuit, st0: Stages, field: int) returns (st: Stages)
    requires Prime(field) && ValidCircuit(k, field) && EqualityStage(k, st0, field)
    ensures EqualityStage(k, st, field) && ConstantStage(k, st, field)
    ensures st == st0.(constantSubs := st.constantSubs, constantCons := st.constantCons, constants := st.constants, reduced := st.reduced)
  {
    hide PassResult, ImagesOk, Signals, LinearRow, CanonicalConstraint, GoodEquality, SignalsOf, Ids, GoodEncoded, SolvedEncoded, Rewritten, Encode,
         ConstantsResult, ValidCircuit, Renamed, FixesSignal, AllRename, AllConstant;
    EqualityStageFacts(k, st0, field);
    RenamedFixes(st0.equalitySubs, k.consEqualities, st0.consEqualities, field);
    ghost var u := SignalsOf(st0.consEqualities);
    var subs, cons;
    ghost var origin;
    subs, cons, origin := ConstantEqSimplification(st0.consEqualities, k.forbidden, u, field);
    ConstantsGood(st0.consEqualities, subs, cons, origin, u, k.forbidden, field);
    var constants := BuildEncodedFastSubstitutions(subs);
    RowsCanonical(st0.linear, field);
    var reduced := SubstituteAll(st0.linear, constants, k.forbidden, u, field);
    st := st0.(constantSubs := subs, constantCons := cons, constants := constants, reduced := reduced);
  }

  /** The substitutions of relevant signals. */
  method OnlyRelevant(subs: seq<Substitution>, relevant: set<nat>) returns (kept: seq<Substitution>)
    ensures Encode(kept) == Restrict(Encode(subs), relevant)
  {
    hide FormIntoExpr;
    kept := [];
    for n := 0 to |subs|
      invariant Encode(kept) == Restrict(Encode(subs[..n]), relevant)
    {
      PrefixStep(subs, n);
      assert subs[..n + 1][..n] == subs[..n];
      if subs[n].from in relevant {
        assert (kept + [subs[n]])[..|kept|] == kept;
        kept := kept + [subs[n]];
      }
    }
    PrefixAll(subs);
  }

  /** A map that avoids a constraint's signals has no effect on them. */
  lemma ImageDisjoint(enc: Encoded, signals: set<nat>)
    requires signals !! enc.Keys
    ensures EncodedImage(enc, signals) == signals
  {}

  lemma RewrittenKept(enc: Encoded, cs: seq<Constraint>, rs: seq<Constraint>, forbidden: set<nat>, u: set<nat>, p: int)
    requires p > 0 && AllRewritten(enc, cs, rs, p) && GoodEncoded(enc, forbidden, u, p) && SolvedEncoded(enc)
    requires SignalsOf(cs) <= forbidden && CanonicalAll(cs, p)
    ensures SignalsOf(rs) <= SignalsOf(cs) && CanonicalAll(rs, p)
  {
    hide SignalsOf, SolvedEncoded, Rewritten, CanonicalConstraint, EncodedImage, AllRewritten;
    CanonicalMembers(cs, p);
    RewrittenRows(enc, cs, rs, forbidden, u, p);
    ImageDisjoint(enc, SignalsOf(cs));
  }

  lemma CanonicalMembers(cs: seq<Constraint>, p: int)
    ensures CanonicalAll(cs, p) <==> forall c :: c in cs ==> CanonicalConstraint(c, p)
  {}

  /** The constraints kept by the first two stages are over forbidden signals. */
  lemma EarlyConstraints(k: Circuit, st: Stages, p: int)
    requires Prime(p) && ValidCircuit(k, p) && EqualityStage(k, st, p) && ConstantStage(k, st, p)
    ensures SignalsOf(st.equalityCons + st.constantCons) <= k.forbidden && CanonicalAll(st.equalityCons + st.constantCons, p)
  {
    hide PassResult, ImagesOk, SignalsOf, Ids, Encode, AllRewritten, ConstantsResult, ValidCircuit, CanonicalAll, Kept, GoodEncoded, SolvedEncoded, AllConstant,
         Solved, GoodSubstitutions;
    PassFacts(k.equalities, st.equalitySubs, st.equalityCons, k.forbidden, p);
    KeptSignals(st.equalityCons, k.forbidden, SignalsOf(k.equalities), p);
    var origin: seq<nat> :| ConstantsResult(st.consEqualities, st.constantSubs, st.constantCons, origin, SignalsOf(st.consEqualities), k.forbidden, p);
    ConstantsGood(st.consEqualities, st.constantSubs, st.constantCons, origin, SignalsOf(st.consEqualities), k.forbidden, p);
    KeptSignals(st.constantCons, k.forbidden, SignalsOf(st.consEqualities), p);
    SignalsOfAppend(st.equalityCons, st.constantCons);
    CanonicalConcat(st.equalityCons, st.constantCons, p);
  }

  lemma LinearApplied(k: Circuit, st: Stages, subs: seq<Substitution>, cons: seq<Constraint>, relevant: set<nat>, lconst: seq<Constraint>, p: int)
    requires Prime(p) && SignalsOf(st.equalityCons + st.constantCons) <= k.forbidden && CanonicalAll(st.equalityCons + st.constantCons, p)
    requires PassResult(st.reduced, subs, cons, k.forbidden, p)
    requires AllRewritten(Restrict(Encode(subs), relevant), st.equalityCons + st.constantCons + cons, lconst, p)
    ensures LinearStage(k, st.(linearSubs := subs, lconst := lconst, eliminations := Restrict(Encode(subs), relevant)), relevant, p)
  {
    var enc := Restrict(Encode(subs), relevant);
    var early := st.equalityCons + st.constantCons;
    hide SignalsOf, Encode, CanonicalAll, Kept, GoodEncoded, SolvedEncoded, Solved, GoodSubstitutions, AllHold, SubsHold, EncodedHolds, Restrict, Rewritten;
    PassFacts(st.reduced, subs, cons, k.forbidden, p);
    KeptSignals(cons, k.forbidden, SignalsOf(st.reduced), p);
    EncodeGood(subs, k.forbidden, SignalsOf(st.reduced), p);
    SolvedTargets(subs);
    EncodeSolved(subs, k.forbidden, SignalsOf(st.reduced), p);
    RestrictGood(Encode(subs), relevant, k.forbidden, SignalsOf(st.reduced), p);
    SignalsOfAppend(early, cons);
    CanonicalConcat(early, cons, p);
    RewrittenKept(enc, early + cons, lconst, k.forbidden, SignalsOf(st.reduced), p);
    GoodTargets(subs, k.forbidden, SignalsOf(st.reduced), p);
    forall w: Assignment
      ensures AllHold(early, w, p) && AllHold(st.reduced, w, p) <==> AllHold(lconst, w, p) && SubsHold(subs, w, p)
    {
      AllHoldConcat(early, cons, w, p);
      if SubsHold(subs, w, p) {
        EncodeHolds(subs, k.forbidden, SignalsOf(st.reduced), w, p);
        RestrictHolds(Encode(subs), relevant, w, p);
        RewrittenListHolds(enc, early + cons, lconst, w, p);
      }
    }
  }

  /** What is kept after the linear stage is over forbidden signals. */
  lemma KeptRewritten(early: seq<Constraint>, cons: seq<Constraint>, enc: Encoded, lconst: seq<Constraint>,
                      forbidden: set<nat>, u: set<nat>, p: int)
    requires p > 0 && SignalsOf(early) <= forbidden && SignalsOf(cons) <= forbidden && CanonicalAll(early + cons, p)
    requires GoodEncoded(enc, forbidden, u, p) && SolvedEncoded(enc) && AllRewritten(enc, early + cons, lconst, p)
    ensures SignalsOf(lconst) <= forbidden
  {
    hide SignalsOf, CanonicalAll, GoodEncoded, SolvedEncoded, AllRewritten;
    SignalsOfAppend(early, cons);
    RewrittenKept(enc, early + cons, lconst, forbidden, u, p);
  }

  lemma LinearSkipped(k: Circuit, st: Stages, relevant: set<nat>, p: int)
    requires p > 0 && CanonicalAll(st.equalityCons + st.constantCons, p) && forall c :: c in st.reduced ==> LinearRow(c, p)
    ensures LinearStage(k, st.(linearSubs := [], lconst := st.equalityCons + st.constantCons + st.reduced, eliminations := map[]), relevant, p)
  {
    var early := st.equalityCons + st.constantCons;
    hide SignalsOf, CanonicalAll, AllHold;
    RowsCanonical(st.reduced, p);
    CanonicalMembers(st.reduced, p);
    CanonicalConcat(early, st.reduced, p);
    SignalsOfAppend(early, st.reduced);
    forall w: Assignment
      ensures AllHold(early, w, p) && AllHold(st.reduced, w, p) <==> AllHold(early + st.reduced, w, p) && SubsHold([], w, p)
    {
      AllHoldConcat(early, st.reduced, w, p);
    }
  }

  lemma StagesKept(k: Circuit, st: Stages, subs: seq<Substitution>, lconst: seq<Constraint>, enc: Encoded, p: int)
    requires p > 0 && EqualityStage(k, st, p) && ConstantStage(k, st, p)
    ensures var st' := st.(linearSubs := subs, lconst := lconst, eliminations := enc);
            EqualityStage(k, st', p) && ConstantStage(k, st', p)
  {}

  lemma ReducedRows(k: Circuit, st: Stages, p: int)
    requires Prime(p) && ValidCircuit(k, p) && EqualityStage(k, st, p) && ConstantStage(k, st, p)
    ensures forall c :: c in st.reduced ==> LinearRow(c, p)
    ensures forall c, s :: c in st.reduced && s in Signals(c) ==> s < k.maxSignal
  {
    hide LinearRow, Ids, ValidCircuit, EqualityStage, ConstantStage, GoodEncoded, SolvedEncoded, AllConstant, Signals;
    ConstantStageFacts(k, st, p);
    forall c, s | c in st.reduced && s in Signals(c)
      ensures s < k.maxSignal
    {
      assert s in SignalsOf(st.reduced);
    }
  }

  method LinearPart(k: Circuit, st0: Stages, relevant: set<nat>, applyLinear: bool, useOldHeuristics: bool, field: int) returns (st: Stages)
    requires Prime(field) && ValidCircuit(k, field) && EqualityStage(k, st0, field) && ConstantStage(k, st0, field)
    ensures EqualityStage(k, st, field) && ConstantStage(k, st, field) && LinearStage(k, st, relevant, field)
    ensures st == st0.(linearSubs := st.linearSubs, lconst := st.lconst, eliminations := st.eliminations)
    ensures if applyLinear then SignalsOf(st.lconst) <= k.forbidden && Passed(Pass(st.reduced, st.linearSubs), k.forbidden, useOldHeuristics, field)
            else st.linearSubs == [] && st.lconst == st.equalityCons + st.constantCons + st.reduced
  {
    hide PassResult, ImagesOk, Signals, LinearRow, CanonicalConstraint, SignalsOf, Ids, GoodEncoded, SolvedEncoded, Rewritten, Encode, Restrict,
         ValidCircuit, EqualityStage, ConstantStage, LinearStage, Solved, GoodSubstitutions, CanonicalAll, Kept, ChosenByCluster;
    ValidLists(k, field);
    EarlyConstraints(k, st0, field);
    ReducedRows(k, st0, field);
    var early := st0.equalityCons + st0.constantCons;
    if applyLinear {
      var subs, cons := LinearSimplification(st0.reduced, k.forbidden, k.maxSignal, field, useOldHeuristics);
      PassFacts(st0.reduced, subs, cons, k.forbidden, field);
      var onlyRelevant := OnlyRelevant(subs, relevant);
      var enc := BuildEncodedFastSubstitutions(onlyRelevant);
      EliminationsGood(subs, k.forbidden, SignalsOf(st0.reduced), relevant, field);
      KeptSignals(cons, k.forbidden, SignalsOf(st0.reduced), field);
      CanonicalConcat(early, cons, field);
      CanonicalMembers(early + cons, field);
      var lconst := SubstituteAll(early + cons, enc, k.forbidden, SignalsOf(st0.reduced), field);
      LinearApplied(k, st0, subs, cons, relevant, lconst, field);
      KeptRewritten(early, cons, enc, lconst, k.forbidden, SignalsOf(st0.reduced), field);
      StagesKept(k, st0, subs, lconst, enc, field);
      st := st0.(linearSubs := subs, lconst := lconst, eliminations := enc);
    } else {
      LinearSkipped(k, st0, relevant, field);
      StagesKept(k, st0, [], early + st0.reduced, map[], field);
      st := st0.(linearSubs := [], lconst := early + st0.reduced, eliminations := map[]);
    }
  }

  lemma EliminationsGood(subs: seq<Substitution>, forbidden: set<nat>, u: set<nat>, relevant: set<nat>, p: int)
    requires p > 0 && Solved(subs) && GoodSubstitutions(subs, forbidden, u, p)
    ensures GoodEncoded(Restrict(Encode(subs), relevant), forbidden, u, p) && SolvedEncoded(Restrict(Encode(subs), relevant))
  {
    hide Solved, GoodSubstitutions, Encode, GoodEncoded, SolvedEncoded, Restrict;
    EncodeGood(subs, forbidden, u, p);
    SolvedTargets(subs);
    EncodeSolved(subs, forbidden, u, p);
    RestrictGood(Encode(subs), relevant, forbidden, u, p);
  }

  // ------------------------------------------------------------------ the whole simplification

  lemma CoversAppend(index: SignalToConstraints, index': SignalToConstraints, cs: seq<Constraint>, c: Constraint)
    requires IndexCovers(index, cs) && IndexGrows(index, index')
    requires Signals(c) <= index'.Keys && forall s: nat :: s in Signals(c) ==> |cs| in index'[s]
    ensures IndexCovers(index', cs + [c])
  {}

  /** Appends constraints to the storage and lists them under their signals. */
  lemma NoSignals()
    ensures SignalsOf([]) == {}
  {}

  lemma SignalsOfOne(c: Constraint)
    ensures SignalsOf([c]) == Signals(c)
  {
    assert c in [c];
  }

  method AddConstraints(storage: ConstraintStorage, index0: SignalToConstraints, constraints: seq<Constraint>)
    returns (index: SignalToConstraints)
    requires IndexCovers(index0, storage.constraints)
    modifies storage
    ensures storage.constraints == old(storage.constraints) + constraints
    ensures IndexCovers(index, storage.constraints) && index.Keys == index0.Keys + SignalsOf(constraints)
  {
    hide IndexCovers, Signals, IndexGrows, SignalsOf;
    NoSignals();
    ghost var before := storage.constraints;
    index := index0;
    for i := 0 to |constraints|
      invariant storage.constraints == before + constraints[..i]
      invariant IndexCovers(index, storage.constraints) && index.Keys == index0.Keys + SignalsOf(constraints[..i])
    {
      PrefixStep(constraints, i);
      ghost var cs := storage.constraints;
      var id := storage.AddConstraint(constraints[i]);
      var next := AddAllToIndex(index, Signals(constraints[i]), id);
      CoversAppend(index, next, cs, constraints[i]);
      SignalsOfAppend(constraints[..i], [constraints[i]]);
      SignalsOfOne(constraints[i]);
      index := next;
      assert before + constraints[..i] + [constraints[i]] == before + constraints[..i + 1];
    }
    PrefixAll(constraints);
  }

  method FixAll(constraints: seq<Constraint>, field: int) returns (r: seq<Constraint>)
    requires field > 0
    ensures |r| == |constraints| && forall i :: 0 <= i < |r| ==> r[i] == FixConstraint(constraints[i], field)
  {
    hide FixConstraint;
    r := [];
    for i := 0 to |constraints|
      invariant |r| == i && forall j :: 0 <= j < i ==> r[j] == FixConstraint(constraints[j], field)
    {
      r := r + [FixConstraint(constraints[i], field)];
    }
  }

  lemma FixAllHolds(cs: seq<Constraint>, rs: seq<Constraint>, w: Assignment, p: int)
    requires p > 0 && |rs| == |cs| && forall i :: 0 <= i < |rs| ==> rs[i] == FixConstraint(cs[i], p)
    ensures AllHold(rs, w, p) <==> AllHold(cs, w, p)
  {
    hide FixConstraint, Holds;
    forall i | 0 <= i < |rs|
      ensures Holds(rs[i], w, p) <==> Holds(cs[i], w, p)
      ensures rs[i] in rs && cs[i] in cs
    {
      FixHolds(cs[i], w, p);
    }
    forall c | c in cs
      ensures exists i :: 0 <= i < |cs| && cs[i] == c
    {}
  }

  lemma FixAllSignals(cs: seq<Constraint>, rs: seq<Constraint>, p: int)
    requires p > 0 && |rs| == |cs| && forall i :: 0 <= i < |rs| ==> rs[i] == FixConstraint(cs[i], p)
    requires CanonicalAll(cs, p)
    ensures SignalsOf(rs) <= SignalsOf(cs)
  {
    hide FixConstraint, Signals, CanonicalConstraint, ReducedConstraint;
    forall s | s in SignalsOf(rs)
      ensures s in SignalsOf(cs)
    {
      var c :| c in rs && s in Signals(c);
      var i :| 0 <= i < |rs| && rs[i] == c;
      FixShape(cs[i], p);
      assert cs[i] in cs;
    }
  }

  /** Dropping empty constraints changes nothing. */
  lemma WithoutEmpty(cs: seq<Constraint>, rest: seq<Constraint>, w: Assignment, p: int)
    requires p > 0 && rest == Select(cs, IsEmpty, false)
    ensures AllHold(rest, w, p) <==> AllHold(cs, w, p)
    ensures SignalsOf(rest) <= SignalsOf(cs)
  {
    hide Holds, Signals;
    EmptyHolds(w, p);
    forall c
      ensures c in rest <==> c in cs && c != EMPTY
    {
      SelectMembers(cs, IsEmpty, false, c);
    }
  }

  /** What a simplification promises. */
  ghost predicate SimplifiedTo(k: Circuit, out: seq<Constraint>, names: map<nat, nat>, subs: seq<Substitution>, p: int)
    requires p > 0
  {
    && (forall w: Assignment :: SurvivingHolds(k, w, p) <==> SubsHold(subs, w, p) && AllHold(out, w, p))
    && Triangular(subs) && Froms(subs) !! k.forbidden && Froms(subs) <= Ids(k.maxSignal)
    && names.Keys !! Froms(subs) && names.Keys <= Ids(k.maxSignal)
    && SignalsOf(out) <= names.Keys && k.forbidden * Ids(k.maxSignal) <= names.Keys
    && IsRanking(names, names.Keys) && CanonicalAll(out, p)
  }

  lemma SignalsListed(index: SignalToConstraints, cs: seq<Constraint>)
    requires IndexCovers(index, cs)
    ensures SignalsOf(cs) <= index.Keys
  {}

  /** The last steps keep everything. */
  lemma FinishExact(k: Circuit, subs: seq<Substitution>, lconst: seq<Constraint>, linear: seq<Constraint>, stored: seq<Constraint>,
                    fixedCons: seq<Constraint>, all: seq<Constraint>, out: seq<Constraint>, p: int)
    requires p > 0 && InProgress(k, subs, lconst, linear, stored, p)
    requires |fixedCons| == |lconst| && forall i :: 0 <= i < |fixedCons| ==> fixedCons[i] == FixConstraint(lconst[i], p)
    requires all == stored + linear + fixedCons && out == Select(all, IsEmpty, false)
    ensures forall w: Assignment :: SurvivingHolds(k, w, p) <==> SubsHold(subs, w, p) && AllHold(out, w, p)
    ensures SignalsOf(out) <= SignalsOf(all) <= Current(lconst, linear, stored)
  {
    hide SurvivingHolds, SubsHold, AllHold, SignalsOf, CanonicalAll, FixConstraint, Select, Triangular, Froms, Ids, LinearRow;
    FixAllSignals(lconst, fixedCons, p);
    SignalsOfAppend(stored, linear);
    SignalsOfAppend(stored + linear, fixedCons);
    WithoutEmpty(all, out, (n: nat) => 0, p);
    forall w: Assignment
      ensures SurvivingHolds(k, w, p) <==> SubsHold(subs, w, p) && AllHold(out, w, p)
    {
      WithoutEmpty(all, out, w, p);
      AllHoldConcat(stored, linear, w, p);
      AllHoldConcat(stored + linear, fixedCons, w, p);
      FixAllHolds(lconst, fixedCons, w, p);
    }
  }

  lemma FinishCanonical(lconst: seq<Constraint>, linear: seq<Constraint>, stored: seq<Constraint>, fixedCons: seq<Constraint>,
                        out: seq<Constraint>, p: int)
    requires p > 0 && CanonicalAll(lconst, p) && CanonicalAll(stored, p) && forall c :: c in linear ==> LinearRow(c, p)
    requires |fixedCons| == |lconst| && forall i :: 0 <= i < |fixedCons| ==> fixedCons[i] == FixConstraint(lconst[i], p)
    requires out == Select(stored + linear + fixedCons, IsEmpty, false)
    ensures CanonicalAll(out, p)
  {
    hide FixConstraint, Select, Signals;
    RowsCanonical(linear, p);
    forall i | 0 <= i < |fixedCons|
      ensures CanonicalConstraint(fixedCons[i], p)
    {
      FixShape(lconst[i], p);
    }
    hide CanonicalConstraint;
    forall c | c in out
      ensures CanonicalConstraint(c, p)
    {
      SelectMembers(stored + linear + fixedCons, IsEmpty, false, c);
    }
  }

  lemma FinishSimplified(k: Circuit, subs: seq<Substitution>, lconst: seq<Constraint>, linear: seq<Constraint>, stored: seq<Constraint>,
                         fixedCons: seq<Constraint>, all: seq<Constraint>, out: seq<Constraint>, index: SignalToConstraints,
                         names: map<nat, nat>, p: int)
    requires p > 0 && InProgress(k, subs, lconst, linear, stored, p)
    requires |fixedCons| == |lconst| && forall i :: 0 <= i < |fixedCons| ==> fixedCons[i] == FixConstraint(lconst[i], p)
    requires all == stored + linear + fixedCons && out == Select(all, IsEmpty, false)
    requires IndexCovers(index, all)
    requires IsRanking(names, Witness.KeptSignals(k.maxSignal, Froms(subs), k.forbidden, index.Keys))
    ensures SimplifiedTo(k, out, names, subs, p)
  {
    FinishExact(k, subs, lconst, linear, stored, fixedCons, all, out, p);
    FinishCanonical(lconst, linear, stored, fixedCons, out, p);
    SignalsListed(index, all);
    KeptMeans(k.maxSignal, Froms(subs), k.forbidden, index.Keys);
    hide Exact, IsRanking, SignalsOf, Signals, SurvivingHolds, SubsHold, AllHold, CanonicalAll, FixConstraint, Select, Triangular, Froms, LinearRow,
         IndexCovers, Witness.KeptSignals;
    assert names.Keys == Witness.KeptSignals(k.maxSignal, Froms(subs), k.forbidden, index.Keys) by {
      RankingKeys(names, Witness.KeptSignals(k.maxSignal, Froms(subs), k.forbidden, index.Keys));
    }
  }

  lemma RankingKeys(names: map<nat, nat>, kept: set<nat>)
    requires IsRanking(names, kept)
    ensures names.Keys == kept
  {}

  lemma StagesDeleted(k: Circuit, st: Stages, deleted: set<nat>, p: int)
    requires Prime(p) && ValidCircuit(k, p) && Staged(k, st, p)
    requires deleted == st.renamings.Keys + st.constants.Keys + FromSet(st.linearSubs)
    ensures deleted == Froms(AllSubs(st))
  {
    hide Froms, AllSubs, Staged, ValidCircuit;
    StagesTriangular(k, st, p);
  }

  // ------------------------------------------------------------------ which signals are kept

  ghost function CircuitSignals(k: Circuit): set<nat> {
    SignalsOf(k.equalities) + SignalsOf(k.consEqualities) + SignalsOf(k.linear) + SignalsOf(k.nonLinear)
  }

  /** The stages bring in no signal that the circuit does not have. */
  lemma StagesUse(k: Circuit, st: Stages, linear: seq<Constraint>, stored: seq<Constraint>, p: int)
    requires Prime(p) && ValidCircuit(k, p) && Staged(k, st, p)
    requires FromList(FramesOf(k, st), k.nonLinear, |k.nonLinear|, linear + stored, p)
    ensures Current(st.lconst, linear, stored) <= CircuitSignals(k)
  {
    hide SignalsOf, LinearRow, GoodEncoded, SolvedEncoded, AllRename, AllConstant, Ids, ValidCircuit, PassResult, ImagesOk, AllRewritten, ConstantsResult,
         RelevantTwice, Froms, AllSubs, Solved, GoodSubstitutions, Encode, Kept, AllHold, SubsHold, CanonicalAll, Restrict, FromList, FramesImage,
         EncodedImage, Signals;
    var eq, cEq := SignalsOf(k.equalities), SignalsOf(st.consEqualities);
    RenamedSignals(k, st, p);
    EqualityStageFacts(k, st, p);
    LinearStageFacts(k, st, RelevantTwice(k, st), p);
    PassFacts(k.equalities, st.equalitySubs, st.equalityCons, k.forbidden, p);
    KeptSignals(st.equalityCons, k.forbidden, eq, p);
    EncodeGood(st.equalitySubs, k.forbidden, eq, p);
    RestrictGood(st.renamings, RelevantOnce(k), k.forbidden, eq, p);
    var origin: seq<nat> :| ConstantsResult(st.consEqualities, st.constantSubs, st.constantCons, origin, cEq, k.forbidden, p);
    ConstantsGood(st.consEqualities, st.constantSubs, st.constantCons, origin, cEq, k.forbidden, p);
    KeptSignals(st.constantCons, k.forbidden, cEq, p);
    SignalsOfAppend(st.equalityCons, st.constantCons);
    RewrittenRows(st.constants, st.linear, st.reduced, k.forbidden, cEq, p);
    RestrictGood(Encode(st.linearSubs), RelevantTwice(k, st), k.forbidden, SignalsOf(st.reduced), p);
    forall c | c in k.nonLinear
      ensures FramesImage(FramesOf(k, st), Signals(c)) <= CircuitSignals(k)
    {
      var e := Restrict(st.renamings, RelevantOnce(k));
      ThreeFrames(e, st.constants, st.eliminations, Signals(c));
      ImageWithin(e, Signals(c), k.forbidden, eq, p);
      ImageWithin(st.constants, EncodedImage(e, Signals(c)), k.forbidden, cEq, p);
      ImageWithin(st.eliminations, EncodedImage(st.constants, EncodedImage(e, Signals(c))), k.forbidden, SignalsOf(st.reduced), p);
      MemberSignals(k.nonLinear, c);
    }
    FromListSignals(k, FramesOf(k, st), linear + stored, {}, CircuitSignals(k), p);
    SplitList(linear, stored, p);
  }

  lemma NonEmptySignals(all: seq<Constraint>, out: seq<Constraint>)
    requires out == Select(all, IsEmpty, false)
    ensures SignalsOf(out) == SignalsOf(all)
  {
    hide Select;
    forall c | c in all + out
      ensures c in out <==> c in all && c != EMPTY
    {
      SelectMembers(all, IsEmpty, false, c);
    }
  }

  lemma UsedAtEnd(k: Circuit, subs: seq<Substitution>, lconst: seq<Constraint>, linear: seq<Constraint>, stored: seq<Constraint>,
                  fixedCons: seq<Constraint>, all: seq<Constraint>, p: int)
    requires p > 0 && InProgress(k, subs, lconst, linear, stored, p)
    requires |fixedCons| == |lconst| && forall i :: 0 <= i < |fixedCons| ==> fixedCons[i] == FixConstraint(lconst[i], p)
    requires all == stored + linear + fixedCons
    ensures SignalsOf(linear) + SignalsOf(fixedCons) <= Current(lconst, linear, stored)
    ensures SignalsOf(all) == SignalsOf(stored) + SignalsOf(linear) + SignalsOf(fixedCons)
  {
    hide Exact, SignalsOf, CanonicalAll, FixConstraint, Triangular, LinearRow;
    FixAllSignals(lconst, fixedCons, p);
    SignalsOfAppend(stored, linear);
    SignalsOfAppend(stored + linear, fixedCons);
  }

  /** A signal keeps its wire only if it is forbidden or used; without a round before, only if it is in the result. */
  lemma FinishKept(k: Circuit, subs: seq<Substitution>, all: seq<Constraint>, out: seq<Constraint>, used: set<nat>, names: map<nat, nat>, p: int)
    requires p > 0 && SimplifiedTo(k, out, names, subs, p)
    requires IsRanking(names, Witness.KeptSignals(k.maxSignal, Froms(subs), k.forbidden, used))
    requires out == Select(all, IsEmpty, false)
    ensures names.Keys <= k.forbidden + used
    ensures used == SignalsOf(all) ==> names.Keys == SignalsOf(out) + k.forbidden * Ids(k.maxSignal)
  {
    hide SurvivingHolds, SubsHold, AllHold, SignalsOf, CanonicalAll, Select, Triangular, Froms;
    NonEmptySignals(all, out);
  }

  /** Stores the linear constraints that are left, drops the empty ones, and numbers the signals still used. */
  method StoreRest(k: Circuit, storage: ConstraintStorage, index0: SignalToConstraints, lconst: seq<Constraint>, linear: seq<Constraint>,
                   deleted0: set<nat>, field: int, ghost subs: seq<Substitution>)
    returns (names: map<nat, nat>)
    requires field > 0 && InProgress(k, subs, lconst, linear, storage.constraints, field) && NoneLinear(storage.constraints)
    requires IndexCovers(index0, storage.constraints) && deleted0 == Froms(subs)
    modifies storage
    ensures SimplifiedTo(k, storage.constraints, names, subs, field)
    ensures linear == [] && SignalsOf(lconst) <= k.forbidden ==> LinearOverForbidden(storage.constraints, k.forbidden)
    ensures names.Keys <= k.forbidden + index0.Keys + Current(lconst, linear, old(storage.constraints))
    ensures index0.Keys == SignalsOf(old(storage.constraints)) ==> names.Keys == SignalsOf(storage.constraints) + k.forbidden * Ids(k.maxSignal)
  {
    hide InProgress, SimplifiedTo, IndexCovers, LinearRow, CanonicalConstraint, Froms, Current, IsRanking, FixConstraint, Select, Ids,
         Witness.KeptSignals, SignalsOf, Signals, NoneLinear, LinearOverForbidden;
    ghost var stored := storage.constraints;
    var index := AddConstraints(storage, index0, linear);
    var fixedCons := FixAll(lconst, field);
    index := AddConstraints(storage, index, fixedCons);
    ghost var all := storage.constraints;
    UsedAtEnd(k, subs, lconst, linear, stored, fixedCons, all, field);
    var trash := storage.ExtractWith(IsEmpty);
    var deleted;
    names, deleted := RebuildWitness(k.maxSignal, deleted0, k.forbidden, index.Keys);
    FinishSimplified(k, subs, lconst, linear, stored, fixedCons, all, storage.constraints, index, names, field);
    FinishLinear(k, subs, lconst, stored, fixedCons, all, storage.constraints, linear, field);
    FinishKept(k, subs, all, storage.constraints, index.Keys, names, field);
  }

  // ------------------------------------------------------------------ which signals are eliminated

  lemma SnocSubs(passes: seq<Pass>, s: Pass)
    ensures PassSubs(passes + [s]) == PassSubs(passes) + s.subs
  {
    assert (passes + [s])[..|passes|] == passes;
  }

  lemma {:induction false} PassesAppend(a: seq<Pass>, b: seq<Pass>)
    ensures PassSubs(a + b) == PassSubs(a) + PassSubs(b)
  {
    hide PassSubs;
    NoSubs();
    if b == [] {
      assert a + b == a;
    } else {
      var init, last := b[..|b| - 1], b[|b| - 1];
      PassesAppend(a, init);
      SnocSubs(a + init, last);
      SnocSubs(init, last);
      assert b == init + [last] && a + b == a + init + [last];
    }
  }

  lemma NoSubs()
    ensures PassSubs([]) == []
  {}

  lemma LargestAppend(a: seq<Substitution>, b: seq<Substitution>, forbidden: set<nat>)
    requires LargestFirst(a, forbidden) && LargestFirst(b, forbidden)
    ensures LargestFirst(a + b, forbidden)
  {}

  lemma {:induction false} PassesLargest(passes: seq<Pass>, forbidden: set<nat>, p: int)
    requires p > 0 && AllPassed(passes, forbidden, true, p)
    ensures LargestFirst(PassSubs(passes), forbidden)
  {
    hide LargestFirst, ChosenByCluster, PassResult;
    if passes == [] {
      NoneLargest(forbidden);
    } else {
      var s := passes[|passes| - 1];
      PassesLargest(passes[..|passes| - 1], forbidden, p);
      assert Passed(s, forbidden, true, p);
      var cons :| PassResult(s.linear, s.subs, cons, forbidden, p);
      PassFacts(s.linear, s.subs, cons, forbidden, p);
      OldHeuristics(s.linear, s.subs, forbidden, p);
      LargestAppend(PassSubs(passes[..|passes| - 1]), s.subs, forbidden);
    }
  }

  lemma NoneLargest(forbidden: set<nat>)
    ensures LargestFirst([], forbidden)
  {}

  /** The least signal of a class stands for the others, so these are the larger ones. */
  lemma LeastIsLargest(equalities: seq<Constraint>, subs: seq<Substitution>, forbidden: set<nat>, u: set<nat>, p: int)
    requires LeastImages(equalities, subs, forbidden) && Solved(subs) && GoodSubstitutions(subs, forbidden, u, p)
    ensures LargestFirst(subs, forbidden)
  {
    forall s, x | s in subs && x in s.to
      ensures x in forbidden || x < s.from
    {
      var r: nat :| s.to == map[r := 1] && forall y: nat :: Tied(equalities, s.from, y) ==> PreferredTo(r, y, forbidden);
      assert Tied(equalities, s.from, s.from);
    }
  }

  lemma ConstantsLargest(enc: Encoded, forbidden: set<nat>)
    requires AllConstant(enc) && CONSTANT in forbidden
    ensures LargestFirst(ListOf(enc), forbidden)
  {
    hide ListOf;
    ListOfMembers(enc);
  }

  /**
   The signals eliminated: first some of the equalities and of the constant equalities, each a largest one possible, then
   those of the passes over linear constraints.
   */
  ghost predicate EliminatedBy(k: Circuit, subs: seq<Substitution>, passes: seq<Pass>, useOldHeuristics: bool, p: int)
    requires p > 0
  {
    exists early: seq<Substitution> ::
      && Froms(early) <= SignalsOf(k.equalities) + SignalsOf(k.consEqualities) && LargestFirst(early, k.forbidden)
      && AllPassed(passes, k.forbidden, useOldHeuristics, p) && subs == early + PassSubs(passes)
  }

  lemma EarlyFroms(k: Circuit, st: Stages, p: int)
    requires Prime(p) && ValidCircuit(k, p) && Staged(k, st, p) && LeastImages(k.equalities, st.equalitySubs, k.forbidden)
    ensures var early := st.equalitySubs + ListOf(st.constants);
            Froms(early) <= SignalsOf(k.equalities) + SignalsOf(k.consEqualities) && LargestFirst(early, k.forbidden)
  {
    hide SignalsOf, LinearRow, GoodEncoded, SolvedEncoded, AllRename, AllConstant, Ids, PassResult, ImagesOk, AllRewritten, ConstantsResult,
         RelevantTwice, ListOf, Triangular, Solved, GoodSubstitutions, Encode, Kept, AllHold, SubsHold, CanonicalAll, Restrict, LargestFirst,
         LeastImages, LinearStage, ValidCircuit, Froms;
    var cEq := SignalsOf(st.consEqualities);
    ValidLists(k, p);
    RenamedSignals(k, st, p);
    ConstantStageFacts(k, st, p);
    PassFacts(k.equalities, st.equalitySubs, st.equalityCons, k.forbidden, p);
    GoodFroms(st.equalitySubs, k.forbidden, SignalsOf(k.equalities), p);
    LeastIsLargest(k.equalities, st.equalitySubs, k.forbidden, SignalsOf(k.equalities), p);
    var origin: seq<nat> :| ConstantsResult(st.consEqualities, st.constantSubs, st.constantCons, origin, cEq, k.forbidden, p);
    ConstantsGood(st.consEqualities, st.constantSubs, st.constantCons, origin, cEq, k.forbidden, p);
    ListOfSolved(st.constants, k.forbidden, cEq, p);
    ConstantsLargest(st.constants, k.forbidden);
    FromsAppend(st.equalitySubs, ListOf(st.constants));
    LargestAppend(st.equalitySubs, ListOf(st.constants), k.forbidden);
  }

  lemma PassesEliminate(k: Circuit, st: Stages, applyLinear: bool, rest: seq<Pass>, passes: seq<Pass>, useOldHeuristics: bool, p: int)
    requires Prime(p) && ValidCircuit(k, p) && Staged(k, st, p) && LeastImages(k.equalities, st.equalitySubs, k.forbidden)
    requires if applyLinear then Passed(Pass(st.reduced, st.linearSubs), k.forbidden, useOldHeuristics, p) else st.linearSubs == []
    requires AllPassed(rest, k.forbidden, useOldHeuristics, p)
    requires passes == (if applyLinear then [Pass(st.reduced, st.linearSubs)] else []) + rest
    ensures EliminatedBy(k, AllSubs(st) + PassSubs(rest), passes, useOldHeuristics, p)
    ensures useOldHeuristics ==> LargestFirst(AllSubs(st) + PassSubs(rest), k.forbidden)
  {
    hide ValidCircuit, Staged, LeastImages, Passed, LargestFirst, ListOf, SignalsOf, Froms;
    EarlyFroms(k, st, p);
    var first := if applyLinear then [Pass(st.reduced, st.linearSubs)] else [];
    var early := st.equalitySubs + ListOf(st.constants);
    assert PassSubs(first) == st.linearSubs by {
      assert first[..0] == [];
    }
    PassesAppend(first, rest);
    assert AllSubs(st) + PassSubs(rest) == early + PassSubs(passes);
    if useOldHeuristics {
      PassesLargest(passes, k.forbidden, p);
      LargestAppend(early, PassSubs(passes), k.forbidden);
    }
  }

  /** The stages before the first round, with the frames for the constraints that are not linear. */
  method RunStages(k: Circuit, applyLinear: bool, useOldHeuristics: bool, field: int)
    returns (st: Stages, frames: seq<Encoded>, deleted: set<nat>)
    requires Prime(field) && ValidCircuit(k, field)
    ensures Staged(k, st, field) && LeastImages(k.equalities, st.equalitySubs, k.forbidden)
    ensures if applyLinear then SignalsOf(st.lconst) <= k.forbidden && Passed(Pass(st.reduced, st.linearSubs), k.forbidden, useOldHeuristics, field)
            else st.linearSubs == [] && st.lconst == st.equalityCons + st.constantCons + st.reduced
    ensures frames == FramesOf(k, st) && deleted == Froms(AllSubs(st))
  {
    hide EqualityStage, ConstantStage, LinearStage, RelevantSignals, Restrict, LinearRow, CanonicalConstraint, Froms, AllSubs, SignalsOf, Signals,
         ValidCircuit, LeastImages, Passed;
    var relevant := BuildRelevantSet(k.nonLinear, map[], map[]);
    st := EqualityPart(k, field);
    var single := RemoveNotRelevant(st.renamings, relevant);
    st := ConstantPart(k, st, field);
    relevant := BuildRelevantSet(k.nonLinear, single, st.constants);
    st := LinearPart(k, st, relevant, applyLinear, useOldHeuristics, field);
    deleted := st.renamings.Keys + st.constants.Keys + FromSet(st.linearSubs);
    StagesDeleted(k, st, deleted, field);
    frames := [single, st.constants, st.eliminations];
  }

  /** Stores the quadratic constraints after the stages, and indexes them. */
  method FirstPropagation(k: Circuit, st: Stages, frames: seq<Encoded>, field: int)
    returns (storage: ConstraintStorage, linear: seq<Constraint>, index: SignalToConstraints)
    requires Prime(field) && ValidCircuit(k, field) && Staged(k, st, field) && frames == FramesOf(k, st)
    ensures fresh(storage) && InProgress(k, AllSubs(st), st.lconst, linear, storage.constraints, field) && NoneLinear(storage.constraints)
    ensures IndexCovers(index, storage.constraints) && IndexWithin(index, |storage.constraints|) && index.Keys == SignalsOf(storage.constraints)
    ensures var used := Current(st.lconst, linear, storage.constraints); used <= CircuitSignals(k) && |used| <= k.maxSignal
  {
    hide InProgress, IndexCovers, IndexWithin, FromList, LinearRow, CanonicalConstraint, AllSubs, Current, GoodFrames, Select, Ids, SignalsOf, Signals,
         NoneLinear, ValidCircuit, Staged, FramesOf, CircuitSignals, Framed;
    ValidLists(k, field);
    storage := new ConstraintStorage();
    FramesGood(k, st, field);
    ghost var framed;
    linear, framed := ObtainAndSimplifyNonLinear(k.nonLinear, storage, frames, k.forbidden, Ids(k.maxSignal), field);
    StagesProgress(k, st, linear, storage.constraints, field);
    InUse(k, AllSubs(st), st.lconst, linear, storage.constraints, field);
    StagesUse(k, st, linear, storage.constraints, field);
    index := BuildNonLinearSignalMap(storage);
  }

  method SimplifyCircuit(k: Circuit, noRounds: nat, flagS: bool, useOldHeuristics: bool, field: int)
    returns (storage: ConstraintStorage, names: map<nat, nat>, ghost subs: seq<Substitution>, ghost passes: seq<Pass>)
    requires Prime(field) && ValidCircuit(k, field)
    ensures fresh(storage) && SimplifiedTo(k, storage.constraints, names, subs, field)
    ensures EliminatedBy(k, subs, passes, useOldHeuristics, field)
    ensures if flagS then passes == [] else 1 <= |passes| <= if noRounds > 0 then noRounds else 1
    ensures passes == [] ==> Froms(subs) <= SignalsOf(k.equalities) + SignalsOf(k.consEqualities)
    ensures |passes| <= 1 ==> Froms(subs) <= SignalsOf(k.equalities) + SignalsOf(k.consEqualities) + SignalsOf(k.linear)
    ensures !flagS ==> LinearOverForbidden(storage.constraints, k.forbidden) || |passes| == if noRounds > 0 then noRounds else 1
    ensures !flagS && noRounds >= k.maxSignal + 3 ==> LinearOverForbidden(storage.constraints, k.forbidden)
    ensures useOldHeuristics ==> LargestFirst(subs, k.forbidden)
    ensures names.Keys <= k.forbidden + CircuitSignals(k)
    ensures |passes| <= 1 ==> names.Keys == SignalsOf(storage.constraints) + k.forbidden * Ids(k.maxSignal)
  {
    hide EqualityStage, ConstantStage, LinearStage, InProgress, SimplifiedTo, IndexCovers, IndexWithin, Froms, AllSubs, Current, Ids, SignalsOf,
         NoneLinear, LinearOverForbidden, ValidCircuit, LeastImages, Passed, AllPassed, LargestFirst, EliminatedBy, PassSubs, Staged, FramesOf,
         CircuitSignals;
    ValidLists(k, field);
    var st, frames, deleted := RunStages(k, !flagS, useOldHeuristics, field);
    var linear, index;
    storage, linear, index := FirstPropagation(k, st, frames, field);
    var rounds := if noRounds > 0 then noRounds - 1 else 0;
    StagesFroms(k, st, field);
    InCurrent(st.lconst, linear, storage.constraints);
    NoPasses(k.forbidden, useOldHeuristics, field);
    var lconst, roundId;
    index, lconst, linear, deleted, roundId, subs, passes :=
      Rounds(k, storage, index, st.lconst, linear, deleted, rounds, !flagS, useOldHeuristics, field, AllSubs(st));
    ghost var rest := passes;
    assert rest == [] ==> subs == AllSubs(st);
    passes := (if flagS then [] else [Pass(st.reduced, st.linearSubs)]) + rest;
    PassesEliminate(k, st, !flagS, rest, passes, useOldHeuristics, field);
    names := StoreRest(k, storage, index, lconst, linear, deleted, field, subs);
  }

  /** At most maxSignal signals are in use. */
  lemma InUse(k: Circuit, subs: seq<Substitution>, lconst: seq<Constraint>, linear: seq<Constraint>, stored: seq<Constraint>, p: int)
    requires p > 0 && InProgress(k, subs, lconst, linear, stored, p)
    ensures |Current(lconst, linear, stored)| <= k.maxSignal
  {
    SubsetSize(Current(lconst, linear, stored), Ids(k.maxSignal));
    IdsSize(k.maxSignal);
  }

  lemma {:induction false} IdsSize(n: nat)
    ensures |Ids(n)| == n
  {
    if n == 0 {
      assert Ids(0) == {};
    } else {
      IdsSize(n - 1);
      assert Ids(n) == Ids(n - 1) + {n - 1};
    }
  }

  /** No linear constraint holds a signal that could be eliminated. */
  ghost predicate LinearOverForbidden(cs: seq<Constraint>, forbidden: set<nat>) {
    forall c :: c in cs && IsLinear(c) ==> Signals(c) <= forbidden
  }

  /** If no linear constraint was left over, none with an eliminable signal is in the result. */
  lemma FinishLinear(k: Circuit, subs: seq<Substitution>, lconst: seq<Constraint>, stored: seq<Constraint>, fixedCons: seq<Constraint>,
                     all: seq<Constraint>, out: seq<Constraint>, linear: seq<Constraint>, p: int)
    requires p > 0 && InProgress(k, subs, lconst, linear, stored, p) && NoneLinear(stored)
    requires |fixedCons| == |lconst| && forall i :: 0 <= i < |fixedCons| ==> fixedCons[i] == FixConstraint(lconst[i], p)
    requires all == stored + linear + fixedCons && out == Select(all, IsEmpty, false)
    ensures linear == [] && SignalsOf(lconst) <= k.forbidden ==> LinearOverForbidden(out, k.forbidden)
  {
    hide Exact, SignalsOf, CanonicalAll, FixConstraint, Select, Triangular, Signals, LinearRow;
    FixAllSignals(lconst, fixedCons, p);
    forall c | c in out
      ensures c in all && c != EMPTY
    {
      SelectMembers(all, IsEmpty, false, c);
    }
    if linear == [] && SignalsOf(lconst) <= k.forbidden {
      forall c | c in out && IsLinear(c)
        ensures Signals(c) <= k.forbidden
      {
        assert c in stored || c in fixedCons;
        if c in fixedCons {
          MemberSignals(fixedCons, c);
        }
      }
    }
  }

  lemma MemberSignals(cs: seq<Constraint>, c: Constraint)
    requires c in cs
    ensures Signals(c) <= SignalsOf(cs)
  {}
}
