/**
 The whole linear elimination of one cluster (circom_algebra/src/simplification_utils.rs):
 elimination by either heuristic, division of the rows by their pivots, and back-substitution.
 */
module Elimination {
  import opened Field
  import opened LinearForms
  import opened Algebra
  import opened Rows
  import opened Orders
  import opened MaxElimination
  import opened OccurrenceElimination

  /** Substitutions by the signal they eliminate. */
  type Tree = map<nat, Substitution>

  ghost predicate TreeHolds(t: Tree, w: Assignment, p: int)
    requires p > 0
  {
    forall s :: s in t ==> SubHolds(t[s], w, p)
  }

  /** A substitution of `from` over the signals u, with residues as coefficients. */
  ghost predicate GoodSubstitution(s: Substitution, from: nat, u: set<nat>, p: int) {
    && s.from == from && from != CONSTANT && from in u
    && from !in s.to
    && Canonical(s.to, p)
    && s.to.Keys <= u + {CONSTANT}
  }

  ghost predicate GoodTree(t: Tree, forbidden: set<nat>, u: set<nat>, p: int) {
    forall s :: s in t ==> s !in forbidden && GoodSubstitution(t[s], s, u, p)
  }

  /** Resolving in this order never meets a signal whose substitution is not resolved yet. */
  ghost predicate Resolvable(t: Tree, order: seq<nat>) {
    && (forall s :: s in order <==> s in t)
    && (forall i, j :: 0 <= i < j < |order| ==> order[i] != order[j])
    && (forall i, j :: 0 <= i <= j < |order| ==> order[j] !in t[order[i]].to)
  }

  /** No right-hand side mentions an eliminated signal. */
  ghost predicate SolvedTree(t: Tree) {
    forall s, k :: s in t && k in t[s].to ==> k !in t
  }

  // ------------------------------------------------------------------ division by the pivots

  function NormalizedRow(row: Row, inverse: int, field: int): Substitution
    requires field > 0 && CONSTANT in row.sub.to && row.sub.from !in row.sub.to
  {
    NewSubstitution(row.sub.from, MulExpr(FormIntoExpr(row.sub.to), Number(inverse), field)).value
  }

  lemma NormalizedHolds(row: Row, inverse: int, w: Assignment, p: int)
    requires Prime(p) && CONSTANT in row.sub.to && row.sub.from !in row.sub.to
    requires IsInverse(inverse, row.coefficient, p) && !Eqv(row.coefficient, 0, p)
    ensures SubHolds(NormalizedRow(row, inverse, p), w, p) <==> RowHolds(row, w, p)
  {
    var e := FormIntoExpr(row.sub.to);
    FormIntoExprMeans(row.sub.to, w);
    MulHomomorphism(e, Number(inverse), w, p);
    NewSubstitutionMeans(row.sub.from, MulExpr(e, Number(inverse), p), w);
    DividePivot(row.coefficient, inverse, Wire(w, row.sub.from), Eval(row.sub.to, w),
                Eval(NormalizedRow(row, inverse, p).to, w), p);
  }

  lemma DividePivot(a: int, inverse: int, x: int, to: int, normalized: int, p: int)
    requires Prime(p) && Eqv(inverse * a, 1, p) && !Eqv(a, 0, p)
    requires Eqv(normalized, to * inverse, p)
    ensures Eqv(x, normalized, p) <==> Eqv(a * x, to, p)
  {
    assert a * inverse == inverse * a;
    Unscale(inverse, a, to, p);
    EqvScale(a, normalized, inverse * to, p);
    Cancel(a, x, normalized, p);
  }

  /** The substitution says what the row says, with the pivot divided out. */
  ghost predicate Normalized(sub: Substitution, row: Row, from: nat, u: set<nat>, p: int)
    requires p > 0
  {
    && GoodSubstitution(sub, from, u, p)
    && sub.to.Keys <= row.sub.to.Keys
    && forall w: Assignment :: SubHolds(sub, w, p) <==> RowHolds(row, w, p)
  }

  lemma NormalizedRowIsNormalized(row: Row, from: nat, inverse: int, u: set<nat>, p: int)
    requires Prime(p) && PivotRow(row, from, u, p) && IsInverse(inverse, row.coefficient, p)
    ensures Normalized(NormalizedRow(row, inverse, p), row, from, u, p)
  {
    forall w: Assignment
      ensures SubHolds(NormalizedRow(row, inverse, p), w, p) <==> RowHolds(row, w, p)
    {
      NormalizedHolds(row, inverse, w, p);
    }
  }

  lemma NormalizedTree(tree: Tree, substitutions: Holder, forbidden: set<nat>, u: set<nat>, p: int)
    requires p > 0 && tree.Keys == substitutions.Keys
    requires forall s :: s in tree ==> s !in forbidden && Normalized(tree[s], substitutions[s], s, u, p)
    ensures GoodTree(tree, forbidden, u, p)
    ensures forall s :: s in tree ==> tree[s].to.Keys <= substitutions[s].sub.to.Keys
    ensures forall w: Assignment :: TreeHolds(tree, w, p) <==> HolderHolds(substitutions, w, p)
  {
    forall w: Assignment
      ensures TreeHolds(tree, w, p) <==> HolderHolds(substitutions, w, p)
    {
      assert forall s :: s in tree ==> (SubHolds(tree[s], w, p) <==> RowHolds(substitutions[s], w, p));
    }
  }

  /** The pivots in the order of the map's keys. */
  method PivotCoefficients(substitutions: Holder, order: seq<nat>, ghost forbidden: set<nat>, ghost u: set<nat>, field: int)
    returns (coeffs: seq<int>)
    requires field > 0 && PivotHolder(substitutions, forbidden, u, field)
    requires forall i :: 0 <= i < |order| ==> order[i] in substitutions
    ensures |coeffs| == |order|
    ensures forall j :: 0 <= j < |order| ==> coeffs[j] == substitutions[order[j]].coefficient
    ensures forall j :: 0 <= j < |order| ==> !Eqv(coeffs[j], 0, field)
  {
    coeffs := [];
    for i := 0 to |order|
      invariant |coeffs| == i
      invariant forall j :: 0 <= j < i ==> coeffs[j] == substitutions[order[j]].coefficient
      invariant forall j :: 0 <= j < i ==> !Eqv(coeffs[j], 0, field)
    {
      coeffs := coeffs + [substitutions[order[i]].coefficient];
    }
  }

  /** Divides every row by its pivot, with a single field inversion. */
  method NormalizeSubstitutions(substitutions: Holder, ghost forbidden: set<nat>, ghost u: set<nat>, field: int)
    returns (tree: Tree)
    requires Prime(field) && PivotHolder(substitutions, forbidden, u, field)
    ensures tree.Keys == substitutions.Keys && GoodTree(tree, forbidden, u, field)
    ensures forall s :: s in tree ==> tree[s].to.Keys <= substitutions[s].sub.to.Keys
    ensures forall w: Assignment :: TreeHolds(tree, w, field) <==> HolderHolds(substitutions, w, field)
  {
    hide NormalizedRow, Normalized, IsInverse, GoodTree, TreeHolds, HolderHolds;
    var order := SortedKeys(substitutions.Keys);
    assert forall i :: 0 <= i < |order| ==> order[i] in order && order[i] in substitutions;
    var coeffs := PivotCoefficients(substitutions, order, forbidden, u, field);
    var inverses := MultiInv(coeffs, field);
    tree := map[];
    for i := 0 to |order|
      invariant forall s :: s in tree <==> s in order[..i]
      invariant forall s :: s in tree ==> Normalized(tree[s], substitutions[s], s, u, field)
    {
      var s := order[i];
      NormalizedRowIsNormalized(substitutions[s], s, inverses[i], u, field);
      tree := tree[s := NormalizedRow(substitutions[s], inverses[i], field)];
    }
    NormalizedTree(tree, substitutions, forbidden, u, field);
  }

  // ------------------------------------------------------------------ back-substitution

  /** The resolved substitutions of the signals a substitution mentions, in any order. */
  method TakeSubstitutionsToBeApplied(sh: Tree, subs: Substitution) returns (toBeApplied: seq<Substitution>)
    ensures forall s :: s in toBeApplied ==> exists k :: k in subs.to && k in sh && sh[k] == s
    ensures forall k :: k in subs.to && k in sh ==> sh[k] in toBeApplied
  {
    toBeApplied := [];
    var todo := subs.to.Keys;
    while todo != {}
      invariant todo <= subs.to.Keys
      invariant forall s :: s in toBeApplied ==> exists k :: k in subs.to && k in sh && sh[k] == s
      invariant forall k :: k in subs.to && k in sh && k !in todo ==> sh[k] in toBeApplied
      decreases todo
    {
      var k :| k in todo;
      if k in sh {
        toBeApplied := toBeApplied + [sh[k]];
      }
      todo := todo - {k};
    }
  }

  function SubstituteIn(src: Substitution, change: Substitution, field: int): Substitution
    requires field > 0
  {
    src.(to := Substitute(src.to, change.from, change.to, field))
  }

  lemma SubstituteInHolds(src: Substitution, change: Substitution, w: Assignment, p: int)
    requires p > 0 && SubHolds(change, w, p)
    ensures SubHolds(SubstituteIn(src, change, p), w, p) <==> SubHolds(src, w, p)
  {
    SubstituteSame(src.to, change, w, p);
  }

  lemma SubstituteKeys(m: Form, from: nat, to: Form, p: int)
    requires p > 0 && from != CONSTANT
    ensures Substitute(m, from, to, p).Keys <= m.Keys + to.Keys + {CONSTANT}
    ensures from !in to ==> from !in Substitute(m, from, to, p)
    ensures from !in m ==> Substitute(m, from, to, p).Keys == m.Keys + {CONSTANT}
    ensures Canonical(m, p) ==> Canonical(Substitute(m, from, to, p), p)
  {}

  /** Where the resolved substitutions hold, the two substitutions say the same. */
  ghost predicate SameGiven(resolved: Tree, s: Substitution, t: Substitution, p: int)
    requires p > 0
  {
    forall w: Assignment :: TreeHolds(resolved, w, p) ==> (SubHolds(s, w, p) <==> SubHolds(t, w, p))
  }

  lemma SameAsItself(resolved: Tree, s: Substitution, p: int)
    requires p > 0
    ensures SameGiven(resolved, s, s, p)
  {}

  lemma SameGivenStep(resolved: Tree, s: Substitution, change: Substitution, t: Substitution, p: int)
    requires p > 0 && SameGiven(resolved, s, t, p)
    requires change.from in resolved && resolved[change.from] == change
    ensures SameGiven(resolved, SubstituteIn(s, change, p), t, p)
  {
    forall w: Assignment | TreeHolds(resolved, w, p)
      ensures SubHolds(SubstituteIn(s, change, p), w, p) <==> SubHolds(t, w, p)
    {
      SubstituteInHolds(s, change, w, p);
    }
  }

  /** Replaces in one substitution every signal resolved before. */
  method ResolveOne(resolved: Tree, sub: Substitution, ghost forbidden: set<nat>, ghost u: set<nat>, field: int)
    returns (r: Substitution)
    requires field > 0 && GoodTree(resolved, forbidden, u, field) && SolvedTree(resolved)
    requires GoodSubstitution(sub, sub.from, u, field) && sub.from !in resolved
    requires forall k :: k in resolved ==> sub.from !in resolved[k].to
    ensures GoodSubstitution(r, sub.from, u, field)
    ensures forall k :: k in r.to ==> k !in resolved
    ensures forall k :: k in r.to ==> k == CONSTANT || k in sub.to || exists s :: s in resolved && s in sub.to && k in resolved[s].to
    ensures SameGiven(resolved, r, sub, field)
  {
    hide Substitute, SameGiven, SubHolds, Canonical;
    r := sub;
    SameAsItself(resolved, sub, field);
    var toBeApplied := TakeSubstitutionsToBeApplied(resolved, sub);
    for i := 0 to |toBeApplied|
      invariant GoodSubstitution(r, sub.from, u, field)
      invariant forall k :: k in r.to && k in resolved ==> resolved[k] in toBeApplied[i..]
      invariant forall k :: k in r.to ==> k == CONSTANT || k in sub.to || exists s :: s in resolved && s in sub.to && k in resolved[s].to
      invariant SameGiven(resolved, r, sub, field)
    {
      var change := toBeApplied[i];
      assert change in toBeApplied;
      ghost var s :| s in sub.to && s in resolved && resolved[s] == change;
      SubstituteKeys(r.to, change.from, change.to, field);
      SameGivenStep(resolved, r, change, sub, field);
      r := SubstituteIn(r, change, field);
    }
  }

  /** The substitutions of the first i signals of the order hold. */
  ghost predicate PrefixHolds(t: Tree, order: seq<nat>, i: nat, w: Assignment, p: int)
    requires p > 0 && i <= |order| && forall j :: 0 <= j < |order| ==> order[j] in t
  {
    forall j :: 0 <= j < i ==> SubHolds(t[order[j]], w, p)
  }

  lemma TreeExtend(t: Tree, s: nat, sub: Substitution, w: Assignment, p: int)
    requires p > 0 && s !in t
    ensures TreeHolds(t[s := sub], w, p) <==> TreeHolds(t, w, p) && SubHolds(sub, w, p)
  {
    assert t[s := sub][s] == sub;
    assert forall k :: k in t ==> t[s := sub][k] == t[k];
  }

  lemma ResolvableInTree(t: Tree, order: seq<nat>)
    requires Resolvable(t, order)
    ensures forall j :: 0 <= j < |order| ==> order[j] in t
  {}

  /** No substitution resolved so far mentions a signal still to be resolved. */
  ghost predicate NoneWaiting(noOverlap: Tree, order: seq<nat>, i: nat) {
    forall s, j :: s in noOverlap && i <= j < |order| ==> order[j] !in noOverlap[s].to
  }

  /** The state of back-substitution after i signals of the order. */
  ghost predicate ResolvedTo(noOverlap: Tree, t: Tree, order: seq<nat>, i: nat, forbidden: set<nat>, u: set<nat>, p: int)
    requires p > 0 && i <= |order| && forall j :: 0 <= j < |order| ==> order[j] in t
  {
    && (forall s :: s in noOverlap <==> s in order[..i])
    && GoodTree(noOverlap, forbidden, u, p)
    && SolvedTree(noOverlap)
    && NoneWaiting(noOverlap, order, i)
    && (forall w: Assignment :: TreeHolds(noOverlap, w, p) <==> PrefixHolds(t, order, i, w, p))
  }

  lemma ResolvedStepSolved(noOverlap: Tree, next: Tree, t: Tree, order: seq<nat>, i: nat, r: Substitution)
    requires Resolvable(t, order) && i < |order|
    requires forall s :: s in noOverlap <==> s in order[..i]
    requires SolvedTree(noOverlap) && NoneWaiting(noOverlap, order, i)
    requires order[i] !in r.to && forall k :: k in r.to ==> k !in noOverlap
    requires next == noOverlap[order[i] := r]
    ensures forall s :: s in next <==> s in order[..i + 1]
    ensures order[i] !in noOverlap
    ensures SolvedTree(next)
  {}

  lemma ResolvedStepWaiting(noOverlap: Tree, next: Tree, t: Tree, order: seq<nat>, i: nat, r: Substitution)
    requires Resolvable(t, order) && i < |order| && CONSTANT !in t && order[i] in t
    requires NoneWaiting(noOverlap, order, i)
    requires forall k :: k in r.to ==>
                           k == CONSTANT || k in t[order[i]].to || exists s :: s in noOverlap && k in noOverlap[s].to
    requires next == noOverlap[order[i] := r]
    ensures NoneWaiting(next, order, i + 1)
  {}

  lemma ResolvedStepHolds(noOverlap: Tree, next: Tree, t: Tree, order: seq<nat>, i: nat, r: Substitution, w: Assignment, p: int)
    requires p > 0 && i < |order| && order[i] !in noOverlap
    requires forall j :: 0 <= j < |order| ==> order[j] in t
    requires TreeHolds(noOverlap, w, p) <==> PrefixHolds(t, order, i, w, p)
    requires SameGiven(noOverlap, r, t[order[i]], p)
    requires next == noOverlap[order[i] := r]
    ensures TreeHolds(next, w, p) <==> PrefixHolds(t, order, i + 1, w, p)
  {
    hide SubHolds;
    TreeExtend(noOverlap, order[i], r, w, p);
    assert PrefixHolds(t, order, i + 1, w, p) <==> PrefixHolds(t, order, i, w, p) && SubHolds(t[order[i]], w, p);
  }

  lemma NotItself(s: Substitution, from: nat, u: set<nat>, p: int)
    requires GoodSubstitution(s, from, u, p)
    ensures from !in s.to
  {}

  lemma ConstantStays(t: Tree, forbidden: set<nat>, u: set<nat>, p: int)
    requires GoodTree(t, forbidden, u, p)
    ensures CONSTANT !in t
  {}

  lemma ResolvedStep(noOverlap: Tree, next: Tree, t: Tree, order: seq<nat>, i: nat, r: Substitution,
                     forbidden: set<nat>, u: set<nat>, p: int)
    requires p > 0 && GoodTree(t, forbidden, u, p) && Resolvable(t, order) && i < |order|
    requires forall j :: 0 <= j < |order| ==> order[j] in t
    requires ResolvedTo(noOverlap, t, order, i, forbidden, u, p)
    requires GoodSubstitution(r, order[i], u, p)
    requires forall k :: k in r.to ==> k !in noOverlap
    requires forall k :: k in r.to ==>
                           k == CONSTANT || k in t[order[i]].to || exists s :: s in noOverlap && k in noOverlap[s].to
    requires SameGiven(noOverlap, r, t[order[i]], p)
    requires next == noOverlap[order[i] := r]
    ensures ResolvedTo(next, t, order, i + 1, forbidden, u, p)
  {
    hide TreeHolds, PrefixHolds, SolvedTree, NoneWaiting, Resolvable, SameGiven, GoodSubstitution, SubHolds;
    ConstantStays(t, forbidden, u, p);
    NotItself(r, order[i], u, p);
    assert order[i] in t;
    ResolvedStepSolved(noOverlap, next, t, order, i, r);
    ResolvedStepWaiting(noOverlap, next, t, order, i, r);
    forall w: Assignment
      ensures TreeHolds(next, w, p) <==> PrefixHolds(t, order, i + 1, w, p)
    {
      ResolvedStepHolds(noOverlap, next, t, order, i, r, w, p);
    }
  }

  /** Every substitution mentions smaller signals only, apart from forbidden ones. */
  ghost predicate LargestTree(t: Tree, forbidden: set<nat>) {
    forall s, k :: s in t && k in t[s].to ==> k in forbidden || k < s
  }

  lemma LargestStep(noOverlap: Tree, t: Tree, s: nat, r: Substitution, forbidden: set<nat>, u: set<nat>, p: int)
    requires s in t && GoodTree(noOverlap, forbidden, u, p)
    requires forall k :: k in r.to ==> k == CONSTANT || k in t[s].to || exists q :: q in noOverlap && q in t[s].to && k in noOverlap[q].to
    ensures CONSTANT in forbidden && LargestTree(t, forbidden) && LargestTree(noOverlap, forbidden) ==>
              LargestTree(noOverlap[s := r], forbidden)
  {
    hide GoodSubstitution;
  }

  /** Resolves the substitutions in an order in which each one mentions only signals resolved before it. */
  method ResolveInOrder(tree: Tree, order: seq<nat>, ghost forbidden: set<nat>, ghost u: set<nat>, field: int)
    returns (noOverlap: Tree)
    requires field > 0 && GoodTree(tree, forbidden, u, field) && Resolvable(tree, order)
    ensures noOverlap.Keys == tree.Keys && GoodTree(noOverlap, forbidden, u, field) && SolvedTree(noOverlap)
    ensures forall w: Assignment :: TreeHolds(noOverlap, w, field) <==> TreeHolds(tree, w, field)
    ensures CONSTANT in forbidden && LargestTree(tree, forbidden) ==> LargestTree(noOverlap, forbidden)
  {
    noOverlap := map[];
    ResolvableInTree(tree, order);
    for i := 0 to |order|
      invariant ResolvedTo(noOverlap, tree, order, i, forbidden, u, field)
      invariant CONSTANT in forbidden && LargestTree(tree, forbidden) ==> LargestTree(noOverlap, forbidden)
    {
      var s := order[i];
      assert s !in order[..i];
      var r := ResolveOne(noOverlap, tree[s], forbidden, u, field);
      ResolvedStep(noOverlap, noOverlap[s := r], tree, order, i, r, forbidden, u, field);
      LargestStep(noOverlap, tree, s, r, forbidden, u, field);
      noOverlap := noOverlap[s := r];
    }
    assert order[..|order|] == order;
    forall w: Assignment
      ensures PrefixHolds(tree, order, |order|, w, field) <==> TreeHolds(tree, w, field)
    {
      PrefixIsTree(tree, order, w, field);
    }
  }

  lemma PrefixIsTree(t: Tree, order: seq<nat>, w: Assignment, p: int)
    requires p > 0 && Resolvable(t, order)
    requires forall j :: 0 <= j < |order| ==> order[j] in t
    ensures PrefixHolds(t, order, |order|, w, p) <==> TreeHolds(t, w, p)
  {}

  /** Rows that mention smaller signals only can be resolved in ascending order. */
  lemma AscendingResolves(t: Tree, h: Holder, order: seq<nat>, forbidden: set<nat>, u: set<nat>, p: int)
    requires MaxFirst(h, forbidden, u, p) && h.Keys == t.Keys && forall s :: s in t ==> t[s].to.Keys <= h[s].sub.to.Keys
    requires Ascending(order) && forall k :: k in t.Keys <==> k in order
    ensures Resolvable(t, order)
  {}

  /** Heuristic 3: ascending order, since every row mentions smaller signals only. */
  method CreateNonoverlappingSubstitutions(possibleOverlap: Tree, ghost h: Holder, ghost forbidden: set<nat>, ghost u: set<nat>, field: int)
    returns (noOverlap: Tree)
    requires field > 0 && GoodTree(possibleOverlap, forbidden, u, field)
    requires MaxFirst(h, forbidden, u, field) && h.Keys == possibleOverlap.Keys
    requires forall s :: s in possibleOverlap ==> possibleOverlap[s].to.Keys <= h[s].sub.to.Keys
    ensures noOverlap.Keys == possibleOverlap.Keys && GoodTree(noOverlap, forbidden, u, field) && SolvedTree(noOverlap)
    ensures forall w: Assignment :: TreeHolds(noOverlap, w, field) <==> TreeHolds(possibleOverlap, w, field)
    ensures CONSTANT in forbidden ==> LargestTree(noOverlap, forbidden)
  {
    assert LargestTree(possibleOverlap, forbidden);
    hide GoodTree, SolvedTree, TreeHolds, MaxFirst, Resolvable, LargestTree;
    var order := SortedKeys(possibleOverlap.Keys);
    AscendingResolves(possibleOverlap, h, order, forbidden, u, field);
    noOverlap := ResolveInOrder(possibleOverlap, order, forbidden, u, field);
  }

  /** Heuristic 4: the last eliminated first. */
  method CreateNonoverlappingSubstitutions4(possibleOverlap: Tree, signals: SignalDefinition4, ghost h: Holder, ghost u: set<nat>, field: int)
    returns (noOverlap: Tree)
    requires field > 0 && GoodTree(possibleOverlap, signals.forbidden, u, field)
    requires LaterOnly(h, signals.orderSignals) && h.Keys == possibleOverlap.Keys
    requires forall s :: s in possibleOverlap ==> possibleOverlap[s].to.Keys <= h[s].sub.to.Keys
    ensures noOverlap.Keys == possibleOverlap.Keys && GoodTree(noOverlap, signals.forbidden, u, field) && SolvedTree(noOverlap)
    ensures forall w: Assignment :: TreeHolds(noOverlap, w, field) <==> TreeHolds(possibleOverlap, w, field)
  {
    forall i, j | 0 <= i <= j < |signals.orderSignals|
      ensures signals.orderSignals[j] !in possibleOverlap[signals.orderSignals[i]].to
    {
      assert signals.orderSignals[i] in signals.orderSignals;
    }
    noOverlap := ResolveInOrder(possibleOverlap, signals.orderSignals, signals.forbidden, u, field);
  }

  // ------------------------------------------------------------------ the whole elimination

  datatype Simplified = Simplified(constraints: seq<Constraint>, substitutions: seq<Substitution>, removed: seq<nat>)

  ghost function Froms(subs: seq<Substitution>): set<nat> { set s | s in subs :: s.from }

  ghost predicate SubsHold(subs: seq<Substitution>, w: Assignment, p: int)
    requires p > 0
  {
    forall s :: s in subs ==> SubHolds(s, w, p)
  }

  /** Every signal is eliminated once, and no right-hand side mentions an eliminated one. */
  ghost predicate Solved(subs: seq<Substitution>) {
    && (forall i, j :: 0 <= i < j < |subs| ==> subs[i].from != subs[j].from)
    && (forall s, t :: s in subs && t in subs ==> s.from !in t.to)
  }

  ghost predicate GoodSubstitutions(subs: seq<Substitution>, forbidden: set<nat>, u: set<nat>, p: int) {
    forall s :: s in subs ==> s.from !in forbidden && GoodSubstitution(s, s.from, u, p)
  }

  /** Every substitution mentions, apart from forbidden signals, only smaller ones than it eliminates. */
  ghost predicate LargestFirst(subs: seq<Substitution>, forbidden: set<nat>) {
    forall s, k :: s in subs && k in s.to ==> k in forbidden || k < s.from
  }

  /** What an elimination promises: an equivalent system in solved form, the rest over forbidden signals only. */
  ghost predicate SimplifiedFrom(r: Simplified, constraints: seq<Constraint>, forbidden: set<nat>, p: int)
    requires p > 0
  {
    && (forall w: Assignment :: AllHold(constraints, w, p)
                                <==> AllHold(r.constraints, w, p) && SubsHold(r.substitutions, w, p))
    && Solved(r.substitutions)
    && GoodSubstitutions(r.substitutions, forbidden, SignalsOf(constraints), p)
    && (forall c :: c in r.constraints ==> Leftover(c, forbidden, SignalsOf(constraints), p))
    && |r.removed| == |r.substitutions|
    && (forall i :: 0 <= i < |r.removed| ==> r.removed[i] == r.substitutions[i].from)
  }

  /** The substitutions as lists, in the order in which the hash map yields them. */
  method CollectSubstitutions(nonOverlapping: Tree, ghost forbidden: set<nat>, ghost u: set<nat>, field: int)
    returns (substitutions: seq<Substitution>, removed: seq<nat>)
    requires field > 0 && GoodTree(nonOverlapping, forbidden, u, field) && SolvedTree(nonOverlapping)
    ensures |removed| == |substitutions|
    ensures forall i :: 0 <= i < |removed| ==> removed[i] == substitutions[i].from
    ensures Solved(substitutions) && GoodSubstitutions(substitutions, forbidden, u, field)
    ensures forall w: Assignment :: SubsHold(substitutions, w, field) <==> TreeHolds(nonOverlapping, w, field)
    ensures forall s :: s in removed <==> s in nonOverlapping
    ensures LargestTree(nonOverlapping, forbidden) ==> LargestFirst(substitutions, forbidden)
  {
    substitutions, removed := [], [];
    var todo := nonOverlapping.Keys;
    while todo != {}
      invariant todo <= nonOverlapping.Keys
      invariant |removed| == |substitutions|
      invariant forall i :: 0 <= i < |removed| ==> removed[i] == substitutions[i].from
      invariant forall i :: 0 <= i < |removed| ==> removed[i] in nonOverlapping && removed[i] !in todo
                                                   && substitutions[i] == nonOverlapping[removed[i]]
      invariant forall s :: s in nonOverlapping && s !in todo ==> nonOverlapping[s] in substitutions && s in removed
      invariant forall i, j :: 0 <= i < j < |removed| ==> removed[i] != removed[j]
      decreases todo
    {
      var s :| s in todo;
      removed := removed + [s];
      substitutions := substitutions + [nonOverlapping[s]];
      todo := todo - {s};
    }
    CollectedMeans(nonOverlapping, substitutions, removed, forbidden, u, field);
  }

  lemma CollectedMeans(t: Tree, subs: seq<Substitution>, removed: seq<nat>, forbidden: set<nat>, u: set<nat>, p: int)
    requires p > 0 && GoodTree(t, forbidden, u, p) && SolvedTree(t) && |removed| == |subs|
    requires forall i :: 0 <= i < |removed| ==> removed[i] in t && subs[i] == t[removed[i]] && removed[i] == subs[i].from
    requires forall s :: s in t ==> t[s] in subs
    ensures forall s, k :: s in subs && k in subs ==> s.from !in k.to
    ensures GoodSubstitutions(subs, forbidden, u, p)
    ensures forall w: Assignment :: SubsHold(subs, w, p) <==> TreeHolds(t, w, p)
  {
    forall s | s in subs
      ensures s.from in t && t[s.from] == s
    {
      var i :| 0 <= i < |subs| && subs[i] == s;
    }
  }

  /** The eliminated signals in solved form, and what is left. */
  ghost predicate Eliminated(remaining: seq<Constraint>, nonOverlapping: Tree, constraints: seq<Constraint>, forbidden: set<nat>, p: int)
    requires p > 0
  {
    && GoodTree(nonOverlapping, forbidden, SignalsOf(constraints), p) && SolvedTree(nonOverlapping)
    && (forall c :: c in remaining ==> Leftover(c, forbidden, SignalsOf(constraints), p))
    && (forall w: Assignment :: AllHold(constraints, w, p) <==> AllHold(remaining, w, p) && TreeHolds(nonOverlapping, w, p))
  }

  /** Variant 4: rare signals first. */
  method EliminateRarest(constraints: seq<Constraint>, forbidden: set<nat>, field: int)
    returns (remaining: seq<Constraint>, nonOverlapping: Tree)
    requires Prime(field) && CONSTANT in forbidden
    requires forall c :: c in constraints ==> LinearRow(c, field)
    ensures Eliminated(remaining, nonOverlapping, constraints, forbidden, field)
    ensures RareEliminated(nonOverlapping.Keys, constraints, forbidden)
  {
    hide SignalsOf, PivotRow, GoodTree, SolvedTree, TreeHolds, HolderHolds, AllHold, Leftover, LaterOnly, RareEliminated;
    ghost var u := SignalsOf(constraints);
    var signals := new SignalDefinition4(forbidden);
    var holder;
    remaining, holder := SubstitutionProcess4(signals, constraints, field);
    var normalized := NormalizeSubstitutions(holder, forbidden, u, field);
    nonOverlapping := CreateNonoverlappingSubstitutions4(normalized, signals, holder, u, field);
  }

  /** Variant 3: the largest signal of every constraint. */
  method EliminateLargest(constraints: seq<Constraint>, forbidden: set<nat>, field: int)
    returns (remaining: seq<Constraint>, nonOverlapping: Tree)
    requires Prime(field) && CONSTANT in forbidden
    requires forall c :: c in constraints ==> LinearRow(c, field)
    ensures Eliminated(remaining, nonOverlapping, constraints, forbidden, field)
    ensures LargestTree(nonOverlapping, forbidden)
  {
    hide SignalsOf, PivotRow, GoodTree, SolvedTree, TreeHolds, HolderHolds, AllHold, Leftover, LargestTree;
    ghost var u := SignalsOf(constraints);
    UniverseOfAll(constraints);
    var signals := new SignalDefinition(forbidden);
    var holder;
    remaining, holder := SubstitutionProcess3(signals, constraints, u, field);
    var normalized := NormalizeSubstitutions(holder, forbidden, u, field);
    nonOverlapping := CreateNonoverlappingSubstitutions(normalized, holder, forbidden, u, field);
  }

  const MIN_OCCURRENCE_SIZE: nat := 350
  const MAX_OCCURRENCE_SIZE: nat := 1000000

  method FullSimplification(constraints: seq<Constraint>, forbidden: set<nat>, useOldHeuristics: bool, field: int)
    returns (r: Simplified)
    requires Prime(field) && CONSTANT in forbidden
    requires forall c :: c in constraints ==> LinearRow(c, field)
    ensures SimplifiedFrom(r, constraints, forbidden, field)
    ensures if 350 <= |constraints| < 1000000 && !useOldHeuristics then RareEliminated(Froms(r.substitutions), constraints, forbidden)
            else LargestFirst(r.substitutions, forbidden)
  {
    hide SignalsOf, GoodTree, SolvedTree, TreeHolds, AllHold, Leftover, RareEliminated, LargestTree, LargestFirst, Solved, GoodSubstitutions, SubsHold;
    var applyLessOccurrences := MIN_OCCURRENCE_SIZE <= |constraints| < MAX_OCCURRENCE_SIZE && !useOldHeuristics;
    var remaining, nonOverlapping: Tree;
    if applyLessOccurrences {
      remaining, nonOverlapping := EliminateRarest(constraints, forbidden, field);
    } else {
      remaining, nonOverlapping := EliminateLargest(constraints, forbidden, field);
    }
    var substitutions, removed := CollectSubstitutions(nonOverlapping, forbidden, SignalsOf(constraints), field);
    r := Simplified(remaining, substitutions, removed);
    assert Froms(substitutions) == nonOverlapping.Keys by {
      assert forall i :: 0 <= i < |removed| ==> removed[i] in removed && substitutions[i] in substitutions;
    }
  }

  lemma UniverseOfAll(constraints: seq<Constraint>)
    ensures forall c :: c in constraints ==> Signals(c) <= SignalsOf(constraints)
  {}
}
