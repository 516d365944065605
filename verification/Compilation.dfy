/**
 The compilation of a graph of templates into numbered constraints: the mapping (circom/dag/src/map_to_constraint_list.rs, map),
 the simplification, and the renumbering with which the constraints are exported (circom/constraint_list/src/r1cs_porting.rs).
 */
module Compilation {
  import opened Field
  import opened LinearForms
  import opened Algebra
  import opened Rows
  import opened Elimination
  import opened ClusterPass
  import opened Renaming
  import opened Witness
  import opened Simplification
  import opened WholePass
  import opened Dag
  import opened Flattening
  import M = Mapping

  function Main(g: Graph): nat
    requires g.nodes != []
  {
    |g.nodes| - 1
  }

  /** The constraints the mapping sees: the main node's as they are, the components' moved, without empty ones. */
  ghost function AllConstraints(g: Graph): seq<Constraint>
    requires IsGraph(g) && g.nodes != []
  {
    g.nodes[Main(g)].constraints + FlattenedEdges(g, Main(g), 0, |g.adjacency[Main(g)]|)
  }

  lemma {:induction false} PickRoot(cs: seq<Constraint>, field: int)
    requires field > 0
    ensures Pick(Moved(cs, 0), Kind.NonLinear, field) == Pick(cs, Kind.NonLinear, field)
  {
    hide KindOf, ApplyOffset, IsEmpty;
    if |cs| > 0 {
      var last := |cs| - 1;
      PickRoot(cs[..last], field);
      var front := Moved(cs[..last], 0);
      if IsEmpty(cs[last]) {
        assert Moved(cs, 0) == front;
        M.EmptyIsLinear(cs[last]);
        M.KindIsNonLinear(cs[last], field);
      } else {
        OffsetZero(cs[last]);
        assert Moved(cs, 0) == front + [cs[last]];
        M.PickOne(front, cs[last], Kind.NonLinear, field);
      }
    }
  }

  lemma OffsetZero(c: Constraint)
    ensures ApplyOffset(c, 0) == c
  {}

  /** The circuit has every constraint in the list of its kind, the quadratic ones as the encoding yields them. */
  ghost predicate IsMapped(g: Graph, k: Circuit, field: int)
    requires field > 0 && IsGraph(g) && g.nodes != []
  {
    && k.maxSignal == Size(g, Main(g)) + 1
    && k.forbidden == g.nodes[Main(g)].forbiddenIfMain + M.CustomSignals(g, Main(g), 0)
    && k.consEqualities == Pick(AllConstraints(g), ConstantEquality, field)
    && k.equalities == Pick(AllConstraints(g), Equality, field)
    && k.linear == Pick(AllConstraints(g), LinearOnly, field)
    && k.nonLinear == Pick(AllConstraints(g), Kind.NonLinear, field)
  }

  method Map(g: Graph, field: int) returns (k: Circuit, noConstraints: nat)
    requires IsGraph(g) && g.nodes != [] && field > 0
    ensures IsMapped(g, k, field) && noConstraints == |k.nonLinear|
  {
    hide IsGraph, Pick, M.CustomSignals, Flattened, Moved, M.LocalList, M.Enumerates, M.Encodes;
    GraphNode(g, Main(g));
    var tree := M.NewTree(g);
    var signals, cHolder, forbidden;
    ghost var added;
    signals, cHolder, forbidden, noConstraints, added :=
      M.MapTree(g, tree, [CONSTANT], M.CHolder([], [], []), g.nodes[Main(g)].forbiddenIfMain, field);
    SignalCount(added, Size(g, Main(g)));
    var encoding := M.ProduceEncoding(noConstraints, g);
    EncodingInit(encoding, g);
    var nonLinear := M.Replay(encoding, encoding.init, 0, g, field);
    ReplayedAll(g, field);
    k := Circuit(cHolder.equalities, cHolder.constantEqualities, cHolder.linear, nonLinear, forbidden, |signals|);
  }

  lemma SignalCount(added: seq<nat>, n: nat)
    requires M.Enumerates(added, 0, n)
    ensures |[CONSTANT] + added| == n + 1
  {}

  lemma EncodingInit(enc: M.DAGEncoding, g: Graph)
    requires M.Encodes(enc, g)
    ensures enc.init == |g.nodes| - 1
  {}

  /** The encoding misses nothing: empty constraints are linear, and the main node is not moved. */
  lemma ReplayedAll(g: Graph, field: int)
    requires IsGraph(g) && g.nodes != [] && field > 0
    ensures Pick(Flattened(g, Main(g), 0), Kind.NonLinear, field) == Pick(AllConstraints(g), Kind.NonLinear, field)
  {
    hide Pick, FlattenedEdges, Moved;
    M.FlattenedIs(g, Main(g), 0);
    var cs, rest := g.nodes[Main(g)].constraints, FlattenedEdges(g, Main(g), 0, |g.adjacency[Main(g)]|);
    PickRoot(cs, field);
    PickAppend(cs, rest, Kind.NonLinear, field);
    PickAppend(Moved(cs, 0), rest, Kind.NonLinear, field);
  }

  lemma ShiftNothing(cs: seq<Constraint>, w: Assignment, p: int)
    requires p > 0
    ensures AllHold(cs, Shift(w, 0), p) <==> AllHold(cs, w, p)
  {
    hide Holds;
    forall c
      ensures Holds(c, Shift(w, 0), p) <==> Holds(c, w, p)
    {
      HoldsAgree(c, Shift(w, 0), w, p);
    }
  }

  /** No constraint is lost or changed: the circuit holds where the main node and all components hold at their places. */
  lemma MappedHolds(g: Graph, k: Circuit, w: Assignment, p: int)
    requires p > 0 && IsGraph(g) && g.nodes != [] && IsMapped(g, k, p)
    ensures CircuitHolds(k, w, p) <==> NodeHolds(g, Main(g), 0, w, p)
  {
    hide AllHold, Pick, FlattenedEdges, Moved, NodeHolds, M.CustomSignals;
    PickHolds(AllConstraints(g), w, p);
    var cs, rest := g.nodes[Main(g)].constraints, FlattenedEdges(g, Main(g), 0, |g.adjacency[Main(g)]|);
    AllHoldJoin(cs, rest, w, p);
    AllHoldJoin(Moved(cs, 0), rest, w, p);
    MovedHolds(cs, 0, w, p);
    ShiftNothing(cs, w, p);
    FlattenedHolds(g, Main(g), 0, w, p);
  }

  // ------------------------------------------------------------------ the mapped circuit is fit for simplification

  /** Coefficients are residues, linear ones of signals not zero, and constraints use the node's own numbers. */
  ghost predicate GoodConstraint(c: Constraint, low: nat, size: nat, p: int) {
    && CanonicalConstraint(c, p) && (IsLinear(c) ==> LinearRow(c, p))
    && forall s :: s in Signals(c) ==> low < s <= low + size
  }

  ghost predicate GoodConstraints(g: Graph, p: int) {
    forall n: nat, c :: n < |g.nodes| && c in g.nodes[n].constraints ==> GoodConstraint(c, 0, g.nodes[n].numberOfSignals, p)
  }

  lemma {:induction false} MovedGood(cs: seq<Constraint>, offset: nat, size: nat, p: int)
    requires forall c :: c in cs ==> GoodConstraint(c, 0, size, p)
    ensures forall c :: c in Moved(cs, offset) ==> GoodConstraint(c, offset, size, p)
  {
    hide ApplyOffset, IsEmpty;
    if |cs| > 0 {
      var last := |cs| - 1;
      assert cs[last] in cs && forall c :: c in cs[..last] ==> c in cs;
      MovedGood(cs[..last], offset, size, p);
      hide CanonicalConstraint, LinearRow, IsLinear, Signals;
      OffsetShape(cs[last], offset, p);
    }
  }

  lemma Widen(c: Constraint, low: nat, size: nat, low': nat, size': nat, p: int)
    requires GoodConstraint(c, low, size, p) && low' <= low && low + size <= low' + size'
    ensures GoodConstraint(c, low', size', p)
  {}

  /** Every constraint of a component stays within the component's numbers. */
  lemma {:induction false} FlattenedGood(g: Graph, n: nat, offset: nat, p: int)
    requires IsGraph(g) && n < |g.nodes| && GoodConstraints(g, p)
    ensures forall c :: c in Flattened(g, n, offset) ==> GoodConstraint(c, offset, Size(g, n), p)
    decreases n, |g.adjacency[n]| + 1
  {
    hide GoodConstraint, Moved, FlattenedEdges, IsGraph;
    M.FlattenedIs(g, n, offset);
    MovedGood(g.nodes[n].constraints, offset, Size(g, n), p);
    EdgesGood(g, n, offset, |g.adjacency[n]|, p);
  }

  lemma {:induction false} EdgesGood(g: Graph, n: nat, offset: nat, k: nat, p: int)
    requires IsGraph(g) && n < |g.nodes| && |g.adjacency| == |g.nodes| && k <= |g.adjacency[n]| && GoodConstraints(g, p)
    ensures forall c :: c in FlattenedEdges(g, n, offset, k) ==> GoodConstraint(c, offset, Size(g, n), p)
    decreases n, k
  {
    hide GoodConstraint, Flattened, ValidNode, GoodConstraints;
    if k > 0 {
      GraphNode(g, n);
      var e := g.adjacency[n][k - 1];
      EdgeFits(g, n, k - 1);
      EdgesGood(g, n, offset, k - 1, p);
      FlattenedGood(g, e.goesTo, offset + e.inNumber, p);
      forall c | c in Flattened(g, e.goesTo, offset + e.inNumber)
        ensures GoodConstraint(c, offset, Size(g, n), p)
      {
        Widen(c, offset + e.inNumber, Size(g, e.goesTo), offset, Size(g, n), p);
      }
    }
  }

  lemma EdgeFits(g: Graph, n: nat, i: nat)
    requires IsGraph(g) && n < |g.nodes| && |g.adjacency| == |g.nodes| && i < |g.adjacency[n]|
    ensures var e := g.adjacency[n][i]; e.goesTo < |g.nodes| && e.inNumber + Size(g, e.goesTo) <= Size(g, n)
  {}

  lemma AllGood(g: Graph, p: int)
    requires IsGraph(g) && g.nodes != [] && GoodConstraints(g, p)
    ensures forall c :: c in AllConstraints(g) ==> GoodConstraint(c, 0, Size(g, Main(g)), p)
  {
    hide GoodConstraint, FlattenedEdges;
    EdgesGood(g, Main(g), 0, |g.adjacency[Main(g)]|, p);
  }

  lemma GoodSignals(cs: seq<Constraint>, size: nat, p: int)
    requires forall c :: c in cs ==> GoodConstraint(c, 0, size, p)
    ensures SignalsOf(cs) <= Ids(size + 1)
  {}

  /** The mapping gives the simplification what it expects. */
  lemma MappedIsValid(g: Graph, k: Circuit, p: int)
    requires p > 0 && IsGraph(g) && g.nodes != [] && IsMapped(g, k, p) && GoodConstraints(g, p)
    ensures ValidCircuit(k, p) && k.maxSignal > 0
  {
    hide IsGraph, AllConstraints, M.CustomSignals, Pick, GoodConstraint, GoodConstraints, SignalsOf, Ids;
    AllGood(g, p);
    forall c, kind
      ensures c in Pick(AllConstraints(g), kind, p) <==> c in AllConstraints(g) && KindOf(c, p) == kind
    {
      PickMembers(AllConstraints(g), kind, p, c);
    }
    forall c | c in AllConstraints(g)
      ensures CanonicalConstraint(c, p) && (IsLinear(c) ==> LinearRow(c, p))
    {
      GoodShapeOf(c, 0, Size(g, Main(g)), p);
    }
    hide CanonicalConstraint, LinearRow, IsEquality, IsConstantEquality, IsLinear;
    forall c
      ensures KindOf(c, p) == Equality ==> IsEquality(c, p) && IsLinear(c)
      ensures KindOf(c, p) == ConstantEquality ==> IsConstantEquality(c) && IsLinear(c)
      ensures KindOf(c, p) == LinearOnly ==> IsLinear(c)
    {
      KindShape(c, p);
    }
    GoodSignals(k.equalities, Size(g, Main(g)), p);
    GoodSignals(k.consEqualities, Size(g, Main(g)), p);
    GoodSignals(k.linear, Size(g, Main(g)), p);
    GoodSignals(k.nonLinear, Size(g, Main(g)), p);
    GraphNode(g, Main(g));
    assert CONSTANT in k.forbidden by { MainForbids(g); }
  }

  lemma GoodShapeOf(c: Constraint, low: nat, size: nat, p: int)
    requires GoodConstraint(c, low, size, p)
    ensures CanonicalConstraint(c, p) && (IsLinear(c) ==> LinearRow(c, p))
  {}

  lemma KindShape(c: Constraint, p: int)
    requires p > 0
    ensures KindOf(c, p) == Equality ==> IsEquality(c, p) && IsLinear(c)
    ensures KindOf(c, p) == ConstantEquality ==> IsConstantEquality(c) && IsLinear(c)
    ensures KindOf(c, p) == LinearOnly ==> IsLinear(c)
  {}

  lemma MainForbids(g: Graph)
    requires IsGraph(g) && g.nodes != []
    ensures CONSTANT in g.nodes[Main(g)].forbiddenIfMain
  {
    GraphNode(g, Main(g));
  }

  // ------------------------------------------------------------------ from the graph to the exported constraints

  /** Maps, simplifies and renumbers: the constraints, over wires 0 to the number of names less one. */
  method Compile(g: Graph, noRounds: nat, flagS: bool, useOldHeuristics: bool, field: int)
    returns (k: Circuit, exported: seq<Constraint>, names: map<nat, nat>, ghost out: seq<Constraint>, ghost subs: seq<Substitution>,
             ghost passes: seq<Pass>)
    requires Prime(field) && IsGraph(g) && g.nodes != [] && GoodConstraints(g, field)
    ensures IsMapped(g, k, field) && ValidCircuit(k, field) && SimplifiedTo(k, out, names, subs, field)
    ensures Renumbered(out, names, exported)
    ensures EliminatedBy(k, subs, passes, useOldHeuristics, field)
    ensures if flagS then passes == [] else 1 <= |passes| <= if noRounds > 0 then noRounds else 1
    ensures flagS ==> Froms(subs) <= SignalsOf(k.equalities) + SignalsOf(k.consEqualities)
    ensures !flagS && noRounds >= k.maxSignal + 3 ==> LinearOverForbidden(out, k.forbidden)
    ensures names.Keys <= k.forbidden + CircuitSignals(k)
    ensures |passes| <= 1 ==> names.Keys == SignalsOf(out) + k.forbidden * Ids(k.maxSignal)
  {
    hide IsGraph, IsMapped, ValidCircuit, GoodConstraints, IsRenamedConstraint;
    var noConstraints, storage;
    k, noConstraints := Map(g, field);
    MappedIsValid(g, k, field);
    storage, names, subs, passes := SimplifyCircuit(k, noRounds, flagS, useOldHeuristics, field);
    out := storage.constraints;
    NamesFit(k, out, names, subs, field);
    exported := Renumber(storage.constraints, names);
  }

  lemma NamesFit(k: Circuit, out: seq<Constraint>, names: map<nat, nat>, subs: seq<Substitution>, p: int)
    requires p > 0 && ValidCircuit(k, p) && k.maxSignal > 0 && SimplifiedTo(k, out, names, subs, p)
    ensures IsRanking(names, names.Keys) && CONSTANT in names && SignalsOf(out) <= names.Keys
  {}

  /**
   End to end: unless two constant equalities conflict, an assignment of the exported wires satisfies the exported
   constraints exactly if it is the kept part of an assignment under which the main template and all its components hold.
   */
  lemma CompileIsEquivalent(g: Graph, k: Circuit, out: seq<Constraint>, names: map<nat, nat>, subs: seq<Substitution>, exported: seq<Constraint>, p: int)
    requires Prime(p) && IsGraph(g) && g.nodes != [] && IsMapped(g, k, p) && ValidCircuit(k, p)
    requires SimplifiedTo(k, out, names, subs, p) && !HasConflict(k, p)
    requires Renumbered(out, names, exported)
    ensures forall w: Assignment :: AllHold(exported, w, p) ==>
              exists v: Assignment :: NodeHolds(g, Main(g), 0, v, p) && Carries(names, v, w)
    ensures forall v: Assignment, w: Assignment :: NodeHolds(g, Main(g), 0, v, p) && Carries(names, v, w) ==> AllHold(exported, w, p)
  {
    hide IsGraph, IsMapped, ValidCircuit, SimplifiedTo, HasConflict, AllHold, NodeHolds, CircuitHolds, IsRenamedConstraint, Carries;
    CompiledIsEquivalent(k, out, names, subs, exported, p);
    forall v: Assignment
      ensures CircuitHolds(k, v, p) <==> NodeHolds(g, Main(g), 0, v, p)
    {
      MappedHolds(g, k, v, p);
    }
  }
}
