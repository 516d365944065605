/**
 The traversals of the graph (circom/dag/src/lib.rs, Tree; circom/dag/src/witness_producer.rs;
 circom/dag/src/map_to_constraint_list.rs; circom/constraint_list/src/state_utils.rs).
 */
module Mapping {
  import opened LinearForms
  import opened Algebra
  import opened Orders
  import opened Dag
  import opened Flattening

  datatype Tree = Tree(nodeId: nat, offset: nat, signals: seq<nat>, forbidden: set<nat>, constraints: seq<Constraint>)

  /** The local signals of a node at their place, in ascending order. */
  ghost predicate LocalList(node: Node, offset: nat, signals: seq<nat>) {
    && (forall x: nat :: x in signals <==> x >= offset && x - offset in node.locals)
    && |signals| == |node.locals| && Ascending(signals)
  }

  /** The number has a name that was visited. */
  ghost predicate NameVisited(node: Node, todo: set<string>, id: nat) {
    exists name :: name in node.signalCorrespondence && name !in todo && node.signalCorrespondence[name] == id
  }

  /** The moved local signals whose names were visited. */
  ghost predicate FoundSoFar(node: Node, todo: set<string>, offset: nat, found: set<nat>) {
    forall x: nat :: x in found <==> (x >= offset && x - offset in node.locals && NameVisited(node, todo, x - offset))
  }

  lemma FoundOne(node: Node, todo: set<string>, offset: nat, found: set<nat>, name: string)
    requires FoundSoFar(node, todo, offset, found) && name in todo && name in node.signalCorrespondence
    ensures var id := node.signalCorrespondence[name];
            FoundSoFar(node, todo - {name}, offset, if id in node.locals then found + {id + offset} else found)
  {}

  /** The local signals that have a name, at their place, in ascending order. */
  ghost predicate NamedList(node: Node, offset: nat, signals: seq<nat>) {
    && (forall x: nat :: x in signals <==> x >= offset && x - offset in node.locals && HasName(node, x - offset))
    && Ascending(signals)
  }

  lemma FoundAll(node: Node, offset: nat, found: set<nat>)
    requires FoundSoFar(node, {}, offset, found)
    ensures forall x: nat :: x in found <==> x >= offset && x - offset in node.locals && HasName(node, x - offset)
  {}

  /** The local signals found through their names, then sorted. */
  method CollectLocals(node: Node, offset: nat) returns (signals: seq<nat>)
    requires OneNameEach(node)
    ensures NamedList(node, offset, signals)
    ensures LocalList(node, offset, signals) <==> Named(node)
  {
    hide FoundSoFar, Named;
    var found: set<nat> := {};
    var todo := node.signalCorrespondence.Keys;
    NothingFound(node, offset);
    while todo != {}
      invariant todo <= node.signalCorrespondence.Keys && FoundSoFar(node, todo, offset, found)
      decreases todo
    {
      var name :| name in todo;
      FoundOne(node, todo, offset, found, name);
      todo := todo - {name};
      var id := node.signalCorrespondence[name];
      if id in node.locals {
        found := found + {id + offset};
      }
    }
    FoundAll(node, offset, found);
    signals := SortedKeys(found);
    NamedIsLocal(node, offset, signals);
  }

  lemma NamedIsLocal(node: Node, offset: nat, signals: seq<nat>)
    requires OneNameEach(node) && NamedList(node, offset, signals)
    ensures LocalList(node, offset, signals) <==> Named(node)
  {
    hide HasName, OneNameEach;
    if Named(node) {
      var found := set x | x in signals;
      LocalsCounted(node, offset, found, signals);
    } else {
      var id :| id in node.locals && !HasName(node, id);
      assert id + offset !in signals;
    }
  }

  /**
   Why names must differ: a signal whose name is given to another one stays a signal of the node, but the flattening
   lists all of them except this one.
   */
  lemma DuplicateIsLost(node: Node, name: string, node': Node, offset: nat, signals: seq<nat>)
    requires Named(node) && GrownBy(node, name, node') && !NameFree(node, name)
    requires forall id :: id in node.locals ==> id <= node.numberOfSignals
    requires forall a :: a in node.signalCorrespondence ==> node.signalCorrespondence[a] <= node.numberOfSignals
    requires NamedList(node', offset, signals)
    ensures node.signalCorrespondence[name] in node'.locals
    ensures forall id :: id in node'.locals ==> (id + offset in signals <==> id != node.signalCorrespondence[name])
  {
    hide HasName, OneNameEach;
    LocalNamed(node, name, node');
  }

  lemma NothingFound(node: Node, offset: nat)
    ensures FoundSoFar(node, node.signalCorrespondence.Keys, offset, {})
  {}

  lemma LocalsCounted(node: Node, offset: nat, found: set<nat>, signals: seq<nat>)
    requires forall x: nat :: x in found <==> x >= offset && x - offset in node.locals
    requires Ascending(signals) && forall k: nat :: k in found <==> k in signals
    ensures |signals| == |node.locals|
  {
    AscendingLength(signals, found);
    CoveringLength(signals, found);
    MovedSetSize(node.locals, offset, found);
  }

  lemma {:induction false} MovedSetSize(s: set<nat>, offset: nat, moved: set<nat>)
    requires forall x: nat :: x in moved <==> x >= offset && x - offset in s
    ensures |moved| == |s|
    decreases |s|
  {
    if s == {} {
      assert moved == {};
    } else {
      var k :| k in s;
      assert k + offset in moved;
      MovedSetSize(s - {k}, offset, moved - {k + offset});
    }
  }

  ghost predicate IsTree(g: Graph, t: Tree) {
    && IsGraph(g) && t.nodeId < |g.nodes| && |g.adjacency| == |g.nodes|
    && LocalList(g.nodes[t.nodeId], t.offset, t.signals)
  }

  method NewTree(g: Graph) returns (t: Tree)
    requires IsGraph(g) && g.nodes != []
    ensures IsTree(g, t) && t.nodeId == |g.nodes| - 1 && t.offset == 0
    ensures t.constraints == g.nodes[t.nodeId].constraints && t.forbidden == g.nodes[t.nodeId].forbiddenIfMain
  {
    var nodeId := |g.nodes| - 1;
    var root := g.nodes[nodeId];
    GraphNode(g, nodeId);
    var offset := root.entry.inNumber;
    var signals := CollectLocals(root, offset);
    var forbidden := set s | s in root.forbiddenIfMain :: s + offset;
    assert forbidden == root.forbiddenIfMain;
    t := Tree(nodeId, offset, signals, forbidden, root.constraints);
  }

  method MoveConstraints(constraints: seq<Constraint>, offset: nat) returns (moved: seq<Constraint>)
    ensures moved == Moved(constraints, offset)
  {
    hide ApplyOffset;
    moved := [];
    for i := 0 to |constraints|
      invariant moved == Moved(constraints[..i], offset)
    {
      assert constraints[..i + 1][..i] == constraints[..i];
      if !IsEmpty(constraints[i]) {
        moved := moved + [ApplyOffset(constraints[i], offset)];
      }
    }
    PrefixAll(constraints);
  }

  method GoToSubtree(g: Graph, current: Tree, edge: Edge) returns (t: Tree)
    requires IsTree(g, current) && edge.goesTo < |g.nodes|
    ensures IsTree(g, t) && t.nodeId == edge.goesTo && t.offset == current.offset + edge.inNumber
    ensures t.constraints == Moved(g.nodes[t.nodeId].constraints, t.offset)
  {
    var node := g.nodes[edge.goesTo];
    GraphNode(g, edge.goesTo);
    var offset := current.offset + edge.inNumber;
    var signals := CollectLocals(node, offset);
    var constraints := MoveConstraints(node.constraints, offset);
    t := Tree(edge.goesTo, offset, signals, {}, constraints);
  }

  // ------------------------------------------------------------------ the witness

  /** The list holds every number above low up to low + n, and as many entries as there are such numbers. */
  ghost predicate Enumerates(s: seq<nat>, low: nat, n: nat) {
    |s| == n && forall x: nat :: x in s <==> low < x <= low + n
  }

  /** The local signals and the signals of the first k components. */
  ghost predicate Partly(g: Graph, n: nat, offset: nat, k: nat, added: seq<nat>)
    requires n < |g.nodes| && n < |g.adjacency| && k <= |g.adjacency[n]|
    requires forall i :: 0 <= i < |g.adjacency[n]| ==> g.adjacency[n][i].goesTo < |g.nodes|
  {
    && |added| == |g.nodes[n].locals| + EdgeSizes(g.nodes, g.adjacency[n][..k])
    && (forall x: nat :: x in added <==> x >= offset && (x - offset in g.nodes[n].locals || InSomeEdge(g.adjacency[n][..k], x - offset)))
  }

  lemma PartlyFirst(g: Graph, t: Tree)
    requires IsTree(g, t)
    ensures forall i :: 0 <= i < |g.adjacency[t.nodeId]| ==> g.adjacency[t.nodeId][i].goesTo < t.nodeId
    ensures Partly(g, t.nodeId, t.offset, 0, t.signals)
  {}

  lemma InSomeStep(edges: seq<Edge>, k: nat, id: nat)
    requires k < |edges|
    ensures InSomeEdge(edges[..k + 1], id) <==> InSomeEdge(edges[..k], id) || InEdge(edges[k], id)
  {}

  lemma PartlyStep(g: Graph, n: nat, offset: nat, k: nat, added: seq<nat>, sub: seq<nat>)
    requires IsGraph(g) && n < |g.nodes| && |g.adjacency| == |g.nodes| && k < |g.adjacency[n]|
    requires forall i :: 0 <= i < |g.adjacency[n]| ==> g.adjacency[n][i].goesTo < |g.nodes|
    requires Partly(g, n, offset, k, added)
    requires var e := g.adjacency[n][k]; Enumerates(sub, offset + e.inNumber, Size(g, e.goesTo))
    ensures Partly(g, n, offset, k + 1, added + sub)
  {
    hide InSomeEdge;
    var edges := g.adjacency[n];
    assert ValidNode(g.nodes, n, edges);
    assert ValidEdge(g.nodes, n, edges[k]);
    assert edges[..k + 1][..k] == edges[..k];
    forall x: nat
      ensures x in added + sub <==> x >= offset && (x - offset in g.nodes[n].locals || InSomeEdge(edges[..k + 1], x - offset))
    {
      if x >= offset {
        InSomeStep(edges, k, x - offset);
      }
      assert x in added + sub <==> x in added || x in sub;
    }
  }

  /** The numbering: every number of the node's range once. */
  lemma PartlyAll(g: Graph, n: nat, offset: nat, added: seq<nat>)
    requires IsGraph(g) && n < |g.nodes| && |g.adjacency| == |g.nodes|
    requires forall i :: 0 <= i < |g.adjacency[n]| ==> g.adjacency[n][i].goesTo < |g.nodes|
    requires Partly(g, n, offset, |g.adjacency[n]|, added)
    ensures Enumerates(added, offset, Size(g, n))
  {
    var edges := g.adjacency[n];
    assert ValidNode(g.nodes, n, edges);
    PrefixAll(edges);
    forall x: nat | x in added
      ensures offset < x <= offset + Size(g, n)
    {
      if x - offset !in g.nodes[n].locals {
        var i :| 0 <= i < |edges| && InEdge(edges[i], x - offset);
        assert ValidEdge(g.nodes, n, edges[i]);
      }
    }
  }

  /** An enumeration has no duplicates. */
  lemma EnumeratesOnce(s: seq<nat>, low: nat, n: nat)
    requires Enumerates(s, low, n)
    ensures forall i, j :: 0 <= i < j < |s| ==> s[i] != s[j]
  {
    forall i, j | 0 <= i < j < |s|
      ensures s[i] != s[j]
    {
      if s[i] == s[j] {
        var shorter := s[..j] + s[j + 1..];
        forall x: nat
          ensures x in s <==> x in shorter
        {
          if x in s {
            var k :| 0 <= k < |s| && s[k] == x;
            if k < j {
              assert shorter[k] == x;
            } else if k > j {
              assert shorter[k - 1] == x;
            } else {
              assert shorter[i] == x;
            }
          }
        }
        var range := RangeSize(low, n);
        CoveringLength(shorter, range);
      }
    }
  }

  lemma {:induction false} RangeSize(low: nat, n: nat) returns (range: set<nat>)
    ensures |range| == n && forall x: nat :: x in range <==> low < x <= low + n
  {
    if n == 0 {
      range := {};
    } else {
      range := RangeSize(low, n - 1);
      range := range + {low + n};
    }
  }

  method ProduceTreeWitness(g: Graph, t: Tree, witness0: seq<nat>) returns (result: seq<nat>, ghost added: seq<nat>)
    requires IsTree(g, t)
    ensures result == witness0 + added && Enumerates(added, t.offset, Size(g, t.nodeId))
    decreases t.nodeId
  {
    hide IsGraph, LocalList, Partly, Enumerates;
    result := witness0;
    for i := 0 to |t.signals|
      invariant result == witness0 + t.signals[..i]
    {
      result := result + [t.signals[i]];
      PrefixStep(t.signals, i);
    }
    PrefixAll(t.signals);
    added := t.signals;
    PartlyFirst(g, t);
    var edges := g.adjacency[t.nodeId];
    for k := 0 to |edges|
      invariant result == witness0 + added
      invariant Partly(g, t.nodeId, t.offset, k, added)
    {
      var subtree := GoToSubtree(g, t, edges[k]);
      ghost var sub;
      result, sub := ProduceTreeWitness(g, subtree, result);
      PartlyStep(g, t.nodeId, t.offset, k, added, sub);
      added := added + sub;
    }
    PartlyAll(g, t.nodeId, t.offset, added);
  }

  /** Every wire of the circuit, the constant wire included, is listed exactly once. */
  ghost predicate IsPermutation(s: seq<nat>, n: nat) {
    && |s| == n + 1 && (forall x: nat :: x in s <==> x <= n)
    && (forall i, j :: 0 <= i < j < |s| ==> s[i] != s[j])
  }

  lemma EnumerationWithConstant(added: seq<nat>, n: nat)
    requires Enumerates(added, 0, n)
    ensures IsPermutation([CONSTANT] + added, n)
  {
    EnumeratesOnce(added, 0, n);
    var s := [CONSTANT] + added;
    forall x: nat
      ensures x in s <==> x <= n
    {
      assert x in s <==> x == CONSTANT || x in added;
    }
    forall i, j | 0 <= i < j < |s|
      ensures s[i] != s[j]
    {
      assert s[j] == added[j - 1] && added[j - 1] in added;
    }
  }

  method ProduceWitness(g: Graph) returns (result: seq<nat>)
    requires IsGraph(g) && g.nodes != []
    ensures IsPermutation(result, Size(g, |g.nodes| - 1))
  {
    result := [CONSTANT];
    var tree := NewTree(g);
    ghost var added;
    result, added := ProduceTreeWitness(g, tree, result);
    EnumerationWithConstant(added, Size(g, |g.nodes| - 1));
  }

  // ------------------------------------------------------------------ sorting the constraints

  datatype CHolder = CHolder(linear: seq<Constraint>, equalities: seq<Constraint>, constantEqualities: seq<Constraint>)

  /** The constraints of a tree and of its first k components. */
  ghost function TreeConstraints(g: Graph, t: Tree, k: nat): seq<Constraint>
    requires IsTree(g, t) && k <= |g.adjacency[t.nodeId]|
  {
    t.constraints + FlattenedEdges(g, t.nodeId, t.offset, k)
  }

  /** The holder has grown by the constraints of a list, each in the place of its kind; the rest were counted. */
  ghost predicate Sorted(before: CHolder, after: CHolder, noConstraints: nat, cs: seq<Constraint>, field: int)
    requires field > 0
  {
    && after.constantEqualities == before.constantEqualities + Pick(cs, ConstantEquality, field)
    && after.equalities == before.equalities + Pick(cs, Equality, field)
    && after.linear == before.linear + Pick(cs, LinearOnly, field)
    && noConstraints == |Pick(cs, NonLinear, field)|
  }

  lemma SortedAppend(a: CHolder, b: CHolder, c: CHolder, n: nat, m: nat, cs: seq<Constraint>, ds: seq<Constraint>, field: int)
    requires field > 0 && Sorted(a, b, n, cs, field) && Sorted(b, c, m, ds, field)
    ensures Sorted(a, c, n + m, cs + ds, field)
  {
    hide Pick;
    PickAppend(cs, ds, ConstantEquality, field);
    PickAppend(cs, ds, Equality, field);
    PickAppend(cs, ds, LinearOnly, field);
    PickAppend(cs, ds, NonLinear, field);
  }

  lemma SortedOne(a: CHolder, c: Constraint, field: int)
    requires field > 0
    ensures var kind := KindOf(c, field);
            Sorted(a, CHolder(if kind == LinearOnly then a.linear + [c] else a.linear,
                              if kind == Equality then a.equalities + [c] else a.equalities,
                              if kind == ConstantEquality then a.constantEqualities + [c] else a.constantEqualities),
                   if kind == NonLinear then 1 else 0, [c], field)
  {}

  /** Sorts the constraints of one node. */
  method SortConstraints(constraints: seq<Constraint>, cHolder: CHolder, field: int) returns (result: CHolder, noConstraints: nat)
    requires field > 0
    ensures Sorted(cHolder, result, noConstraints, constraints, field)
  {
    hide Sorted, IsConstantEquality, IsEquality, IsLinear;
    result, noConstraints := cHolder, 0;
    NothingSorted(cHolder, field);
    for i := 0 to |constraints|
      invariant Sorted(cHolder, result, noConstraints, constraints[..i], field)
    {
      var constraint := constraints[i];
      ghost var before, n := result, noConstraints;
      SortedOne(result, constraint, field);
      if IsConstantEquality(constraint) {
        result := result.(constantEqualities := result.constantEqualities + [constraint]);
      } else if IsEquality(constraint, field) {
        result := result.(equalities := result.equalities + [constraint]);
      } else if IsLinear(constraint) {
        result := result.(linear := result.linear + [constraint]);
      } else {
        noConstraints := noConstraints + 1;
      }
      SortedAppend(cHolder, before, result, n, noConstraints - n, constraints[..i], [constraint], field);
      PrefixStep(constraints, i);
    }
    PrefixAll(constraints);
  }

  lemma NothingSorted(a: CHolder, field: int)
    requires field > 0
    ensures Sorted(a, a, 0, [], field)
  {}

  /** The signals of custom gates, everywhere in the circuit. */
  ghost function CustomSignals(g: Graph, n: nat, offset: nat): set<nat>
    requires IsGraph(g) && n < |g.nodes|
    decreases n, |g.adjacency[n]| + 1
  {
    (if g.nodes[n].isCustomGate then MovedSet(g.nodes[n].locals, offset) else {})
    + CustomOfEdges(g, n, offset, |g.adjacency[n]|)
  }

  ghost function CustomOfEdges(g: Graph, n: nat, offset: nat, k: nat): set<nat>
    requires IsGraph(g) && n < |g.nodes| && k <= |g.adjacency[n]|
    decreases n, k
  {
    if k == 0 then {}
    else
      GraphNode(g, n);
      var e := g.adjacency[n][k - 1];
      CustomOfEdges(g, n, offset, k - 1) + CustomSignals(g, e.goesTo, offset + e.inNumber)
  }

  function MovedSet(s: set<nat>, offset: nat): set<nat> { set id | id in s :: id + offset }

  function Listed(signals: seq<nat>): set<nat> { set x | x in signals }

  lemma LocalsAsSet(node: Node, offset: nat, signals: seq<nat>)
    requires LocalList(node, offset, signals)
    ensures Listed(signals) == MovedSet(node.locals, offset)
  {}

  /** Lists the signals of a node. */
  method TakeSignals(signals: seq<nat>, isCustomGate: bool, result0: seq<nat>, forbidden0: set<nat>) returns (result: seq<nat>, forbidden: set<nat>)
    ensures result == result0 + signals
    ensures forbidden == forbidden0 + (if isCustomGate then Listed(signals) else {})
  {
    result, forbidden := result0, forbidden0;
    for i := 0 to |signals|
      invariant result == result0 + signals[..i]
      invariant forbidden == forbidden0 + (if isCustomGate then Listed(signals[..i]) else {})
    {
      result := result + [signals[i]];
      if isCustomGate {
        forbidden := forbidden + {signals[i]};
      }
    }
  }

  method MapTree(g: Graph, t: Tree, result0: seq<nat>, cHolder0: CHolder, forbidden0: set<nat>, field: int)
    returns (result: seq<nat>, cHolder: CHolder, forbidden: set<nat>, noConstraints: nat, ghost added: seq<nat>)
    requires IsTree(g, t) && field > 0
    ensures result == result0 + added && Enumerates(added, t.offset, Size(g, t.nodeId))
    ensures Sorted(cHolder0, cHolder, noConstraints, TreeConstraints(g, t, |g.adjacency[t.nodeId]|), field)
    ensures forbidden == forbidden0 + CustomSignals(g, t.nodeId, t.offset)
    decreases t.nodeId
  {
    hide IsGraph, LocalList, Partly, Enumerates, Sorted, CustomSignals, CustomOfEdges, Flattened, TreeConstraints, IsTree, MovedSet, Listed;
    TreeShape(g, t);
    result, forbidden := TakeSignals(t.signals, g.nodes[t.nodeId].isCustomGate, result0, forbidden0);
    LocalsAsSet(g.nodes[t.nodeId], t.offset, t.signals);
    ghost var forbidden1 := forbidden;
    cHolder, noConstraints := SortConstraints(t.constraints, cHolder0, field);
    added := t.signals;
    PartlyFirst(g, t);
    var edges := g.adjacency[t.nodeId];
    TreeStart(g, t);
    for k := 0 to |edges|
      invariant result == result0 + added
      invariant Partly(g, t.nodeId, t.offset, k, added)
      invariant Sorted(cHolder0, cHolder, noConstraints, TreeConstraints(g, t, k), field)
      invariant forbidden == forbidden1 + CustomOfEdges(g, t.nodeId, t.offset, k)
    {
      var subtree := GoToSubtree(g, t, edges[k]);
      ghost var sub, before, n := [], cHolder, noConstraints;
      var m;
      result, cHolder, forbidden, m, sub := MapTree(g, subtree, result, cHolder, forbidden, field);
      PartlyStep(g, t.nodeId, t.offset, k, added, sub);
      SubtreeIsFlattened(g, subtree);
      SortedAppend(cHolder0, before, cHolder, n, m, TreeConstraints(g, t, k), Flattened(g, subtree.nodeId, subtree.offset), field);
      TreeConstraintsStep(g, t, k);
      CustomStep(g, t.nodeId, t.offset, k);
      added := added + sub;
      noConstraints := noConstraints + m;
    }
    PartlyAll(g, t.nodeId, t.offset, added);
    CustomIs(g, t.nodeId, t.offset);
  }

  lemma TreeShape(g: Graph, t: Tree)
    requires IsTree(g, t)
    ensures IsGraph(g) && t.nodeId < |g.nodes| == |g.adjacency| && LocalList(g.nodes[t.nodeId], t.offset, t.signals)
  {}

  lemma TreeStart(g: Graph, t: Tree)
    requires IsTree(g, t)
    ensures TreeConstraints(g, t, 0) == t.constraints && CustomOfEdges(g, t.nodeId, t.offset, 0) == {}
  {}

  lemma CustomStep(g: Graph, n: nat, offset: nat, k: nat)
    requires IsGraph(g) && n < |g.nodes| && |g.adjacency| == |g.nodes| && k < |g.adjacency[n]| && g.adjacency[n][k].goesTo < |g.nodes|
    ensures var e := g.adjacency[n][k];
            CustomOfEdges(g, n, offset, k + 1) == CustomOfEdges(g, n, offset, k) + CustomSignals(g, e.goesTo, offset + e.inNumber)
  {
    hide CustomSignals;
  }

  lemma CustomIs(g: Graph, n: nat, offset: nat)
    requires IsGraph(g) && n < |g.nodes|
    ensures |g.adjacency| == |g.nodes|
    ensures CustomSignals(g, n, offset) == (if g.nodes[n].isCustomGate then MovedSet(g.nodes[n].locals, offset) else {})
                                           + CustomOfEdges(g, n, offset, |g.adjacency[n]|)
  {}

  lemma SubtreeIsFlattened(g: Graph, t: Tree)
    requires IsTree(g, t) && t.constraints == Moved(g.nodes[t.nodeId].constraints, t.offset)
    ensures TreeConstraints(g, t, |g.adjacency[t.nodeId]|) == Flattened(g, t.nodeId, t.offset)
  {}

  lemma TreeConstraintsStep(g: Graph, t: Tree, k: nat)
    requires IsTree(g, t) && k < |g.adjacency[t.nodeId]| && g.adjacency[t.nodeId][k].goesTo < |g.nodes|
    ensures var e := g.adjacency[t.nodeId][k];
            TreeConstraints(g, t, k + 1) == TreeConstraints(g, t, k) + Flattened(g, e.goesTo, t.offset + e.inNumber)
  {
    hide Flattened;
  }

  // ------------------------------------------------------------------ the encoding of the quadratic constraints

  datatype EncodingEdge = EncodingEdge(goesTo: nat, offset: nat)

  datatype DAGEncoding = DAGEncoding(init: nat, noConstraints: nat, nonLinear: seq<seq<Constraint>>, adjacency: seq<seq<EncodingEdge>>)

  /** The constraints of a node that are not linear. */
  ghost function NotLinear(cs: seq<Constraint>): seq<Constraint> {
    if |cs| == 0 then []
    else NotLinear(cs[..|cs| - 1]) + (if IsLinear(cs[|cs| - 1]) then [] else [cs[|cs| - 1]])
  }

  method MapNodeToEncoding(node: Node) returns (nonLinear: seq<Constraint>)
    ensures nonLinear == NotLinear(node.constraints)
  {
    nonLinear := [];
    for i := 0 to |node.constraints|
      invariant nonLinear == NotLinear(node.constraints[..i])
    {
      assert node.constraints[..i + 1][..i] == node.constraints[..i];
      if !IsLinear(node.constraints[i]) {
        nonLinear := nonLinear + [node.constraints[i]];
      }
    }
    PrefixAll(node.constraints);
  }

  method MapEdgesToEncoding(edges: seq<Edge>) returns (encoded: seq<EncodingEdge>)
    ensures |encoded| == |edges|
    ensures forall i :: 0 <= i < |edges| ==> encoded[i] == EncodingEdge(edges[i].goesTo, edges[i].inNumber)
  {
    encoded := [];
    for i := 0 to |edges|
      invariant |encoded| == i
      invariant forall j :: 0 <= j < i ==> encoded[j] == EncodingEdge(edges[j].goesTo, edges[j].inNumber)
    {
      encoded := encoded + [EncodingEdge(edges[i].goesTo, edges[i].inNumber)];
    }
  }

  /** The encoding holds the edges and the constraints that are not linear. */
  ghost predicate Encodes(enc: DAGEncoding, g: Graph) {
    && enc.init == |g.nodes| - 1
    && |enc.nonLinear| == |g.nodes| && |enc.adjacency| == |g.adjacency|
    && (forall n :: 0 <= n < |g.nodes| ==> enc.nonLinear[n] == NotLinear(g.nodes[n].constraints))
    && (forall n :: 0 <= n < |g.adjacency| ==> |enc.adjacency[n]| == |g.adjacency[n]|)
    && (forall n, i :: 0 <= n < |g.adjacency| && 0 <= i < |g.adjacency[n]| ==>
                         enc.adjacency[n][i] == EncodingEdge(g.adjacency[n][i].goesTo, g.adjacency[n][i].inNumber))
  }

  method ProduceEncoding(noConstraints: nat, g: Graph) returns (enc: DAGEncoding)
    requires g.nodes != []
    ensures Encodes(enc, g) && enc.noConstraints == noConstraints
  {
    hide NotLinear;
    var nonLinear: seq<seq<Constraint>> := [];
    for n := 0 to |g.nodes|
      invariant |nonLinear| == n && forall m :: 0 <= m < n ==> nonLinear[m] == NotLinear(g.nodes[m].constraints)
    {
      var encoded := MapNodeToEncoding(g.nodes[n]);
      nonLinear := nonLinear + [encoded];
    }
    var adjacency: seq<seq<EncodingEdge>> := [];
    for n := 0 to |g.adjacency|
      invariant |adjacency| == n && forall m :: 0 <= m < n ==> |adjacency[m]| == |g.adjacency[m]|
      invariant forall m, i :: 0 <= m < n && 0 <= i < |g.adjacency[m]| ==>
                                 adjacency[m][i] == EncodingEdge(g.adjacency[m][i].goesTo, g.adjacency[m][i].inNumber)
    {
      var encoded := MapEdgesToEncoding(g.adjacency[n]);
      adjacency := adjacency + [encoded];
    }
    enc := DAGEncoding(|g.nodes| - 1, noConstraints, nonLinear, adjacency);
  }

  lemma {:induction false} NotLinearPicks(cs: seq<Constraint>, offset: nat, field: int)
    requires field > 0
    ensures Pick(Moved(cs, offset), NonLinear, field) == Moved(NotLinear(cs), offset)
  {
    hide ApplyOffset, KindOf, IsEmpty, IsLinear;
    if |cs| > 0 {
      var last := |cs| - 1;
      var c := cs[last];
      NotLinearPicks(cs[..last], offset, field);
      KindIsNonLinear(ApplyOffset(c, offset), field);
      OffsetShape(c, offset, field);
      EmptyIsLinear(c);
      var front, kept, moved := Moved(cs[..last], offset), NotLinear(cs[..last]), ApplyOffset(c, offset);
      if IsEmpty(c) {
        assert Moved(cs, offset) == front;
      } else {
        assert Moved(cs, offset) == front + [moved];
        PickOne(front, moved, NonLinear, field);
      }
      if !IsLinear(c) {
        assert NotLinear(cs) == kept + [c];
        MovedOne(kept, c, offset);
      } else {
        assert NotLinear(cs) == kept;
      }
    }
  }

  lemma PickOne(front: seq<Constraint>, c: Constraint, kind: Kind, field: int)
    requires field > 0
    ensures Pick(front + [c], kind, field) == Pick(front, kind, field) + (if KindOf(c, field) == kind then [c] else [])
  {}

  lemma MovedOne(front: seq<Constraint>, c: Constraint, offset: nat)
    requires !IsEmpty(c)
    ensures Moved(front + [c], offset) == Moved(front, offset) + [ApplyOffset(c, offset)]
  {}

  lemma EmptyIsLinear(c: Constraint)
    ensures IsEmpty(c) ==> IsLinear(c)
  {}

  lemma KindIsNonLinear(c: Constraint, field: int)
    requires field > 0
    ensures KindOf(c, field) == NonLinear <==> !IsLinear(c)
  {}

  /** The traversal of the encoding yields the constraints of the graph that are not linear, at the same places and in the same order. */
  method Replay(enc: DAGEncoding, n: nat, offset: nat, ghost g: Graph, field: int) returns (cs: seq<Constraint>)
    requires IsGraph(g) && n < |g.nodes| && Encodes(enc, g) && field > 0
    ensures cs == Pick(Flattened(g, n, offset), NonLinear, field)
    decreases n
  {
    hide IsGraph, NotLinear, Moved, Pick, KindOf, ApplyOffset;
    GraphNode(g, n);
    cs := MoveAll(enc.nonLinear[n], offset);
    MovedNotEmpty(g.nodes[n].constraints, offset);
    NotLinearPicks(g.nodes[n].constraints, offset, field);
    ghost var own := Moved(g.nodes[n].constraints, offset);
    NothingPicked(own, field);
    for k := 0 to |enc.adjacency[n]|
      invariant cs == Pick(own + FlattenedEdges(g, n, offset, k), NonLinear, field)
    {
      var e := enc.adjacency[n][k];
      var sub := Replay(enc, e.goesTo, offset + e.offset, g, field);
      ghost var edge := g.adjacency[n][k];
      PickAppend(own + FlattenedEdges(g, n, offset, k), Flattened(g, edge.goesTo, offset + edge.inNumber), NonLinear, field);
      FlattenedStep(g, n, offset, k, own);
      cs := cs + sub;
    }
    FlattenedIs(g, n, offset);
  }

  lemma FlattenedIs(g: Graph, n: nat, offset: nat)
    requires IsGraph(g) && n < |g.nodes|
    ensures |g.adjacency| == |g.nodes|
    ensures Flattened(g, n, offset) == Moved(g.nodes[n].constraints, offset) + FlattenedEdges(g, n, offset, |g.adjacency[n]|)
  {}

  lemma FlattenedStep(g: Graph, n: nat, offset: nat, k: nat, own: seq<Constraint>)
    requires IsGraph(g) && n < |g.nodes| && |g.adjacency| == |g.nodes| && k < |g.adjacency[n]| && g.adjacency[n][k].goesTo < |g.nodes|
    ensures var e := g.adjacency[n][k];
            own + FlattenedEdges(g, n, offset, k + 1) == own + FlattenedEdges(g, n, offset, k) + Flattened(g, e.goesTo, offset + e.inNumber)
  {
    hide Flattened;
  }

  lemma NothingPicked(own: seq<Constraint>, field: int)
    requires field > 0
    ensures own + [] == own
  {}

  /** Every constraint moved; none of the listed ones is empty. */
  method MoveAll(constraints: seq<Constraint>, offset: nat) returns (moved: seq<Constraint>)
    ensures (forall c :: c in constraints ==> !IsEmpty(c)) ==> moved == Moved(constraints, offset)
    ensures |moved| == |constraints|
  {
    hide ApplyOffset, IsEmpty;
    moved := [];
    for i := 0 to |constraints|
      invariant |moved| == i
      invariant (forall c :: c in constraints ==> !IsEmpty(c)) ==> moved == Moved(constraints[..i], offset)
    {
      assert constraints[..i + 1][..i] == constraints[..i];
      assert constraints[i] in constraints;
      moved := moved + [ApplyOffset(constraints[i], offset)];
    }
    PrefixAll(constraints);
  }

  lemma {:induction false} MovedNotEmpty(cs: seq<Constraint>, offset: nat)
    ensures forall c :: c in NotLinear(cs) ==> !IsEmpty(c)
  {
    if |cs| > 0 {
      MovedNotEmpty(cs[..|cs| - 1], offset);
    }
  }
}
