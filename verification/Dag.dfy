/**
 The graph of templates (circom/dag/src/lib.rs): nodes number their signals and the signals of their components
 consecutively; an edge reserves the range of numbers of the component it goes to.
 */
module Dag {
  import opened Wrappers
  import opened LinearForms
  import opened Algebra

  datatype Edge = Edge(path: string, goesTo: nat, inNumber: nat, outNumber: nat)

  datatype Node = Node(entry: Edge, numberOfSignals: nat, publicInputsLength: nat, inputsLength: nat, outputsLength: nat,
                       intermediatesLength: nat, ioSignals: seq<nat>, signalCorrespondence: map<string, nat>, locals: set<nat>,
                       reachables: set<nat>, forbiddenIfMain: set<nat>, constraints: seq<Constraint>, isCustomGate: bool)

  function NewNode(id: nat, isCustomGate: bool): Node {
    Node(Edge("main", id, 0, 0), 0, 0, 0, 0, 0, [], map[], {}, {}, {CONSTANT}, [], isCustomGate)
  }

  /** What every kind of signal has in common: the next number, under its name. */
  function AddLocal(node: Node, name: string): Node {
    var id := node.numberOfSignals + 1;
    node.(signalCorrespondence := node.signalCorrespondence[name := id], locals := node.locals + {id}, reachables := node.reachables + {id},
          numberOfSignals := id, entry := node.entry.(outNumber := node.entry.outNumber + 1))
  }

  function NodeWithInput(node: Node, name: string, isPublic: bool): Node {
    var id := node.numberOfSignals + 1;
    AddLocal(node, name).(ioSignals := node.ioSignals + [id], inputsLength := node.inputsLength + 1,
                          publicInputsLength := node.publicInputsLength + (if isPublic then 1 else 0),
                          forbiddenIfMain := node.forbiddenIfMain + (if isPublic then {id} else {}))
  }

  function NodeWithOutput(node: Node, name: string): Node {
    var id := node.numberOfSignals + 1;
    AddLocal(node, name).(ioSignals := node.ioSignals + [id], outputsLength := node.outputsLength + 1,
                          forbiddenIfMain := node.forbiddenIfMain + {id})
  }

  function NodeWithIntermediate(node: Node, name: string): Node {
    AddLocal(node, name).(intermediatesLength := node.intermediatesLength + 1)
  }

  /** The interface of a template, if it is the main one. */
  datatype Counts = Counts(publicOutputs: nat, publicInputs: nat, privateInputs: nat)

  function NodeCounts(node: Node): Counts
    requires node.publicInputsLength <= node.inputsLength
  {
    Counts(node.outputsLength, node.publicInputsLength, node.inputsLength - node.publicInputsLength)
  }

  /** How every operation on a node changes its interface. */
  lemma CountsFollow(node: Node, name: string, id: nat, custom: bool)
    requires node.publicInputsLength <= node.inputsLength
    ensures var counts := NodeCounts(node);
            && NodeCounts(NewNode(id, custom)) == Counts(0, 0, 0)
            && NodeCounts(NodeWithOutput(node, name)) == counts.(publicOutputs := counts.publicOutputs + 1)
            && NodeCounts(NodeWithInput(node, name, true)) == counts.(publicInputs := counts.publicInputs + 1)
            && NodeCounts(NodeWithInput(node, name, false)) == counts.(privateInputs := counts.privateInputs + 1)
            && NodeCounts(NodeWithIntermediate(node, name)) == counts
  {}

  // ------------------------------------------------------------------ what the graph guarantees

  /** The numbers an edge reserves. */
  predicate InEdge(e: Edge, id: nat) { e.inNumber < id <= e.outNumber }

  ghost predicate InSomeEdge(edges: seq<Edge>, id: nat) {
    exists i :: 0 <= i < |edges| && InEdge(edges[i], id)
  }

  /** The total size of the components the edges go to. */
  ghost function EdgeSizes(nodes: seq<Node>, edges: seq<Edge>): nat
    requires forall i :: 0 <= i < |edges| ==> edges[i].goesTo < |nodes|
  {
    if |edges| == 0 then 0
    else EdgeSizes(nodes, edges[..|edges| - 1]) + nodes[edges[|edges| - 1].goesTo].numberOfSignals
  }

  ghost predicate HasName(node: Node, id: nat) {
    exists name :: name in node.signalCorrespondence && node.signalCorrespondence[name] == id
  }

  ghost predicate OneNameEach(node: Node) {
    forall a, b :: (a in node.signalCorrespondence && b in node.signalCorrespondence && node.signalCorrespondence[a] in node.locals
                    && node.signalCorrespondence[a] == node.signalCorrespondence[b]) ==> a == b
  }

  /** Every local signal has exactly one name. */
  ghost predicate Named(node: Node) {
    (forall id :: id in node.locals ==> HasName(node, id)) && OneNameEach(node)
  }

  /** No local signal has the name. */
  predicate NameFree(node: Node, name: string) {
    name in node.signalCorrespondence ==> node.signalCorrespondence[name] !in node.locals
  }

  /** An edge goes to an earlier node, and reserves as many numbers as that node has signals. */
  ghost predicate ValidEdge(nodes: seq<Node>, n: nat, e: Edge) {
    && e.goesTo < n && n < |nodes|
    && e.outNumber == e.inNumber + nodes[e.goesTo].numberOfSignals
    && e.outNumber <= nodes[n].numberOfSignals
  }

  /** Every number is a local signal's or reserved by an edge. */
  ghost predicate Covered(node: Node, edges: seq<Edge>) {
    forall id: nat :: 1 <= id <= node.numberOfSignals ==> id in node.locals || InSomeEdge(edges, id)
  }

  ghost predicate EdgesValid(nodes: seq<Node>, n: nat, edges: seq<Edge>) {
    forall i :: 0 <= i < |edges| ==> ValidEdge(nodes, n, edges[i])
  }

  /** The numbers and the entry of a node. */
  ghost predicate Bounded(node: Node, n: nat) {
    && node.entry.goesTo == n && node.entry.inNumber == 0 && node.entry.outNumber == node.numberOfSignals
    && (forall id :: id in node.locals ==> 1 <= id <= node.numberOfSignals)
    && CONSTANT in node.forbiddenIfMain && node.forbiddenIfMain <= node.locals + {CONSTANT}
    && (forall a :: a in node.signalCorrespondence ==> 1 <= node.signalCorrespondence[a] <= node.numberOfSignals)
  }

  /** The lengths count the signals of each kind; the main template forbids the constant wire, its outputs and its public inputs. */
  ghost predicate Counted(node: Node) {
    && |node.locals| == node.inputsLength + node.outputsLength + node.intermediatesLength
    && |node.ioSignals| == node.inputsLength + node.outputsLength && node.publicInputsLength <= node.inputsLength
    && (forall i, j :: 0 <= i < j < |node.ioSignals| ==> node.ioSignals[i] < node.ioSignals[j])
    && (forall i :: 0 <= i < |node.ioSignals| ==> node.ioSignals[i] in node.locals)
    && (forall id :: id in node.forbiddenIfMain ==> id == CONSTANT || id in node.ioSignals)
    && |node.forbiddenIfMain| == 1 + node.outputsLength + node.publicInputsLength
    && node.locals <= node.reachables
  }

  /** The local signals and the components account for all numbers. */
  ghost predicate Sized(nodes: seq<Node>, n: nat, edges: seq<Edge>)
    requires n < |nodes|
  {
    && (forall i :: 0 <= i < |edges| ==> edges[i].goesTo < |nodes|)
    && nodes[n].numberOfSignals == |nodes[n].locals| + EdgeSizes(nodes, edges)
  }

  ghost predicate ValidNode(nodes: seq<Node>, n: nat, edges: seq<Edge>) {
    && n < |nodes|
    && EdgesValid(nodes, n, edges) && Bounded(nodes[n], n) && Covered(nodes[n], edges) && Sized(nodes, n, edges) && Named(nodes[n])
    && Counted(nodes[n])
  }

  ghost predicate ValidGraph(nodes: seq<Node>, adjacency: seq<seq<Edge>>) {
    |adjacency| == |nodes| && forall n: nat :: n < |nodes| ==> ValidNode(nodes, n, adjacency[n])
  }

  // ------------------------------------------------------------------ changing the last node keeps it

  lemma {:induction false} SizesSame(nodes: seq<Node>, nodes': seq<Node>, edges: seq<Edge>, n: nat)
    requires n <= |nodes| && n <= |nodes'|
    requires forall k: nat :: k < n ==> nodes'[k].numberOfSignals == nodes[k].numberOfSignals
    requires forall i :: 0 <= i < |edges| ==> edges[i].goesTo < n
    ensures EdgeSizes(nodes', edges) == EdgeSizes(nodes, edges)
  {
    if |edges| > 0 {
      SizesSame(nodes, nodes', edges[..|edges| - 1], n);
    }
  }

  /** The edges stay valid when the node grows and earlier nodes do not change. */
  lemma EdgesSame(nodes: seq<Node>, nodes': seq<Node>, n: nat, edges: seq<Edge>)
    requires EdgesValid(nodes, n, edges) && n < |nodes| && n < |nodes'|
    requires nodes'[n].numberOfSignals >= nodes[n].numberOfSignals
    requires forall k: nat :: k < n ==> nodes'[k].numberOfSignals == nodes[k].numberOfSignals
    ensures EdgesValid(nodes', n, edges)
    ensures forall i :: 0 <= i < |edges| ==> edges[i].goesTo < n
    ensures EdgeSizes(nodes', edges) == EdgeSizes(nodes, edges)
  {}

  /** A node that was not touched stays valid when later nodes change. */
  lemma ValidNodeSame(nodes: seq<Node>, nodes': seq<Node>, n: nat, edges: seq<Edge>)
    requires ValidNode(nodes, n, edges) && n < |nodes'| && nodes'[n] == nodes[n]
    requires forall k: nat :: k < n ==> nodes'[k] == nodes[k]
    ensures ValidNode(nodes', n, edges)
  {
    hide EdgesValid, Bounded, Covered, Named, Counted;
    EdgesSame(nodes, nodes', n, edges);
  }

  /** The node with one more local signal, whatever its kind. */
  ghost predicate GrownBy(node: Node, name: string, node': Node) {
    && (var grown := AddLocal(node, name);
        && node'.entry == grown.entry && node'.numberOfSignals == grown.numberOfSignals && node'.locals == grown.locals
        && node'.signalCorrespondence == grown.signalCorrespondence)
    && node.forbiddenIfMain <= node'.forbiddenIfMain <= node.forbiddenIfMain + {node.numberOfSignals + 1}
  }

  lemma GrownByAny(node: Node, name: string, isPublic: bool)
    ensures GrownBy(node, name, NodeWithInput(node, name, isPublic))
    ensures GrownBy(node, name, NodeWithOutput(node, name))
    ensures GrownBy(node, name, NodeWithIntermediate(node, name))
  {}

  /** One more signal is counted as what it is. */
  lemma CountedLocal(node: Node, n: nat, name: string)
    requires Bounded(node, n) && Counted(node)
    ensures var id := node.numberOfSignals + 1;
            id !in node.locals && id !in node.forbiddenIfMain && id != CONSTANT && forall i :: 0 <= i < |node.ioSignals| ==> node.ioSignals[i] < id
    ensures |AddLocal(node, name).locals| == |node.locals| + 1
  {
    assert node.numberOfSignals + 1 !in node.locals + node.forbiddenIfMain;
  }

  lemma InputCounted(node: Node, n: nat, name: string, isPublic: bool)
    requires Bounded(node, n) && Counted(node)
    ensures Counted(NodeWithInput(node, name, isPublic))
  {
    hide Bounded;
    CountedLocal(node, n, name);
  }

  lemma OutputCounted(node: Node, n: nat, name: string)
    requires Bounded(node, n) && Counted(node)
    ensures Counted(NodeWithOutput(node, name))
  {
    hide Bounded;
    CountedLocal(node, n, name);
  }

  lemma IntermediateCounted(node: Node, n: nat, name: string)
    requires Bounded(node, n) && Counted(node)
    ensures Counted(NodeWithIntermediate(node, name))
  {
    hide Bounded;
    CountedLocal(node, n, name);
  }

  /** One more local signal keeps the node valid exactly if no other has its name. */
  lemma LocalAdded(nodes: seq<Node>, n: nat, edges: seq<Edge>, name: string, node': Node)
    requires ValidNode(nodes, n, edges) && n == |nodes| - 1
    requires GrownBy(nodes[n], name, node') && Counted(node')
    ensures ValidNode(nodes[n := node'], n, edges) <==> NameFree(nodes[n], name)
  {
    hide Named, Covered, Bounded, EdgesValid, GrownBy, Counted;
    var node, nodes' := nodes[n], nodes[n := node'];
    LocalShape(node, n, name, node');
    EdgesSame(nodes, nodes', n, edges);
    LocalCovered(node, name, node', edges);
  }

  lemma LocalShape(node: Node, n: nat, name: string, node': Node)
    requires Bounded(node, n) && Named(node) && GrownBy(node, name, node')
    ensures Bounded(node', n) && (Named(node') <==> NameFree(node, name))
    ensures |node'.locals| == |node.locals| + 1 && node'.numberOfSignals == node.numberOfSignals + 1
  {
    hide Named, NameFree, HasName, OneNameEach;
    LocalNamed(node, name, node');
    assert node.numberOfSignals + 1 !in node.locals;
  }

  lemma LocalCovered(node: Node, name: string, node': Node, edges: seq<Edge>)
    requires Covered(node, edges) && GrownBy(node, name, node')
    ensures Covered(node', edges)
  {}

  /** A name that another local signal has is taken from it, and the other is left without. */
  lemma LocalNamed(node: Node, name: string, node': Node)
    requires Named(node)
    requires forall id :: id in node.locals ==> id <= node.numberOfSignals
    requires forall a :: a in node.signalCorrespondence ==> node.signalCorrespondence[a] <= node.numberOfSignals
    requires node'.locals == node.locals + {node.numberOfSignals + 1}
    requires node'.signalCorrespondence == node.signalCorrespondence[name := node.numberOfSignals + 1]
    ensures OneNameEach(node')
    ensures forall id :: id in node'.locals ==>
              (HasName(node', id) <==> !(name in node.signalCorrespondence && node.signalCorrespondence[name] == id))
    ensures Named(node') <==> NameFree(node, name)
  {
    var next := node.numberOfSignals + 1;
    forall id | id in node'.locals
      ensures HasName(node', id) <==> !(name in node.signalCorrespondence && node.signalCorrespondence[name] == id)
    {
      if id == next {
        assert name in node'.signalCorrespondence;
      } else {
        var x :| x in node.signalCorrespondence && node.signalCorrespondence[x] == id;
        assert x != name ==> x in node'.signalCorrespondence && node'.signalCorrespondence[x] == id;
      }
    }
  }

  // ------------------------------------------------------------------ adding a component

  /** The name of a component's signal. */
  function QualifiedName(path: string, signal: string): string { path + "." + signal }

  lemma QualifiedInjective(path: string, a: string, b: string)
    requires QualifiedName(path, a) == QualifiedName(path, b)
    ensures a == b
  {
    assert QualifiedName(path, a)[|path| + 1..] == a;
    assert QualifiedName(path, b)[|path| + 1..] == b;
  }

  ghost predicate OwnSignal(to: Node, signal: string) {
    signal in to.signalCorrespondence && to.signalCorrespondence[signal] in to.locals
  }

  /** No local signal has the name of a signal of the component. */
  ghost predicate NamesFree(from: Node, to: Node, path: string) {
    forall signal :: OwnSignal(to, signal) ==> NameFree(from, QualifiedName(path, signal))
  }

  /** Adds the names of the component's own signals, which replace equal ones, and its inputs and outputs to the reachable signals. */
  ghost predicate Extended(from: Node, to: Node, path: string, inNumber: nat, correspondence: map<string, nat>, reachables: set<nat>,
                           done: set<string>) {
    && from.signalCorrespondence.Keys <= correspondence.Keys
    && (forall a :: a in correspondence ==>
                      || (a in from.signalCorrespondence && correspondence[a] == from.signalCorrespondence[a]
                          && forall s :: s in done && OwnSignal(to, s) ==> a != QualifiedName(path, s))
                      || exists s :: s in done && OwnSignal(to, s)
                                     && a == QualifiedName(path, s) && correspondence[a] == inNumber + to.signalCorrespondence[s])
    && (forall s :: s in done && OwnSignal(to, s) ==>
                      QualifiedName(path, s) in correspondence
                      && correspondence[QualifiedName(path, s)] == inNumber + to.signalCorrespondence[s])
    && (forall id :: id in reachables <==>
                     id in from.reachables
                     || exists s :: s in done && OwnSignal(to, s) && to.signalCorrespondence[s] <= to.inputsLength + to.outputsLength
                                    && id == inNumber + to.signalCorrespondence[s])
  }

  method ExtendNames(from: Node, to: Node, path: string, inNumber: nat) returns (correspondence: map<string, nat>, reachables: set<nat>)
    ensures Extended(from, to, path, inNumber, correspondence, reachables, to.signalCorrespondence.Keys)
  {
    hide Extended, QualifiedName;
    correspondence, reachables := from.signalCorrespondence, from.reachables;
    NothingExtended(from, to, path, inNumber);
    var todo := to.signalCorrespondence.Keys;
    while todo != {}
      invariant todo <= to.signalCorrespondence.Keys
      invariant Extended(from, to, path, inNumber, correspondence, reachables, to.signalCorrespondence.Keys - todo)
      decreases todo
    {
      var signal :| signal in todo;
      var id := to.signalCorrespondence[signal];
      ghost var done := to.signalCorrespondence.Keys - todo;
      assert to.signalCorrespondence.Keys - (todo - {signal}) == done + {signal};
      if id in to.locals {
        var concreteName, concreteValue := QualifiedName(path, signal), inNumber + id;
        ExtendOne(from, to, path, inNumber, correspondence, reachables, done, signal);
        correspondence := correspondence[concreteName := concreteValue];
        if id <= to.inputsLength + to.outputsLength {
          reachables := reachables + {concreteValue};
        }
      } else {
        ExtendNone(from, to, path, inNumber, correspondence, reachables, done, signal);
      }
      todo := todo - {signal};
    }
    assert to.signalCorrespondence.Keys - {} == to.signalCorrespondence.Keys;
  }

  lemma NothingExtended(from: Node, to: Node, path: string, inNumber: nat)
    ensures Extended(from, to, path, inNumber, from.signalCorrespondence, from.reachables,
                     to.signalCorrespondence.Keys - to.signalCorrespondence.Keys)
  {}

  lemma ExtendNone(from: Node, to: Node, path: string, inNumber: nat, correspondence: map<string, nat>, reachables: set<nat>,
                   done: set<string>, signal: string)
    requires Extended(from, to, path, inNumber, correspondence, reachables, done)
    requires !OwnSignal(to, signal)
    ensures Extended(from, to, path, inNumber, correspondence, reachables, done + {signal})
  {}

  lemma ExtendOne(from: Node, to: Node, path: string, inNumber: nat, correspondence: map<string, nat>, reachables: set<nat>,
                  done: set<string>, signal: string)
    requires Extended(from, to, path, inNumber, correspondence, reachables, done)
    requires OwnSignal(to, signal) && signal !in done
    ensures var id := to.signalCorrespondence[signal];
            Extended(from, to, path, inNumber, correspondence[QualifiedName(path, signal) := inNumber + id],
                     if id <= to.inputsLength + to.outputsLength then reachables + {inNumber + id} else reachables, done + {signal})
  {
    hide QualifiedName;
    forall s | s in done
      ensures QualifiedName(path, s) != QualifiedName(path, signal)
    {
      if QualifiedName(path, s) == QualifiedName(path, signal) {
        QualifiedInjective(path, s, signal);
      }
    }
  }

  function NodeWithEdge(from: Node, to: Node, correspondence: map<string, nat>, reachables: set<nat>): Node {
    from.(numberOfSignals := from.numberOfSignals + to.numberOfSignals,
          entry := from.entry.(outNumber := from.entry.outNumber + to.numberOfSignals),
          signalCorrespondence := correspondence, reachables := reachables)
  }

  lemma ExtendedNamed(from: Node, to: Node, path: string, correspondence: map<string, nat>, reachables: set<nat>)
    requires Extended(from, to, path, from.numberOfSignals, correspondence, reachables, to.signalCorrespondence.Keys)
    requires Named(from) && (forall id :: id in from.locals ==> id <= from.numberOfSignals)
    requires forall id :: id in to.locals ==> 1 <= id <= to.numberOfSignals
    requires forall a :: a in from.signalCorrespondence ==> 1 <= from.signalCorrespondence[a] <= from.numberOfSignals
    ensures OneNameEach(NodeWithEdge(from, to, correspondence, reachables))
    ensures Named(NodeWithEdge(from, to, correspondence, reachables)) <==> NamesFree(from, to, path)
    ensures forall a :: a in correspondence ==> 1 <= correspondence[a] <= from.numberOfSignals + to.numberOfSignals
  {
    hide QualifiedName;
    var node := NodeWithEdge(from, to, correspondence, reachables);
    forall a | a in correspondence && correspondence[a] <= from.numberOfSignals
      ensures a in from.signalCorrespondence && correspondence[a] == from.signalCorrespondence[a]
      ensures forall s :: OwnSignal(to, s) ==> a != QualifiedName(path, s)
    {}
    if NamesFree(from, to, path) {
      forall id | id in node.locals
        ensures HasName(node, id)
      {
        var x :| x in from.signalCorrespondence && from.signalCorrespondence[x] == id;
        assert x in correspondence && correspondence[x] == id;
      }
    } else {
      var s :| OwnSignal(to, s) && !NameFree(from, QualifiedName(path, s));
      var a := QualifiedName(path, s);
      assert !HasName(node, from.signalCorrespondence[a]);
    }
  }

  /** One more edge: it takes the next numbers. */
  lemma EdgeAdded(nodes: seq<Node>, n: nat, edges: seq<Edge>, e: Edge, node': Node)
    requires ValidNode(nodes, n, edges) && n == |nodes| - 1 && e.goesTo < n
    requires e.inNumber == nodes[n].numberOfSignals && e.outNumber == e.inNumber + nodes[e.goesTo].numberOfSignals
    requires node'.numberOfSignals == e.outNumber && node'.locals == nodes[n].locals && node'.forbiddenIfMain == nodes[n].forbiddenIfMain
    requires node'.entry == nodes[n].entry.(outNumber := e.outNumber) && Counted(node')
    requires forall a :: a in node'.signalCorrespondence ==> 1 <= node'.signalCorrespondence[a] <= node'.numberOfSignals
    ensures ValidNode(nodes[n := node'], n, edges + [e]) <==> Named(node')
  {
    hide Named, Covered, EdgesValid, Sized, Bounded, Counted;
    var node, nodes', edges' := nodes[n], nodes[n := node'], edges + [e];
    EdgesSame(nodes, nodes', n, edges);
    EdgeCovered(node, edges, e, node');
    EdgeBounded(node, n, node');
    EdgeSized(nodes, nodes', n, edges, e);
    EdgeValid(nodes', n, edges, e);
  }

  lemma EdgeBounded(node: Node, n: nat, node': Node)
    requires Bounded(node, n) && node'.numberOfSignals >= node.numberOfSignals
    requires node'.locals == node.locals && node'.forbiddenIfMain == node.forbiddenIfMain
    requires node'.entry == node.entry.(outNumber := node'.numberOfSignals)
    requires forall a :: a in node'.signalCorrespondence ==> 1 <= node'.signalCorrespondence[a] <= node'.numberOfSignals
    ensures Bounded(node', n)
  {}

  lemma EdgeSized(nodes: seq<Node>, nodes': seq<Node>, n: nat, edges: seq<Edge>, e: Edge)
    requires n < |nodes| == |nodes'| && Sized(nodes, n, edges) && e.goesTo < n
    requires nodes'[e.goesTo] == nodes[e.goesTo] && EdgeSizes(nodes', edges) == EdgeSizes(nodes, edges)
    requires nodes'[n].locals == nodes[n].locals
    requires nodes'[n].numberOfSignals == nodes[n].numberOfSignals + nodes[e.goesTo].numberOfSignals
    ensures Sized(nodes', n, edges + [e])
  {
    assert (edges + [e])[..|edges|] == edges;
  }

  lemma EdgeValid(nodes: seq<Node>, n: nat, edges: seq<Edge>, e: Edge)
    requires EdgesValid(nodes, n, edges) && ValidEdge(nodes, n, e)
    ensures EdgesValid(nodes, n, edges + [e])
  {}

  lemma EdgeCovered(node: Node, edges: seq<Edge>, e: Edge, node': Node)
    requires Covered(node, edges) && e.inNumber == node.numberOfSignals && node'.numberOfSignals == e.outNumber && node'.locals == node.locals
    ensures Covered(node', edges + [e])
  {
    var edges' := edges + [e];
    forall id: nat | 1 <= id <= node'.numberOfSignals
      ensures id in node'.locals || InSomeEdge(edges', id)
    {
      if id <= node.numberOfSignals {
        if id !in node.locals {
          var i :| 0 <= i < |edges| && InEdge(edges[i], id);
          assert InEdge(edges'[i], id);
        }
      } else {
        assert InEdge(edges'[|edges|], id);
      }
    }
  }

  // ------------------------------------------------------------------ the graph

  class DAG {
    var nodes: seq<Node>
    var adjacency: seq<seq<Edge>>

    ghost predicate Valid()
      reads this
    {
      ValidGraph(nodes, adjacency)
    }

    constructor ()
      ensures Valid() && nodes == []
    {
      nodes, adjacency := [], [];
    }

    function MainId(): nat
      requires nodes != []
      reads this
    {
      |nodes| - 1
    }

    method AddNode(isCustomGate: bool) returns (id: nat)
      requires Valid()
      modifies this
      ensures Valid() && id == |old(nodes)| && nodes == old(nodes) + [NewNode(id, isCustomGate)] && adjacency == old(adjacency) + [[]]
      ensures nodes[id].isCustomGate == isCustomGate && nodes[id].numberOfSignals == 0 && nodes[id].constraints == []
      ensures nodes[id].forbiddenIfMain == {CONSTANT} && NodeCounts(nodes[id]) == Counts(0, 0, 0)
    {
      id := |nodes|;
      ghost var before := nodes;
      nodes := nodes + [NewNode(id, isCustomGate)];
      adjacency := adjacency + [[]];
      KeepsEarlier(before, nodes, old(adjacency), adjacency);
    }

    /** The operations on the last node. */
    method ReplaceMain(node: Node)
      requires nodes != [] && Valid() && ValidNode(nodes[|nodes| - 1 := node], |nodes| - 1, adjacency[|nodes| - 1])
      modifies this`nodes
      ensures Valid() && nodes == old(nodes)[|old(nodes)| - 1 := node]
    {
      hide ValidNode;
      ghost var before := nodes;
      nodes := nodes[|nodes| - 1 := node];
      KeepsEarlier(before, nodes, adjacency, adjacency);
    }

    /** The name replaces an equal one; the graph stays valid exactly if that was no local signal's. */
    method AddInput(name: string, isPublic: bool)
      requires Valid()
      modifies this`nodes
      ensures Valid() <==> old(nodes) == [] || NameFree(old(nodes)[|old(nodes)| - 1], name)
      ensures nodes == if old(nodes) == [] then [] else old(nodes)[|old(nodes)| - 1 := NodeWithInput(old(nodes)[|old(nodes)| - 1], name, isPublic)]
    {
      hide ValidNode, GrownBy, Counted, NodeWithInput;
      if nodes != [] {
        ghost var before := nodes;
        var node := NodeWithInput(nodes[MainId()], name, isPublic);
        GrownByAny(nodes[MainId()], name, isPublic);
        MainCounted(nodes, adjacency, name, isPublic);
        nodes := nodes[MainId() := node];
        MainGrown(before, adjacency, name, node);
      }
    }

    /** The name replaces an equal one; the graph stays valid exactly if that was no local signal's. */
    method AddOutput(name: string)
      requires Valid()
      modifies this`nodes
      ensures Valid() <==> old(nodes) == [] || NameFree(old(nodes)[|old(nodes)| - 1], name)
      ensures nodes == if old(nodes) == [] then [] else old(nodes)[|old(nodes)| - 1 := NodeWithOutput(old(nodes)[|old(nodes)| - 1], name)]
    {
      hide ValidNode, GrownBy, Counted, NodeWithOutput;
      if nodes != [] {
        ghost var before := nodes;
        var node := NodeWithOutput(nodes[MainId()], name);
        GrownByAny(nodes[MainId()], name, false);
        MainCounted(nodes, adjacency, name, false);
        nodes := nodes[MainId() := node];
        MainGrown(before, adjacency, name, node);
      }
    }

    /** The name replaces an equal one; the graph stays valid exactly if that was no local signal's. */
    method AddIntermediate(name: string)
      requires Valid()
      modifies this`nodes
      ensures Valid() <==> old(nodes) == [] || NameFree(old(nodes)[|old(nodes)| - 1], name)
      ensures nodes == if old(nodes) == [] then [] else old(nodes)[|old(nodes)| - 1 := NodeWithIntermediate(old(nodes)[|old(nodes)| - 1], name)]
    {
      hide ValidNode, GrownBy, Counted, NodeWithIntermediate;
      if nodes != [] {
        ghost var before := nodes;
        var node := NodeWithIntermediate(nodes[MainId()], name);
        GrownByAny(nodes[MainId()], name, false);
        MainCounted(nodes, adjacency, name, false);
        nodes := nodes[MainId() := node];
        MainGrown(before, adjacency, name, node);
      }
    }

    method AddConstraint(constraint: Constraint)
      requires Valid()
      modifies this`nodes
      ensures Valid()
      ensures nodes == if old(nodes) == [] then []
                       else var last := |old(nodes)| - 1;
                            old(nodes)[last := old(nodes)[last].(constraints := old(nodes)[last].constraints + [constraint])]
    {
      hide ValidNode;
      if nodes != [] {
        var node := nodes[MainId()].(constraints := nodes[MainId()].constraints + [constraint]);
        ConstraintAdded(nodes, MainId(), adjacency[MainId()], node);
        ReplaceMain(node);
      }
    }

    /**
     Places a component after the signals the last node has so far. The names of its signals replace equal ones; the graph
     stays valid exactly if none of those was a local signal's.
     */
    method AddEdge(to: nat, path: string) returns (edge: Option<Edge>)
      requires Valid() && nodes != []
      modifies this
      ensures |nodes| == |old(nodes)| && |adjacency| == |old(adjacency)|
      ensures edge.None? <==> to >= |old(nodes)| - 1
      ensures Valid() <==> edge.None? || NamesFree(old(nodes)[|nodes| - 1], old(nodes)[to], path)
      ensures edge.None? ==> nodes == old(nodes) && adjacency == old(adjacency)
      ensures edge.Some? ==>
                var last := |nodes| - 1;
                && edge.value.goesTo == to && edge.value.inNumber == old(nodes)[last].numberOfSignals
                && edge.value.outNumber == nodes[last].numberOfSignals == old(nodes)[last].numberOfSignals + old(nodes)[to].numberOfSignals
                && adjacency == old(adjacency)[last := old(adjacency)[last] + [edge.value]]
                && nodes == old(nodes)[last := nodes[last]]
                && Extended(old(nodes)[last], old(nodes)[to], path, edge.value.inNumber, nodes[last].signalCorrespondence,
                            nodes[last].reachables, old(nodes)[to].signalCorrespondence.Keys)
    {
      hide ValidNode, NamesFree, Extended, Named, Counted;
      if to < MainId() {
        var from := MainId();
        assert ValidNode(nodes, to, adjacency[to]) && ValidNode(nodes, from, adjacency[from]);
        NodeRanges(nodes, to, adjacency[to]);
        NodeRanges(nodes, from, adjacency[from]);
        var inNum := nodes[from].numberOfSignals;
        var outNum := inNum + nodes[to].numberOfSignals;
        var correspondence, reachables := ExtendNames(nodes[from], nodes[to], path, inNum);
        var with := Edge(path, to, inNum, outNum);
        ExtendedNamed(nodes[from], nodes[to], path, correspondence, reachables);
        var node := NodeWithEdge(nodes[from], nodes[to], correspondence, reachables);
        EdgeCounted(nodes[from], nodes[to], path, inNum, correspondence, reachables, nodes[to].signalCorrespondence.Keys);
        EdgeAdded(nodes, from, adjacency[from], with, node);
        ghost var nodes0, adjacency0 := nodes, adjacency;
        nodes := nodes[from := node];
        adjacency := adjacency[from := adjacency[from] + [with]];
        MainDecides(nodes0, nodes, adjacency0, adjacency);
        edge := Some(with);
      } else {
        edge := None;
      }
    }
  }

  lemma NodeRanges(nodes: seq<Node>, n: nat, edges: seq<Edge>)
    requires ValidNode(nodes, n, edges)
    ensures var node := nodes[n];
            && Named(node) && (forall id :: id in node.locals ==> 1 <= id <= node.numberOfSignals)
            && (forall a :: a in node.signalCorrespondence ==> 1 <= node.signalCorrespondence[a] <= node.numberOfSignals)
            && node.entry.outNumber == node.numberOfSignals && Counted(node)
  {}

  /** A changed last node alone decides whether the graph is valid. */
  lemma MainDecides(nodes: seq<Node>, nodes': seq<Node>, adjacency: seq<seq<Edge>>, adjacency': seq<seq<Edge>>)
    requires ValidGraph(nodes, adjacency) && |adjacency'| == |nodes'| == |nodes| > 0
    requires forall k: nat :: k < |nodes'| - 1 ==> nodes'[k] == nodes[k] && adjacency'[k] == adjacency[k]
    ensures ValidGraph(nodes', adjacency') <==> ValidNode(nodes', |nodes'| - 1, adjacency'[|nodes'| - 1])
  {
    hide ValidNode;
    if ValidNode(nodes', |nodes'| - 1, adjacency'[|nodes'| - 1]) {
      KeepsEarlier(nodes, nodes', adjacency, adjacency');
    }
  }

  lemma MainCounted(nodes: seq<Node>, adjacency: seq<seq<Edge>>, name: string, isPublic: bool)
    requires ValidGraph(nodes, adjacency) && nodes != []
    ensures Counted(NodeWithInput(nodes[|nodes| - 1], name, isPublic))
    ensures Counted(NodeWithOutput(nodes[|nodes| - 1], name))
    ensures Counted(NodeWithIntermediate(nodes[|nodes| - 1], name))
  {
    hide Bounded, Counted, NodeWithInput, NodeWithOutput, NodeWithIntermediate;
    assert ValidNode(nodes, |nodes| - 1, adjacency[|nodes| - 1]);
    InputCounted(nodes[|nodes| - 1], |nodes| - 1, name, isPublic);
    OutputCounted(nodes[|nodes| - 1], |nodes| - 1, name);
    IntermediateCounted(nodes[|nodes| - 1], |nodes| - 1, name);
  }

  lemma EdgeCounted(node: Node, to: Node, path: string, inNumber: nat, correspondence: map<string, nat>, reachables: set<nat>, done: set<string>)
    requires Counted(node) && Extended(node, to, path, inNumber, correspondence, reachables, done)
    ensures Counted(NodeWithEdge(node, to, correspondence, reachables))
    ensures NodeCounts(NodeWithEdge(node, to, correspondence, reachables)) == NodeCounts(node)
  {}

  lemma MainGrown(nodes: seq<Node>, adjacency: seq<seq<Edge>>, name: string, node': Node)
    requires ValidGraph(nodes, adjacency) && nodes != [] && GrownBy(nodes[|nodes| - 1], name, node') && Counted(node')
    ensures ValidGraph(nodes[|nodes| - 1 := node'], adjacency) <==> NameFree(nodes[|nodes| - 1], name)
  {
    hide ValidNode, GrownBy, Counted;
    var last := |nodes| - 1;
    LocalAdded(nodes, last, adjacency[last], name, node');
    MainDecides(nodes, nodes[last := node'], adjacency, adjacency);
  }

  lemma ConstraintCounted(node: Node, node': Node)
    requires Counted(node) && node' == node.(constraints := node'.constraints)
    ensures Counted(node')
  {}

  /** Constraints do not matter to the numbering. */
  lemma ConstraintAdded(nodes: seq<Node>, n: nat, edges: seq<Edge>, node': Node)
    requires ValidNode(nodes, n, edges) && n == |nodes| - 1 && node' == nodes[n].(constraints := node'.constraints)
    ensures ValidNode(nodes[n := node'], n, edges)
  {
    hide EdgesValid, Counted;
    ConstraintCounted(nodes[n], node');
    EdgesSame(nodes, nodes[n := node'], n, edges);
  }

  lemma NewNodeValid(nodes: seq<Node>, n: nat, isCustomGate: bool)
    requires n < |nodes| && nodes[n] == NewNode(n, isCustomGate)
    ensures ValidNode(nodes, n, [])
  {}

  /** Changing or adding the last node keeps the graph valid if that node is. */
  lemma KeepsEarlier(nodes: seq<Node>, nodes': seq<Node>, adjacency: seq<seq<Edge>>, adjacency': seq<seq<Edge>>)
    requires ValidGraph(nodes, adjacency) && |adjacency'| == |nodes'| > 0
    requires |nodes'| - 1 <= |nodes| <= |nodes'|
    requires forall k: nat :: k < |nodes'| - 1 ==> nodes'[k] == nodes[k] && adjacency'[k] == adjacency[k]
    requires |nodes'| == |nodes| ==> ValidNode(nodes', |nodes'| - 1, adjacency'[|nodes'| - 1])
    requires |nodes'| > |nodes| ==> adjacency'[|nodes|] == [] && exists custom :: nodes'[|nodes|] == NewNode(|nodes|, custom)
    ensures ValidGraph(nodes', adjacency')
  {
    hide ValidNode, NewNode;
    forall n: nat | n < |nodes'|
      ensures ValidNode(nodes', n, adjacency'[n])
    {
      if n < |nodes'| - 1 {
        ValidNodeSame(nodes, nodes', n, adjacency[n]);
      } else if |nodes'| > |nodes| {
        var custom :| nodes'[n] == NewNode(n, custom);
        NewNodeValid(nodes', n, custom);
      }
    }
  }
}
