/**
 From the graph of templates to lists of constraints over numbered signals (circom/dag/src/map_to_constraint_list.rs,
 circom/dag/src/witness_producer.rs, and the trees of circom/dag/src/lib.rs).
 */
module Flattening {
  import opened LinearForms
  import opened Algebra
  import opened Rows
  import opened Dag

  datatype Graph = Graph(nodes: seq<Node>, adjacency: seq<seq<Edge>>)

  ghost predicate IsGraph(g: Graph) { ValidGraph(g.nodes, g.adjacency) }

  /** The size of a node. */
  function Size(g: Graph, n: nat): nat
    requires n < |g.nodes|
  {
    g.nodes[n].numberOfSignals
  }

  lemma GraphNode(g: Graph, n: nat)
    requires IsGraph(g) && n < |g.nodes|
    ensures |g.adjacency| == |g.nodes| && ValidNode(g.nodes, n, g.adjacency[n])
    ensures forall i :: 0 <= i < |g.adjacency[n]| ==> g.adjacency[n][i].goesTo < n
  {}

  // ------------------------------------------------------------------ offsets

  function OffsetKey(k: nat, offset: nat): nat { if k == CONSTANT then CONSTANT else k + offset }

  function OffsetKeys(m: Form, offset: nat): set<nat> { set j | j in m :: OffsetKey(j, offset) }

  function OffsetForm(m: Form, offset: nat): Form {
    map k | k in OffsetKeys(m, offset) :: m[if k == CONSTANT then CONSTANT else k - offset]
  }

  /** The loop that moves every signal of a form. */
  method ApplyRawOffset(m: Form, offset: nat) returns (r: Form)
    ensures r == OffsetForm(m, offset)
  {
    r := map[];
    var todo := m.Keys;
    while todo != {}
      invariant todo <= m.Keys
      invariant r.Keys == set k | k in m && k !in todo :: OffsetKey(k, offset)
      invariant forall k :: k in m && k !in todo ==> r[OffsetKey(k, offset)] == m[k]
      decreases todo
    {
      var k :| k in todo;
      todo := todo - {k};
      r := r[OffsetKey(k, offset) := m[k]];
    }
  }

  function ApplyOffset(c: Constraint, offset: nat): Constraint {
    Constraint(OffsetForm(c.a, offset), OffsetForm(c.b, offset), OffsetForm(c.c, offset))
  }

  /** The assignment of a component's own signals, numbered from one. */
  ghost function Shift(w: Assignment, offset: nat): Assignment { (k: nat) => w(k + offset) }

  /** A moved form means what the form meant to the component. */
  lemma {:induction false} EvalOffset(m: Form, offset: nat, w: Assignment)
    ensures Eval(OffsetForm(m, offset), w) == Eval(m, Shift(w, offset))
    decreases |m|
  {
    hide OffsetForm, Eval;
    if m == map[] {
      EvalEmpty(m, Shift(w, offset));
      OffsetEmpty(m, offset);
      EvalEmpty(OffsetForm(m, offset), w);
    } else {
      var k :| k in m;
      var t := OffsetKey(k, offset);
      var r := OffsetForm(m, offset);
      EvalSplit(m, k, Shift(w, offset));
      EvalSplit(r, t, w);
      assert (m - {k}).Keys == m.Keys - {k};
      assert |(m - {k}).Keys| == |m - {k}| && |m.Keys| == |m|;
      EvalOffset(m - {k}, offset, w);
      OffsetWithout(m, k, offset);
    }
  }

  lemma OffsetWithout(m: Form, k: nat, offset: nat)
    requires k in m
    ensures OffsetForm(m - {k}, offset) == OffsetForm(m, offset) - {OffsetKey(k, offset)}
    ensures OffsetKey(k, offset) in OffsetForm(m, offset) && OffsetForm(m, offset)[OffsetKey(k, offset)] == m[k]
  {}

  lemma OffsetHolds(c: Constraint, offset: nat, w: Assignment, p: int)
    requires p > 0
    ensures var moved := ApplyOffset(c, offset);
            && Eval(moved.a, w) == Eval(c.a, Shift(w, offset)) && Eval(moved.b, w) == Eval(c.b, Shift(w, offset))
            && Eval(moved.c, w) == Eval(c.c, Shift(w, offset)) && (Holds(moved, w, p) <==> Holds(c, Shift(w, offset), p))
  {
    hide OffsetForm, Shift;
    EvalOffset(c.a, offset, w);
    EvalOffset(c.b, offset, w);
    EvalOffset(c.c, offset, w);
  }

  lemma OffsetShape(c: Constraint, offset: nat, p: int)
    ensures IsLinear(ApplyOffset(c, offset)) <==> IsLinear(c)
    ensures IsEmpty(ApplyOffset(c, offset)) <==> IsEmpty(c)
    ensures CanonicalConstraint(c, p) ==> CanonicalConstraint(ApplyOffset(c, offset), p)
    ensures LinearRow(c, p) ==> LinearRow(ApplyOffset(c, offset), p)
    ensures forall s :: s in Signals(ApplyOffset(c, offset)) ==> s > offset && s - offset in Signals(c)
  {
    OffsetEmpty(c.a, offset);
    OffsetEmpty(c.b, offset);
    OffsetEmpty(c.c, offset);
    OffsetCoefficients(c.a, offset, p);
    OffsetCoefficients(c.b, offset, p);
    OffsetCoefficients(c.c, offset, p);
    hide OffsetForm;
  }

  lemma OffsetCoefficients(m: Form, offset: nat, p: int)
    ensures Canonical(m, p) ==> Canonical(OffsetForm(m, offset), p)
    ensures NoZero(m) ==> NoZero(OffsetForm(m, offset))
    ensures forall k :: k in OffsetForm(m, offset) && k != CONSTANT ==> k > offset && k - offset in m
  {}

  lemma OffsetEmpty(m: Form, offset: nat)
    ensures OffsetForm(m, offset) == map[] <==> m == map[]
  {
    if m != map[] {
      var k :| k in m;
      assert OffsetKey(k, offset) in OffsetForm(m, offset);
    }
  }

  // ------------------------------------------------------------------ kinds of constraints

  datatype Kind = ConstantEquality | Equality | LinearOnly | NonLinear

  /** The list a constraint goes to. */
  function KindOf(c: Constraint, field: int): Kind
    requires field > 0
  {
    if IsConstantEquality(c) then ConstantEquality
    else if IsEquality(c, field) then Equality
    else if IsLinear(c) then LinearOnly
    else NonLinear
  }

  /** The constraints of one kind, in order. */
  ghost function Pick(cs: seq<Constraint>, kind: Kind, field: int): seq<Constraint>
    requires field > 0
  {
    if |cs| == 0 then []
    else Pick(cs[..|cs| - 1], kind, field) + (if KindOf(cs[|cs| - 1], field) == kind then [cs[|cs| - 1]] else [])
  }

  lemma {:induction false} PickAppend(a: seq<Constraint>, b: seq<Constraint>, kind: Kind, field: int)
    requires field > 0
    ensures Pick(a + b, kind, field) == Pick(a, kind, field) + Pick(b, kind, field)
  {
    hide KindOf;
    if |b| == 0 {
      assert a + b == a;
    } else {
      var last := |b| - 1;
      PickAppend(a, b[..last], kind, field);
      assert (a + b)[..|a + b| - 1] == a + b[..last];
    }
  }

  lemma {:induction false} PickMembers(cs: seq<Constraint>, kind: Kind, field: int, c: Constraint)
    requires field > 0
    ensures c in Pick(cs, kind, field) <==> c in cs && KindOf(c, field) == kind
  {
    hide KindOf;
    if |cs| > 0 {
      PickMembers(cs[..|cs| - 1], kind, field, c);
      assert cs == cs[..|cs| - 1] + [cs[|cs| - 1]];
    }
  }

  /** Every constraint is in the list of its kind, as often as it was there, and in no other. */
  lemma {:induction false} PickCounts(cs: seq<Constraint>, kind: Kind, field: int, c: Constraint)
    requires field > 0
    ensures multiset(Pick(cs, kind, field))[c] == if KindOf(c, field) == kind then multiset(cs)[c] else 0
  {
    hide KindOf;
    if |cs| > 0 {
      PickCounts(cs[..|cs| - 1], kind, field, c);
      assert cs == cs[..|cs| - 1] + [cs[|cs| - 1]];
    }
  }

  /** The lists together say what the constraints said. */
  lemma PickHolds(cs: seq<Constraint>, w: Assignment, field: int)
    requires field > 0
    ensures AllHold(cs, w, field) <==>
            && AllHold(Pick(cs, ConstantEquality, field), w, field) && AllHold(Pick(cs, Equality, field), w, field)
            && AllHold(Pick(cs, LinearOnly, field), w, field) && AllHold(Pick(cs, NonLinear, field), w, field)
  {
    hide KindOf, Holds, Pick;
    forall c, kind
      ensures c in Pick(cs, kind, field) <==> c in cs && KindOf(c, field) == kind
    {
      PickMembers(cs, kind, field, c);
    }
    if && AllHold(Pick(cs, ConstantEquality, field), w, field) && AllHold(Pick(cs, Equality, field), w, field)
       && AllHold(Pick(cs, LinearOnly, field), w, field) && AllHold(Pick(cs, NonLinear, field), w, field) {
      forall c | c in cs
        ensures Holds(c, w, field)
      {
        var kind := KindOf(c, field);
        assert c in Pick(cs, kind, field);
      }
    }
  }

  // ------------------------------------------------------------------ the constraints of a flattened graph

  /** The nonempty constraints of a node, moved. */
  ghost function Moved(cs: seq<Constraint>, offset: nat): seq<Constraint> {
    if |cs| == 0 then []
    else
      var c := cs[|cs| - 1];
      Moved(cs[..|cs| - 1], offset) + (if IsEmpty(c) then [] else [ApplyOffset(c, offset)])
  }

  /** The constraints of a node and its components, in the order of the traversal. */
  ghost function Flattened(g: Graph, n: nat, offset: nat): seq<Constraint>
    requires IsGraph(g) && n < |g.nodes|
    decreases n, |g.adjacency[n]| + 1
  {
    Moved(g.nodes[n].constraints, offset) + FlattenedEdges(g, n, offset, |g.adjacency[n]|)
  }

  /** The constraints of the first k components. */
  ghost function FlattenedEdges(g: Graph, n: nat, offset: nat, k: nat): seq<Constraint>
    requires IsGraph(g) && n < |g.nodes| && k <= |g.adjacency[n]|
    decreases n, k
  {
    if k == 0 then []
    else
      var e := g.adjacency[n][k - 1];
      FlattenedEdges(g, n, offset, k - 1) + Flattened(g, e.goesTo, offset + e.inNumber)
  }

  /** A node holds where its own constraints do and its components hold at their places. */
  ghost predicate NodeHolds(g: Graph, n: nat, offset: nat, w: Assignment, p: int)
    requires p > 0 && IsGraph(g) && n < |g.nodes|
    decreases n, |g.adjacency[n]| + 1
  {
    AllHold(g.nodes[n].constraints, Shift(w, offset), p) && EdgesHold(g, n, offset, |g.adjacency[n]|, w, p)
  }

  ghost predicate EdgesHold(g: Graph, n: nat, offset: nat, k: nat, w: Assignment, p: int)
    requires p > 0 && IsGraph(g) && n < |g.nodes| && k <= |g.adjacency[n]|
    decreases n, k
  {
    k == 0 || (GraphNode(g, n);
               var e := g.adjacency[n][k - 1];
               EdgesHold(g, n, offset, k - 1, w, p) && NodeHolds(g, e.goesTo, offset + e.inNumber, w, p))
  }

  lemma {:induction false} MovedHolds(cs: seq<Constraint>, offset: nat, w: Assignment, p: int)
    requires p > 0
    ensures AllHold(Moved(cs, offset), w, p) <==> AllHold(cs, Shift(w, offset), p)
  {
    hide Holds, Shift, ApplyOffset;
    if |cs| > 0 {
      var last := |cs| - 1;
      MovedHolds(cs[..last], offset, w, p);
      AllHoldAppend(cs[..last], cs[last], Shift(w, offset), p);
      assert cs == cs[..last] + [cs[last]];
      if IsEmpty(cs[last]) {
        EmptyHolds(Shift(w, offset), p);
      } else {
        AllHoldAppend(Moved(cs[..last], offset), ApplyOffset(cs[last], offset), w, p);
        OffsetHolds(cs[last], offset, w, p);
      }
    }
  }

  lemma AllHoldJoin(a: seq<Constraint>, b: seq<Constraint>, w: Assignment, p: int)
    requires p > 0
    ensures AllHold(a + b, w, p) <==> AllHold(a, w, p) && AllHold(b, w, p)
  {
    assert forall c :: c in a + b <==> c in a || c in b;
  }

  /** Flattening keeps the meaning of every node, at every place. */
  lemma {:induction false} FlattenedHolds(g: Graph, n: nat, offset: nat, w: Assignment, p: int)
    requires p > 0 && IsGraph(g) && n < |g.nodes|
    ensures AllHold(Flattened(g, n, offset), w, p) <==> NodeHolds(g, n, offset, w, p)
    decreases n, |g.adjacency[n]| + 1
  {
    hide AllHold, ValidNode, Moved, FlattenedEdges, EdgesHold;
    MovedHolds(g.nodes[n].constraints, offset, w, p);
    AllHoldJoin(Moved(g.nodes[n].constraints, offset), FlattenedEdges(g, n, offset, |g.adjacency[n]|), w, p);
    FlattenedEdgesHold(g, n, offset, |g.adjacency[n]|, w, p);
  }

  lemma {:induction false} FlattenedEdgesHold(g: Graph, n: nat, offset: nat, k: nat, w: Assignment, p: int)
    requires p > 0 && IsGraph(g) && n < |g.nodes| && k <= |g.adjacency[n]|
    ensures AllHold(FlattenedEdges(g, n, offset, k), w, p) <==> EdgesHold(g, n, offset, k, w, p)
    decreases n, k
  {
    hide AllHold, ValidNode, Flattened, NodeHolds;
    if k == 0 {
      NothingHolds(w, p);
    } else {
      GraphNode(g, n);
      var e := g.adjacency[n][k - 1];
      FlattenedEdgesHold(g, n, offset, k - 1, w, p);
      FlattenedHolds(g, e.goesTo, offset + e.inNumber, w, p);
      AllHoldJoin(FlattenedEdges(g, n, offset, k - 1), Flattened(g, e.goesTo, offset + e.inNumber), w, p);
    }
  }

  lemma NothingHolds(w: Assignment, p: int)
    requires p > 0
    ensures AllHold([], w, p)
  {}
}
