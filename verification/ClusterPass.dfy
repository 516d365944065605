/**
 Simplifying every cluster on its own (circom/constraint_list/src/constraint_simplification.rs,
 eq_simplification and linear_simplification). The jobs run in a thread pool: the results are
 received in an arbitrary order, modelled by taking any unfinished cluster next.
 */
module ClusterPass {
  import opened Field
  import opened LinearForms
  import opened Algebra
  import opened Rows
  import opened Elimination
  import opened MaxElimination
  import opened OccurrenceElimination
  import opened Clusters
  import opened ClusterFacts
  import opened Equalities

  /** The numbers below n. */
  function Ids(n: nat): (s: set<nat>)
    ensures forall i: nat :: i in s <==> i < n
  {
    if n == 0 then {
    } else Ids(n - 1) + {n - 1}
  }

  /** The clusters in `done` hold. */
  ghost predicate DoneHold(clusters: seq<Cluster>, done: set<nat>, w: Assignment, p: int)
    requires p > 0 && forall i :: i in done ==> i < |clusters|
  {
    forall i :: i in done ==> AllHold(clusters[i].constraints, w, p)
  }

  /** What the clusters in `done`, whose signals are u, were turned into. */
  ghost predicate Accumulated(clusters: seq<Cluster>, done: set<nat>, subs: seq<Substitution>, cons: seq<Constraint>,
                              u: set<nat>, forbidden: set<nat>, p: int)
    requires p > 0
  {
    && (forall i :: i in done ==> i < |clusters|)
    && (forall w: Assignment :: DoneHold(clusters, done, w, p) <==> AllHold(cons, w, p) && SubsHold(subs, w, p))
    && Solved(subs) && GoodSubstitutions(subs, forbidden, u, p)
    && (forall c :: c in cons ==> Kept(c, forbidden, u, p))
  }

  /** The signals of the clusters in `done`. */
  ghost function DoneSignals(clusters: seq<Cluster>, done: set<nat>): set<nat> {
    set i, s | i in done && i < |clusters| && s in SignalsOf(clusters[i].constraints) :: s
  }

  lemma DoneHoldAdd(clusters: seq<Cluster>, done: set<nat>, i: nat, w: Assignment, p: int)
    requires p > 0 && i < |clusters| && forall j :: j in done ==> j < |clusters|
    ensures DoneHold(clusters, done + {i}, w, p) <==>
            DoneHold(clusters, done, w, p) && AllHold(clusters[i].constraints, w, p)
  {
    assert i in done + {i};
    assert forall j :: j in done ==> j in done + {i};
  }

  lemma DoneSignalsAdd(clusters: seq<Cluster>, done: set<nat>, i: nat)
    requires i < |clusters|
    ensures DoneSignals(clusters, done + {i}) == DoneSignals(clusters, done) + SignalsOf(clusters[i].constraints)
  {}

  lemma DoneDisjoint(linear: seq<Constraint>, clusters: seq<Cluster>, groups: seq<seq<nat>>, done: set<nat>, i: nat)
    requires Clustering(NonEmpty(linear), clusters, groups) && i < |clusters| && i !in done
    ensures DoneSignals(clusters, done) !! SignalsOf(clusters[i].constraints)
  {
    hide Clustering, SignalsOf;
    forall j | j in done && j < |clusters|
      ensures SignalsOf(clusters[j].constraints) !! SignalsOf(clusters[i].constraints)
    {
      ClustersDisjoint(NonEmpty(linear), clusters, groups, j, i);
    }
  }

  /** One cluster more: its result goes together with the others, because it has signals of its own. */
  lemma Accumulate(linear: seq<Constraint>, clusters: seq<Cluster>, groups: seq<seq<nat>>, done: set<nat>, i: nat,
                   subs: seq<Substitution>, cons: seq<Constraint>, subs1: seq<Substitution>, cons1: seq<Constraint>,
                   forbidden: set<nat>, p: int)
    requires p > 0 && Clustering(NonEmpty(linear), clusters, groups) && i < |clusters| && i !in done
    requires Accumulated(clusters, done, subs, cons, DoneSignals(clusters, done), forbidden, p)
    requires forall w: Assignment :: AllHold(clusters[i].constraints, w, p)
                                     <==> AllHold(cons1, w, p) && SubsHold(subs1, w, p)
    requires Solved(subs1) && GoodSubstitutions(subs1, forbidden, SignalsOf(clusters[i].constraints), p)
    requires forall c :: c in cons1 ==> Kept(c, forbidden, SignalsOf(clusters[i].constraints), p)
    ensures Accumulated(clusters, done + {i}, subs + subs1, cons + cons1, DoneSignals(clusters, done + {i}), forbidden, p)
  {
    hide Clustering, SignalsOf, Solved, GoodSubstitutions, DoneHold, AllHold, SubsHold, DoneSignals;
    DoneDisjoint(linear, clusters, groups, done, i);
    DoneSignalsAdd(clusters, done, i);
    SolvedAppend(subs, DoneSignals(clusters, done), subs1, SignalsOf(clusters[i].constraints), forbidden, p);
    forall w: Assignment
      ensures DoneHold(clusters, done + {i}, w, p) <==> AllHold(cons + cons1, w, p) && SubsHold(subs + subs1, w, p)
    {
      DoneHoldAdd(clusters, done, i, w, p);
      AllHoldConcat(cons, cons1, w, p);
      SubsHoldAppend(subs, subs1, w, p);
    }
    assert forall c :: c in cons + cons1 ==> c in cons || c in cons1;
  }

  /** What simplifying a whole list promises. */
  ghost predicate PassResult(linear: seq<Constraint>, subs: seq<Substitution>, cons: seq<Constraint>, forbidden: set<nat>, p: int)
    requires p > 0
  {
    && (forall w: Assignment :: AllHold(linear, w, p) <==> AllHold(cons, w, p) && SubsHold(subs, w, p))
    && Solved(subs) && GoodSubstitutions(subs, forbidden, SignalsOf(linear), p)
    && (forall c :: c in cons ==> Kept(c, forbidden, SignalsOf(linear), p))
  }

  lemma AllDone(linear: seq<Constraint>, clusters: seq<Cluster>, groups: seq<seq<nat>>, done: set<nat>,
                subs: seq<Substitution>, cons: seq<Constraint>, forbidden: set<nat>, p: int)
    requires p > 0 && Clustering(NonEmpty(linear), clusters, groups)
    requires done == Ids(|clusters|)
    requires Accumulated(clusters, done, subs, cons, DoneSignals(clusters, done), forbidden, p)
    ensures PassResult(linear, subs, cons, forbidden, p)
  {
    hide Clustering, SignalsOf, Holds, SubHolds, Signals;
    forall i | i in done
      ensures SignalsOf(clusters[i].constraints) <= SignalsOf(linear)
    {
      ClusterWithin(linear, clusters, groups, i);
    }
    assert DoneSignals(clusters, done) <= SignalsOf(linear);
    forall w: Assignment
      ensures AllHold(linear, w, p) <==> AllHold(cons, w, p) && SubsHold(subs, w, p)
    {
      ClustersHold(linear, clusters, groups, w, p);
      assert DoneHold(clusters, done, w, p) <==> forall c :: 0 <= c < |clusters| ==> AllHold(clusters[c].constraints, w, p);
    }
  }

  lemma LeftoverIsKept(c: Constraint, forbidden: set<nat>, u: set<nat>, p: int)
    requires Leftover(c, forbidden, u, p)
    ensures Kept(c, forbidden, u, p)
  {}

  lemma NothingAccumulated(clusters: seq<Cluster>, forbidden: set<nat>, p: int)
    requires p > 0
    ensures Accumulated(clusters, {}, [], [], DoneSignals(clusters, {}), forbidden, p)
  {}

  // ------------------------------------------------------------------ which signals are eliminated

  /**
   Within a list of substitutions, those of one cluster: in a cluster of 350 to 999999 constraints rare signals are
   eliminated, unless the old heuristics are asked for; otherwise always the largest one possible.
   */
  ghost predicate Chosen(cluster: seq<Constraint>, subs: seq<Substitution>, forbidden: set<nat>, useOldHeuristics: bool) {
    if 350 <= |cluster| < 1000000 && !useOldHeuristics then RareEliminated(Froms(subs), cluster, forbidden)
    else forall s :: s in subs && s.from in SignalsOf(cluster) ==> LargestFirst([s], forbidden)
  }

  ghost predicate EachChosen(clusters: seq<Cluster>, done: set<nat>, subs: seq<Substitution>, forbidden: set<nat>, useOldHeuristics: bool) {
    forall i :: i in done && i < |clusters| ==> Chosen(clusters[i].constraints, subs, forbidden, useOldHeuristics)
  }

  /** The list falls into its connected components, and in each the signals to eliminate are chosen by the heuristics. */
  ghost predicate ChosenByCluster(linear: seq<Constraint>, subs: seq<Substitution>, forbidden: set<nat>, useOldHeuristics: bool) {
    exists clusters: seq<Cluster>, groups: seq<seq<nat>> ::
      Clustering(NonEmpty(linear), clusters, groups) && EachChosen(clusters, Ids(|clusters|), subs, forbidden, useOldHeuristics)
  }

  lemma NoneChosen(clusters: seq<Cluster>, forbidden: set<nat>, useOldHeuristics: bool)
    ensures EachChosen(clusters, {}, [], forbidden, useOldHeuristics)
  {}

  lemma ChosenAppend(cluster: seq<Constraint>, subs: seq<Substitution>, subs1: seq<Substitution>, forbidden: set<nat>, useOldHeuristics: bool)
    requires Chosen(cluster, subs, forbidden, useOldHeuristics)
    requires Froms(subs1) !! SignalsOf(cluster)
    ensures Chosen(cluster, subs + subs1, forbidden, useOldHeuristics)
  {
    hide SignalsOf, LargestFirst, RareEliminated;
    forall s | s in subs + subs1 && s.from in SignalsOf(cluster)
      ensures s in subs
    {
      assert s in subs1 ==> s.from in Froms(subs1);
    }
    assert Froms(subs) <= Froms(subs + subs1);
    if RareEliminated(Froms(subs), cluster, forbidden) {
      RareMore(Froms(subs), Froms(subs + subs1), cluster, forbidden);
    }
  }

  lemma ChosenOwn(cluster: seq<Constraint>, subs: seq<Substitution>, subs1: seq<Substitution>, forbidden: set<nat>, useOldHeuristics: bool)
    requires if 350 <= |cluster| < 1000000 && !useOldHeuristics then RareEliminated(Froms(subs1), cluster, forbidden)
             else LargestFirst(subs1, forbidden)
    requires Froms(subs) !! SignalsOf(cluster)
    ensures Chosen(cluster, subs + subs1, forbidden, useOldHeuristics)
  {
    hide SignalsOf, RareEliminated;
    forall s | s in subs + subs1 && s.from in SignalsOf(cluster)
      ensures s in subs1
    {
      assert s in subs ==> s.from in Froms(subs);
    }
    assert Froms(subs1) <= Froms(subs + subs1);
    if RareEliminated(Froms(subs1), cluster, forbidden) {
      RareMore(Froms(subs1), Froms(subs + subs1), cluster, forbidden);
    }
  }

  lemma GoodFroms(subs: seq<Substitution>, forbidden: set<nat>, u: set<nat>, p: int)
    requires GoodSubstitutions(subs, forbidden, u, p)
    ensures Froms(subs) <= u
  {}

  /** One more cluster's substitutions leave the choices of the others as they are. */
  lemma ChosenStep(linear: seq<Constraint>, clusters: seq<Cluster>, groups: seq<seq<nat>>, done: set<nat>, id: nat,
                   subs: seq<Substitution>, subs1: seq<Substitution>, forbidden: set<nat>, useOldHeuristics: bool, p: int)
    requires Clustering(NonEmpty(linear), clusters, groups) && id < |clusters| && id !in done
    requires EachChosen(clusters, done, subs, forbidden, useOldHeuristics)
    requires GoodSubstitutions(subs, forbidden, DoneSignals(clusters, done), p)
    requires GoodSubstitutions(subs1, forbidden, SignalsOf(clusters[id].constraints), p)
    requires if 350 <= |clusters[id].constraints| < 1000000 && !useOldHeuristics
             then RareEliminated(Froms(subs1), clusters[id].constraints, forbidden) else LargestFirst(subs1, forbidden)
    ensures EachChosen(clusters, done + {id}, subs + subs1, forbidden, useOldHeuristics)
  {
    hide Clustering, SignalsOf, GoodSubstitutions, DoneSignals, Chosen, RareEliminated, LargestFirst, Froms;
    GoodFroms(subs, forbidden, DoneSignals(clusters, done), p);
    GoodFroms(subs1, forbidden, SignalsOf(clusters[id].constraints), p);
    DoneDisjoint(linear, clusters, groups, done, id);
    ChosenOwn(clusters[id].constraints, subs, subs1, forbidden, useOldHeuristics);
    forall i | i in done && i < |clusters|
      ensures Chosen(clusters[i].constraints, subs + subs1, forbidden, useOldHeuristics)
    {
      ClustersDisjoint(NonEmpty(linear), clusters, groups, i, id);
      ChosenAppend(clusters[i].constraints, subs, subs1, forbidden, useOldHeuristics);
    }
  }

  /** With the old heuristics every substitution is for the largest of its signals that is not forbidden. */
  lemma OldHeuristics(linear: seq<Constraint>, subs: seq<Substitution>, forbidden: set<nat>, p: int)
    requires ChosenByCluster(linear, subs, forbidden, true) && GoodSubstitutions(subs, forbidden, SignalsOf(linear), p)
    ensures LargestFirst(subs, forbidden)
  {
    hide Clustering, SignalsOf, GoodSubstitutions, LargestFirst;
    GoodFroms(subs, forbidden, SignalsOf(linear), p);
    var clusters: seq<Cluster>, groups: seq<seq<nat>> :|
      Clustering(NonEmpty(linear), clusters, groups) && EachChosen(clusters, Ids(|clusters|), subs, forbidden, true);
    forall s | s in subs
      ensures LargestFirst([s], forbidden)
    {
      var i := SignalInCluster(linear, clusters, groups, s.from);
      assert Chosen(clusters[i].constraints, subs, forbidden, true);
    }
    EachLargest(subs, forbidden);
  }

  lemma EachLargest(subs: seq<Substitution>, forbidden: set<nat>)
    requires forall s :: s in subs ==> LargestFirst([s], forbidden)
    ensures LargestFirst(subs, forbidden)
  {
    forall s, k | s in subs && k in s.to
      ensures k in forbidden || k < s.from
    {
      assert LargestFirst([s], forbidden) && s in [s];
    }
  }

  method LinearSimplification(linear: seq<Constraint>, forbidden: set<nat>, noLabels: nat, field: int, useOldHeuristics: bool)
    returns (substitutions: seq<Substitution>, cons: seq<Constraint>)
    requires Prime(field) && CONSTANT in forbidden
    requires forall c :: c in linear ==> LinearRow(c, field)
    requires forall c, s :: c in linear && s in Signals(c) ==> s < noLabels
    ensures PassResult(linear, substitutions, cons, forbidden, field)
    ensures ChosenByCluster(linear, substitutions, forbidden, useOldHeuristics)
  {
    hide Clustering, SignalsOf, Solved, GoodSubstitutions, DoneSignals, AllHold, SubsHold, Kept, Leftover, Signals, LinearRow,
         EachChosen, RareEliminated, LargestFirst, Froms;
    substitutions, cons := [], [];
    var clusters;
    ghost var groups;
    clusters, groups := BuildClusters(linear, noLabels);
    var running := Ids(|clusters|);
    ghost var done: set<nat> := {};
    NothingAccumulated(clusters, forbidden, field);
    NoneChosen(clusters, forbidden, useOldHeuristics);
    while running != {}
      invariant running + done == Ids(|clusters|)
      invariant running !! done
      invariant Accumulated(clusters, done, substitutions, cons, DoneSignals(clusters, done), forbidden, field)
      invariant EachChosen(clusters, done, substitutions, forbidden, useOldHeuristics)
      decreases running
    {
      var id :| id in running;
      ClusterWithin(linear, clusters, groups, id);
      var result := FullSimplification(clusters[id].constraints, forbidden, useOldHeuristics, field);
      forall c | c in result.constraints
        ensures Kept(c, forbidden, SignalsOf(clusters[id].constraints), field)
      {
        LeftoverIsKept(c, forbidden, SignalsOf(clusters[id].constraints), field);
      }
      Accumulate(linear, clusters, groups, done, id, substitutions, cons, result.substitutions, result.constraints, forbidden, field);
      ChosenStep(linear, clusters, groups, done, id, substitutions, result.substitutions, forbidden, useOldHeuristics, field);
      cons := cons + result.constraints;
      substitutions := substitutions + result.substitutions;
      running := running - {id};
      done := done + {id};
    }
    AllDone(linear, clusters, groups, done, substitutions, cons, forbidden, field);
  }

  // ------------------------------------------------------------------ equalities

  /** A set of signals that equalities never leave. */
  ghost predicate TiedClosed(equalities: seq<Constraint>, group: set<nat>) {
    forall c, x, y :: c in equalities && x in Signals(c) && x in group && y in Signals(c) ==> y in group
  }

  /** A chain of equalities ties x to y. */
  ghost predicate Tied(equalities: seq<Constraint>, x: nat, y: nat) {
    forall group: set<nat> :: x in group && TiedClosed(equalities, group) ==> y in group
  }

  /** Tied signals are equal in every solution. */
  lemma TiedEqual(equalities: seq<Constraint>, x: nat, y: nat, w: Assignment, p: int)
    requires Prime(p) && forall c :: c in equalities ==> GoodEquality(c, p)
    requires Tied(equalities, x, y) && AllHold(equalities, w, p)
    ensures Eqv(w(x), w(y), p)
  {
    hide GoodEquality, Holds, Signals;
    var group := set s | s in SignalsOf(equalities) + {x} && Eqv(w(s), w(x), p);
    assert TiedClosed(equalities, group) by {
      forall c, a, b | c in equalities && a in Signals(c) && a in group && b in Signals(c)
        ensures b in group
      {
        UniformFrom(c, a, w, p);
      }
    }
  }

  /** A cluster's representative, within a longer list of substitutions. */
  ghost predicate Representative(rep: nat, subs: seq<Substitution>, u: set<nat>, forbidden: set<nat>) {
    && rep in u && rep != CONSTANT
    && (u * forbidden != {} ==> rep in forbidden)
    && LeastOf(rep, u, forbidden)
    && (forall s :: s in subs && s.from in u ==> s.to == map[rep := 1])
    && (forall x :: x in u && x !in forbidden && x != rep ==> IsFrom(subs, x))
  }

  ghost predicate HasRepresentative(subs: seq<Substitution>, u: set<nat>, forbidden: set<nat>) {
    exists rep: nat :: Representative(rep, subs, u, forbidden)
  }

  lemma RepresentativeNew(rep: nat, subs: seq<Substitution>, subs1: seq<Substitution>, u: set<nat>, forbidden: set<nat>)
    requires Represents(rep, subs1, u, forbidden) && forall s :: s in subs ==> s.from !in u
    ensures HasRepresentative(subs + subs1, u, forbidden)
  {
    assert forall s :: s in subs + subs1 <==> s in subs || s in subs1;
    forall x | x in u && x !in forbidden && x != rep
      ensures IsFrom(subs + subs1, x)
    {
      var s :| s in subs1 && s.from == x;
      assert s in subs + subs1;
    }
    assert Representative(rep, subs + subs1, u, forbidden);
  }

  lemma RepresentativeKept(subs: seq<Substitution>, subs1: seq<Substitution>, u: set<nat>, forbidden: set<nat>)
    requires HasRepresentative(subs, u, forbidden) && forall s :: s in subs1 ==> s.from !in u
    ensures HasRepresentative(subs + subs1, u, forbidden)
  {
    var rep: nat :| Representative(rep, subs, u, forbidden);
    assert forall s :: s in subs + subs1 <==> s in subs || s in subs1;
    forall x | x in u && x !in forbidden && x != rep
      ensures IsFrom(subs + subs1, x)
    {
      var s :| s in subs && s.from == x;
      assert s in subs + subs1;
    }
    assert Representative(rep, subs + subs1, u, forbidden);
  }

  /** Every finished cluster has a representative, and every substitution belongs to a finished cluster. */
  ghost predicate Represented(clusters: seq<Cluster>, done: set<nat>, subs: seq<Substitution>, forbidden: set<nat>) {
    && (forall i :: i in done ==> i < |clusters| && HasRepresentative(subs, SignalsOf(clusters[i].constraints), forbidden))
    && (forall s :: s in subs ==> s.from in DoneSignals(clusters, done))
  }

  lemma RepresentedAdd(linear: seq<Constraint>, clusters: seq<Cluster>, groups: seq<seq<nat>>, done: set<nat>, i: nat,
                       subs: seq<Substitution>, subs1: seq<Substitution>, forbidden: set<nat>, p: int)
    requires Clustering(NonEmpty(linear), clusters, groups) && i < |clusters| && i !in done
    requires Represented(clusters, done, subs, forbidden)
    requires GoodSubstitutions(subs1, forbidden, SignalsOf(clusters[i].constraints), p)
    requires exists rep: nat :: Represents(rep, subs1, SignalsOf(clusters[i].constraints), forbidden)
    ensures Represented(clusters, done + {i}, subs + subs1, forbidden)
  {
    hide Clustering, SignalsOf, DoneSignals, Represents, HasRepresentative;
    DoneDisjoint(linear, clusters, groups, done, i);
    DoneSignalsAdd(clusters, done, i);
    var u := SignalsOf(clusters[i].constraints);
    var rep: nat :| Represents(rep, subs1, u, forbidden);
    RepresentativeNew(rep, subs, subs1, u, forbidden);
    forall j | j in done
      ensures HasRepresentative(subs + subs1, SignalsOf(clusters[j].constraints), forbidden)
    {
      ClustersDisjoint(NonEmpty(linear), clusters, groups, j, i);
      RepresentativeKept(subs, subs1, SignalsOf(clusters[j].constraints), forbidden);
    }
    assert forall s :: s in subs + subs1 <==> s in subs || s in subs1;
  }

  /** The constraint is kept under the cluster's number. */
  ghost predicate Filed(aux: seq<seq<Constraint>>, i: nat, c: Constraint) {
    i < |aux| && c in aux[i]
  }

  /** The explicit constraints of the finished clusters, kept by cluster until all are finished. */
  ghost predicate Stored(aux: seq<seq<Constraint>>, done: set<nat>, collected: seq<Constraint>) {
    && (forall c :: c in collected ==> exists i: nat :: Filed(aux, i, c))
    && (forall i: nat, c :: Filed(aux, i, c) ==> i in done && c in collected)
  }

  lemma StoredAdd(aux: seq<seq<Constraint>>, done: set<nat>, collected: seq<Constraint>, i: nat, cons: seq<Constraint>)
    requires Stored(aux, done, collected) && i < |aux| && i !in done
    ensures Stored(aux[i := cons], done + {i}, collected + cons)
  {
    var aux', collected' := aux[i := cons], collected + cons;
    forall c | c in collected'
      ensures exists j: nat :: Filed(aux', j, c)
    {
      if c in cons {
        assert Filed(aux', i, c);
      } else {
        var j: nat :| Filed(aux, j, c);
        assert Filed(aux', j, c);
      }
    }
    forall j: nat, c | Filed(aux', j, c)
      ensures j in done + {i} && c in collected'
    {
      assert j != i ==> Filed(aux, j, c);
    }
  }

  /** One job: simplify a cluster and file the result under its number. */
  method FinishCluster(clusters: seq<Cluster>, id: nat, forbidden: set<nat>, field: int,
                       substitutions: seq<Substitution>, auxConstraints: seq<seq<Constraint>>,
                       ghost equalities: seq<Constraint>, ghost groups: seq<seq<nat>>, ghost done: set<nat>,
                       ghost collected: seq<Constraint>)
    returns (substitutions': seq<Substitution>, auxConstraints': seq<seq<Constraint>>, ghost collected': seq<Constraint>)
    requires Prime(field) && forall c :: c in equalities ==> GoodEquality(c, field)
    requires Clustering(NonEmpty(equalities), clusters, groups) && id < |clusters| && id !in done
    requires Accumulated(clusters, done, substitutions, collected, DoneSignals(clusters, done), forbidden, field)
    requires Represented(clusters, done, substitutions, forbidden)
    requires |auxConstraints| == |clusters| && Stored(auxConstraints, done, collected)
    ensures Accumulated(clusters, done + {id}, substitutions', collected', DoneSignals(clusters, done + {id}), forbidden, field)
    ensures Represented(clusters, done + {id}, substitutions', forbidden)
    ensures |auxConstraints'| == |clusters| && Stored(auxConstraints', done + {id}, collected')
  {
    hide Clustering, SignalsOf, Accumulated, Represented, Stored, GoodEquality, Connected, Kept, Solved, GoodSubstitutions,
         Represents, DoneSignals, AllHold, SubsHold;
    ClusterWithin(equalities, clusters, groups, id);
    ClusterConnected(NonEmpty(equalities), clusters, groups, id);
    ClusterNonEmpty(NonEmpty(equalities), clusters, groups, id);
    var subs, cons := EqClusterSimplification(clusters[id], forbidden, field);
    Accumulate(equalities, clusters, groups, done, id, substitutions, collected, subs, cons, forbidden, field);
    RepresentedAdd(equalities, clusters, groups, done, id, substitutions, subs, forbidden, field);
    StoredAdd(auxConstraints, done, collected, id, cons);
    substitutions' := substitutions + subs;
    auxConstraints' := auxConstraints[id := cons];
    collected' := collected + cons;
  }

  lemma ClusterNonEmpty(items: seq<Constraint>, clusters: seq<Cluster>, groups: seq<seq<nat>>, c: nat)
    requires Clustering(items, clusters, groups) && c < |clusters|
    ensures clusters[c].constraints != []
  {}

  /** Clusters of one equality are simplified at once, the others by the pool; the constraints come out in cluster order. */
  method EqSimplification(equalities: seq<Constraint>, forbidden: set<nat>, noVars: nat, field: int)
    returns (substitutions: seq<Substitution>, constraints: seq<Constraint>)
    requires Prime(field) && CONSTANT in forbidden
    requires forall c :: c in equalities ==> GoodEquality(c, field)
    requires forall c, s :: c in equalities && s in Signals(c) ==> s < noVars
    ensures PassResult(equalities, substitutions, constraints, forbidden, field)
    ensures ImagesOk(equalities, substitutions, forbidden) && LeastImages(equalities, substitutions, forbidden)
  {
    hide Clustering, SignalsOf, Accumulated, Represented, Stored, GoodEquality, Signals, PassResult, ImagesOk, LeastImages, DoneSignals;
    substitutions, constraints := [], [];
    ghost var done: set<nat>, collected: seq<Constraint> := {}, [];
    var clusters;
    ghost var groups;
    clusters, groups := BuildClusters(equalities, noVars);
    var auxConstraints: seq<seq<Constraint>> := seq(|clusters|, _ => []);
    var running: set<nat> := {};
    NothingAccumulated(clusters, forbidden, field);
    NothingStored(clusters, auxConstraints, forbidden);
    for id := 0 to |clusters|
      invariant |auxConstraints| == |clusters|
      invariant running + done == Ids(id) && running !! done
      invariant Accumulated(clusters, done, substitutions, collected, DoneSignals(clusters, done), forbidden, field)
      invariant Represented(clusters, done, substitutions, forbidden)
      invariant Stored(auxConstraints, done, collected)
    {
      if |clusters[id].constraints| == 1 {
        substitutions, auxConstraints, collected :=
          FinishCluster(clusters, id, forbidden, field, substitutions, auxConstraints, equalities, groups, done, collected);
        done := done + {id};
      } else {
        running := running + {id};
      }
    }
    while running != {}
      invariant |auxConstraints| == |clusters|
      invariant running + done == Ids(|clusters|) && running !! done
      invariant Accumulated(clusters, done, substitutions, collected, DoneSignals(clusters, done), forbidden, field)
      invariant Represented(clusters, done, substitutions, forbidden)
      invariant Stored(auxConstraints, done, collected)
      decreases running
    {
      var id :| id in running;
      substitutions, auxConstraints, collected :=
        FinishCluster(clusters, id, forbidden, field, substitutions, auxConstraints, equalities, groups, done, collected);
      running := running - {id};
      done := done + {id};
    }
    for id := 0 to |clusters|
      invariant forall c :: c in constraints <==> exists i :: 0 <= i < id && c in auxConstraints[i]
    {
      ConcatMembers(constraints, auxConstraints, id);
      constraints := constraints + auxConstraints[id];
    }
    StoredMembers(auxConstraints, done, collected, constraints);
    AllDone(equalities, clusters, groups, done, substitutions, collected, forbidden, field);
    PassIsSolved(equalities, substitutions, collected, forbidden, field);
    PassSameMembers(equalities, substitutions, collected, constraints, forbidden, field);
    ImagesFromRepresentatives(equalities, clusters, groups, done, substitutions, forbidden, field);
    LeastFromRepresentatives(equalities, clusters, groups, done, substitutions, forbidden);
  }

  lemma PassIsSolved(linear: seq<Constraint>, subs: seq<Substitution>, cons: seq<Constraint>, forbidden: set<nat>, p: int)
    requires p > 0 && PassResult(linear, subs, cons, forbidden, p)
    ensures Solved(subs) && GoodSubstitutions(subs, forbidden, SignalsOf(linear), p)
  {}

  lemma NothingStored(clusters: seq<Cluster>, aux: seq<seq<Constraint>>, forbidden: set<nat>)
    requires forall i :: 0 <= i < |aux| ==> aux[i] == []
    ensures Represented(clusters, {}, [], forbidden) && Stored(aux, {}, [])
  {}

  lemma ConcatMembers(constraints: seq<Constraint>, aux: seq<seq<Constraint>>, id: nat)
    requires id < |aux| && forall c :: c in constraints <==> exists i :: 0 <= i < id && c in aux[i]
    ensures forall c :: c in constraints + aux[id] <==> exists i :: 0 <= i < id + 1 && c in aux[i]
  {}

  lemma StoredMembers(aux: seq<seq<Constraint>>, done: set<nat>, collected: seq<Constraint>, constraints: seq<Constraint>)
    requires Stored(aux, done, collected)
    requires forall c :: c in constraints <==> exists i :: 0 <= i < |aux| && c in aux[i]
    ensures forall c :: c in constraints <==> c in collected
  {
    forall c
      ensures c in constraints <==> c in collected
    {
      if c in collected {
        var i: nat :| Filed(aux, i, c);
      }
      if c in constraints {
        var i :| 0 <= i < |aux| && c in aux[i];
        assert Filed(aux, i, c);
      }
    }
  }

  lemma PassSameMembers(linear: seq<Constraint>, subs: seq<Substitution>, a: seq<Constraint>, b: seq<Constraint>,
                        forbidden: set<nat>, p: int)
    requires p > 0 && PassResult(linear, subs, a, forbidden, p) && forall c :: c in a <==> c in b
    ensures PassResult(linear, subs, b, forbidden, p)
  {}

  // ------------------------------------------------------------------ where a signal goes

  /** x is renamed to r, or stays what it is. */
  ghost predicate ImageOf(subs: seq<Substitution>, x: nat, r: nat) {
    (r == x && !IsFrom(subs, x)) || exists s :: s in subs && s.from == x && s.to == map[r := 1]
  }

  /** No forbidden signal is tied to x. */
  ghost predicate Free(equalities: seq<Constraint>, forbidden: set<nat>, x: nat) {
    forall f :: f in forbidden ==> !Tied(equalities, x, f)
  }

  /**
   Where signals go: to a signal they are tied to; a class without forbidden signals goes to one signal, which is
   not forbidden; any other class ends in forbidden signals only.
   */
  ghost predicate ImagesOk(equalities: seq<Constraint>, subs: seq<Substitution>, forbidden: set<nat>) {
    && (forall s :: s in subs ==> exists r: nat :: r != CONSTANT && s.to == map[r := 1] && Tied(equalities, s.from, r))
    && (forall x: nat, y: nat, r: nat :: ImageOf(subs, x, r) && Tied(equalities, x, y) && Free(equalities, forbidden, x) ==> ImageOf(subs, y, r))
    && (forall x: nat, r: nat :: ImageOf(subs, x, r) && r !in forbidden ==> Free(equalities, forbidden, x))
  }

  lemma SignalInCluster(linear: seq<Constraint>, clusters: seq<Cluster>, groups: seq<seq<nat>>, x: nat) returns (i: nat)
    requires Clustering(NonEmpty(linear), clusters, groups) && x in SignalsOf(linear)
    ensures i < |clusters| && x in SignalsOf(clusters[i].constraints)
  {
    var c :| c in linear && x in Signals(c);
    NonEmptyMembers(linear, c);
    var k :| 0 <= k < |NonEmpty(linear)| && NonEmpty(linear)[k] == c;
    i := ItemInCluster(NonEmpty(linear), clusters, groups, k);
  }

  /** The signals of one cluster are tied together. */
  lemma ClusterTied(linear: seq<Constraint>, clusters: seq<Cluster>, groups: seq<seq<nat>>, i: nat, x: nat, y: nat)
    requires Clustering(NonEmpty(linear), clusters, groups) && i < |clusters|
    requires x in SignalsOf(clusters[i].constraints) && y in SignalsOf(clusters[i].constraints)
    ensures Tied(linear, x, y)
  {
    hide Clustering, Linked;
    var cs := clusters[i].constraints;
    ClusterWithin(linear, clusters, groups, i);
    ClusterConnected(NonEmpty(linear), clusters, groups, i);
    var cx :| cx in cs && x in Signals(cx);
    var a :| 0 <= a < |cs| && cs[a] == cx;
    var cy :| cy in cs && y in Signals(cy);
    var b :| 0 <= b < |cs| && cs[b] == cy;
    forall group: set<nat> | x in group && TiedClosed(linear, group)
      ensures y in group
    {
      ConnectedWithin(cs, linear, a, b, x, group);
    }
  }

  lemma ConnectedWithin(cs: seq<Constraint>, linear: seq<Constraint>, a: nat, b: nat, x: nat, group: set<nat>)
    requires a < |cs| && b < |cs| && Linked(cs, a, b) && x in Signals(cs[a])
    requires forall k :: k in cs ==> k in linear
    requires x in group && TiedClosed(linear, group)
    ensures Signals(cs[b]) <= group
  {
    var inside := set k: nat | k < |cs| && Signals(cs[k]) <= group;
    assert cs[a] in cs;
    assert a in inside;
    assert Closed(cs, inside) by {
      forall k: nat, l: nat | k in inside && Share(cs, k, l)
        ensures l in inside
      {
        var s :| s in Signals(cs[k]) && s in Signals(cs[l]);
        assert cs[l] in cs;
      }
    }
  }

  /** Nothing outside a cluster is tied to a signal in it. */
  lemma TiedSameCluster(linear: seq<Constraint>, clusters: seq<Cluster>, groups: seq<seq<nat>>, i: nat, x: nat, y: nat)
    requires Clustering(NonEmpty(linear), clusters, groups) && i < |clusters|
    requires x in SignalsOf(clusters[i].constraints) && Tied(linear, x, y)
    ensures y in SignalsOf(clusters[i].constraints)
  {
    hide Clustering, Signals;
    var group := SignalsOf(clusters[i].constraints);
    assert TiedClosed(linear, group) by {
      forall c, a, b | c in linear && a in Signals(c) && a in group && b in Signals(c)
        ensures b in group
      {
        ConstraintInCluster(linear, clusters, groups, i, c, a);
      }
    }
  }

  lemma ConstraintInCluster(linear: seq<Constraint>, clusters: seq<Cluster>, groups: seq<seq<nat>>, i: nat, c: Constraint, a: nat)
    requires Clustering(NonEmpty(linear), clusters, groups) && i < |clusters|
    requires c in linear && a in Signals(c) && a in SignalsOf(clusters[i].constraints)
    ensures c in clusters[i].constraints
  {
    NonEmptyMembers(linear, c);
    var k :| 0 <= k < |NonEmpty(linear)| && NonEmpty(linear)[k] == c;
    var j := ItemInCluster(NonEmpty(linear), clusters, groups, k);
    hide Clustering, Signals;
    assert a in SignalsOf(clusters[j].constraints);
    if j != i {
      ClustersDisjoint(NonEmpty(linear), clusters, groups, i, j);
    }
  }

  /** A signal of no equality is tied to itself only. */
  lemma UntiedAlone(linear: seq<Constraint>, x: nat, y: nat)
    requires x !in SignalsOf(linear) && Tied(linear, x, y)
    ensures y == x
  {
    assert TiedClosed(linear, {x}) by {
      forall c | c in linear
        ensures x !in Signals(c)
      {}
    }
  }

  /** Within a cluster, every signal that is not forbidden goes to the representative. */
  lemma ImageInCluster(subs: seq<Substitution>, rep: nat, u: set<nat>, forbidden: set<nat>, x: nat)
    requires Representative(rep, subs, u, forbidden) && Solved(subs) && x in u && x !in forbidden
    ensures ImageOf(subs, x, rep)
    ensures forall r: nat :: ImageOf(subs, x, r) ==> r == rep
  {
    assert forall s :: s in subs ==> s.from !in s.to;
    assert rep in map[rep := 1];
    if x != rep {
      var s :| s in subs && s.from == x;
    }
    forall r: nat | ImageOf(subs, x, r)
      ensures r == rep
    {
      if s :| s in subs && s.from == x && s.to == map[r := 1] {
        assert r in map[rep := 1];
      }
    }
  }

  lemma ForbiddenStays(subs: seq<Substitution>, u: set<nat>, forbidden: set<nat>, x: nat, r: nat, p: int)
    requires GoodSubstitutions(subs, forbidden, u, p) && x in forbidden && ImageOf(subs, x, r)
    ensures r == x
  {}

  lemma FreeImages(equalities: seq<Constraint>, clusters: seq<Cluster>, groups: seq<seq<nat>>, done: set<nat>,
                   subs: seq<Substitution>, forbidden: set<nat>, x: nat, y: nat, r: nat)
    requires Clustering(NonEmpty(equalities), clusters, groups) && done == Ids(|clusters|)
    requires Represented(clusters, done, subs, forbidden) && Solved(subs)
    requires ImageOf(subs, x, r) && Tied(equalities, x, y) && Free(equalities, forbidden, x)
    ensures ImageOf(subs, y, r)
  {
    hide Clustering, SignalsOf, Tied, ImageOf, Solved;
    if x !in SignalsOf(equalities) {
      UntiedAlone(equalities, x, y);
    } else {
      var i := SignalInCluster(equalities, clusters, groups, x);
      var u := SignalsOf(clusters[i].constraints);
      TiedSameCluster(equalities, clusters, groups, i, x, y);
      forall f | f in u
        ensures f !in forbidden
      {
        ClusterTied(equalities, clusters, groups, i, x, f);
      }
      var rep: nat :| Representative(rep, subs, u, forbidden);
      ImageInCluster(subs, rep, u, forbidden, x);
      ImageInCluster(subs, rep, u, forbidden, y);
    }
  }

  lemma UnforbiddenImageIsFree(equalities: seq<Constraint>, clusters: seq<Cluster>, groups: seq<seq<nat>>, done: set<nat>,
                               subs: seq<Substitution>, forbidden: set<nat>, u0: set<nat>, x: nat, r: nat, p: int)
    requires Clustering(NonEmpty(equalities), clusters, groups) && done == Ids(|clusters|)
    requires Represented(clusters, done, subs, forbidden) && Solved(subs) && GoodSubstitutions(subs, forbidden, u0, p)
    requires ImageOf(subs, x, r) && r !in forbidden
    ensures Free(equalities, forbidden, x)
  {
    hide Clustering, SignalsOf, Tied, ImageOf, Solved, GoodSubstitutions;
    forall f | f in forbidden
      ensures !Tied(equalities, x, f)
    {
      if x in forbidden {
        ForbiddenStays(subs, u0, forbidden, x, r, p);
      }
      if Tied(equalities, x, f) {
        if x !in SignalsOf(equalities) {
          UntiedAlone(equalities, x, f);
        } else {
          var i := SignalInCluster(equalities, clusters, groups, x);
          var u := SignalsOf(clusters[i].constraints);
          TiedSameCluster(equalities, clusters, groups, i, x, f);
          var rep: nat :| Representative(rep, subs, u, forbidden);
          assert f in u * forbidden;
          ImageInCluster(subs, rep, u, forbidden, x);
        }
      }
    }
  }

  /** A signal is renamed to the least forbidden signal tied to it, or to the least one tied to it if none is forbidden. */
  ghost predicate LeastImages(equalities: seq<Constraint>, subs: seq<Substitution>, forbidden: set<nat>) {
    forall s :: s in subs ==>
                  exists r: nat :: s.to == map[r := 1] && forall y: nat :: Tied(equalities, s.from, y) ==> PreferredTo(r, y, forbidden)
  }

  ghost predicate PreferredTo(r: nat, y: nat, forbidden: set<nat>) {
    if y in forbidden then r in forbidden && r <= y else r in forbidden || r <= y
  }

  lemma RepresentativePreferred(rep: nat, subs: seq<Substitution>, u: set<nat>, forbidden: set<nat>)
    requires Representative(rep, subs, u, forbidden)
    ensures forall y :: y in u ==> PreferredTo(rep, y, forbidden)
    ensures forall s :: s in subs && s.from in u ==> s.to == map[rep := 1]
  {
    forall y | y in u
      ensures PreferredTo(rep, y, forbidden)
    {
      if y in forbidden {
        assert y in u * forbidden;
      }
    }
  }

  lemma LeastFromRepresentatives(equalities: seq<Constraint>, clusters: seq<Cluster>, groups: seq<seq<nat>>, done: set<nat>,
                                 subs: seq<Substitution>, forbidden: set<nat>)
    requires Clustering(NonEmpty(equalities), clusters, groups) && done == Ids(|clusters|)
    requires Represented(clusters, done, subs, forbidden)
    ensures LeastImages(equalities, subs, forbidden)
  {
    hide Clustering, SignalsOf, Tied, Representative, PreferredTo;
    forall s | s in subs
      ensures exists r: nat :: s.to == map[r := 1] && forall y: nat :: Tied(equalities, s.from, y) ==> PreferredTo(r, y, forbidden)
    {
      var i, x :| i in done && i < |clusters| && x in SignalsOf(clusters[i].constraints) && x == s.from;
      var u := SignalsOf(clusters[i].constraints);
      var rep: nat :| Representative(rep, subs, u, forbidden);
      RepresentativePreferred(rep, subs, u, forbidden);
      forall y: nat | Tied(equalities, s.from, y)
        ensures PreferredTo(rep, y, forbidden)
      {
        TiedSameCluster(equalities, clusters, groups, i, s.from, y);
      }
    }
  }

  lemma ImagesFromRepresentatives(equalities: seq<Constraint>, clusters: seq<Cluster>, groups: seq<seq<nat>>, done: set<nat>,
                                  subs: seq<Substitution>, forbidden: set<nat>, p: int)
    requires p > 0 && Clustering(NonEmpty(equalities), clusters, groups) && done == Ids(|clusters|)
    requires Represented(clusters, done, subs, forbidden)
    requires Solved(subs) && GoodSubstitutions(subs, forbidden, SignalsOf(equalities), p)
    ensures ImagesOk(equalities, subs, forbidden)
  {
    hide Clustering, SignalsOf, Tied, ImageOf, Solved, GoodSubstitutions, Free;
    forall s | s in subs
      ensures exists r: nat :: r != CONSTANT && s.to == map[r := 1] && Tied(equalities, s.from, r)
    {
      var i, x :| i in done && i < |clusters| && x in SignalsOf(clusters[i].constraints) && x == s.from;
      var u := SignalsOf(clusters[i].constraints);
      var rep: nat :| Representative(rep, subs, u, forbidden);
      ClusterTied(equalities, clusters, groups, i, s.from, rep);
    }
    forall x: nat, y: nat, r: nat | ImageOf(subs, x, r) && Tied(equalities, x, y) && Free(equalities, forbidden, x)
      ensures ImageOf(subs, y, r)
    {
      FreeImages(equalities, clusters, groups, done, subs, forbidden, x, y, r);
    }
    forall x: nat, r: nat | ImageOf(subs, x, r) && r !in forbidden
      ensures Free(equalities, forbidden, x)
    {
      UnforbiddenImageIsFree(equalities, clusters, groups, done, subs, forbidden, SignalsOf(equalities), x, r, p);
    }
  }
}
