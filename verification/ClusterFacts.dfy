/** What the clusters of a list of constraints mean for the list. */
module ClusterFacts {
  import opened LinearForms
  import opened Algebra
  import opened Rows
  import opened Clusters
  import opened Elimination

  /** Any two constraints of the list are joined by shared signals. */
  ghost predicate Connected(cs: seq<Constraint>) {
    forall i, j :: 0 <= i < |cs| && 0 <= j < |cs| ==> Linked(cs, i, j)
  }

  lemma {:induction false} NonEmptyMembers(cs: seq<Constraint>, c: Constraint)
    ensures c in NonEmpty(cs) <==> c in cs && c != EMPTY
  {
    if |cs| > 0 {
      var last := |cs| - 1;
      NonEmptyMembers(cs[..last], c);
      assert cs == cs[..last] + [cs[last]];
    }
  }

  lemma NonEmptyHolds(cs: seq<Constraint>, w: Assignment, p: int)
    requires p > 0
    ensures AllHold(NonEmpty(cs), w, p) <==> AllHold(cs, w, p)
  {
    forall c
      ensures c in NonEmpty(cs) <==> c in cs && c != EMPTY
    {
      NonEmptyMembers(cs, c);
    }
  }

  lemma ClusterMember(items: seq<Constraint>, clusters: seq<Cluster>, groups: seq<seq<nat>>, c: nat, k: Constraint)
    requires Clustering(items, clusters, groups) && c < |clusters| && k in clusters[c].constraints
    ensures exists i :: 0 <= i < |groups[c]| && groups[c][i] < |items| && items[groups[c][i]] == k
    ensures k in items
  {}

  lemma ItemInCluster(items: seq<Constraint>, clusters: seq<Cluster>, groups: seq<seq<nat>>, k: nat) returns (c: nat)
    requires Clustering(items, clusters, groups) && k < |items|
    ensures c < |clusters| && items[k] in clusters[c].constraints
  {
    assert InSome(groups, k);
    c :| 0 <= c < |groups| && k in groups[c];
    var i :| 0 <= i < |groups[c]| && groups[c][i] == k;
    assert clusters[c].constraints[i] == items[k];
  }

  /** The list holds exactly where every cluster holds. */
  lemma ClustersHold(linear: seq<Constraint>, clusters: seq<Cluster>, groups: seq<seq<nat>>, w: Assignment, p: int)
    requires p > 0 && Clustering(NonEmpty(linear), clusters, groups)
    ensures AllHold(linear, w, p) <==> forall c :: 0 <= c < |clusters| ==> AllHold(clusters[c].constraints, w, p)
  {
    hide Holds, Clustering;
    var items := NonEmpty(linear);
    NonEmptyHolds(linear, w, p);
    if AllHold(items, w, p) {
      forall c, k | 0 <= c < |clusters| && k in clusters[c].constraints
        ensures Holds(k, w, p)
      {
        ClusterMember(items, clusters, groups, c, k);
      }
    }
    if forall c :: 0 <= c < |clusters| ==> AllHold(clusters[c].constraints, w, p) {
      forall k | k in items
        ensures Holds(k, w, p)
      {
        var i :| 0 <= i < |items| && items[i] == k;
        var c := ItemInCluster(items, clusters, groups, i);
      }
    }
  }

  /** A cluster holds constraints of the list only, none of them empty. */
  lemma ClusterWithin(linear: seq<Constraint>, clusters: seq<Cluster>, groups: seq<seq<nat>>, c: nat)
    requires Clustering(NonEmpty(linear), clusters, groups) && c < |clusters|
    ensures forall k :: k in clusters[c].constraints ==> k in linear && k != EMPTY
    ensures SignalsOf(clusters[c].constraints) <= SignalsOf(linear)
  {
    forall k | k in clusters[c].constraints
      ensures k in linear && k != EMPTY
    {
      NonEmptyMembers(linear, k);
    }
  }

  /** Different clusters have no signal in common. */
  lemma ClustersDisjoint(items: seq<Constraint>, clusters: seq<Cluster>, groups: seq<seq<nat>>, c: nat, d: nat)
    requires Clustering(items, clusters, groups) && c < |clusters| && d < |clusters| && c != d
    ensures SignalsOf(clusters[c].constraints) !! SignalsOf(clusters[d].constraints)
  {
    forall s | s in SignalsOf(clusters[c].constraints) && s in SignalsOf(clusters[d].constraints)
      ensures false
    {
      var k :| k in clusters[c].constraints && s in Signals(k);
      var l :| l in clusters[d].constraints && s in Signals(l);
      ClusterMember(items, clusters, groups, c, k);
      ClusterMember(items, clusters, groups, d, l);
      var i :| 0 <= i < |groups[c]| && groups[c][i] < |items| && items[groups[c][i]] == k;
      var j :| 0 <= j < |groups[d]| && groups[d][j] < |items| && items[groups[d][j]] == l;
      assert Share(items, groups[c][i], groups[d][j]);
      LinkedShare(items, groups[c][i], groups[d][j]);
    }
  }

  /** A cluster is connected by its own constraints. */
  lemma ClusterConnected(items: seq<Constraint>, clusters: seq<Cluster>, groups: seq<seq<nat>>, c: nat)
    requires Clustering(items, clusters, groups) && c < |clusters|
    ensures Connected(clusters[c].constraints)
  {
    var cs, ks := clusters[c].constraints, groups[c];
    forall i, j | 0 <= i < |cs| && 0 <= j < |cs|
      ensures Linked(cs, i, j)
    {
      forall group: set<nat> | i in group && Closed(cs, group)
        ensures j in group
      {
        ClosedLifts(items, clusters, groups, c, group);
        var lifted := Lift(items, ks, group);
        assert Linked(items, ks[i], ks[j]);
        assert ks[i] in lifted;
        assert ks[j] in lifted;
        var k :| 0 <= k < |ks| && k in group && ks[k] == ks[j];
        assert k == j;
      }
    }
  }

  /** The positions outside the cluster, with those of the given members. */
  ghost function Lift(items: seq<Constraint>, ks: seq<nat>, group: set<nat>): set<nat> {
    set k: nat | k < |items| && (k !in ks || exists i :: 0 <= i < |ks| && i in group && ks[i] == k)
  }

  /** A constraint that shares a signal with one of a cluster is in the cluster. */
  lemma ShareIsInside(items: seq<Constraint>, clusters: seq<Cluster>, groups: seq<seq<nat>>, c: nat, a: nat, j: nat)
    requires Clustering(items, clusters, groups) && c < |clusters|
    requires j < |groups[c]| && Share(items, a, groups[c][j])
    ensures a in groups[c]
  {
    hide Linked, Signals;
    assert InSome(groups, a);
    var d :| 0 <= d < |groups| && a in groups[d];
    var e :| 0 <= e < |groups[d]| && groups[d][e] == a;
    LinkedShare(items, a, groups[c][j]);
    assert Linked(items, groups[d][e], groups[c][j]);
  }

  lemma ClosedLifts(items: seq<Constraint>, clusters: seq<Cluster>, groups: seq<seq<nat>>, c: nat, group: set<nat>)
    requires Clustering(items, clusters, groups) && c < |clusters|
    requires Closed(clusters[c].constraints, group)
    ensures Closed(items, Lift(items, groups[c], group))
  {
    hide Linked, Signals;
    var cs, ks := clusters[c].constraints, groups[c];
    forall a: nat, b: nat | a in Lift(items, ks, group) && Share(items, a, b)
      ensures b in Lift(items, ks, group)
    {
      if b in ks {
        var j :| 0 <= j < |ks| && ks[j] == b;
        ShareIsInside(items, clusters, groups, c, a, j);
        var i :| 0 <= i < |ks| && i in group && ks[i] == a;
        assert cs[i] == items[a] && cs[j] == items[b];
        assert Share(cs, i, j);
      }
    }
  }

  // ------------------------------------------------------------------ results over disjoint signals

  /** Substitutions over disjoint signals stay in solved form together. */
  lemma SolvedAppend(s1: seq<Substitution>, u1: set<nat>, s2: seq<Substitution>, u2: set<nat>, forbidden: set<nat>, p: int)
    requires Solved(s1) && GoodSubstitutions(s1, forbidden, u1, p)
    requires Solved(s2) && GoodSubstitutions(s2, forbidden, u2, p)
    requires u1 !! u2
    ensures Solved(s1 + s2) && GoodSubstitutions(s1 + s2, forbidden, u1 + u2, p)
  {
    var s := s1 + s2;
    assert forall x :: x in s <==> x in s1 || x in s2;
    forall i, j | 0 <= i < j < |s|
      ensures s[i].from != s[j].from
    {
      assert s[i] in s1 || s[i] in s2;
      if i < |s1| && j >= |s1| {
        assert s[i] in s1 && s[j] in s2;
        assert s[i].from in u1 && s[j].from in u2;
      } else if i >= |s1| {
        assert s[i] == s2[i - |s1|] && s[j] == s2[j - |s1|];
      }
    }
  }

  lemma SubsHoldAppend(s1: seq<Substitution>, s2: seq<Substitution>, w: Assignment, p: int)
    requires p > 0
    ensures SubsHold(s1 + s2, w, p) <==> SubsHold(s1, w, p) && SubsHold(s2, w, p)
  {
    assert forall x :: x in s1 + s2 <==> x in s1 || x in s2;
  }

  lemma AllHoldConcat(s1: seq<Constraint>, s2: seq<Constraint>, w: Assignment, p: int)
    requires p > 0
    ensures AllHold(s1 + s2, w, p) <==> AllHold(s1, w, p) && AllHold(s2, w, p)
  {
    assert forall x :: x in s1 + s2 <==> x in s1 || x in s2;
  }
}
