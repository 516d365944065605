/**
 Grouping constraints that share signals (circom/constraint_list/src/constraint_simplification.rs,
 build_clusters): a union-find over the constraints, with the signals as the links.
 */
module Clusters {
  import opened Wrappers
  import opened Algebra
  import opened Rows
  import opened Orders

  // ------------------------------------------------------------------ the union-find forest

  /** No parent is smaller than its child. */
  ghost predicate UpPath(path: seq<nat>) {
    forall i :: 0 <= i < |path| ==> i <= path[i] < |path|
  }

  ghost function Root(path: seq<nat>, i: nat): (r: nat)
    requires UpPath(path) && i < |path|
    ensures i <= r < |path| && path[r] == r
    decreases |path| - i
  {
    if path[i] == i then i else Root(path, path[i])
  }

  /** Pointing a node at its root changes no root. */
  lemma {:induction false} RedirectKeepsRoots(path: seq<nat>, i: nat, k: nat)
    requires UpPath(path) && i < |path| && k < |path|
    ensures UpPath(path[i := Root(path, i)])
    ensures Root(path[i := Root(path, i)], k) == Root(path, k)
    decreases |path| - k
  {
    var p := path[i := Root(path, i)];
    if k == i {
      assert p[Root(path, i)] == Root(path, i);
    } else if path[k] != k {
      RedirectKeepsRoots(path, i, path[k]);
    }
  }

  lemma RedirectKeepsAllRoots(path: seq<nat>, i: nat)
    requires UpPath(path) && i < |path|
    ensures UpPath(path[i := Root(path, i)])
    ensures forall k :: 0 <= k < |path| ==> Root(path[i := Root(path, i)], k) == Root(path, k)
  {
    forall k | 0 <= k < |path|
      ensures Root(path[i := Root(path, i)], k) == Root(path, k)
    {
      RedirectKeepsRoots(path, i, k);
    }
  }

  /** Pointing a root at a larger root moves its whole class. */
  lemma {:induction false} LinkMovesClass(path: seq<nat>, src: nat, dest: nat, k: nat)
    requires UpPath(path) && src <= dest < |path| && path[src] == src && path[dest] == dest && k < |path|
    ensures UpPath(path[src := dest])
    ensures Root(path[src := dest], k) == if Root(path, k) == src then dest else Root(path, k)
    decreases |path| - k
  {
    if k == src {
      assert path[src := dest][dest] == dest;
    } else if path[k] != k {
      LinkMovesClass(path, src, dest, path[k]);
    }
  }

  lemma {:induction false} ExtendKeepsRoots(path: seq<nat>, k: nat)
    requires UpPath(path) && k < |path|
    ensures UpPath(path + [|path|])
    ensures Root(path + [|path|], k) == Root(path, k)
    decreases |path| - k
  {
    if path[k] != k {
      ExtendKeepsRoots(path, path[k]);
    }
  }

  /** The node is met on the way from another one to its root. */
  ghost predicate OnWay(path: seq<nat>, from: nat, k: nat)
    requires UpPath(path) && from < |path|
    decreases |path| - from
  {
    k == from || (path[from] != from && OnWay(path, path[from], k))
  }

  /** Finds the root, and points every node on the way at it. */
  method ShrinkJumpsAndFind(clusterToCurrent: seq<nat>, org: nat) returns (shrunk: seq<nat>, current: nat)
    requires UpPath(clusterToCurrent) && org < |clusterToCurrent|
    ensures UpPath(shrunk) && |shrunk| == |clusterToCurrent|
    ensures forall k :: 0 <= k < |shrunk| ==> Root(shrunk, k) == Root(clusterToCurrent, k)
    ensures current == Root(clusterToCurrent, org)
    ensures forall k :: 0 <= k < |shrunk| ==> shrunk[k] == if OnWay(clusterToCurrent, org, k) then current else clusterToCurrent[k]
  {
    shrunk, current := clusterToCurrent, org;
    var jumps: seq<nat> := [];
    while current != shrunk[current]
      invariant current < |shrunk| && Root(shrunk, current) == Root(shrunk, org)
      invariant forall k :: 0 <= k < |shrunk| ==> (OnWay(shrunk, org, k) <==> k in jumps || OnWay(shrunk, current, k))
      invariant forall i :: 0 <= i < |jumps| ==> jumps[i] < |shrunk| && Root(shrunk, jumps[i]) == Root(shrunk, org)
      decreases |shrunk| - current
    {
      jumps := jumps + [current];
      current := shrunk[current];
    }
    ghost var passed := jumps;
    while jumps != []
      invariant UpPath(shrunk) && |shrunk| == |clusterToCurrent|
      invariant forall k :: 0 <= k < |shrunk| ==> Root(shrunk, k) == Root(clusterToCurrent, k)
      invariant forall i :: 0 <= i < |jumps| ==> jumps[i] < |shrunk| && Root(shrunk, jumps[i]) == current
      invariant jumps <= passed
      invariant forall k :: 0 <= k < |shrunk| ==> shrunk[k] == if k in passed[|jumps|..] then current else clusterToCurrent[k]
      decreases |jumps|
    {
      var redirect := jumps[|jumps| - 1];
      assert passed[|jumps| - 1..] == [redirect] + passed[|jumps|..];
      jumps := jumps[..|jumps| - 1];
      RedirectKeepsAllRoots(shrunk, redirect);
      shrunk := shrunk[redirect := current];
    }
  }

  // ------------------------------------------------------------------ clusters

  datatype Cluster = Cluster(constraints: seq<Constraint>, numSignals: nat)

  const DEFAULT_CLUSTER: Cluster := Cluster([], 0)

  function MergeClusters(c0: Cluster, c1: Cluster): Cluster
    requires c0.numSignals + c1.numSignals >= 1
  {
    Cluster(c0.constraints + c1.constraints, c0.numSignals + c1.numSignals - 1)
  }

  function UnwrapOrDefault(c: Option<Cluster>): Cluster {
    match c
    case None => DEFAULT_CLUSTER
    case Some(v) => v
  }

  type Arena = seq<Option<Cluster>>

  // ------------------------------------------------------------------ connectedness

  ghost predicate Share(cs: seq<Constraint>, i: nat, j: nat) {
    i < |cs| && j < |cs| && exists s :: s in Signals(cs[i]) && s in Signals(cs[j])
  }

  /** A set of positions that sharing a signal never leaves. */
  ghost predicate Closed(cs: seq<Constraint>, group: set<nat>) {
    forall i, j :: i in group && Share(cs, i, j) ==> j in group
  }

  /** i reaches j through constraints that share signals. */
  ghost predicate Linked(cs: seq<Constraint>, i: nat, j: nat) {
    forall group: set<nat> :: i in group && Closed(cs, group) ==> j in group
  }

  lemma LinkedTransitive(cs: seq<Constraint>, i: nat, j: nat, k: nat)
    requires Linked(cs, i, j) && Linked(cs, j, k)
    ensures Linked(cs, i, k)
  {}

  lemma LinkedShare(cs: seq<Constraint>, i: nat, j: nat)
    requires Share(cs, i, j)
    ensures Linked(cs, i, j) && Linked(cs, j, i)
  {}

  lemma LinkedExtend(cs: seq<Constraint>, c: Constraint, i: nat, j: nat)
    requires i < |cs| && j < |cs| && Linked(cs, i, j)
    ensures Linked(cs + [c], i, j)
  {
    forall group: set<nat> | i in group && Closed(cs + [c], group)
      ensures j in group
    {
      assert Closed(cs, group) by {
        forall a: nat, b: nat | a in group && Share(cs, a, b)
          ensures b in group
        {
          assert (cs + [c])[a] == cs[a] && (cs + [c])[b] == cs[b];
          assert Share(cs + [c], a, b);
        }
      }
    }
  }

  /** A walk from i to j along shared signals. */
  ghost predicate Chain(cs: seq<Constraint>, walk: seq<nat>, i: nat, j: nat) {
    && |walk| > 0 && walk[0] == i && walk[|walk| - 1] == j
    && forall k :: 0 <= k < |walk| - 1 ==> Share(cs, walk[k], walk[k + 1])
  }

  ghost predicate Reached(cs: seq<Constraint>, i: nat, j: nat) {
    exists walk :: Chain(cs, walk, i, j)
  }

  /** Linked positions are exactly those joined by a chain of shared signals. */
  lemma LinkedIsChain(cs: seq<Constraint>, i: nat, j: nat)
    requires i < |cs| && j < |cs|
    ensures Linked(cs, i, j) <==> Reached(cs, i, j)
  {
    if Linked(cs, i, j) {
      var reached := set k: nat | k < |cs| && Reached(cs, i, k);
      assert Chain(cs, [i], i, i);
      assert Closed(cs, reached) by {
        forall a, b | a in reached && Share(cs, a, b)
          ensures b in reached
        {
          var walk :| Chain(cs, walk, i, a);
          assert Chain(cs, walk + [b], i, b);
        }
      }
    }
    if walk :| Chain(cs, walk, i, j) {
      ChainLinks(cs, walk, i, j);
    }
  }

  lemma {:induction false} ChainLinks(cs: seq<Constraint>, walk: seq<nat>, i: nat, j: nat)
    requires Chain(cs, walk, i, j)
    ensures Linked(cs, i, j)
    decreases |walk|
  {
    var n := |walk| - 1;
    if n > 0 {
      assert Share(cs, walk[n - 1], walk[n]);
      ChainLinks(cs, walk[..n], i, walk[n - 1]);
    }
  }

  // ------------------------------------------------------------------ the state of the grouping

  /** The constraints at some positions. */
  ghost function Pick(items: seq<Constraint>, ks: seq<nat>): (r: seq<Constraint>)
    ensures |r| == |ks| && forall i :: 0 <= i < |ks| && ks[i] < |items| ==> r[i] == items[ks[i]]
  {
    seq(|ks|, i requires 0 <= i < |ks| => if ks[i] < |items| then items[ks[i]] else EMPTY)
  }

  ghost predicate NoDuplicates(ks: seq<nat>) {
    forall i, j :: 0 <= i < j < |ks| ==> ks[i] != ks[j]
  }

  /** Every position is a member of its root's group, once. */
  ghost predicate Grouped(path: seq<nat>, members: seq<seq<nat>>) {
    && UpPath(path) && |members| == |path|
    && (forall k :: 0 <= k < |path| ==> k in members[Root(path, k)])
    && (forall r, i :: 0 <= r < |members| && 0 <= i < |members[r]| ==>
                         members[r][i] < |path| && Root(path, members[r][i]) == r)
    && (forall r :: 0 <= r < |members| ==> NoDuplicates(members[r]))
  }

  /** The arena holds a cluster at every root, of the constraints of its group, and nothing elsewhere. */
  ghost predicate Held(items: seq<Constraint>, arena: Arena, path: seq<nat>, members: seq<seq<nat>>) {
    && Grouped(path, members) && |items| == |path| == |arena|
    && (forall r :: 0 <= r < |arena| ==> (arena[r].Some? <==> path[r] == r))
    && (forall r :: 0 <= r < |arena| && arena[r].Some? ==>
                      arena[r].value.constraints == Pick(items, members[r]))
  }

  /** Groups are connected. */
  ghost predicate Joined(items: seq<Constraint>, path: seq<nat>)
    requires UpPath(path) && |items| == |path|
  {
    forall i, j :: 0 <= i < |path| && 0 <= j < |path| && Root(path, i) == Root(path, j) ==> Linked(items, i, j)
  }

  /**
   The index from signals to constraints: it leads to a constraint that holds the signal, in the group of
   every constraint that does. Of the last constraint, only the signals not in `todo` count yet.
   */
  ghost predicate Indexed(items: seq<Constraint>, path: seq<nat>, index: seq<nat>, limit: nat, todo: set<nat>)
    requires UpPath(path) && |items| == |path|
  {
    |items| <= limit && Leading(items, index, limit, todo) && Leads(items, path, index, limit, todo)
  }

  /** What the index holds. */
  ghost predicate Leading(items: seq<Constraint>, index: seq<nat>, limit: nat, todo: set<nat>) {
    && (forall s :: 0 <= s < |index| && index[s] < limit ==> index[s] < |items| && s in Signals(items[index[s]]))
    && (forall s :: 0 <= s < |index| && s in todo && index[s] < limit ==> index[s] < |items| - 1)
  }

  /** Signal s of constraint k counts: it belongs to an earlier constraint or was treated. */
  ghost predicate Due(items: seq<Constraint>, todo: set<nat>, k: nat, s: nat) {
    k < |items| && s in Signals(items[k]) && (k < |items| - 1 || s !in todo)
  }

  /** Every signal of a constraint is in the index. */
  ghost predicate Leads(items: seq<Constraint>, path: seq<nat>, index: seq<nat>, limit: nat, todo: set<nat>)
    requires UpPath(path) && |items| == |path| <= limit && Leading(items, index, limit, todo)
  {
    forall k: nat, s: nat :: Due(items, todo, k, s) ==> s < |index| && index[s] < limit && Root(path, index[s]) == Root(path, k)
  }

  // ------------------------------------------------------------------ merging two groups

  lemma RootIff(path: seq<nat>, r: nat)
    requires UpPath(path) && r < |path|
    ensures path[r] == r <==> Root(path, r) == r
  {}

  /** path' is path with the class of root src moved to root dest. */
  ghost predicate Moved(path: seq<nat>, path': seq<nat>, src: nat, dest: nat) {
    && UpPath(path) && UpPath(path') && |path'| == |path|
    && src < |path| && dest < |path| && Root(path, src) == src && Root(path, dest) == dest
    && forall k :: 0 <= k < |path| ==> Root(path', k) == if Root(path, k) == src then dest else Root(path, k)
  }

  ghost function MergeMembers(members: seq<seq<nat>>, src: nat, dest: nat): seq<seq<nat>>
    requires src < |members| && dest < |members|
  {
    if src == dest then members else members[dest := members[dest] + members[src]][src := []]
  }

  lemma MergeGrouped(path: seq<nat>, path': seq<nat>, members: seq<seq<nat>>, src: nat, dest: nat)
    requires Grouped(path, members) && Moved(path, path', src, dest)
    ensures Grouped(path', MergeMembers(members, src, dest))
  {
    if src != dest {
      var merged := MergeMembers(members, src, dest);
      forall k | 0 <= k < |path|
        ensures k in merged[Root(path', k)]
      {
        assert k in members[Root(path, k)];
      }
      forall r, i | 0 <= r < |merged| && 0 <= i < |merged[r]|
        ensures merged[r][i] < |path| && Root(path', merged[r][i]) == r
      {
        if r == dest && i >= |members[dest]| {
          assert merged[r][i] == members[src][i - |members[dest]|];
        } else if r == dest {
          assert merged[r][i] == members[dest][i];
        }
      }
      assert NoDuplicates(merged[dest]);
    }
  }

  /** The arena after taking the clusters at dest and src and putting back their union at dest. */
  function MergedArena(arena: Arena, src: nat, dest: nat): Arena
    requires src < |arena| && dest < |arena|
    requires UnwrapOrDefault(arena[dest]).numSignals
             + UnwrapOrDefault(arena[dest := None][src]).numSignals >= 1
  {
    var taken := arena[dest := None];
    taken[src := None][dest := Some(MergeClusters(UnwrapOrDefault(arena[dest]), UnwrapOrDefault(taken[src])))]
  }

  lemma MovedRoots(path: seq<nat>, path': seq<nat>, src: nat, dest: nat, r: nat)
    requires Moved(path, path', src, dest) && r < |path|
    ensures path'[r] == r <==> r == dest || (r != src && path[r] == r)
  {
    RootIff(path, r);
    RootIff(path', r);
  }

  lemma PickAppend(items: seq<Constraint>, a: seq<nat>, b: seq<nat>)
    ensures Pick(items, a + b) == Pick(items, a) + Pick(items, b)
  {}

  lemma MergeContents(items: seq<Constraint>, arena: Arena, members: seq<seq<nat>>, src: nat, dest: nat)
    requires |members| == |arena| && src < |arena| && dest < |arena|
    requires arena[src].Some? && arena[dest].Some?
    requires forall r :: 0 <= r < |arena| && arena[r].Some? ==> arena[r].value.constraints == Pick(items, members[r])
    requires UnwrapOrDefault(arena[dest]).numSignals + UnwrapOrDefault(arena[dest := None][src]).numSignals >= 1
    ensures var merged := MergedArena(arena, src, dest);
            forall r :: 0 <= r < |merged| && merged[r].Some? ==>
                          merged[r].value.constraints == Pick(items, MergeMembers(members, src, dest)[r])
  {}

  lemma GroupedShape(path: seq<nat>, members: seq<seq<nat>>)
    requires Grouped(path, members)
    ensures UpPath(path) && |members| == |path|
  {}

  /** Merging empties the one place and keeps the other. */
  lemma MergedPlaces(arena: Arena, src: nat, dest: nat)
    requires src < |arena| && dest < |arena|
    requires UnwrapOrDefault(arena[dest]).numSignals + UnwrapOrDefault(arena[dest := None][src]).numSignals >= 1
    ensures var merged := MergedArena(arena, src, dest);
            |merged| == |arena| && forall r :: 0 <= r < |arena| ==> (merged[r].Some? <==> r == dest || (r != src && arena[r].Some?))
  {}

  lemma MergeHeld(items: seq<Constraint>, arena: Arena, path: seq<nat>, path': seq<nat>, members: seq<seq<nat>>, src: nat, dest: nat)
    requires Held(items, arena, path, members) && Moved(path, path', src, dest)
    requires UnwrapOrDefault(arena[dest]).numSignals + UnwrapOrDefault(arena[dest := None][src]).numSignals >= 1
    ensures Held(items, MergedArena(arena, src, dest), path', MergeMembers(members, src, dest))
  {
    hide Root, Signals, Grouped, Pick, MergeMembers, UpPath, MergedArena, UnwrapOrDefault;
    GroupedShape(path, members);
    MergeGrouped(path, path', members, src, dest);
    RootIff(path, src);
    RootIff(path, dest);
    MergeContents(items, arena, members, src, dest);
    MergedPlaces(arena, src, dest);
    var merged := MergedArena(arena, src, dest);
    forall r | 0 <= r < |arena|
      ensures merged[r].Some? <==> path'[r] == r
    {
      MovedRoots(path, path', src, dest, r);
    }
  }

  lemma MergeJoined(items: seq<Constraint>, path: seq<nat>, path': seq<nat>, src: nat, dest: nat, x: nat, y: nat)
    requires Moved(path, path', src, dest) && |items| == |path| && Joined(items, path)
    requires x < |path| && Root(path, x) == src && y < |path| && Root(path, y) == dest
    requires Share(items, x, y)
    ensures Joined(items, path')
  {
    LinkedShare(items, x, y);
    forall i, j | 0 <= i < |path| && 0 <= j < |path| && Root(path', i) == Root(path', j)
      ensures Linked(items, i, j)
    {
      if Root(path, i) == Root(path, j) {
      } else if Root(path, i) == src {
        LinkedTransitive(items, i, x, y);
        LinkedTransitive(items, i, y, j);
      } else {
        LinkedTransitive(items, i, y, x);
        LinkedTransitive(items, i, x, j);
      }
    }
  }

  /** Where a signal of a constraint leads after the merge. */
  lemma MergeIndexedAt(items: seq<Constraint>, path: seq<nat>, path': seq<nat>, index: seq<nat>, limit: nat, todo: set<nat>,
                       s: nat, src: nat, k: nat, t: nat)
    requires |items| > 0 && |items| == |path| && s < |index| && s in todo
    requires Moved(path, path', src, |items| - 1)
    requires Indexed(items, path, index, limit, todo)
    requires index[s] < limit ==> Root(path, index[s]) == src
    requires k < |items| && t in Signals(items[k]) && (k < |items| - 1 || t !in todo - {s})
    ensures var after := index[s := |items| - 1];
            t < |after| && after[t] < limit && after[t] < |items| && Root(path', after[t]) == Root(path', k)
  {
    hide Root, UpPath, Signals;
    var last := |items| - 1;
    assert Root(path', last) == last;
    if t == s {
      if k < last {
        IndexedAt(items, path, index, limit, todo, k, t);
      }
      assert last < limit;
    } else {
      IndexedAt(items, path, index, limit, todo, k, t);
    }
  }

  /** A signal of the last constraint was taken care of: it now leads to that constraint. */
  lemma MergeIndexed(items: seq<Constraint>, path: seq<nat>, path': seq<nat>, index: seq<nat>, limit: nat, todo: set<nat>,
                     s: nat, src: nat)
    requires |items| > 0 && |items| == |path| && s < |index| && s in todo
    requires Moved(path, path', src, |items| - 1)
    requires Indexed(items, path, index, limit, todo)
    requires s in Signals(items[|items| - 1])
    requires index[s] < limit ==> Root(path, index[s]) == src
    requires index[s] >= limit ==> src == |items| - 1
    ensures Indexed(items, path', index[s := |items| - 1], limit, todo - {s})
  {
    hide Root, UpPath, Signals, Leads;
    MergeLeads(items, path, path', index, limit, todo, s, src);
  }

  lemma MergeLeads(items: seq<Constraint>, path: seq<nat>, path': seq<nat>, index: seq<nat>, limit: nat, todo: set<nat>, s: nat, src: nat)
    requires |items| > 0 && |items| == |path| && s < |index| && s in todo
    requires Moved(path, path', src, |items| - 1) && Indexed(items, path, index, limit, todo)
    requires index[s] < limit ==> Root(path, index[s]) == src
    requires Leading(items, index[s := |items| - 1], limit, todo - {s})
    ensures Leads(items, path', index[s := |items| - 1], limit, todo - {s})
  {
    hide Root, UpPath, Signals, Leading;
    var after := index[s := |items| - 1];
    assert |items| <= limit && Leading(items, after, limit, todo - {s});
    forall k: nat, t: nat | Due(items, todo - {s}, k, t)
      ensures t < |after| && after[t] < limit && after[t] < |items| && Root(path', after[t]) == Root(path', k)
    {
      MergeIndexedAt(items, path, path', index, limit, todo, s, src, k, t);
    }
  }

  lemma IndexedAt(items: seq<Constraint>, path: seq<nat>, index: seq<nat>, limit: nat, todo: set<nat>, k: nat, t: nat)
    requires UpPath(path) && |items| == |path| && Indexed(items, path, index, limit, todo)
    requires k < |items| && t in Signals(items[k]) && (k < |items| - 1 || t !in todo)
    ensures t < |index| && index[t] < limit && index[t] < |items| && t in Signals(items[index[t]])
    ensures Root(path, index[t]) == Root(path, k)
  {
    assert Due(items, todo, k, t);
  }

  // ------------------------------------------------------------------ counting the signals of a group

  /** The signals still to be treated whose constraint was already merged: each will be counted down once more. */
  ghost function Pending(path: seq<nat>, index: seq<nat>, todo: set<nat>, dest: nat): set<nat>
    requires UpPath(path)
  {
    set s | s in todo && s < |index| && index[s] < |path| && Root(path, index[s]) == dest
  }

  ghost predicate Counted(arena: Arena, path: seq<nat>, index: seq<nat>, todo: set<nat>, dest: nat)
    requires UpPath(path)
  {
    forall r :: 0 <= r < |arena| && arena[r].Some? ==>
                  arena[r].value.numSignals == |SignalsOf(arena[r].value.constraints)|
                                               + (if r == dest then |Pending(path, index, todo, dest)| else 0)
  }

  /** The signals of a cluster are the signals of the constraints in its group. */
  lemma HeldSignals(items: seq<Constraint>, arena: Arena, path: seq<nat>, members: seq<seq<nat>>, r: nat)
    requires Held(items, arena, path, members) && r < |arena| && arena[r].Some?
    ensures forall k :: 0 <= k < |items| && Root(path, k) == r ==> Signals(items[k]) <= SignalsOf(arena[r].value.constraints)
    ensures forall s :: s in SignalsOf(arena[r].value.constraints) ==>
                          exists k :: 0 <= k < |items| && Root(path, k) == r && s in Signals(items[k])
  {}

  lemma SignalsOfAppend(a: seq<Constraint>, b: seq<Constraint>)
    ensures SignalsOf(a + b) == SignalsOf(a) + SignalsOf(b)
  {}

  lemma InclusionExclusion(a: set<nat>, b: set<nat>)
    ensures |a + b| + |a * b| == |a| + |b|
  {}

  ghost predicate Untreated(path: seq<nat>, index: seq<nat>, todo: set<nat>, src: nat, s: nat)
    requires UpPath(path)
  {
    s in todo && s < |index| && index[s] < |path| && Root(path, index[s]) == src
  }

  lemma HeldShape(items: seq<Constraint>, arena: Arena, path: seq<nat>, members: seq<seq<nat>>)
    requires Held(items, arena, path, members)
    ensures UpPath(path) && |items| == |path| == |arena|
    ensures forall r: nat :: r < |arena| && arena[r].Some? ==> Root(path, r) == r
  {}

  lemma SharedIsUntreated(items: seq<Constraint>, arena: Arena, path: seq<nat>, members: seq<seq<nat>>, index: seq<nat>,
                          limit: nat, todo: set<nat>, src: nat, x: nat)
    requires |items| > 0 && Held(items, arena, path, members) && Indexed(items, path, index, limit, todo)
    requires src < |arena| - 1 && arena[src].Some? && arena[|arena| - 1].Some?
    requires x in SignalsOf(arena[src].value.constraints)
    ensures x in todo ==> Untreated(path, index, todo, src, x)
    ensures x in SignalsOf(arena[|arena| - 1].value.constraints) ==> x in todo
  {
    hide Held, Indexed, Signals, SignalsOf, Root, UpPath;
    var last := |items| - 1;
    HeldShape(items, arena, path, members);
    HeldSignals(items, arena, path, members, src);
    assert Root(path, last) == last;
    var k :| 0 <= k < |items| && Root(path, k) == src && x in Signals(items[k]);
    IndexedAt(items, path, index, limit, todo, k, x);
    if x in SignalsOf(arena[last].value.constraints) && x !in todo {
      HeldSignals(items, arena, path, members, last);
      var j :| 0 <= j < |items| && Root(path, j) == last && x in Signals(items[j]);
      IndexedAt(items, path, index, limit, todo, j, x);
    }
  }

  /** Signals shared by the last constraint's group and an older one are exactly those still to be treated. */
  lemma SharedAreUntreated(items: seq<Constraint>, arena: Arena, path: seq<nat>, members: seq<seq<nat>>, index: seq<nat>,
                           limit: nat, todo: set<nat>, src: nat)
    requires |items| > 0 && Held(items, arena, path, members) && Indexed(items, path, index, limit, todo)
    requires src < |arena| - 1 && arena[src].Some? && arena[|arena| - 1].Some?
    requires todo <= Signals(items[|items| - 1])
    ensures SignalsOf(arena[|arena| - 1].value.constraints) * SignalsOf(arena[src].value.constraints)
            == todo * SignalsOf(arena[src].value.constraints)
    ensures forall s :: s in todo * SignalsOf(arena[src].value.constraints) <==> Untreated(path, index, todo, src, s)
  {
    hide SignalsOf, Signals;
    var last := |items| - 1;
    HeldSignals(items, arena, path, members, last);
    HeldSignals(items, arena, path, members, src);
    RootIff(path, last);
    assert Root(path, last) == last;
    var b := SignalsOf(arena[src].value.constraints);
    forall x: nat
      ensures x in b && x in SignalsOf(arena[last].value.constraints) <==> x in todo && x in b
      ensures x in todo * b <==> Untreated(path, index, todo, src, x)
    {
      if x in b {
        SharedIsUntreated(items, arena, path, members, index, limit, todo, src, x);
      }
      if Untreated(path, index, todo, src, x) {
        assert index[x] < limit && x in Signals(items[index[x]]);
      }
    }
  }

  lemma MergeCountedSelf(arena: Arena, path: seq<nat>, path': seq<nat>, index: seq<nat>, todo: set<nat>, s: nat, last: nat)
    requires |arena| == |path| == last + 1 && UpPath(path) && arena[last].Some?
    requires Counted(arena, path, index, todo, last)
    requires s in todo && s < |index| && index[s] < |path| && Root(path, index[s]) == last
    requires Moved(path, path', last, last)
    ensures UnwrapOrDefault(arena[last]).numSignals + UnwrapOrDefault(arena[last := None][last]).numSignals >= 1
    ensures Counted(MergedArena(arena, last, last), path', index[s := last], todo - {s}, last)
  {
    var before := Pending(path, index, todo, last);
    var after := Pending(path', index[s := last], todo - {s}, last);
    assert s in before;
    assert after == before - {s};
    assert |before| == |after| + 1;
    assert arena[last].value.constraints + [] == arena[last].value.constraints;
  }

  lemma PendingAfter(path: seq<nat>, path': seq<nat>, index: seq<nat>, todo: set<nat>, s: nat, src: nat, last: nat, shared: set<nat>)
    requires UpPath(path) && |path| == last + 1 && src != last
    requires forall x :: x in shared <==> Untreated(path, index, todo, src, x)
    requires s in shared && s < |index|
    requires Moved(path, path', src, last)
    ensures |Pending(path', index[s := last], todo - {s}, last)| + 1 == |Pending(path, index, todo, last)| + |shared|
  {
    var before := Pending(path, index, todo, last);
    var after := Pending(path', index[s := last], todo - {s}, last);
    assert before !! shared;
    assert after == before + shared - {s};
    assert |before + shared| == |before| + |shared|;
    assert |before + shared| == |after| + 1;
  }

  lemma MergeCountedOther(items: seq<Constraint>, arena: Arena, path: seq<nat>, path': seq<nat>, members: seq<seq<nat>>,
                          index: seq<nat>, limit: nat, todo: set<nat>, s: nat, src: nat, last: nat)
    requires |items| == last + 1 && Held(items, arena, path, members) && Indexed(items, path, index, limit, todo)
    requires Counted(arena, path, index, todo, last)
    requires todo <= Signals(items[last]) && Untreated(path, index, todo, src, s)
    requires Moved(path, path', src, last) && src != last
    ensures UnwrapOrDefault(arena[last]).numSignals + UnwrapOrDefault(arena[last := None][src]).numSignals >= 1
    ensures Counted(MergedArena(arena, src, last), path', index[s := last], todo - {s}, last)
  {
    hide Signals, Root, Pending, Indexed, Grouped, SignalsOf;
    RootIff(path, last);
    RootIff(path, src);
    var a, b := SignalsOf(arena[last].value.constraints), SignalsOf(arena[src].value.constraints);
    SharedAreUntreated(items, arena, path, members, index, limit, todo, src);
    InclusionExclusion(a, b);
    SignalsOfAppend(arena[last].value.constraints, arena[src].value.constraints);
    PendingAfter(path, path', index, todo, s, src, last, todo * b);
    assert s in todo * b;
    assert |b| >= 1;
  }

  // ------------------------------------------------------------------ the grouping

  /** Merges the group of an older constraint into that of the newest one. */
  method ArenaMerge(arena: Arena, clusterToCurrent: seq<nat>, src: nat, dest: nat)
    returns (arena': Arena, clusterToCurrent': seq<nat>)
    requires UpPath(clusterToCurrent) && |arena| == |clusterToCurrent|
    requires src <= dest && dest == |clusterToCurrent| - 1
    requires UnwrapOrDefault(arena[dest]).numSignals
             + UnwrapOrDefault(arena[dest := None][Root(clusterToCurrent, src)]).numSignals >= 1
    ensures Moved(clusterToCurrent, clusterToCurrent', Root(clusterToCurrent, src), dest)
    ensures arena' == MergedArena(arena, Root(clusterToCurrent, src), dest)
  {
    var path, currentDest := ShrinkJumpsAndFind(clusterToCurrent, dest);
    var currentSrc;
    path, currentSrc := ShrinkJumpsAndFind(path, src);
    var c0 := UnwrapOrDefault(arena[currentDest]);
    arena' := arena[currentDest := None];
    var c1 := UnwrapOrDefault(arena'[currentSrc]);
    arena' := arena'[currentSrc := None];
    var merged := MergeClusters(c0, c1);
    arena' := arena'[currentDest := Some(merged)];
    clusterToCurrent' := path[currentSrc := currentDest];
    forall k | 0 <= k < |path|
      ensures UpPath(clusterToCurrent')
      ensures Root(clusterToCurrent', k) == if Root(clusterToCurrent, k) == currentSrc then dest else Root(clusterToCurrent, k)
    {
      LinkMovesClass(path, currentSrc, currentDest, k);
    }
  }

  /** The constraints that say something. */
  ghost function NonEmpty(cs: seq<Constraint>): seq<Constraint> {
    if |cs| == 0 then []
    else NonEmpty(cs[..|cs| - 1]) + (if IsEmpty(cs[|cs| - 1]) then [] else [cs[|cs| - 1]])
  }

  /** Everything known between two constraints of the list. */
  ghost predicate Grouping(items: seq<Constraint>, arena: Arena, path: seq<nat>, members: seq<seq<nat>>,
                           index: seq<nat>, limit: nat, todo: set<nat>)
  {
    && UpPath(path) && |items| == |path| == |arena| == |members|
    && Held(items, arena, path, members)
    && Joined(items, path)
    && Indexed(items, path, index, limit, todo)
    && (|items| > 0 ==> Counted(arena, path, index, todo, |items| - 1))
  }

  lemma NewHeld(items: seq<Constraint>, arena: Arena, path: seq<nat>, members: seq<seq<nat>>, c: Constraint, n: nat)
    requires Held(items, arena, path, members)
    ensures Held(items + [c], arena + [Some(Cluster([c], n))], path + [|path|], members + [[|path|]])
  {
    var last := |path|;
    var path', members' := path + [last], members + [[last]];
    forall k | 0 <= k < last
      ensures UpPath(path') && Root(path', k) == Root(path, k)
    {
      ExtendKeepsRoots(path, k);
    }
    assert UpPath(path');
    forall k | 0 <= k < |path'|
      ensures k in members'[Root(path', k)]
    {
      if k < last {
        assert k in members[Root(path, k)];
      }
    }
    forall r, i | 0 <= r < |members'| && 0 <= i < |members'[r]|
      ensures members'[r][i] < |path'| && Root(path', members'[r][i]) == r
    {
      if r < last {
        assert members'[r][i] == members[r][i];
      }
    }
  }

  lemma NewJoined(items: seq<Constraint>, path: seq<nat>, c: Constraint)
    requires UpPath(path) && |items| == |path| && Joined(items, path)
    ensures UpPath(path + [|path|])
    ensures Joined(items + [c], path + [|path|])
  {
    var path' := path + [|path|];
    assert UpPath(path');
    forall i: nat, j: nat | i < |path'| && j < |path'| && Root(path', i) == Root(path', j)
      ensures Linked(items + [c], i, j)
    {
      if i < |path| && j < |path| {
        ExtendKeepsRoots(path, i);
        ExtendKeepsRoots(path, j);
        LinkedExtend(items, c, i, j);
      } else if i < |path| {
        ExtendKeepsRoots(path, i);
      } else if j < |path| {
        ExtendKeepsRoots(path, j);
      }
    }
  }

  lemma NewIndexed(items: seq<Constraint>, path: seq<nat>, index: seq<nat>, limit: nat, c: Constraint)
    requires UpPath(path) && |items| == |path| && Indexed(items, path, index, limit, {}) && |items| < limit
    ensures UpPath(path + [|path|])
    ensures Indexed(items + [c], path + [|path|], index, limit, Signals(c))
  {
    var items', path' := items + [c], path + [|path|];
    assert UpPath(path');
    hide Root, UpPath, Signals, Leading;
    forall k: nat, s: nat | Due(items', Signals(c), k, s)
      ensures s < |index| && index[s] < limit && Root(path', index[s]) == Root(path', k)
    {
      assert items'[k] == items[k];
      IndexedAt(items, path, index, limit, {}, k, s);
      ExtendKeepsRoots(path, k);
      ExtendKeepsRoots(path, index[s]);
    }
  }

  /** No signal leads to a constraint that was just added. */
  lemma NothingPending(path: seq<nat>, index: seq<nat>, todo: set<nat>)
    requires UpPath(path) && UpPath(path + [|path|])
    requires forall s: nat :: s < |index| && index[s] <= |path| ==> index[s] < |path|
    ensures Pending(path + [|path|], index, todo, |path|) == {}
  {
    hide Root, UpPath;
    var path' := path + [|path|];
    forall s: nat | s in todo && s < |index| && index[s] < |path'|
      ensures Root(path', index[s]) != |path|
    {
      ExtendKeepsRoots(path, index[s]);
      RootBelow(path, index[s]);
    }
  }

  lemma RootBelow(path: seq<nat>, k: nat)
    requires UpPath(path) && k < |path|
    ensures Root(path, k) < |path|
  {}

  lemma IndexBelow(items: seq<Constraint>, path: seq<nat>, index: seq<nat>, limit: nat)
    requires UpPath(path) && |items| == |path| && Indexed(items, path, index, limit, {}) && |items| < limit
    ensures forall s: nat :: s < |index| && index[s] <= |path| ==> index[s] < |path|
  {}

  lemma NewCounted(items: seq<Constraint>, arena: Arena, path: seq<nat>, index: seq<nat>, limit: nat, c: Constraint)
    requires UpPath(path) && |items| == |path| == |arena| && Indexed(items, path, index, limit, {}) && |items| < limit
    requires |items| > 0 ==> Counted(arena, path, index, {}, |items| - 1)
    ensures UpPath(path + [|path|])
    ensures Counted(arena + [Some(Cluster([c], |Signals(c)|))], path + [|path|], index, Signals(c), |items|)
  {
    hide Indexed, Root, Signals, SignalsOf;
    assert UpPath(path + [|path|]);
    hide UpPath, Pending;
    IndexBelow(items, path, index, limit);
    NothingPending(path, index, Signals(c));
    OneSignals(c);
    if |items| > 0 {
      NoneLeft(path, index, |items| - 1);
    }
  }

  lemma NoneLeft(path: seq<nat>, index: seq<nat>, dest: nat)
    requires UpPath(path)
    ensures Pending(path, index, {}, dest) == {}
  {}

  lemma OneSignals(c: Constraint)
    ensures SignalsOf([c]) == Signals(c)
  {}

  lemma NewGrouping(items: seq<Constraint>, arena: Arena, path: seq<nat>, members: seq<seq<nat>>,
                    index: seq<nat>, limit: nat, c: Constraint)
    requires Grouping(items, arena, path, members, index, limit, {}) && |items| < limit
    ensures Grouping(items + [c], arena + [Some(Cluster([c], |Signals(c)|))], path + [|path|], members + [[|path|]],
                     index, limit, Signals(c))
  {
    hide Linked, Signals, SignalsOf, Root;
    NewHeld(items, arena, path, members, c, |Signals(c)|);
    NewJoined(items, path, c);
    NewIndexed(items, path, index, limit, c);
    NewCounted(items, arena, path, index, limit, c);
  }

  /** The first constraint with this signal: nothing to merge. */
  lemma SkipGrouping(items: seq<Constraint>, arena: Arena, path: seq<nat>, members: seq<seq<nat>>,
                     index: seq<nat>, limit: nat, todo: set<nat>, s: nat)
    requires |items| > 0 && Grouping(items, arena, path, members, index, limit, todo)
    requires todo <= Signals(items[|items| - 1]) && s in todo && s < |index| && index[s] >= limit
    ensures Grouping(items, arena, path, members, index[s := |items| - 1], limit, todo - {s})
  {
    var last := |items| - 1;
    MergeIndexed(items, path, path, index, limit, todo, s, last);
    assert Pending(path, index[s := last], todo - {s}, last) == Pending(path, index, todo, last);
  }

  lemma MergeGrouping(items: seq<Constraint>, arena: Arena, path: seq<nat>, path': seq<nat>, members: seq<seq<nat>>,
                      index: seq<nat>, limit: nat, todo: set<nat>, s: nat, src: nat)
    requires |items| > 0 && Grouping(items, arena, path, members, index, limit, todo)
    requires todo <= Signals(items[|items| - 1]) && s in todo && s < |index| && index[s] < limit
    requires index[s] < |path| && Root(path, index[s]) == src
    requires Moved(path, path', src, |items| - 1)
    ensures UnwrapOrDefault(arena[|items| - 1]).numSignals + UnwrapOrDefault(arena[|items| - 1 := None][src]).numSignals >= 1
    ensures Grouping(items, MergedArena(arena, src, |items| - 1), path', MergeMembers(members, src, |items| - 1),
                     index[s := |items| - 1], limit, todo - {s})
  {
    hide Linked, Signals, SignalsOf, MergedArena, MergeMembers;
    var last := |items| - 1;
    MergeIndexed(items, path, path', index, limit, todo, s, src);
    if src == last {
      MergeCountedSelf(arena, path, path', index, todo, s, last);
    } else {
      MergeCountedOther(items, arena, path, path', members, index, limit, todo, s, src, last);
    }
    MergeHeld(items, arena, path, path', members, src, last);
    assert Share(items, index[s], last);
    MergeJoined(items, path, path', src, last, index[s], last);
  }

  lemma MergeIsPossible(items: seq<Constraint>, arena: Arena, path: seq<nat>, members: seq<seq<nat>>,
                        index: seq<nat>, limit: nat, todo: set<nat>, s: nat)
    requires |items| > 0 && Grouping(items, arena, path, members, index, limit, todo)
    requires todo <= Signals(items[|items| - 1]) && s in todo && s < |index| && index[s] < limit
    ensures index[s] < |items|
    ensures UnwrapOrDefault(arena[|items| - 1]).numSignals
            + UnwrapOrDefault(arena[|items| - 1 := None][Root(path, index[s])]).numSignals >= 1
  {
    var src, last := Root(path, index[s]), |items| - 1;
    LinkMovesClass(path, src, last, src);
    forall k | 0 <= k < |path|
      ensures Root(path[src := last], k) == if Root(path, k) == src then last else Root(path, k)
    {
      LinkMovesClass(path, src, last, k);
    }
    MergeGrouping(items, arena, path, path[src := last], members, index, limit, todo, s, src);
  }

  // ------------------------------------------------------------------ the result

  ghost predicate InSome(groups: seq<seq<nat>>, k: nat) {
    exists c :: 0 <= c < |groups| && k in groups[c]
  }

  /** The clusters are the connected components of the constraints, with the exact number of their signals. */
  ghost predicate Clustering(items: seq<Constraint>, clusters: seq<Cluster>, groups: seq<seq<nat>>) {
    && |groups| == |clusters|
    && (forall k :: 0 <= k < |items| ==> InSome(groups, k))
    && (forall c :: 0 <= c < |groups| ==> NoDuplicates(groups[c]) && groups[c] != [])
    && (forall c, i :: 0 <= c < |groups| && 0 <= i < |groups[c]| ==> groups[c][i] < |items|)
    && (forall c :: 0 <= c < |groups| ==> clusters[c].constraints == Pick(items, groups[c]))
    && (forall c :: 0 <= c < |groups| ==> clusters[c].numSignals == |SignalsOf(clusters[c].constraints)|)
    && (forall c, d, i, j :: 0 <= c < |groups| && 0 <= d < |groups| && 0 <= i < |groups[c]| && 0 <= j < |groups[d]| ==>
                               (Linked(items, groups[c][i], groups[d][j]) <==> c == d))
  }

  /** Linked constraints are in one group. */
  lemma LinkedSameRoot(items: seq<Constraint>, path: seq<nat>, index: seq<nat>, limit: nat, i: nat, j: nat)
    requires UpPath(path) && |items| == |path| && Indexed(items, path, index, limit, {})
    requires i < |items| && j < |items| && Linked(items, i, j)
    ensures Root(path, i) == Root(path, j)
  {
    var group := set k: nat | k < |items| && Root(path, k) == Root(path, i);
    assert Closed(items, group) by {
      forall a: nat, b: nat | a in group && Share(items, a, b)
        ensures b in group
      {
        var s :| s in Signals(items[a]) && s in Signals(items[b]);
        IndexedAt(items, path, index, limit, {}, a, s);
        IndexedAt(items, path, index, limit, {}, b, s);
      }
    }
  }

  /** The clusters found among the first n places of the arena; `roots` are the places they were found at. */
  ghost predicate Collected(arena: Arena, members: seq<seq<nat>>, n: nat, clusters: seq<Cluster>, groups: seq<seq<nat>>, roots: seq<nat>)
    requires n <= |arena| == |members|
  {
    && |clusters| == |groups| == |roots|
    && (forall c :: 0 <= c < |roots| ==> roots[c] < n && arena[roots[c]].Some?
                                         && clusters[c] == arena[roots[c]].value && groups[c] == members[roots[c]])
    && (forall c, d :: 0 <= c < d < |roots| ==> roots[c] < roots[d])
    && (forall r :: 0 <= r < n && arena[r].Some? ==> r in roots)
  }

  lemma CollectedLinks(items: seq<Constraint>, path: seq<nat>, members: seq<seq<nat>>, index: seq<nat>, limit: nat,
                       ra: nat, rb: nat, i: nat, j: nat)
    requires |items| == |path| && Grouped(path, members) && Joined(items, path) && Indexed(items, path, index, limit, {})
    requires ra < |members| && rb < |members| && i < |members[ra]| && j < |members[rb]|
    ensures members[ra][i] < |items| && members[rb][j] < |items|
    ensures Linked(items, members[ra][i], members[rb][j]) <==> ra == rb
  {
    assert Root(path, members[ra][i]) == ra;
    assert Root(path, members[rb][j]) == rb;
    if Linked(items, members[ra][i], members[rb][j]) {
      LinkedSameRoot(items, path, index, limit, members[ra][i], members[rb][j]);
    }
  }

  lemma CollectedCovers(items: seq<Constraint>, arena: Arena, path: seq<nat>, members: seq<seq<nat>>,
                        clusters: seq<Cluster>, groups: seq<seq<nat>>, roots: seq<nat>)
    requires Held(items, arena, path, members) && Collected(arena, members, |arena|, clusters, groups, roots)
    ensures forall k :: 0 <= k < |items| ==> InSome(groups, k)
    ensures forall c :: 0 <= c < |groups| ==> NoDuplicates(groups[c]) && groups[c] != []
  {
    forall k: nat | k < |items|
      ensures InSome(groups, k)
    {
      RootIff(path, Root(path, k));
      var c :| 0 <= c < |roots| && roots[c] == Root(path, k);
      assert k in groups[c];
    }
    forall c | 0 <= c < |groups|
      ensures groups[c] != []
    {
      RootIff(path, roots[c]);
      assert roots[c] in members[roots[c]];
    }
  }

  lemma CollectedCounts(arena: Arena, path: seq<nat>, index: seq<nat>)
    requires |arena| == |path| && UpPath(path)
    requires |path| > 0 ==> Counted(arena, path, index, {}, |path| - 1)
    ensures forall r :: 0 <= r < |arena| && arena[r].Some? ==>
                          arena[r].value.numSignals == |SignalsOf(arena[r].value.constraints)|
  {}

  lemma CollectedClustering(items: seq<Constraint>, arena: Arena, path: seq<nat>, members: seq<seq<nat>>, index: seq<nat>,
                            limit: nat, clusters: seq<Cluster>, groups: seq<seq<nat>>, roots: seq<nat>)
    requires Grouping(items, arena, path, members, index, limit, {})
    requires Collected(arena, members, |arena|, clusters, groups, roots)
    ensures Clustering(items, clusters, groups)
  {
    hide Linked, Signals, SignalsOf, Pick, Indexed, Counted, Joined, Root;
    CollectedCovers(items, arena, path, members, clusters, groups, roots);
    CollectedCounts(arena, path, index);
    forall c, d, i, j | 0 <= c < |groups| && 0 <= d < |groups| && 0 <= i < |groups[c]| && 0 <= j < |groups[d]|
      ensures Linked(items, groups[c][i], groups[d][j]) <==> c == d
      ensures groups[c][i] < |items|
    {
      CollectedLinks(items, path, members, index, limit, roots[c], roots[d], i, j);
    }
  }

  /** Merges the newest constraint's cluster with those its signals lead to. */
  method LinkSignals(arena: Arena, clusterToCurrent: seq<nat>, signalToCluster: seq<nat>, signals: set<nat>, noLinear: nat,
                     ghost items: seq<Constraint>, ghost members: seq<seq<nat>>)
    returns (arena': Arena, path: seq<nat>, index: seq<nat>, ghost members': seq<seq<nat>>)
    requires |items| > 0 && signals == Signals(items[|items| - 1])
    requires Grouping(items, arena, clusterToCurrent, members, signalToCluster, noLinear, signals)
    requires forall s :: s in signals ==> s < |signalToCluster|
    ensures Grouping(items, arena', path, members', index, noLinear, {}) && |index| == |signalToCluster|
    ensures |arena'| == |arena| && |path| == |clusterToCurrent|
  {
    hide Linked, Signals, SignalsOf, Held, Joined, Counted, MergedArena, MergeMembers;
    arena', path, index, members' := arena, clusterToCurrent, signalToCluster, members;
    ghost var dest' := |items| - 1;
    var todo := signals;
    while todo != {}
      invariant todo <= signals && |index| == |signalToCluster|
      invariant |arena'| == |arena| == |path| == |clusterToCurrent| == |items|
      invariant Grouping(items, arena', path, members', index, noLinear, todo)
      decreases todo
    {
      var signal :| signal in todo;
      var dest := |path| - 1;
      var prev := index[signal];
      if prev < noLinear {
        MergeIsPossible(items, arena', path, members', index, noLinear, todo, signal);
        ghost var before, arenaBefore := path, arena';
        arena', path := ArenaMerge(arena', path, prev, dest);
        MergeGrouping(items, arenaBefore, before, path, members', index, noLinear, todo, signal, Root(before, prev));
        members' := MergeMembers(members', Root(before, prev), dest);
      } else {
        SkipGrouping(items, arena', path, members', index, noLinear, todo, signal);
      }
      index := index[signal := dest];
      todo := todo - {signal};
    }
  }

  method BuildClusters(linear: seq<Constraint>, noVars: nat)
    returns (clusters: seq<Cluster>, ghost groups: seq<seq<nat>>)
    requires forall c, s :: c in linear && s in Signals(c) ==> s < noVars
    ensures Clustering(NonEmpty(linear), clusters, groups)
  {
    hide Linked, Signals, SignalsOf, Held, Joined, Counted, Indexed;
    var noLinear := |linear|;
    var arena: Arena, clusterToCurrent: seq<nat> := [], [];
    var signalToCluster: seq<nat> := seq(noVars, _ => noLinear);
    ghost var items, members := [], [];
    EmptyGrouping(signalToCluster, noLinear);
    for n := 0 to |linear|
      invariant items == NonEmpty(linear[..n]) && |items| <= n
      invariant |signalToCluster| == noVars && |arena| == |clusterToCurrent| == |items|
      invariant Grouping(items, arena, clusterToCurrent, members, signalToCluster, noLinear, {})
    {
      var constraint := linear[n];
      PrefixStep(linear, n);
      assert constraint in linear;
      if !IsEmpty(constraint) {
        var signals := Signals(constraint);
        NewGrouping(items, arena, clusterToCurrent, members, signalToCluster, noLinear, constraint);
        var dest := |arena|;
        arena := arena + [Some(Cluster([constraint], |signals|))];
        clusterToCurrent := clusterToCurrent + [dest];
        items, members := items + [constraint], members + [[dest]];
        arena, clusterToCurrent, signalToCluster, members :=
          LinkSignals(arena, clusterToCurrent, signalToCluster, signals, noLinear, items, members);
      }
    }
    PrefixAll(linear);
    clusters, groups := CollectClusters(arena, items, clusterToCurrent, members, signalToCluster, noLinear);
  }

  lemma EmptyGrouping(index: seq<nat>, limit: nat)
    requires forall s :: 0 <= s < |index| ==> index[s] == limit
    ensures Grouping([], [], [], [], index, limit, {})
  {}

  /** The clusters of the arena, in the order of the arena. */
  method CollectClusters(arena: Arena, ghost items: seq<Constraint>, ghost path: seq<nat>, ghost members: seq<seq<nat>>,
                         ghost index: seq<nat>, ghost limit: nat)
    returns (clusters: seq<Cluster>, ghost groups: seq<seq<nat>>)
    requires Grouping(items, arena, path, members, index, limit, {})
    ensures Clustering(items, clusters, groups)
  {
    clusters, groups := [], [];
    ghost var roots: seq<nat> := [];
    for r := 0 to |arena|
      invariant Collected(arena, members, r, clusters, groups, roots)
    {
      match arena[r] {
        case None =>
        case Some(cluster) =>
          RootIff(path, r);
          assert r in members[r];
          if |cluster.constraints| != 0 {
            clusters := clusters + [cluster];
            groups, roots := groups + [members[r]], roots + [r];
          }
      }
    }
    CollectedClustering(items, arena, path, members, index, limit, clusters, groups, roots);
  }
}
