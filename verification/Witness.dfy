/**
 The dense witness (circom/constraint_list/src/constraint_simplification.rs, rebuild_witness, and
 circom/constraint_list/src/lib.rs, get_witness_as_vec): the kept signals are numbered in order.
 */
module Witness {
  import opened LinearForms

  /** The number of kept signals below s. */
  ghost function Rank(kept: set<nat>, s: nat): nat {
    if s == 0 then 0 else Rank(kept, s - 1) + (if s - 1 in kept then 1 else 0)
  }

  lemma {:induction false} RankMonotonic(kept: set<nat>, s: nat, t: nat)
    requires s <= t
    ensures Rank(kept, s) <= Rank(kept, t)
    ensures s < t && s in kept ==> Rank(kept, s) < Rank(kept, t)
  {
    if s < t {
      RankMonotonic(kept, s, t - 1);
    }
  }

  /** Every number below the count is the rank of a kept signal. */
  lemma {:induction false} RankHit(kept: set<nat>, n: nat, i: nat) returns (s: nat)
    requires i < Rank(kept, n)
    ensures s < n && s in kept && Rank(kept, s) == i
  {
    if i < Rank(kept, n - 1) {
      s := RankHit(kept, n - 1, i);
    } else {
      s := n - 1;
    }
  }

  lemma {:induction false} RankCounts(kept: set<nat>, n: nat)
    requires forall s :: s in kept ==> s < n
    ensures Rank(kept, n) == |kept|
  {
    if n == 0 {
      assert kept == {};
    } else if n - 1 in kept {
      var rest := kept - {n - 1};
      RankCounts(rest, n - 1);
      RankSame(kept, rest, n - 1);
    } else {
      RankCounts(kept, n - 1);
    }
  }

  lemma {:induction false} RankSame(a: set<nat>, b: set<nat>, n: nat)
    requires forall s: nat :: s < n ==> (s in a <==> s in b)
    ensures Rank(a, n) == Rank(b, n)
  {
    if n > 0 {
      RankSame(a, b, n - 1);
    }
  }

  /** The signals that stay: not deleted, and forbidden or still used by some constraint. */
  ghost function KeptSignals(maxSignal: nat, deleted: set<nat>, forbidden: set<nat>, used: set<nat>): set<nat> {
    set s: nat | s < maxSignal && s !in deleted && (s in forbidden || s in used) :: s
  }

  /** Every kept signal, and no other, is mapped to its rank. */
  ghost predicate IsRanking(names: map<nat, nat>, kept: set<nat>) {
    names.Keys == kept && forall s :: s in kept ==> names[s] == Rank(kept, s)
  }

  /** The numbers from low to high. */
  ghost predicate Interval(free: seq<nat>, low: nat, high: nat) {
    low <= high && |free| == high - low && forall i :: 0 <= i < |free| ==> free[i] == low + i
  }

  /** The signals below `signal` have their names. */
  ghost predicate NamedBelow(names: map<nat, nat>, kept: set<nat>, signal: nat) {
    && (forall s: nat :: s in names <==> s in kept && s < signal)
    && (forall s :: s in names ==> names[s] == Rank(kept, s))
  }

  lemma NamedStep(names: map<nat, nat>, kept: set<nat>, signal: nat)
    requires NamedBelow(names, kept, signal)
    ensures signal !in kept ==> NamedBelow(names, kept, signal + 1)
    ensures signal in kept ==> NamedBelow(names[signal := Rank(kept, signal)], kept, signal + 1)
  {}

  lemma QueuePush(free: seq<nat>, low: nat, high: nat)
    requires Interval(free, low, high)
    ensures Interval(free + [high], low, high + 1)
  {}

  lemma QueueShift(free: seq<nat>, low: nat, high: nat)
    requires Interval(free, low, high) && free != []
    ensures free[0] == low && Interval(free[1..] + [high], low + 1, high + 1)
  {}

  method RebuildWitness(maxSignal: nat, deleted: set<nat>, forbidden: set<nat>, used: set<nat>)
    returns (names: map<nat, nat>, deleted': set<nat>)
    ensures IsRanking(names, KeptSignals(maxSignal, deleted, forbidden, used))
    ensures forall s: nat :: s in deleted' <==> s in deleted || (s < maxSignal && s !in forbidden && s !in used)
  {
    hide Interval, NamedBelow, KeptSignals;
    ghost var kept := KeptSignals(maxSignal, deleted, forbidden, used);
    KeptMeans(maxSignal, deleted, forbidden, used);
    names, deleted' := map[], deleted;
    var free: seq<nat> := [];
    assert Interval(free, 0, 0) && NamedBelow(names, kept, 0) by {
      Nothing(kept);
    }
    for signal := 0 to maxSignal
      invariant Interval(free, Rank(kept, signal), signal)
      invariant NamedBelow(names, kept, signal)
      invariant forall s: nat :: s in deleted' <==> s in deleted || (s < signal && s !in forbidden && s !in used)
    {
      NamedStep(names, kept, signal);
      if signal in deleted' {
        QueuePush(free, Rank(kept, signal), signal);
        free := free + [signal];
      } else if signal !in forbidden && signal !in used {
        QueuePush(free, Rank(kept, signal), signal);
        deleted' := deleted' + {signal};
        free := free + [signal];
      } else if free != [] {
        QueueShift(free, Rank(kept, signal), signal);
        names := names[signal := free[0]];
        free := free[1..] + [signal];
      } else {
        EmptyQueue(Rank(kept, signal), signal);
        names := names[signal := signal];
      }
    }
    NamedAll(names, kept, maxSignal);
  }

  lemma KeptMeans(maxSignal: nat, deleted: set<nat>, forbidden: set<nat>, used: set<nat>)
    ensures forall s: nat :: s in KeptSignals(maxSignal, deleted, forbidden, used) <==>
              s < maxSignal && s !in deleted && (s in forbidden || s in used)
  {}

  lemma Nothing(kept: set<nat>)
    ensures Interval([], 0, 0) && NamedBelow(map[], kept, 0)
  {}

  lemma EmptyQueue(low: nat, high: nat)
    requires Interval([], low, high)
    ensures low == high && Interval([], low + 1, high + 1)
  {}

  lemma NamedAll(names: map<nat, nat>, kept: set<nat>, maxSignal: nat)
    requires NamedBelow(names, kept, maxSignal) && forall s :: s in kept ==> s < maxSignal
    ensures IsRanking(names, kept)
  {}

  /** The kept signals in the order of their new numbers. */
  method GetWitnessAsVec(names: map<nat, nat>, ghost kept: set<nat>, ghost bound: nat) returns (order: array<nat>)
    requires IsRanking(names, kept) && forall s :: s in kept ==> s < bound
    ensures fresh(order) && order.Length == |names|
    ensures forall i :: 0 <= i < order.Length ==> order[i] in names && names[order[i]] == i
    ensures forall s :: s in names ==> names[s] < order.Length && order[names[s]] == s
    ensures forall i, j :: 0 <= i < j < order.Length ==> order[i] < order[j]
  {
    order := new nat[|names|](_ => 0);
    RanksInRange(names, kept, bound);
    var keys := names.Keys;
    while keys != {}
      invariant keys <= names.Keys
      invariant forall s :: s in names && s !in keys ==> order[names[s]] == s
      decreases keys
    {
      var key :| key in keys;
      keys := keys - {key};
      RanksDiffer(names, kept);
      order[names[key]] := key;
    }
    forall i | 0 <= i < order.Length
      ensures order[i] in names && names[order[i]] == i
    {
      var s := RankHit(kept, bound, i);
      assert order[names[s]] == s;
    }
    forall i, j | 0 <= i < j < order.Length
      ensures order[i] < order[j]
    {
      if order[j] <= order[i] {
        RankMonotonic(kept, order[j], order[i]);
      }
    }
  }

  lemma RanksInRange(names: map<nat, nat>, kept: set<nat>, bound: nat)
    requires IsRanking(names, kept) && forall s :: s in kept ==> s < bound
    ensures forall s :: s in names ==> names[s] < |names|
    ensures Rank(kept, bound) == |names|
  {
    RankCounts(kept, bound);
    assert |names.Keys| == |names|;
    forall s | s in names
      ensures names[s] < |names|
    {
      RankMonotonic(kept, s, bound);
    }
  }

  lemma RanksDiffer(names: map<nat, nat>, kept: set<nat>)
    requires IsRanking(names, kept)
    ensures forall s, t :: s in names && t in names && s != t ==> names[s] != names[t]
  {
    forall s, t | s in names && t in names && s < t
      ensures names[s] < names[t]
    {
      RankMonotonic(kept, s, t);
    }
  }

  /** The constant wire stays at zero, and nothing else goes there. */
  lemma RankingKeepsConstant(names: map<nat, nat>, kept: set<nat>)
    requires IsRanking(names, kept) && CONSTANT in kept
    ensures names[CONSTANT] == CONSTANT
    ensures forall s :: s in names && s != CONSTANT ==> names[s] != CONSTANT
  {
    RanksDiffer(names, kept);
  }
}
