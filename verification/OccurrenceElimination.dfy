/**
 Elimination by fewest occurrences (circom_algebra/src/simplification_utils.rs, the variants
 numbered 4): signals of a single constraint are eliminated first; then every constraint is
 solved for its rarest eliminable signal, after its eliminated signals were cancelled.
 */
module OccurrenceElimination {
  import opened Wrappers
  import opened Field
  import opened LinearForms
  import opened Algebra
  import opened Rows
  import opened Orders
  import opened MaxElimination

  class SignalDefinition4 {
    var deletedSymbols: set<nat>
    const forbidden: set<nat>
    var orderSignals: seq<nat>  // the last eliminated is the first in the list

    constructor (forbidden: set<nat>)
      ensures deletedSymbols == {} && this.forbidden == forbidden && orderSignals == []
    {
      deletedSymbols := {};
      this.forbidden := forbidden;
      orderSignals := [];
    }

    predicate CanBeTaken(k: nat) { k !in forbidden }

    predicate IsDeleted(k: nat)
      reads this
    {
      k in deletedSymbols
    }

    method Delete(k: nat)
      modifies this
      ensures deletedSymbols == old(deletedSymbols) + {k}
      ensures orderSignals == [k] + old(orderSignals)
    {
      deletedSymbols := deletedSymbols + {k};
      orderSignals := [k] + orderSignals;
    }
  }

  // ------------------------------------------------------------------ occurrences

  /** The number of constraints holding a signal. */
  ghost function Occurrences(cs: seq<Constraint>, s: nat): nat {
    if |cs| == 0 then 0
    else Occurrences(cs[..|cs| - 1], s) + (if s in cs[|cs| - 1].c then 1 else 0)
  }

  lemma {:induction false} OccurrencesUpdate(cs: seq<Constraint>, i: nat, c: Constraint, s: nat)
    requires i < |cs|
    ensures Occurrences(cs[i := c], s)
            == Occurrences(cs, s) - (if s in cs[i].c then 1 else 0) + (if s in c.c then 1 else 0)
  {
    var last := |cs| - 1;
    if i < last {
      OccurrencesUpdate(cs[..last], i, c, s);
      assert cs[i := c][..last] == cs[..last][i := c];
    } else {
      assert cs[i := c][..last] == cs[..last];
    }
  }

  lemma {:induction false} OccurrencesPositive(cs: seq<Constraint>, i: nat, s: nat)
    requires i < |cs| && s in cs[i].c
    ensures Occurrences(cs, s) >= 1
  {
    if i < |cs| - 1 {
      OccurrencesPositive(cs[..|cs| - 1], i, s);
    }
  }

  lemma {:induction false} OccurrencesUnique(cs: seq<Constraint>, i: nat, j: nat, s: nat)
    requires i < |cs| && j < |cs| && s in cs[i].c && s in cs[j].c
    requires Occurrences(cs, s) == 1
    ensures i == j
  {
    var last := |cs| - 1;
    if i < last {
      OccurrencesPositive(cs[..last], i, s);
    }
    if j < last {
      OccurrencesPositive(cs[..last], j, s);
    }
    if i < last && j < last {
      OccurrencesUnique(cs[..last], i, j, s);
    }
  }

  lemma {:induction false} OccurrencesSome(cs: seq<Constraint>, s: nat)
    ensures Occurrences(cs, s) >= 1 <==> exists i :: 0 <= i < |cs| && s in cs[i].c
  {
    if |cs| > 0 {
      var last := |cs| - 1;
      OccurrencesSome(cs[..last], s);
      if Occurrences(cs, s) >= 1 && s !in cs[last].c {
        var i :| 0 <= i < last && s in cs[..last][i].c;
        assert s in cs[i].c;
      }
      if i :| 0 <= i < |cs| && s in cs[i].c {
        OccurrencesPositive(cs, i, s);
      }
    }
  }

  /** The eliminable signals of the constraints. */
  ghost predicate Eliminable(cs: seq<Constraint>, forbidden: set<nat>, s: nat) {
    s !in forbidden && Occurrences(cs, s) >= 1
  }

  /**
   The tracked counts are exact: one for every signal of the original constraints that may still be
   eliminated, and equal to the number of constraints not yet taken that hold it.
   */
  ghost predicate Tracks(counts: map<nat, nat>, original: seq<Constraint>, waiting: seq<Constraint>,
                         forbidden: set<nat>, deleted: set<nat>)
  {
    && (forall s :: s in counts <==> Eliminable(original, forbidden, s) && s !in deleted)
    && (forall s :: s in counts ==> counts[s] == Occurrences(waiting, s))
  }

  class SignalsInformation {
    var signalToOccurrences: map<nat, nat>

    constructor (counts: map<nat, nat>)
      ensures signalToOccurrences == counts
    {
      signalToOccurrences := counts;
    }

    /** A constraint leaves the waiting list: every tracked signal in it occurs once less. */
    method RemoveConstraint(constraint: Constraint, signals: SignalDefinition4)
      requires forall s :: s in constraint.c && s in signalToOccurrences ==> signalToOccurrences[s] >= 1
      modifies this
      ensures signalToOccurrences.Keys == old(signalToOccurrences).Keys
      ensures forall s :: s in signalToOccurrences ==>
                            signalToOccurrences[s] == old(signalToOccurrences)[s]
                                                      - (if s in constraint.c && s !in signals.forbidden then 1 else 0)
    {
      var todo := constraint.c.Keys;
      while todo != {}
        invariant todo <= constraint.c.Keys
        invariant signalToOccurrences.Keys == old(signalToOccurrences).Keys
        invariant forall s :: s in signalToOccurrences ==>
                                signalToOccurrences[s]
                                == old(signalToOccurrences)[s]
                                   - (if s in constraint.c && s !in todo && s !in signals.forbidden then 1 else 0)
        decreases todo
      {
        var signal :| signal in todo;
        if signals.CanBeTaken(signal) && signal in signalToOccurrences {
          signalToOccurrences := signalToOccurrences[signal := signalToOccurrences[signal] - 1];
        }
        todo := todo - {signal};
      }
    }

    method RemoveSignal(signal: nat)
      modifies this
      ensures signalToOccurrences == old(signalToOccurrences) - {signal}
    {
      signalToOccurrences := signalToOccurrences - {signal};
    }
  }

  /** One more occurrence of every eliminable signal of a constraint. */
  method CountConstraint(counts: map<nat, nat>, rep: map<nat, nat>, constraint: Constraint, pos: nat, signals: SignalDefinition4)
    returns (counts': map<nat, nat>, rep': map<nat, nat>)
    requires rep.Keys == counts.Keys
    ensures counts'.Keys == counts.Keys + (constraint.c.Keys - signals.forbidden)
    ensures forall s :: s in counts' ==>
                          counts'[s] == (if s in counts then counts[s] else 0)
                                        + (if s in constraint.c && s !in signals.forbidden then 1 else 0)
    ensures rep'.Keys == counts'.Keys
    ensures forall s :: s in rep' ==> rep'[s] == if s in rep then rep[s] else pos
  {
    counts', rep' := counts, rep;
    var todo := constraint.c.Keys;
    while todo != {}
      invariant todo <= constraint.c.Keys
      invariant counts'.Keys == counts.Keys + (constraint.c.Keys - todo - signals.forbidden)
      invariant forall s :: s in counts' ==>
                              counts'[s] == (if s in counts then counts[s] else 0)
                                            + (if s in constraint.c && s !in todo && s !in signals.forbidden then 1 else 0)
      invariant rep'.Keys == counts'.Keys
      invariant forall s :: s in rep' ==> rep'[s] == if s in rep then rep[s] else pos
      decreases todo
    {
      var k :| k in todo;
      if signals.CanBeTaken(k) {
        if k in counts' {
          counts' := counts'[k := counts'[k] + 1];
        } else {
          counts' := counts'[k := 1];
          rep' := rep'[k := pos];
        }
      }
      todo := todo - {k};
    }
  }

  /** Counts the occurrences, and finds the constraint of every signal that occurs once. */
  method NewSignalsInformation(constraints: seq<Constraint>, signals: SignalDefinition4)
    returns (info: SignalsInformation, uniques: map<nat, nat>)
    ensures fresh(info)
    ensures Tracks(info.signalToOccurrences, constraints, constraints, signals.forbidden, {})
    ensures IsUniques(uniques, constraints, signals.forbidden)
    ensures forall s :: s !in signals.forbidden && Occurrences(constraints, s) == 1 ==> s in uniques
  {
    var counts: map<nat, nat> := map[];
    var rep: map<nat, nat> := map[];
    for pos := 0 to |constraints|
      invariant Tracks(counts, constraints[..pos], constraints[..pos], signals.forbidden, {})
      invariant rep.Keys == counts.Keys
      invariant forall s :: s in rep ==> rep[s] < pos && s in constraints[rep[s]].c
    {
      OccurrencesNext(constraints, pos);
      counts, rep := CountConstraint(counts, rep, constraints[pos], pos, signals);
    }
    PrefixAll(constraints);
    uniques := map s | s in counts && counts[s] == 1 :: rep[s];
    info := new SignalsInformation(counts);
  }

  lemma OccurrencesNext(cs: seq<Constraint>, i: nat)
    requires i < |cs|
    ensures forall s :: Occurrences(cs[..i + 1], s) == Occurrences(cs[..i], s) + (if s in cs[i].c then 1 else 0)
  {
    assert cs[..i + 1][..i] == cs[..i];
  }

  // ------------------------------------------------------------------ the elimination order

  /** No row mentions a signal eliminated before its own, or its own. The order lists the last eliminated first. */
  ghost predicate LaterOnly(h: Holder, order: seq<nat>) {
    && (forall s :: s in order <==> s in h)
    && (forall i, j :: 0 <= i < j < |order| ==> order[i] != order[j])
    && (forall i, j :: 0 <= i <= j < |order| ==> order[j] !in h[order[i]].sub.to)
  }

  ghost predicate PivotHolder(h: Holder, forbidden: set<nat>, u: set<nat>, p: int) {
    forall s :: s in h ==> s !in forbidden && PivotRow(h[s], s, u, p)
  }

  lemma LaterOnlyExtend(h: Holder, order: seq<nat>, s: nat, row: Row)
    requires LaterOnly(h, order) && s !in h
    requires s !in row.sub.to && forall k :: k in row.sub.to ==> k !in h
    ensures LaterOnly(h[s := row], [s] + order)
  {}

  /** How much elimination is still to be done in a constraint: a binary number, the earliest eliminated signal first. */
  ghost function Weight(order: seq<nat>, ks: set<nat>): nat {
    if |order| == 0 then 0
    else
      var n := |order| - 1;
      Weight(order[..n], ks) + (if order[n] in ks then Pow2(n) else 0)
  }

  ghost function Pow2(n: nat): nat {
    if n == 0 then 1 else 2 * Pow2(n - 1)
  }

  lemma {:induction false} WeightBound(order: seq<nat>, ks: set<nat>)
    ensures Weight(order, ks) < Pow2(|order|)
  {
    if |order| > 0 {
      WeightBound(order[..|order| - 1], ks);
    }
  }

  /** Cancelling an eliminated signal may bring in later eliminated ones only, so the weight falls. */
  lemma {:induction false} WeightFalls(order: seq<nat>, ks: set<nat>, ks': set<nat>, i: nat)
    requires i < |order| && order[i] in ks && order[i] !in ks'
    requires forall j :: i < j < |order| && order[j] in ks' ==> order[j] in ks
    ensures Weight(order, ks') < Weight(order, ks)
  {
    var n := |order| - 1;
    if i < n {
      WeightFalls(order[..n], ks, ks', i);
    } else {
      WeightBound(order[..n], ks');
    }
  }

  // ------------------------------------------------------------------ the elimination

  /** An eliminated signal if there is one; otherwise the rarest, and of those the largest. */
  method TakeSignal4(signals: SignalDefinition4, info: SignalsInformation, constraint: Constraint) returns (ret: Option<nat>)
    requires forall k :: k in constraint.c && k !in signals.forbidden && k !in signals.deletedSymbols ==> k in info.signalToOccurrences
    ensures ret.None? ==> constraint.c.Keys <= signals.forbidden
    ensures ret.Some? ==> ret.value in constraint.c && ret.value !in signals.forbidden
    ensures ret.Some? && ret.value !in signals.deletedSymbols ==>
              forall k :: k in constraint.c && k !in signals.forbidden ==>
                            && k !in signals.deletedSymbols
                            && ret.value in info.signalToOccurrences && k in info.signalToOccurrences
                            && info.signalToOccurrences[ret.value] <= info.signalToOccurrences[k]
                            && (info.signalToOccurrences[ret.value] == info.signalToOccurrences[k] ==> k <= ret.value)
  {
    ret := None;
    var todo := constraint.c.Keys;
    while todo != {}
      invariant todo <= constraint.c.Keys
      invariant ret.None? ==> constraint.c.Keys - todo <= signals.forbidden
      invariant ret.Some? ==> ret.value in constraint.c && ret.value !in signals.forbidden
                              && ret.value !in signals.deletedSymbols
      invariant ret.Some? ==>
                  forall k :: k in constraint.c.Keys - todo && k !in signals.forbidden ==>
                                && k !in signals.deletedSymbols
                                && info.signalToOccurrences[ret.value] <= info.signalToOccurrences[k]
                                && (info.signalToOccurrences[ret.value] == info.signalToOccurrences[k] ==> k <= ret.value)
      decreases todo
    {
      var k :| k in todo;
      if signals.CanBeTaken(k) {
        if signals.IsDeleted(k) {
          return Some(k);
        }
        if ret.None? {
          ret := Some(k);
        } else {
          var newOccurrences, previous := info.signalToOccurrences[k], info.signalToOccurrences[ret.value];
          if newOccurrences < previous || (newOccurrences == previous && ret.value < k) {
            ret := Some(k);
          }
        }
      }
      todo := todo - {k};
    }
  }

  /** A signal of one constraint only: its constraint becomes its row. */
  method TreatUniqueConstraint4(signals: SignalDefinition4, substitutions: Holder, work: Constraint, info: SignalsInformation,
                                signal: nat, ghost u: set<nat>, field: int)
    returns (newSubstitutions: Holder)
    requires field > 0
    requires LinearRow(work, field) && Signals(work) <= u && signal in work.c && signal != CONSTANT
    requires signal !in signals.forbidden && signal !in substitutions
    requires forall k :: k in work.c ==> k !in substitutions
    requires LaterOnly(substitutions, signals.orderSignals)
    requires PivotHolder(substitutions, signals.forbidden, u, field)
    requires CONSTANT !in substitutions
    modifies signals, info
    ensures newSubstitutions == substitutions[signal := ClearSignalNotNormalized(work, signal, field)]
    ensures LaterOnly(newSubstitutions, signals.orderSignals)
    ensures PivotHolder(newSubstitutions, signals.forbidden, u, field)
    ensures signals.deletedSymbols == old(signals.deletedSymbols) + {signal}
    ensures info.signalToOccurrences == old(info.signalToOccurrences) - {signal}
  {
    ClearIsPivot(work, signal, u, field);
    var row := ClearSignalNotNormalized(work, signal, field);
    newSubstitutions := substitutions[signal := row];
    info.RemoveSignal(signal);
    signals.Delete(signal);
  }

  method TreatConstraint4(signals: SignalDefinition4, substitutions: Holder, lconst: seq<Constraint>, constraint: Constraint,
                          info: SignalsInformation, ghost u: set<nat>, field: int)
    returns (newSubstitutions: Holder, newLconst: seq<Constraint>)
    requires Prime(field) && CONSTANT in signals.forbidden
    requires LinearRow(constraint, field) && Signals(constraint) <= u
    requires LaterOnly(substitutions, signals.orderSignals)
    requires PivotHolder(substitutions, signals.forbidden, u, field)
    requires signals.deletedSymbols == substitutions.Keys
    requires forall k :: k in u && k !in signals.forbidden && k !in substitutions ==> k in info.signalToOccurrences
    requires forall c :: c in lconst ==> Leftover(c, signals.forbidden, u, field)
    modifies signals, info
    ensures LaterOnly(newSubstitutions, signals.orderSignals)
    ensures PivotHolder(newSubstitutions, signals.forbidden, u, field)
    ensures signals.deletedSymbols == newSubstitutions.Keys && substitutions.Keys <= newSubstitutions.Keys
    ensures info.signalToOccurrences == old(info.signalToOccurrences) - (newSubstitutions.Keys - substitutions.Keys)
    ensures forall c :: c in newLconst ==> Leftover(c, signals.forbidden, u, field)
    ensures Accounts(newSubstitutions, newLconst, substitutions, lconst, constraint, field)
  {
    hide MergeRows, Reduces, Accounts, Weight, LaterOnly;
    newSubstitutions, newLconst := substitutions, lconst;
    var work := constraint;
    ReducesItself(substitutions, constraint, field);
    while true
      invariant newSubstitutions == substitutions && newLconst == lconst
      invariant signals.orderSignals == old(signals.orderSignals) && signals.deletedSymbols == old(signals.deletedSymbols)
      invariant info.signalToOccurrences == old(info.signalToOccurrences)
      invariant LinearRow(work, field) && Signals(work) <= u
      invariant Reduces(substitutions, work, constraint, field)
      decreases Weight(signals.orderSignals, work.c.Keys)
    {
      if IsEmpty(work) {
        AccountsEmpty(substitutions, lconst, constraint, field);
        return;
      }
      var out := TakeSignal4(signals, info, work);
      if out.None? {
        newLconst := lconst + [work];
        AccountsLeftover(substitutions, lconst, work, constraint, field);
        return;
      }
      var s := out.value;
      var row := ClearSignalNotNormalized(work, s, field);
      ClearIsPivot(work, s, u, field);
      if s !in substitutions {
        LaterOnlyExtend(substitutions, signals.orderSignals, s, row);
        AccountsRow(substitutions, lconst, work, s, constraint, field);
        signals.Delete(s);
        info.RemoveSignal(s);
        newSubstitutions := substitutions[s := row];
        return;
      }
      CancelKeeps(substitutions, signals.orderSignals, signals.forbidden, u, work, s, constraint, field);
      work := MergeRows(substitutions[s], row, field);
    }
  }

  /** Cancelling an eliminated signal: what is left is again a row, says the same where the rows hold, and is lighter. */
  lemma CancelKeeps(h: Holder, order: seq<nat>, forbidden: set<nat>, u: set<nat>, work: Constraint, s: nat, constraint: Constraint, p: int)
    requires Prime(p) && LaterOnly(h, order) && PivotHolder(h, forbidden, u, p) && CONSTANT in forbidden
    requires LinearRow(work, p) && Signals(work) <= u && s in work.c && s in h && Reduces(h, work, constraint, p)
    ensures var next := MergeRows(h[s], ClearSignalNotNormalized(work, s, p), p);
            && LinearRow(next, p) && Signals(next) <= u && Reduces(h, next, constraint, p)
            && Weight(order, next.c.Keys) < Weight(order, work.c.Keys)
  {
    hide MergeRows, Reduces, Weight, LaterOnly;
    var row := ClearSignalNotNormalized(work, s, p);
    ClearIsPivot(work, s, u, p);
    MergeShape(h[s], row, p);
    ReducesMerge(h, work, s, constraint, p);
    CancelFalls(h, order, work, s, p);
  }

  lemma CancelFalls(h: Holder, order: seq<nat>, work: Constraint, s: nat, p: int)
    requires p > 0 && LaterOnly(h, order) && CONSTANT !in h
    requires IsLinear(work) && s in work.c && s in h && CONSTANT in h[s].sub.to
    ensures Weight(order, MergeRows(h[s], ClearSignalNotNormalized(work, s, p), p).c.Keys) < Weight(order, work.c.Keys)
  {
    hide MergeRows;
    var row := ClearSignalNotNormalized(work, s, p);
    MergeShape(h[s], row, p);
    var i :| 0 <= i < |order| && order[i] == s;
    WeightFalls(order, work.c.Keys, MergeRows(h[s], row, p).c.Keys, i);
  }

  // ------------------------------------------------------------------ the whole process

  /** The constraints still waiting are original ones; those taken were replaced by the empty constraint. */
  ghost predicate Waiting(waiting: seq<Constraint>, original: seq<Constraint>) {
    |waiting| <= |original| && forall i :: 0 <= i < |waiting| ==> waiting[i] == original[i] || waiting[i] == EMPTY
  }

  /** Every signal eliminated so far occurs in one original constraint only, and that one was taken. */
  ghost predicate TakenUniques(h: Holder, uniques: map<nat, nat>, waiting: seq<Constraint>) {
    forall s :: s in h ==> s in uniques && uniques[s] < |waiting| && waiting[uniques[s]] == EMPTY
  }

  ghost predicate IsUniques(uniques: map<nat, nat>, original: seq<Constraint>, forbidden: set<nat>) {
    forall s :: s in uniques ==>
                  s !in forbidden && Occurrences(original, s) == 1
                  && uniques[s] < |original| && s in original[uniques[s]].c
  }

  /** Every constraint taken so far is solved for a signal that occurs in it only. */
  ghost predicate TakenForUnique(h: Holder, uniques: map<nat, nat>, waiting: seq<Constraint>, original: seq<Constraint>) {
    forall i: nat :: i < |waiting| <= |original| && waiting[i] == EMPTY && original[i] != EMPTY ==> TakenBy(h, uniques, i)
  }

  ghost predicate TakenBy(h: Holder, uniques: map<nat, nat>, i: nat) {
    exists t :: t in h && t in uniques && uniques[t] == i
  }

  /** A constraint with an eliminable signal that occurs in no other is solved for such a signal. */
  ghost predicate RareEliminated(eliminated: set<nat>, constraints: seq<Constraint>, forbidden: set<nat>) {
    forall s: nat :: s !in forbidden && Occurrences(constraints, s) == 1 ==> RareBeside(eliminated, constraints, forbidden, s)
  }

  ghost predicate RareBeside(eliminated: set<nat>, constraints: seq<Constraint>, forbidden: set<nat>, s: nat) {
    exists i, t: nat ::
      && 0 <= i < |constraints| && s in constraints[i].c && t in constraints[i].c
      && t in eliminated && t !in forbidden && Occurrences(constraints, t) == 1
  }

  lemma AllRareEliminated(h: Holder, uniques: map<nat, nat>, constraints: seq<Constraint>, forbidden: set<nat>)
    requires IsUniques(uniques, constraints, forbidden) && forall s :: s in uniques ==> TakenBy(h, uniques, uniques[s])
    requires forall s :: s !in forbidden && Occurrences(constraints, s) == 1 ==> s in uniques
    ensures RareEliminated(h.Keys, constraints, forbidden)
  {
    hide Occurrences;
    forall s: nat | s !in forbidden && Occurrences(constraints, s) == 1
      ensures RareBeside(h.Keys, constraints, forbidden, s)
    {
      var t :| t in h && t in uniques && uniques[t] == uniques[s];
    }
  }

  /** The first n unique signals have had their turn. */
  ghost predicate TakenUpTo(h: Holder, uniques: map<nat, nat>, waiting: seq<Constraint>, original: seq<Constraint>, order: seq<nat>, n: nat) {
    && TakenUniques(h, uniques, waiting) && TakenForUnique(h, uniques, waiting, original)
    && forall j :: 0 <= j < n <= |order| ==> order[j] in uniques && TakenBy(h, uniques, uniques[order[j]])
  }

  lemma TakenStep(h: Holder, uniques: map<nat, nat>, waiting: seq<Constraint>, original: seq<Constraint>, order: seq<nat>, n: nat, row: Row)
    requires TakenUpTo(h, uniques, waiting, original, order, n) && n < |order|
    requires order[n] in uniques && uniques[order[n]] < |waiting|
    ensures TakenUpTo(h[order[n] := row], uniques, waiting[uniques[order[n]] := EMPTY], original, order, n + 1)
  {
    var s := order[n];
    forall i: nat | TakenBy(h, uniques, i) || i == uniques[s]
      ensures TakenBy(h[s := row], uniques, i)
    {
      if i == uniques[s] {
        assert s in h[s := row];
      } else {
        var t :| t in h && t in uniques && uniques[t] == i;
        assert t in h[s := row];
      }
    }
    hide TakenBy;
  }

  lemma SkippedStep(h: Holder, uniques: map<nat, nat>, waiting: seq<Constraint>, original: seq<Constraint>, order: seq<nat>, n: nat,
                    forbidden: set<nat>)
    requires TakenUpTo(h, uniques, waiting, original, order, n) && n < |order| && IsUniques(uniques, original, forbidden)
    requires order[n] in uniques && |waiting| == |original| && waiting[uniques[order[n]]] == EMPTY
    ensures TakenUpTo(h, uniques, waiting, original, order, n + 1)
  {
    hide TakenBy;
  }

  lemma AllTaken(h: Holder, uniques: map<nat, nat>, waiting: seq<Constraint>, original: seq<Constraint>, order: seq<nat>)
    requires TakenUpTo(h, uniques, waiting, original, order, |order|) && forall s :: s in uniques ==> s in order
    ensures forall s :: s in uniques ==> TakenBy(h, uniques, uniques[s])
  {
    hide TakenBy;
  }

  lemma TakenStart(uniques: map<nat, nat>, original: seq<Constraint>, order: seq<nat>)
    ensures TakenUpTo(map[], uniques, original, original, order, 0)
  {}

  lemma UniqueAt(uniques: map<nat, nat>, original: seq<Constraint>, forbidden: set<nat>, s: nat)
    requires IsUniques(uniques, original, forbidden) && s in uniques
    ensures s !in forbidden && uniques[s] < |original| && s in original[uniques[s]].c
  {}

  lemma TakenSoFar(h: Holder, uniques: map<nat, nat>, waiting: seq<Constraint>, original: seq<Constraint>, order: seq<nat>, n: nat)
    requires TakenUpTo(h, uniques, waiting, original, order, n)
    ensures TakenUniques(h, uniques, waiting)
  {}

  lemma UniqueRowIsFresh(h: Holder, uniques: map<nat, nat>, waiting: seq<Constraint>, original: seq<Constraint>,
                         forbidden: set<nat>, i: nat)
    requires Waiting(waiting, original) && |waiting| == |original|
    requires TakenUniques(h, uniques, waiting) && IsUniques(uniques, original, forbidden)
    requires i < |waiting| && waiting[i] != EMPTY
    ensures forall k :: k in waiting[i].c ==> k !in h
  {
    forall k | k in waiting[i].c
      ensures k !in h
    {
      if k in h {
        OccurrencesUnique(original, uniques[k], i, k);
      }
    }
  }

  /** A constraint leaves the list at position i, and the counts with it. */
  lemma TracksTaken(counts: map<nat, nat>, counts': map<nat, nat>, original: seq<Constraint>, waiting: seq<Constraint>,
                    i: nat, forbidden: set<nat>, deleted: set<nat>)
    requires Tracks(counts, original, waiting, forbidden, deleted) && i < |waiting|
    requires counts'.Keys == counts.Keys
    requires forall s :: s in counts' ==> counts'[s] + (if s in waiting[i].c && s !in forbidden then 1 else 0) == counts[s]
    ensures Tracks(counts', original, waiting[i := EMPTY], forbidden, deleted)
  {
    forall s | s in counts'
      ensures counts'[s] == Occurrences(waiting[i := EMPTY], s)
    {
      OccurrencesUpdate(waiting, i, EMPTY, s);
    }
  }

  lemma TracksPopped(counts: map<nat, nat>, counts': map<nat, nat>, original: seq<Constraint>, waiting: seq<Constraint>,
                     forbidden: set<nat>, deleted: set<nat>)
    requires Tracks(counts, original, waiting, forbidden, deleted) && |waiting| > 0
    requires counts'.Keys == counts.Keys
    requires forall s :: s in counts' ==>
                           counts'[s] + (if s in waiting[|waiting| - 1].c && s !in forbidden then 1 else 0) == counts[s]
    ensures Tracks(counts', original, waiting[..|waiting| - 1], forbidden, deleted)
  {}

  lemma TracksDeleted(counts: map<nat, nat>, original: seq<Constraint>, waiting: seq<Constraint>,
                      forbidden: set<nat>, deleted: set<nat>, more: set<nat>)
    requires Tracks(counts, original, waiting, forbidden, deleted)
    ensures Tracks(counts - more, original, waiting, forbidden, deleted + more)
  {}

  lemma TracksPositive(counts: map<nat, nat>, original: seq<Constraint>, waiting: seq<Constraint>,
                       forbidden: set<nat>, deleted: set<nat>, i: nat)
    requires Tracks(counts, original, waiting, forbidden, deleted) && i < |waiting|
    ensures forall s :: s in waiting[i].c && s in counts ==> counts[s] >= 1
  {
    forall s | s in waiting[i].c && s in counts
      ensures counts[s] >= 1
    {
      OccurrencesPositive(waiting, i, s);
    }
  }

  /** Everything said by the original constraints is said by the rows, the leftovers and the waiting constraints. */
  ghost predicate Balanced(h: Holder, lconst: seq<Constraint>, waiting: seq<Constraint>, original: seq<Constraint>, p: int)
    requires p > 0
  {
    forall w: Assignment :: HolderHolds(h, w, p) && AllHold(lconst, w, p) && AllHold(waiting, w, p)
                            <==> AllHold(original, w, p)
  }

  lemma BalancedUnique(h: Holder, waiting: seq<Constraint>, i: nat, s: nat, original: seq<Constraint>, p: int)
    requires p > 0 && Balanced(h, [], waiting, original, p)
    requires i < |waiting| && IsLinear(waiting[i]) && s in waiting[i].c && s !in h
    ensures Balanced(h[s := ClearSignalNotNormalized(waiting[i], s, p)], [], waiting[i := EMPTY], original, p)
  {
    var row := ClearSignalNotNormalized(waiting[i], s, p);
    forall w: Assignment
      ensures HolderHolds(h[s := row], w, p) && AllHold(waiting[i := EMPTY], w, p) <==> AllHold(original, w, p)
    {
      AllHoldReplace(waiting, i, EMPTY, w, p);
      ClearHolds(waiting[i], s, w, p);
      HolderExtend(h, s, row, w, p);
      assert AllHold([], w, p);
    }
  }

  lemma BalancedPopped(h: Holder, lconst: seq<Constraint>, h': Holder, lconst': seq<Constraint>, waiting: seq<Constraint>,
                       original: seq<Constraint>, p: int)
    requires p > 0 && |waiting| > 0 && Balanced(h, lconst, waiting, original, p)
    requires Accounts(h', lconst', h, lconst, waiting[|waiting| - 1], p)
    ensures Balanced(h', lconst', waiting[..|waiting| - 1], original, p)
  {}

  lemma TrackedUniverse(counts: map<nat, nat>, original: seq<Constraint>, waiting: seq<Constraint>,
                        forbidden: set<nat>, deleted: set<nat>, p: int)
    requires Tracks(counts, original, waiting, forbidden, deleted)
    requires forall c :: c in original ==> LinearRow(c, p)
    ensures forall k :: k in SignalsOf(original) && k !in forbidden && k !in deleted ==> k in counts
  {
    forall k | k in SignalsOf(original) && k !in forbidden && k !in deleted
      ensures k in counts
    {
      var c :| c in original && k in Signals(c);
      var i :| 0 <= i < |original| && original[i] == c;
      OccurrencesSome(original, k);
    }
  }

  /** First phase: every signal of a single constraint takes that constraint, unless another one already did. */
  method TreatUniques(signals: SignalDefinition4, info: SignalsInformation, uniques: map<nat, nat>, constraints: seq<Constraint>,
                      field: int)
    returns (waiting: seq<Constraint>, substitutions: Holder)
    requires field > 0 && CONSTANT in signals.forbidden
    requires signals.deletedSymbols == {} && signals.orderSignals == []
    requires forall c :: c in constraints ==> LinearRow(c, field)
    requires IsUniques(uniques, constraints, signals.forbidden)
    requires Tracks(info.signalToOccurrences, constraints, constraints, signals.forbidden, {})
    modifies signals, info
    ensures Waiting(waiting, constraints)
    ensures LaterOnly(substitutions, signals.orderSignals)
    ensures PivotHolder(substitutions, signals.forbidden, SignalsOf(constraints), field)
    ensures signals.deletedSymbols == substitutions.Keys
    ensures Tracks(info.signalToOccurrences, constraints, waiting, signals.forbidden, substitutions.Keys)
    ensures Balanced(substitutions, [], waiting, constraints, field)
    ensures forall s :: s in uniques ==> TakenBy(substitutions, uniques, uniques[s])
  {
    hide ClearSignalNotNormalized, PivotRow, Tracks, Balanced, SignalsOf, LaterOnly, Occurrences, Waiting, TakenUpTo, TakenUniques, IsUniques, TakenBy;
    ghost var u := SignalsOf(constraints);
    waiting, substitutions := constraints, map[];
    BalancedStart(constraints, field);
    var order := SortedKeys(uniques.Keys);
    TakenStart(uniques, constraints, order);
    for n := 0 to |order|
      invariant Waiting(waiting, constraints) && |waiting| == |constraints|
      invariant TakenUpTo(substitutions, uniques, waiting, constraints, order, n)
      invariant LaterOnly(substitutions, signals.orderSignals)
      invariant PivotHolder(substitutions, signals.forbidden, u, field)
      invariant signals.deletedSymbols == substitutions.Keys
      invariant Tracks(info.signalToOccurrences, constraints, waiting, signals.forbidden, substitutions.Keys)
      invariant Balanced(substitutions, [], waiting, constraints, field)
    {
      var signal := order[n];
      assert signal in uniques by { assert signal in order; }
      UniqueAt(uniques, constraints, signals.forbidden, signal);
      var index := uniques[signal];
      if !IsEmpty(waiting[index]) {
        var actual := waiting[index];
        WaitingRow(constraints, waiting, index, field);
        TakenSoFar(substitutions, uniques, waiting, constraints, order, n);
        UniqueRowIsFresh(substitutions, uniques, waiting, constraints, signals.forbidden, index);
        TracksPositive(info.signalToOccurrences, constraints, waiting, signals.forbidden, substitutions.Keys, index);
        ghost var counts := info.signalToOccurrences;
        info.RemoveConstraint(actual, signals);
        TracksTaken(counts, info.signalToOccurrences, constraints, waiting, index, signals.forbidden, substitutions.Keys);
        TracksDeleted(info.signalToOccurrences, constraints, waiting[index := EMPTY], signals.forbidden, substitutions.Keys, {signal});
        BalancedUnique(substitutions, waiting, index, signal, constraints, field);
        TakeOne(waiting, constraints, index);
        TakenStep(substitutions, uniques, waiting, constraints, order, n, ClearSignalNotNormalized(actual, signal, field));
        waiting := waiting[index := EMPTY];
        substitutions := TreatUniqueConstraint4(signals, substitutions, actual, info, signal, u, field);
      } else {
        SkippedStep(substitutions, uniques, waiting, constraints, order, n, signals.forbidden);
      }
    }
    AllTaken(substitutions, uniques, waiting, constraints, order);
  }

  lemma BalancedStart(constraints: seq<Constraint>, p: int)
    requires p > 0
    ensures Balanced(map[], [], constraints, constraints, p)
    ensures LaterOnly(map[], []) && Waiting(constraints, constraints)
  {}

  lemma TakeOne(waiting: seq<Constraint>, original: seq<Constraint>, i: nat)
    requires Waiting(waiting, original) && i < |waiting|
    ensures Waiting(waiting[i := EMPTY], original)
  {}

  method SubstitutionProcess4(signals: SignalDefinition4, constraints: seq<Constraint>, field: int)
    returns (remaining: seq<Constraint>, substitutions: Holder)
    requires Prime(field) && CONSTANT in signals.forbidden
    requires signals.deletedSymbols == {} && signals.orderSignals == []
    requires forall c :: c in constraints ==> LinearRow(c, field)
    modifies signals
    ensures LaterOnly(substitutions, signals.orderSignals)
    ensures PivotHolder(substitutions, signals.forbidden, SignalsOf(constraints), field)
    ensures signals.deletedSymbols == substitutions.Keys
    ensures forall c :: c in remaining ==> Leftover(c, signals.forbidden, SignalsOf(constraints), field)
    ensures forall w: Assignment :: HolderHolds(substitutions, w, field) && AllHold(remaining, w, field)
                                    <==> AllHold(constraints, w, field)
    ensures RareEliminated(substitutions.Keys, constraints, signals.forbidden)
  {
    hide ClearSignalNotNormalized, PivotRow, SignalsOf, Occurrences, Accounts, Tracks, IsUniques, LaterOnly, LinearRow, Leftover, TakenBy,
         RareEliminated;
    ghost var u := SignalsOf(constraints);
    var info, uniques := NewSignalsInformation(constraints, signals);
    var waiting;
    waiting, substitutions := TreatUniques(signals, info, uniques, constraints, field);
    AllRareEliminated(substitutions, uniques, constraints, signals.forbidden);
    ghost var rare := substitutions.Keys;
    remaining := [];
    while waiting != []
      invariant Waiting(waiting, constraints)
      invariant LaterOnly(substitutions, signals.orderSignals)
      invariant PivotHolder(substitutions, signals.forbidden, u, field)
      invariant signals.deletedSymbols == substitutions.Keys
      invariant Tracks(info.signalToOccurrences, constraints, waiting, signals.forbidden, substitutions.Keys)
      invariant forall c :: c in remaining ==> Leftover(c, signals.forbidden, u, field)
      invariant Balanced(substitutions, remaining, waiting, constraints, field)
      invariant rare <= substitutions.Keys
      decreases |waiting|
    {
      var last := |waiting| - 1;
      var actual := waiting[last];
      TracksPositive(info.signalToOccurrences, constraints, waiting, signals.forbidden, substitutions.Keys, last);
      ghost var counts, before, leftBefore := info.signalToOccurrences, substitutions, remaining;
      info.RemoveConstraint(actual, signals);
      TracksPopped(counts, info.signalToOccurrences, constraints, waiting, signals.forbidden, substitutions.Keys);
      TrackedUniverse(info.signalToOccurrences, constraints, waiting[..last], signals.forbidden, substitutions.Keys, field);
      WaitingRow(constraints, waiting, last, field);
      ghost var popped := info.signalToOccurrences;
      substitutions, remaining := TreatConstraint4(signals, substitutions, remaining, actual, info, u, field);
      TracksDeleted(popped, constraints, waiting[..last], signals.forbidden, before.Keys, substitutions.Keys - before.Keys);
      assert before.Keys + (substitutions.Keys - before.Keys) == substitutions.Keys;
      BalancedPopped(before, leftBefore, substitutions, remaining, waiting, constraints, field);
      waiting := waiting[..last];
    }
    RareMore(rare, substitutions.Keys, constraints, signals.forbidden);
  }

  lemma RareMore(eliminated: set<nat>, more: set<nat>, constraints: seq<Constraint>, forbidden: set<nat>)
    requires RareEliminated(eliminated, constraints, forbidden) && eliminated <= more
    ensures RareEliminated(more, constraints, forbidden)
  {
    hide Occurrences;
    forall s: nat | s !in forbidden && Occurrences(constraints, s) == 1
      ensures RareBeside(more, constraints, forbidden, s)
    {
      assert RareBeside(eliminated, constraints, forbidden, s);
    }
  }

  lemma WaitingRow(constraints: seq<Constraint>, waiting: seq<Constraint>, i: nat, p: int)
    requires Waiting(waiting, constraints) && i < |waiting|
    requires forall c :: c in constraints ==> LinearRow(c, p)
    ensures LinearRow(waiting[i], p) && Signals(waiting[i]) <= SignalsOf(constraints)
    ensures waiting[i] != EMPTY ==> waiting[i] == constraints[i]
  {}
}
