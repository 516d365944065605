/**
 Elimination by largest signal (circom_algebra/src/simplification_utils.rs, the variants
 numbered 3): every row is solved for the largest signal that may be eliminated.
 */
module MaxElimination {
  import opened Wrappers
  import opened Field
  import opened LinearForms
  import opened Algebra
  import opened Rows

  class SignalDefinition {
    var deletedSymbols: set<nat>
    const forbidden: set<nat>

    constructor (forbidden: set<nat>)
      ensures deletedSymbols == {} && this.forbidden == forbidden
    {
      deletedSymbols := {};
      this.forbidden := forbidden;
    }

    predicate CanBeTaken(k: nat) { k !in forbidden }

    method Delete(k: nat)
      modifies this
      ensures deletedSymbols == old(deletedSymbols) + {k}
    {
      deletedSymbols := deletedSymbols + {k};
    }
  }

  /** Every row is solved for its largest eliminable signal. */
  ghost predicate MaxFirst(h: Holder, forbidden: set<nat>, u: set<nat>, p: int) {
    forall s :: s in h ==>
                  && s !in forbidden
                  && PivotRow(h[s], s, u, p)
                  && forall k :: k in h[s].sub.to ==> k in forbidden || k < s
  }

  /** A constraint no signal of which may be eliminated. */
  ghost predicate Leftover(c: Constraint, forbidden: set<nat>, u: set<nat>, p: int) {
    LinearRow(c, p) && c.c.Keys <= forbidden && Signals(c) <= u
  }

  /** The largest eliminable signal of a constraint, whatever the order of the map's keys. */
  method TakeSignal3(signals: SignalDefinition, constraint: Constraint) returns (ret: Option<nat>)
    ensures ret.None? ==> constraint.c.Keys <= signals.forbidden
    ensures ret.Some? ==> ret.value in constraint.c && ret.value !in signals.forbidden
    ensures ret.Some? ==> forall k :: k in constraint.c && k !in signals.forbidden ==> k <= ret.value
  {
    ret := None;
    var todo := constraint.c.Keys;
    while todo != {}
      invariant todo <= constraint.c.Keys
      invariant ret.None? ==> constraint.c.Keys - todo <= signals.forbidden
      invariant ret.Some? ==> ret.value in constraint.c && ret.value !in signals.forbidden
      invariant ret.Some? ==> forall k :: k in constraint.c.Keys - todo && k !in signals.forbidden ==> k <= ret.value
      decreases todo
    {
      var k :| k in todo;
      if signals.CanBeTaken(k) {
        ret := Some(match ret case None => k case Some(v) => if k >= v then k else v);
      }
      todo := todo - {k};
    }
  }

  /** Reduces one constraint by the rows found so far, until it is a new row, empty, or left over. */
  method TreatConstraint3(signals: SignalDefinition, substitutions: Holder, lconst: seq<Constraint>, constraint: Constraint,
                          ghost u: set<nat>, field: int)
    returns (newSubstitutions: Holder, newLconst: seq<Constraint>)
    requires Prime(field) && CONSTANT in signals.forbidden
    requires LinearRow(constraint, field) && Signals(constraint) <= u
    requires MaxFirst(substitutions, signals.forbidden, u, field)
    requires signals.deletedSymbols == substitutions.Keys
    requires forall c :: c in lconst ==> Leftover(c, signals.forbidden, u, field)
    modifies signals
    ensures MaxFirst(newSubstitutions, signals.forbidden, u, field)
    ensures signals.deletedSymbols == newSubstitutions.Keys
    ensures forall c :: c in newLconst ==> Leftover(c, signals.forbidden, u, field)
    ensures Accounts(newSubstitutions, newLconst, substitutions, lconst, constraint, field)
  {
    hide MergeRows, Reduces, Accounts;
    newSubstitutions, newLconst := substitutions, lconst;
    var work := constraint;
    ghost var limit := Bound(work.c.Keys);
    ReducesItself(substitutions, constraint, field);
    while true
      invariant newSubstitutions == substitutions && newLconst == lconst
      invariant signals.deletedSymbols == substitutions.Keys
      invariant LinearRow(work, field) && Signals(work) <= u
      invariant forall k :: k in work.c && k !in signals.forbidden ==> k < limit
      invariant Reduces(substitutions, work, constraint, field)
      decreases limit
    {
      if IsEmpty(work) {
        AccountsEmpty(substitutions, lconst, constraint, field);
        return;
      }
      var out := TakeSignal3(signals, work);
      if out.None? {
        newLconst := lconst + [work];
        AccountsLeftover(substitutions, lconst, work, constraint, field);
        return;
      }
      var s := out.value;
      signals.Delete(s);
      var row := ClearSignalNotNormalized(work, s, field);
      ClearIsPivot(work, s, u, field);
      if s !in substitutions {
        newSubstitutions := substitutions[s := row];
        AccountsRow(substitutions, lconst, work, s, constraint, field);
        return;
      }
      MergeShape(substitutions[s], row, field);
      ReducesMerge(substitutions, work, s, constraint, field);
      work := MergeRows(substitutions[s], row, field);
      limit := s;
    }
  }

  /** Takes the constraints from the back, one by one. */
  method SubstitutionProcess3(signals: SignalDefinition, constraints: seq<Constraint>, ghost u: set<nat>, field: int)
    returns (remaining: seq<Constraint>, substitutions: Holder)
    requires Prime(field) && CONSTANT in signals.forbidden && signals.deletedSymbols == {}
    requires forall c :: c in constraints ==> LinearRow(c, field) && Signals(c) <= u
    modifies signals
    ensures MaxFirst(substitutions, signals.forbidden, u, field)
    ensures signals.deletedSymbols == substitutions.Keys
    ensures forall c :: c in remaining ==> Leftover(c, signals.forbidden, u, field)
    ensures forall w: Assignment :: HolderHolds(substitutions, w, field) && AllHold(remaining, w, field)
                                    <==> AllHold(constraints, w, field)
  {
    substitutions := map[];
    var lconst := [];
    var todo := constraints;
    while todo != []
      invariant todo <= constraints
      invariant MaxFirst(substitutions, signals.forbidden, u, field)
      invariant signals.deletedSymbols == substitutions.Keys
      invariant forall c :: c in lconst ==> Leftover(c, signals.forbidden, u, field)
      invariant forall w: Assignment :: HolderHolds(substitutions, w, field) && AllHold(lconst, w, field) && AllHold(todo, w, field)
                                        <==> AllHold(constraints, w, field)
      decreases |todo|
    {
      var last := |todo| - 1;
      var actual := todo[last];
      assert todo == todo[..last] + [actual];
      var popped := todo[..last];
      substitutions, lconst := TreatConstraint3(signals, substitutions, lconst, actual, u, field);
      forall w: Assignment
        ensures HolderHolds(substitutions, w, field) && AllHold(lconst, w, field) && AllHold(popped, w, field)
                <==> AllHold(constraints, w, field)
      {
        AllHoldAppend(popped, actual, w, field);
      }
      todo := popped;
    }
    remaining := lconst;
  }
}
