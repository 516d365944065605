/**
 Conditional single assignment of signals (circom/constraint_generation/src/assignment_utils.rs, perform_signal_assignment,
 and circom/constraint_generation/src/execute.rs, execute_conditional_statement): a signal is assigned under the path of
 unknown conditions that leads to the statement, and its cell keeps one such path.
 */
module SingleAssignment {
  import opened Wrappers

  /** A condition whose value is not known at compile time, and the branch taken. */
  datatype Condition = Condition(id: nat, branch: bool)

  datatype AssignmentState = NoAssigned | Assigned | MightAssigned(path: seq<Condition>)

  datatype AssignmentError = MultipleAssignments

  // ------------------------------------------------------------------ one cell

  /** The first position below `bound` where the paths differ, or `bound`. */
  function FirstDifference(a: seq<Condition>, b: seq<Condition>, i: nat, bound: nat): (r: nat)
    requires i <= bound <= |a| && bound <= |b|
    ensures i <= r <= bound
    ensures forall j :: i <= j < r ==> a[j] == b[j]
    ensures r < bound ==> a[r] != b[r]
    decreases bound - i
  {
    if i < bound && a[i] == b[i] then FirstDifference(a, b, i + 1, bound) else i
  }

  function Min(a: nat, b: nat): nat { if a < b then a else b }

  /** What the assignment of a cell under the conditions `path` does to its state. */
  function Assign(state: AssignmentState, path: seq<Condition>): Result<AssignmentState, AssignmentError> {
    match state
    case NoAssigned => Ok(if path == [] then Assigned else MightAssigned(path))
    case Assigned => Err(MultipleAssignments)
    case MightAssigned(before) =>
      if path == [] then Err(MultipleAssignments)
      else
        var min := Min(|before|, |path|);
        var i := FirstDifference(before, path, 0, min);
        if i == min then Err(MultipleAssignments)
        else if before[i].id != path[i].id then Err(MultipleAssignments)
        else if i == min - 1 && |before| == |path| then
          Ok(if |path| == 1 then Assigned else MightAssigned(path[..min - 1]))
        else Ok(MightAssigned(path))
  }

  /** The comparison of two paths as the loop that finds the first difference. */
  method ComparePaths(condOld: seq<Condition>, condNew: seq<Condition>)
    returns (isSubset: bool, eqUntilLast: bool, differentBranches: bool)
    ensures var min := Min(|condOld|, |condNew|);
            var i := FirstDifference(condOld, condNew, 0, min);
            && (isSubset <==> i == min)
            && (differentBranches <==> i < min && condOld[i].id == condNew[i].id)
            && (eqUntilLast <==> differentBranches && i == min - 1 && |condOld| == |condNew|)
  {
    isSubset, eqUntilLast, differentBranches := true, false, false;
    var min := Min(|condOld|, |condNew|);
    for i := 0 to min
      invariant FirstDifference(condOld, condNew, 0, min) == FirstDifference(condOld, condNew, i, min)
      invariant isSubset && !eqUntilLast && !differentBranches
    {
      if condOld[i] != condNew[i] {
        isSubset := false;
        if condOld[i].id == condNew[i].id {
          differentBranches := true;
          eqUntilLast := i == min - 1 && |condOld| == |condNew|;
        }
        return;
      }
    }
  }

  /** Assigns every cell of a slice under the same conditions; stops at the first cell that was assigned before. */
  method PerformSignalAssignment(cells: array<AssignmentState>, slice: seq<nat>, conditions: seq<Condition>)
    returns (r: Result<(), AssignmentError>)
    requires forall k :: k in slice ==> k < cells.Length
    requires forall i, j :: 0 <= i < j < |slice| ==> slice[i] != slice[j]
    modifies cells
    ensures r.Ok? <==> forall k :: k in slice ==> Assign(old(cells[k]), conditions).Ok?
    ensures r.Ok? ==> forall k :: 0 <= k < cells.Length ==>
              cells[k] == if k in slice then Assign(old(cells[k]), conditions).value else old(cells[k])
  {
    for i := 0 to |slice|
      invariant forall j :: 0 <= j < |slice| ==> slice[j] in slice
      invariant forall j :: 0 <= j < i ==> Assign(old(cells[slice[j]]), conditions).Ok?
                                           && cells[slice[j]] == Assign(old(cells[slice[j]]), conditions).value
      invariant forall k :: 0 <= k < cells.Length && k !in slice[..i] ==> cells[k] == old(cells[k])
    {
      var cell := slice[i];
      assert cell in slice && cell !in slice[..i];
      match cells[cell] {
        case NoAssigned =>
          cells[cell] := if conditions == [] then Assigned else MightAssigned(conditions);
        case Assigned =>
          return Err(MultipleAssignments);
        case MightAssigned(condOld) =>
          if conditions == [] {
            return Err(MultipleAssignments);
          }
          var isSubset, eqUntilLast, differentBranches := ComparePaths(condOld, conditions);
          if isSubset {
            return Err(MultipleAssignments);
          } else if eqUntilLast {
            if |conditions| == 1 {
              cells[cell] := Assigned;
            } else {
              cells[cell] := MightAssigned(conditions[..|conditions| - 1]);
            }
          } else if differentBranches {
            cells[cell] := MightAssigned(conditions);
          } else {
            return Err(MultipleAssignments);
          }
      }
      assert slice[..i + 1] == slice[..i] + [cell];
    }
    r := Ok(());
    assert slice[..|slice|] == slice;
    forall k | k in slice
      ensures Assign(old(cells[k]), conditions).Ok? && cells[k] == Assign(old(cells[k]), conditions).value
    {
      var j :| 0 <= j < |slice| && slice[j] == k;
    }
  }

  // ------------------------------------------------------------------ programs

  /** What of a template's body matters here. A condition is known at compile time or it is not. */
  datatype Statement =
    | Other
    | Assignment(slice: seq<nat>)
    | Sequence(first: Statement, second: Statement)
    | IfKnown(value: bool, trueCase: Statement, falseCase: Option<Statement>)
    | IfUnknown(trueCase: Statement, falseCase: Option<Statement>)

  /** Every slice has distinct cells that exist. */
  ghost predicate Fits(s: Statement, n: nat) {
    match s
    case Other => true
    case Assignment(slice) => (forall k :: k in slice ==> k < n) && forall i, j :: 0 <= i < j < |slice| ==> slice[i] != slice[j]
    case Sequence(a, b) => Fits(a, n) && Fits(b, n)
    case IfKnown(_, t, e) => Fits(t, n) && (e.Some? ==> Fits(e.value, n))
    case IfUnknown(t, e) => Fits(t, n) && (e.Some? ==> Fits(e.value, n))
  }

  /** The number of unknown conditions met. */
  ghost function Conditions(s: Statement): nat {
    match s
    case Other => 0
    case Assignment(_) => 0
    case Sequence(a, b) => Conditions(a) + Conditions(b)
    case IfKnown(value, t, e) => if value then Conditions(t) else if e.Some? then Conditions(e.value) else 0
    case IfUnknown(t, e) => 1 + Conditions(t) + (if e.Some? then Conditions(e.value) else 0)
  }

  /** What executing a statement does to the state of one cell. */
  ghost function Run(s: Statement, cell: nat, path: seq<Condition>, counter: nat, state: AssignmentState): Result<AssignmentState, AssignmentError> {
    match s
    case Other => Ok(state)
    case Assignment(slice) => if cell in slice then Assign(state, path) else Ok(state)
    case Sequence(a, b) =>
      (match Run(a, cell, path, counter, state)
       case Err(e) => Err(e)
       case Ok(next) => Run(b, cell, path, counter + Conditions(a), next))
    case IfKnown(value, t, e) =>
      if value then Run(t, cell, path, counter, state)
      else if e.Some? then Run(e.value, cell, path, counter, state)
      else Ok(state)
    case IfUnknown(t, e) =>
      (match Run(t, cell, path + [Condition(counter, true)], counter + 1, state)
       case Err(e) => Err(e)
       case Ok(next) =>
         if e.Some? then Run(e.value, cell, path + [Condition(counter, false)], counter + 1 + Conditions(t), next)
         else Ok(next))
  }

  datatype BlockType = Known | Unknown

  class Runtime {
    var conditionsState: seq<Condition>
    var unknownCounter: nat
    var blockType: BlockType

    constructor ()
      ensures Valid() && conditionsState == [] && unknownCounter == 0 && blockType == Known
    {
      conditionsState, unknownCounter, blockType := [], 0, Known;
    }

    /** The block is unknown exactly under some unknown condition. */
    predicate Valid()
      reads this
    {
      blockType == Unknown <==> conditionsState != []
    }

    /** Executes a statement on all cells: every cell's state is what its own run gives. */
    method Execute(s: Statement, cells: array<AssignmentState>) returns (r: Result<(), AssignmentError>)
      requires Valid() && Fits(s, cells.Length)
      modifies this, cells
      ensures r.Ok? <==> forall k: nat :: k < cells.Length ==>
                Run(s, k, old(conditionsState), old(unknownCounter), old(cells[k])).Ok?
      ensures r.Ok? ==> forall k: nat :: k < cells.Length ==>
                cells[k] == Run(s, k, old(conditionsState), old(unknownCounter), old(cells[k])).value
      ensures r.Ok? ==> conditionsState == old(conditionsState) && blockType == old(blockType)
                        && unknownCounter == old(unknownCounter) + Conditions(s) && Valid()
      decreases s
    {
      match s {
        case Other =>
          r := Ok(());
        case Assignment(slice) =>
          r := PerformSignalAssignment(cells, slice, conditionsState);
        case Sequence(first, second) =>
          r := Execute(first, cells);
          if r.Ok? {
            r := Execute(second, cells);
          }
        case IfKnown(value, trueCase, falseCase) =>
          if value {
            r := Execute(trueCase, cells);
          } else if falseCase.Some? {
            r := Execute(falseCase.value, cells);
          } else {
            r := Ok(());
          }
        case IfUnknown(trueCase, falseCase) =>
          var previous := blockType;
          blockType := Unknown;
          conditionsState := conditionsState + [Condition(unknownCounter, true)];
          unknownCounter := unknownCounter + 1;
          r := Execute(trueCase, cells);
          if r.Ok? && falseCase.Some? {
            var index := |conditionsState| - 1;
            conditionsState := conditionsState[index := Condition(conditionsState[index].id, false)];
            assert conditionsState == old(conditionsState) + [Condition(old(unknownCounter), false)];
            r := Execute(falseCase.value, cells);
          }
          if r.Ok? {
            conditionsState := conditionsState[..|conditionsState| - 1];
            blockType := previous;
          }
      }
    }
  }

  // ------------------------------------------------------------------ what really happens

  /** The values the unknown conditions turn out to have. */
  type Outcome = nat -> bool

  /** How often the cell is assigned when the conditions turn out this way; they are numbered from `counter`. */
  ghost function Count(s: Statement, cell: nat, counter: nat, o: Outcome): nat {
    match s
    case Other => 0
    case Assignment(slice) => if cell in slice then 1 else 0
    case Sequence(a, b) => Count(a, cell, counter, o) + Count(b, cell, counter + Conditions(a), o)
    case IfKnown(value, t, e) => if value then Count(t, cell, counter, o) else if e.Some? then Count(e.value, cell, counter, o) else 0
    case IfUnknown(t, e) =>
      if o(counter) then Count(t, cell, counter + 1, o)
      else if e.Some? then Count(e.value, cell, counter + 1 + Conditions(t), o)
      else 0
  }

  ghost predicate Consistent(path: seq<Condition>, o: Outcome) {
    forall i :: 0 <= i < |path| ==> o(path[i].id) == path[i].branch
  }

  /** Later conditions have higher numbers, all below `counter`. */
  ghost predicate Numbered(path: seq<Condition>, counter: nat) {
    && (forall i :: 0 <= i < |path| ==> path[i].id < counter)
    && (forall i, j :: 0 <= i < j < |path| ==> path[i].id < path[j].id)
  }

  ghost predicate ForkAt(before: seq<Condition>, path: seq<Condition>, i: nat) {
    i < |before| && i < |path| && before[..i] == path[..i] && before[i] != path[i]
  }

  /** Where the paths part, `before` took the true branch of the same condition, or is over before path's condition. */
  ghost predicate Before(before: seq<Condition>, path: seq<Condition>) {
    forall i: nat :: ForkAt(before, path, i) ==>
                  || (before[i].id == path[i].id && before[i].branch && !path[i].branch)
                  || (forall j :: i <= j < |before| ==> before[j].id < path[i].id)
  }

  /** The outcome leaves the path at a condition the path takes to its false branch. */
  ghost predicate LeavesAt(path: seq<Condition>, o: Outcome, j: nat) {
    j < |path| && !path[j].branch && o(path[j].id) && Consistent(path[..j], o)
  }

  ghost predicate Leaves(path: seq<Condition>, o: Outcome) {
    exists j: nat :: LeavesAt(path, o, j)
  }

  /** What the cell's state says about the assignments made so far. */
  ghost predicate Accounted(state: AssignmentState, path: seq<Condition>, counter: nat, n: Outcome -> nat) {
    && Numbered(path, counter)
    && match state
       case NoAssigned => forall o :: n(o) == 0
       case Assigned => forall o :: n(o) == 1
       case MightAssigned(p) =>
         && p != [] && Numbered(p, counter) && Before(p, path)
         && (forall o :: n(o) <= 1)
         && (forall o :: Consistent(p, o) ==> n(o) == 1)
         && (forall o :: n(o) == 1 ==> Consistent(p, o) || Leaves(p, o))
  }

  /** The count after something that happens only on the path. */
  ghost function Plus(n: Outcome -> nat, path: seq<Condition>, more: Outcome -> nat): Outcome -> nat {
    (o: Outcome) => n(o) + (if Consistent(path, o) then more(o) else 0)
  }

  // ------------------------------------------------------------------ paths and outcomes

  /** A path of distinct conditions happens under some outcome. */
  ghost function Follow(path: seq<Condition>): Outcome {
    (id: nat) => exists i :: 0 <= i < |path| && path[i] == Condition(id, true)
  }

  lemma FollowConsistent(path: seq<Condition>, counter: nat)
    requires Numbered(path, counter)
    ensures Consistent(path, Follow(path))
  {}

  /** Two paths that part at different conditions happen together under some outcome. */
  lemma FollowBoth(a: seq<Condition>, b: seq<Condition>, i: nat, counter: nat) returns (o: Outcome)
    requires Numbered(a, counter) && Numbered(b, counter) && ForkAt(a, b, i)
    requires forall j :: i <= j < |a| ==> a[j].id < b[i].id
    ensures Consistent(a, o) && Consistent(b, o)
  {
    var both := a + b[i..];
    assert Numbered(both, counter);
    o := Follow(both);
    assert both[..|a|] == a;
    forall j | 0 <= j < |b|
      ensures o(b[j].id) == b[j].branch
    {
      if j < i {
        assert a[..i][j] == b[..i][j];
      } else {
        assert both[|a| + j - i] == b[j];
      }
    }
  }

  lemma NoForkPrefix(a: seq<Condition>, b: seq<Condition>)
    requires a <= b || b <= a
    ensures Before(a, b)
  {}

  // ------------------------------------------------------------------ one assignment

  lemma FirstDifferenceForks(a: seq<Condition>, b: seq<Condition>)
    ensures var min := Min(|a|, |b|);
            var i := FirstDifference(a, b, 0, min);
            if i < min then ForkAt(a, b, i) else a <= b || b <= a
  {}

  ghost function Once(): Outcome -> nat { (o: Outcome) => 1 }

  /** An outcome that follows both an earlier path and the present one assigns twice. */
  lemma TwiceUnder(p: seq<Condition>, path: seq<Condition>, n: Outcome -> nat, o: Outcome)
    requires Consistent(p, o) && Consistent(path, o) && n(o) == 1
    ensures Plus(n, path, Once())(o) >= 2
  {}

  /** A refused assignment really is a second one under some outcome. */
  lemma RefusedIsTwice(state: AssignmentState, path: seq<Condition>, counter: nat, n: Outcome -> nat) returns (o: Outcome)
    requires Accounted(state, path, counter, n) && Assign(state, path).Err?
    ensures Consistent(path, o) && Plus(n, path, Once())(o) >= 2
  {
    match state
    case Assigned =>
      o := Follow(path);
      FollowConsistent(path, counter);
    case MightAssigned(p) =>
      if path == [] {
        o := Follow(p);
        FollowConsistent(p, counter);
        TwiceUnder(p, path, n, o);
      } else {
        FirstDifferenceForks(p, path);
        var i := FirstDifference(p, path, 0, Min(|p|, |path|));
        if i == Min(|p|, |path|) {
          var longer := if |p| <= |path| then path else p;
          o := Follow(longer);
          FollowConsistent(longer, counter);
          TwiceUnder(p, path, n, o);
        } else {
          o := FollowBoth(p, path, i, counter);
          TwiceUnder(p, path, n, o);
        }
      }
  }

  /** Where an accepted path parts from the earlier one. */
  lemma AcceptedFork(p: seq<Condition>, path: seq<Condition>) returns (i: nat)
    requires Before(p, path) && path != [] && Assign(MightAssigned(p), path).Ok?
    requires forall j, k :: 0 <= j < k < |p| ==> p[j].id < p[k].id
    ensures ForkAt(p, path, i) && p[i].id == path[i].id && p[i].branch && !path[i].branch
    ensures i == FirstDifference(p, path, 0, Min(|p|, |path|))
  {
    i := FirstDifference(p, path, 0, Min(|p|, |path|));
    assert ForkAt(p, path, i);
  }

  /** Outcomes that were counted do not follow the new path, and leave it to the true side. */
  lemma CountedLeaves(p: seq<Condition>, path: seq<Condition>, i: nat, o: Outcome)
    requires ForkAt(p, path, i) && p[i].id == path[i].id && p[i].branch && !path[i].branch
    requires Consistent(p, o) || Leaves(p, o)
    ensures !Consistent(path, o) && Leaves(path, o)
  {
    assert forall j :: 0 <= j < i ==> p[..i][j] == path[..i][j];
    if Consistent(p, o) {
      assert LeavesAt(path, o, i);
    } else {
      var j: nat :| LeavesAt(p, o, j);
      if j < i {
        assert p[..j] == path[..j];
        assert LeavesAt(path, o, j);
      } else if j > i {
        assert p[..j][..i] == path[..i];
        assert LeavesAt(path, o, i);
      }
    }
  }

  lemma AcceptedReplaces(p: seq<Condition>, path: seq<Condition>, counter: nat, n: Outcome -> nat)
    requires Accounted(MightAssigned(p), path, counter, n) && path != [] && Assign(MightAssigned(p), path).Ok?
    ensures Accounted(MightAssigned(path), path, counter, Plus(n, path, Once()))
    ensures forall o :: Consistent(p, o) ==> Plus(n, path, Once())(o) == 1
    ensures forall o :: Plus(n, path, Once())(o) == 1 ==> Consistent(path, o) || Consistent(p, o) || Leaves(p, o)
  {
    var i := AcceptedFork(p, path);
    var m := Plus(n, path, Once());
    forall o
      ensures m(o) <= 1
      ensures Consistent(path, o) ==> m(o) == 1
      ensures Consistent(p, o) ==> m(o) == 1
      ensures m(o) == 1 ==> Consistent(path, o) || Leaves(path, o)
      ensures m(o) == 1 ==> Consistent(path, o) || Consistent(p, o) || Leaves(p, o)
    {
      if n(o) == 1 {
        CountedLeaves(p, path, i, o);
      }
    }
  }

  /** The two branches of one condition together are the path above it. */
  lemma BothBranches(q: seq<Condition>, id: nat, o: Outcome)
    ensures Consistent(q, o) <==> Consistent(q + [Condition(id, true)], o) || Consistent(q + [Condition(id, false)], o)
  {
    var t, f := q + [Condition(id, true)], q + [Condition(id, false)];
    if Consistent(q, o) {
      if o(id) {
        assert Consistent(t, o);
      } else {
        assert Consistent(f, o);
      }
    }
    if Consistent(t, o) {
      assert forall i :: 0 <= i < |q| ==> t[i] == q[i];
    }
    if Consistent(f, o) {
      assert forall i :: 0 <= i < |q| ==> f[i] == q[i];
    }
  }

  /** Outcomes that left the longer path left it above its last condition, which it takes to the true side. */
  lemma LeavesAbove(q: seq<Condition>, id: nat, o: Outcome)
    requires Leaves(q + [Condition(id, true)], o)
    ensures Leaves(q, o)
  {
    var p := q + [Condition(id, true)];
    var j: nat :| LeavesAt(p, o, j);
    assert p[..j] == q[..j];
    assert LeavesAt(q, o, j);
  }

  lemma LastBranch(p: seq<Condition>, path: seq<Condition>)
    requires |p| == |path| > 0 && ForkAt(p, path, |p| - 1)
    requires p[|p| - 1].id == path[|p| - 1].id && p[|p| - 1].branch && !path[|p| - 1].branch
    ensures var q, id := path[..|path| - 1], path[|path| - 1].id;
            p == q + [Condition(id, true)] && path == q + [Condition(id, false)]
  {}

  lemma AcceptedMerges(p: seq<Condition>, path: seq<Condition>, counter: nat, n: Outcome -> nat)
    requires Accounted(MightAssigned(p), path, counter, n) && path != [] && Assign(MightAssigned(p), path).Ok?
    requires |p| == |path| && FirstDifference(p, path, 0, |p|) == |p| - 1
    ensures Accounted(Assign(MightAssigned(p), path).value, path, counter, Plus(n, path, Once()))
  {
    hide Plus, Consistent, Leaves;
    AcceptedReplaces(p, path, counter, n);
    var i := AcceptedFork(p, path);
    LastBranch(p, path);
    var q, id := path[..i], path[i].id;
    var m := Plus(n, path, Once());
    forall o
      ensures Consistent(q, o) ==> m(o) == 1
      ensures m(o) == 1 ==> Consistent(q, o) || Leaves(q, o)
    {
      BothBranches(q, id, o);
      if Leaves(p, o) {
        LeavesAbove(q, id, o);
      }
    }
    NoForkPrefix(q, path);
    if i == 0 {
      NoConditions();
    }
  }

  lemma NoConditions()
    ensures forall o :: Consistent([], o) && !Leaves([], o)
  {}

  /** An accepted assignment keeps the account. */
  lemma AcceptedIsAccounted(state: AssignmentState, path: seq<Condition>, counter: nat, n: Outcome -> nat)
    requires Accounted(state, path, counter, n) && Assign(state, path).Ok?
    ensures Accounted(Assign(state, path).value, path, counter, Plus(n, path, Once()))
  {
    match state
    case NoAssigned =>
    case MightAssigned(p) =>
      var i := AcceptedFork(p, path);
      if i == Min(|p|, |path|) - 1 && |p| == |path| {
        AcceptedMerges(p, path, counter, n);
      } else {
        AcceptedReplaces(p, path, counter, n);
      }
  }

  // ------------------------------------------------------------------ entering and leaving branches

  lemma SameCounts(state: AssignmentState, path: seq<Condition>, counter: nat, n: Outcome -> nat, m: Outcome -> nat)
    requires Accounted(state, path, counter, n) && forall o :: n(o) == m(o)
    ensures Accounted(state, path, counter, m)
  {}

  /** A fresh condition, or a higher counter, changes nothing. */
  lemma Enter(state: AssignmentState, path: seq<Condition>, counter: nat, n: Outcome -> nat)
    requires Accounted(state, path, counter, n)
    ensures Accounted(state, path + [Condition(counter, true)], counter + 1, n)
  {
    var longer := path + [Condition(counter, true)];
  }

  /** After the true branch comes the false one. */
  lemma Flip(state: AssignmentState, path: seq<Condition>, id: nat, counter: nat, n: Outcome -> nat)
    requires Accounted(state, path + [Condition(id, true)], counter, n)
    ensures Accounted(state, path + [Condition(id, false)], counter, n)
  {
    var t, f := path + [Condition(id, true)], path + [Condition(id, false)];
    assert forall i :: 0 <= i < |f| ==> f[i].id == t[i].id;
    if state.MightAssigned? {
      var p := state.path;
      forall i: nat | ForkAt(p, f, i)
        ensures (p[i].id == f[i].id && p[i].branch && !f[i].branch) || (forall j :: i <= j < |p| ==> p[j].id < f[i].id)
      {
        if i == |path| && p[i] != Condition(id, true) {
          assert t[..i] == f[..i];
          assert ForkAt(p, t, i);
        }
      }
    }
  }

  lemma Leave(state: AssignmentState, path: seq<Condition>, id: nat, branch: bool, counter: nat, n: Outcome -> nat)
    requires Accounted(state, path + [Condition(id, branch)], counter, n)
    ensures Accounted(state, path, counter, n)
  {
    var longer := path + [Condition(id, branch)];
    assert forall i :: 0 <= i < |path| ==> longer[i] == path[i];
    if state.MightAssigned? {
      forall i: nat | ForkAt(state.path, path, i)
        ensures || (state.path[i].id == path[i].id && state.path[i].branch && !path[i].branch)
                || (forall j :: i <= j < |state.path| ==> state.path[j].id < path[i].id)
      {
        assert ForkAt(state.path, longer, i);
      }
    }
  }

  // ------------------------------------------------------------------ whole programs

  ghost function Counts(s: Statement, cell: nat, counter: nat): Outcome -> nat {
    (o: Outcome) => Count(s, cell, counter, o)
  }

  /** Some outcome that follows the path assigns twice. */
  ghost predicate Twice(path: seq<Condition>, n: Outcome -> nat) {
    exists o :: Consistent(path, o) && n(o) >= 2
  }

  /** What a run says, of the assignments before it and its own. */
  ghost predicate Judged(s: Statement, cell: nat, path: seq<Condition>, counter: nat, state: AssignmentState, n: Outcome -> nat) {
    match Run(s, cell, path, counter, state)
    case Ok(next) => Accounted(next, path, counter + Conditions(s), Plus(n, path, Counts(s, cell, counter)))
    case Err(_) => Twice(path, Plus(n, path, Counts(s, cell, counter)))
  }

  lemma {:induction false} RunIsJudged(s: Statement, cell: nat, path: seq<Condition>, counter: nat, state: AssignmentState, n: Outcome -> nat)
    requires Accounted(state, path, counter, n)
    ensures Judged(s, cell, path, counter, state, n)
    decreases s
  {
    hide Accounted, Consistent, Assign;
    match s
    case Other =>
      SameCounts(state, path, counter, n, Plus(n, path, Counts(s, cell, counter)));
    case Assignment(slice) =>
      AssignmentIsJudged(slice, cell, path, counter, state, n);
    case Sequence(a, b) =>
      RunIsJudged(a, cell, path, counter, state, n);
      var first := Run(a, cell, path, counter, state);
      if first.Ok? {
        RunIsJudged(b, cell, path, counter + Conditions(a), first.value, Plus(n, path, Counts(a, cell, counter)));
      }
      SequenceIsJudged(a, b, cell, path, counter, state, n);
    case IfKnown(value, t, e) =>
      if value {
        RunIsJudged(t, cell, path, counter, state, n);
        SameJudged(t, s, cell, path, counter, state, n);
      } else if e.Some? {
        RunIsJudged(e.value, cell, path, counter, state, n);
        SameJudged(e.value, s, cell, path, counter, state, n);
      } else {
        SameCounts(state, path, counter, n, Plus(n, path, Counts(s, cell, counter)));
      }
    case IfUnknown(t, e) =>
      Enter(state, path, counter, n);
      var pt, pf := path + [Condition(counter, true)], path + [Condition(counter, false)];
      RunIsJudged(t, cell, pt, counter + 1, state, n);
      var first := Run(t, cell, pt, counter + 1, state);
      if first.Ok? && e.Some? {
        var m := Plus(n, pt, Counts(t, cell, counter + 1));
        Flip(first.value, path, counter, counter + 1 + Conditions(t), m);
        RunIsJudged(e.value, cell, pf, counter + 1 + Conditions(t), first.value, m);
      }
      BranchesAreJudged(t, e, cell, path, counter, state, n);
  }

  lemma AssignmentIsJudged(slice: seq<nat>, cell: nat, path: seq<Condition>, counter: nat, state: AssignmentState, n: Outcome -> nat)
    requires Accounted(state, path, counter, n)
    ensures Judged(Assignment(slice), cell, path, counter, state, n)
  {
    hide Accounted, Consistent, Assign;
    var m := Plus(n, path, Counts(Assignment(slice), cell, counter));
    if cell !in slice {
      SameCounts(state, path, counter, n, m);
    } else if Assign(state, path).Ok? {
      AcceptedIsAccounted(state, path, counter, n);
      SameCounts(Assign(state, path).value, path, counter, Plus(n, path, Once()), m);
    } else {
      var o := RefusedIsTwice(state, path, counter, n);
      assert m(o) == Plus(n, path, Once())(o);
    }
  }

  lemma SequenceCounts(a: Statement, b: Statement, cell: nat, path: seq<Condition>, counter: nat, n: Outcome -> nat, o: Outcome)
    ensures var na := Plus(n, path, Counts(a, cell, counter));
            var m := Plus(n, path, Counts(Sequence(a, b), cell, counter));
            m(o) == Plus(na, path, Counts(b, cell, counter + Conditions(a)))(o) && m(o) >= na(o)
  {
    hide Consistent, Conditions;
  }

  lemma SequenceSteps(a: Statement, b: Statement, cell: nat, path: seq<Condition>, counter: nat, state: AssignmentState)
    ensures Conditions(Sequence(a, b)) == Conditions(a) + Conditions(b)
    ensures var first := Run(a, cell, path, counter, state);
            Run(Sequence(a, b), cell, path, counter, state) ==
            if first.Ok? then Run(b, cell, path, counter + Conditions(a), first.value) else first
  {}

  lemma TwiceMore(path: seq<Condition>, n: Outcome -> nat, m: Outcome -> nat)
    requires Twice(path, n) && forall o :: m(o) >= n(o)
    ensures Twice(path, m)
  {
    hide Consistent;
    var o :| Consistent(path, o) && n(o) >= 2;
    assert m(o) >= 2;
  }

  lemma SequenceIsJudged(a: Statement, b: Statement, cell: nat, path: seq<Condition>, counter: nat, state: AssignmentState, n: Outcome -> nat)
    requires Judged(a, cell, path, counter, state, n)
    requires var first := Run(a, cell, path, counter, state);
             first.Ok? ==> Judged(b, cell, path, counter + Conditions(a), first.value, Plus(n, path, Counts(a, cell, counter)))
    ensures Judged(Sequence(a, b), cell, path, counter, state, n)
  {
    hide Accounted, Twice, Assign, Plus, Counts, Run, Conditions;
    SequenceSteps(a, b, cell, path, counter, state);
    var first := Run(a, cell, path, counter, state);
    var na := Plus(n, path, Counts(a, cell, counter));
    var nb := Plus(na, path, Counts(b, cell, counter + Conditions(a)));
    var m := Plus(n, path, Counts(Sequence(a, b), cell, counter));
    forall o
      ensures m(o) == nb(o) && m(o) >= na(o)
    {
      SequenceCounts(a, b, cell, path, counter, n, o);
    }
    if first.Err? {
      TwiceMore(path, na, m);
    } else {
      var second := Run(b, cell, path, counter + Conditions(a), first.value);
      if second.Ok? {
        SameCounts(second.value, path, counter + Conditions(a) + Conditions(b), nb, m);
      } else {
        TwiceMore(path, nb, m);
      }
    }
  }

  lemma SameJudged(t: Statement, s: Statement, cell: nat, path: seq<Condition>, counter: nat, state: AssignmentState, n: Outcome -> nat)
    requires Judged(t, cell, path, counter, state, n) && Conditions(s) == Conditions(t)
    requires Run(s, cell, path, counter, state) == Run(t, cell, path, counter, state)
    requires forall o :: Count(s, cell, counter, o) == Count(t, cell, counter, o)
    ensures Judged(s, cell, path, counter, state, n)
  {
    hide Accounted, Consistent, Run, Count;
    var mt, ms := Plus(n, path, Counts(t, cell, counter)), Plus(n, path, Counts(s, cell, counter));
    assert forall o :: mt(o) == ms(o);
    var r := Run(t, cell, path, counter, state);
    if r.Ok? {
      SameCounts(r.value, path, counter + Conditions(t), mt, ms);
    } else {
      var o :| Consistent(path, o) && mt(o) >= 2;
      assert ms(o) >= 2;
    }
  }

  /** Outcomes that follow one branch of the last condition. */
  lemma InBranch(path: seq<Condition>, id: nat, branch: bool, o: Outcome)
    ensures Consistent(path + [Condition(id, branch)], o) <==> Consistent(path, o) && o(id) == branch
  {
    var longer := path + [Condition(id, branch)];
    if Consistent(longer, o) {
      assert longer[|path|] == Condition(id, branch);
      assert forall i :: 0 <= i < |path| ==> longer[i] == path[i];
    }
  }

  /** The counts of a conditional, branch by branch. */
  lemma BranchCounts(t: Statement, e: Option<Statement>, cell: nat, path: seq<Condition>, counter: nat, n: Outcome -> nat, o: Outcome)
    ensures var pt, pf := path + [Condition(counter, true)], path + [Condition(counter, false)];
            var nt := Plus(n, pt, Counts(t, cell, counter + 1));
            var m := Plus(n, path, Counts(IfUnknown(t, e), cell, counter));
            && (Consistent(pt, o) ==> Consistent(path, o) && m(o) == nt(o))
            && (Consistent(pf, o) ==> Consistent(path, o))
            && (e.None? ==> m(o) == nt(o))
            && (e.Some? ==> m(o) == Plus(nt, pf, Counts(e.value, cell, counter + 1 + Conditions(t)))(o))
  {
    hide Consistent, Conditions;
    InBranch(path, counter, true, o);
    InBranch(path, counter, false, o);
  }

  lemma BranchesAreJudged(t: Statement, e: Option<Statement>, cell: nat, path: seq<Condition>, counter: nat, state: AssignmentState, n: Outcome -> nat)
    requires Judged(t, cell, path + [Condition(counter, true)], counter + 1, state, n)
    requires var first := Run(t, cell, path + [Condition(counter, true)], counter + 1, state);
             first.Ok? && e.Some? ==>
               Judged(e.value, cell, path + [Condition(counter, false)], counter + 1 + Conditions(t), first.value,
                      Plus(n, path + [Condition(counter, true)], Counts(t, cell, counter + 1)))
    ensures Judged(IfUnknown(t, e), cell, path, counter, state, n)
  {
    hide Accounted, Consistent, Assign, Plus, Counts;
    var s := IfUnknown(t, e);
    var pt, pf := path + [Condition(counter, true)], path + [Condition(counter, false)];
    var first := Run(t, cell, pt, counter + 1, state);
    var nt := Plus(n, pt, Counts(t, cell, counter + 1));
    var m := Plus(n, path, Counts(s, cell, counter));
    if first.Err? {
      var o :| Consistent(pt, o) && nt(o) >= 2;
      BranchCounts(t, e, cell, path, counter, n, o);
    } else if e.None? {
      forall o
        ensures nt(o) == m(o)
      {
        BranchCounts(t, e, cell, path, counter, n, o);
      }
      SameCounts(first.value, pt, counter + 1 + Conditions(t), nt, m);
      Leave(first.value, path, counter, true, counter + 1 + Conditions(t), m);
    } else {
      BothAreJudged(t, e.value, cell, path, counter, first.value, n);
    }
  }

  /** The second branch, after an accepted first one. */
  lemma BothAreJudged(t: Statement, e: Statement, cell: nat, path: seq<Condition>, counter: nat, next: AssignmentState, n: Outcome -> nat)
    requires Judged(e, cell, path + [Condition(counter, false)], counter + 1 + Conditions(t), next,
                    Plus(n, path + [Condition(counter, true)], Counts(t, cell, counter + 1)))
    ensures var m := Plus(n, path, Counts(IfUnknown(t, Some(e)), cell, counter));
            match Run(e, cell, path + [Condition(counter, false)], counter + 1 + Conditions(t), next)
            case Ok(final) => Accounted(final, path, counter + Conditions(IfUnknown(t, Some(e))), m)
            case Err(_) => Twice(path, m)
  {
    hide Accounted, Consistent, Assign, Plus, Counts, Run;
    var pt, pf := path + [Condition(counter, true)], path + [Condition(counter, false)];
    var nt := Plus(n, pt, Counts(t, cell, counter + 1));
    var m := Plus(n, path, Counts(IfUnknown(t, Some(e)), cell, counter));
    var ne := Plus(nt, pf, Counts(e, cell, counter + 1 + Conditions(t)));
    var second := Run(e, cell, pf, counter + 1 + Conditions(t), next);
    if second.Ok? {
      forall o
        ensures ne(o) == m(o)
      {
        BranchCounts(t, Some(e), cell, path, counter, n, o);
      }
      var last := counter + 1 + Conditions(t) + Conditions(e);
      SameCounts(second.value, pf, last, ne, m);
      Leave(second.value, path, counter, false, last, m);
    } else {
      var o :| Consistent(pf, o) && ne(o) >= 2;
      BranchCounts(t, Some(e), cell, path, counter, n, o);
    }
  }

  /** The same, of a whole program: what every outcome does. */
  ghost predicate CountsAre(s: Statement, cell: nat, value: nat) {
    forall o: Outcome :: Count(s, cell, 0, o) == value
  }

  ghost predicate AtMostOnce(s: Statement, cell: nat) {
    forall o: Outcome :: Count(s, cell, 0, o) <= 1
  }

  ghost predicate OnceUnder(p: seq<Condition>, s: Statement, cell: nat) {
    forall o: Outcome :: Consistent(p, o) ==> Count(s, cell, 0, o) == 1
  }

  lemma AccountedCounts(state: AssignmentState, s: Statement, cell: nat)
    requires Accounted(state, [], Conditions(s), Counts(s, cell, 0))
    ensures AtMostOnce(s, cell)
    ensures state == Assigned ==> CountsAre(s, cell, 1)
    ensures state == NoAssigned <==> CountsAre(s, cell, 0)
    ensures state.MightAssigned? ==> OnceUnder(state.path, s, cell)
  {
    hide Count, Consistent, Leaves, Before, Numbered;
    var m := Counts(s, cell, 0);
    forall o: Outcome
      ensures m(o) == Count(s, cell, 0, o)
    {}
    if state.MightAssigned? {
      FollowConsistent(state.path, Conditions(s));
      assert m(Follow(state.path)) == 1;
      assert Count(s, cell, 0, Follow(state.path)) == 1;
    } else if state.Assigned? {
      assert Count(s, cell, 0, Follow([])) == 1;
    }
  }

  lemma JudgedCounts(s: Statement, cell: nat, n: Outcome -> nat)
    requires Judged(s, cell, [], 0, NoAssigned, n) && forall o :: n(o) == 0
    ensures match Run(s, cell, [], 0, NoAssigned)
            case Ok(state) => Accounted(state, [], Conditions(s), Counts(s, cell, 0))
            case Err(_) => !AtMostOnce(s, cell)
  {
    hide Run, Count, Accounted, Consistent;
    var total := Plus(n, [], Counts(s, cell, 0));
    NoConditions();
    forall o: Outcome
      ensures total(o) == Counts(s, cell, 0)(o) == Count(s, cell, 0, o)
    {
      assert Consistent([], o);
    }
    var r := Run(s, cell, [], 0, NoAssigned);
    if r.Ok? {
      SameCounts(r.value, [], Conditions(s), total, Counts(s, cell, 0));
    }
  }

  /**
   The compiler refuses a program for a signal exactly if some outcome of its conditions assigns the signal twice. When
   it accepts, the cell's final state is right about what every outcome does.
   */
  lemma AssignmentIsExact(s: Statement, cell: nat)
    ensures Run(s, cell, [], 0, NoAssigned).Ok? <==> AtMostOnce(s, cell)
    ensures Run(s, cell, [], 0, NoAssigned) == Ok(Assigned) ==> CountsAre(s, cell, 1)
    ensures Run(s, cell, [], 0, NoAssigned) == Ok(NoAssigned) <==> CountsAre(s, cell, 0)
    ensures forall p :: Run(s, cell, [], 0, NoAssigned) == Ok(MightAssigned(p)) ==> OnceUnder(p, s, cell)
  {
    hide Run, Count, Accounted, AtMostOnce, OnceUnder, Judged;
    var none: Outcome -> nat := (o: Outcome) => 0;
    NothingAccounted(none);
    RunIsJudged(s, cell, [], 0, NoAssigned, none);
    JudgedCounts(s, cell, none);
    var r := Run(s, cell, [], 0, NoAssigned);
    if r.Ok? {
      AccountedCounts(r.value, s, cell);
    } else {
      NeverIsOnce(s, cell);
    }
  }

  lemma NeverIsOnce(s: Statement, cell: nat)
    ensures CountsAre(s, cell, 0) ==> AtMostOnce(s, cell)
  {}

  lemma NothingAccounted(n: Outcome -> nat)
    requires forall o :: n(o) == 0
    ensures Accounted(NoAssigned, [], 0, n)
  {}
}
