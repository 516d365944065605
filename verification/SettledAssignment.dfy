/**
 When a signal ends as assigned (circom/constraint_generation/src/assignment_utils.rs, perform_signal_assignment): the
 state keeps one path, and merges it into its parent only when the other branch assigns the signal directly.
 */
module SettledAssignment {
  import opened Wrappers
  import opened SingleAssignment

  /** No assignment that is reached lists the cell. */
  predicate Never(s: Statement, cell: nat) {
    match s
    case Other => true
    case Assignment(slice) => cell !in slice
    case Sequence(a, b) => Never(a, cell) && Never(b, cell)
    case IfKnown(value, t, e) => if value then Never(t, cell) else e.Some? ==> Never(e.value, cell)
    case IfUnknown(t, e) => Never(t, cell) && (e.Some? ==> Never(e.value, cell))
  }

  /** One assignment lists the cell, and no unknown condition leads to it. */
  predicate Direct(s: Statement, cell: nat) {
    match s
    case Other => false
    case Assignment(slice) => cell in slice
    case Sequence(a, b) => (Direct(a, cell) && Never(b, cell)) || (Never(a, cell) && Direct(b, cell))
    case IfKnown(value, t, e) => if value then Direct(t, cell) else e.Some? && Direct(e.value, cell)
    case IfUnknown(_, _) => false
  }

  /** Every unknown condition above an assignment of the cell has an else branch that assigns it directly. */
  predicate Settled(s: Statement, cell: nat) {
    match s
    case Other => false
    case Assignment(slice) => cell in slice
    case Sequence(a, b) => (Settled(a, cell) && Never(b, cell)) || (Never(a, cell) && Settled(b, cell))
    case IfKnown(value, t, e) => if value then Settled(t, cell) else e.Some? && Settled(e.value, cell)
    case IfUnknown(t, e) => e.Some? && Settled(t, cell) && Direct(e.value, cell)
  }

  /** The state of a cell that is known to be assigned whenever the path is taken. */
  function Filled(path: seq<Condition>): AssignmentState {
    if path == [] then Assigned else MightAssigned(path)
  }

  /** The state keeps the path or a longer one. */
  ghost predicate Within(state: AssignmentState, path: seq<Condition>) {
    exists q :: path <= q && state == Filled(q)
  }

  /** The conditions the state keeps were met before. */
  ghost predicate Below(state: AssignmentState, counter: nat) {
    state.MightAssigned? ==> forall i :: 0 <= i < |state.path| ==> state.path[i].id < counter
  }

  ghost predicate PathBelow(path: seq<Condition>, counter: nat) {
    forall i :: 0 <= i < |path| ==> path[i].id < counter
  }

  /** The path goes on below another one, through conditions not met before. */
  ghost predicate Deeper(q: seq<Condition>, path: seq<Condition>, counter: nat) {
    path <= q && forall i :: |path| <= i < |q| ==> q[i].id >= counter
  }

  /** From this state no assignment under the path is accepted. */
  ghost predicate Blocked(state: AssignmentState, path: seq<Condition>, counter: nat) {
    forall q :: Deeper(q, path, counter) ==> Assign(state, q).Err?
  }

  /** The paths take different branches of one condition. */
  ghost predicate PartedAt(b: seq<Condition>, path: seq<Condition>, i: nat) {
    ForkAt(b, path, i) && b[i].id == path[i].id
  }

  function Front(path: seq<Condition>): seq<Condition>
    requires path != []
  {
    path[..|path| - 1]
  }

  lemma {:induction false} NeverKeeps(s: Statement, cell: nat, path: seq<Condition>, counter: nat, state: AssignmentState)
    requires Never(s, cell)
    ensures Run(s, cell, path, counter, state) == Ok(state)
  {
    match s
    case Other =>
    case Assignment(_) =>
    case Sequence(a, b) =>
      NeverKeeps(a, cell, path, counter, state);
      NeverKeeps(b, cell, path, counter + Conditions(a), state);
    case IfKnown(value, t, e) =>
      if value {
        NeverKeeps(t, cell, path, counter, state);
      } else if e.Some? {
        NeverKeeps(e.value, cell, path, counter, state);
      }
    case IfUnknown(t, e) =>
      NeverKeeps(t, cell, path + [Condition(counter, true)], counter + 1, state);
      if e.Some? {
        NeverKeeps(e.value, cell, path + [Condition(counter, false)], counter + 1 + Conditions(t), state);
      }
  }

  lemma BlockedBelow(state: AssignmentState, path: seq<Condition>, counter: nat, branch: bool, later: nat)
    requires Blocked(state, path, counter) && counter <= later
    ensures Blocked(state, path, later)
    ensures Blocked(state, path + [Condition(counter, branch)], later)
  {
    hide Assign;
    var longer := path + [Condition(counter, branch)];
    forall q | Deeper(q, longer, later)
      ensures Deeper(q, path, counter)
    {
      assert q[|path|] == longer[|path|];
      assert q[..|path|] == longer[..|path|] == path;
    }
  }

  /** A blocked cell is not assigned again. */
  lemma {:induction false} BlockedRuns(s: Statement, cell: nat, path: seq<Condition>, counter: nat, state: AssignmentState)
    requires Blocked(state, path, counter)
    ensures Run(s, cell, path, counter, state).Ok? <==> Never(s, cell)
  {
    hide Assign, Blocked;
    match s
    case Other =>
    case Assignment(slice) =>
      BlockedNow(state, path, counter);
    case Sequence(a, b) =>
      BlockedRuns(a, cell, path, counter, state);
      BlockedBelow(state, path, counter, true, counter + Conditions(a));
      BlockedRuns(b, cell, path, counter + Conditions(a), state);
      if Never(a, cell) {
        NeverKeeps(a, cell, path, counter, state);
      }
    case IfKnown(value, t, e) =>
      if value {
        BlockedRuns(t, cell, path, counter, state);
      } else if e.Some? {
        BlockedRuns(e.value, cell, path, counter, state);
      }
    case IfUnknown(t, e) =>
      BlockedBelow(state, path, counter, true, counter + 1);
      BlockedRuns(t, cell, path + [Condition(counter, true)], counter + 1, state);
      if Never(t, cell) {
        NeverKeeps(t, cell, path + [Condition(counter, true)], counter + 1, state);
      }
      if e.Some? {
        BlockedBelow(state, path, counter, false, counter + 1 + Conditions(t));
        BlockedRuns(e.value, cell, path + [Condition(counter, false)], counter + 1 + Conditions(t), state);
      }
  }

  lemma BlockedNow(state: AssignmentState, path: seq<Condition>, counter: nat)
    requires Blocked(state, path, counter)
    ensures Assign(state, path).Err?
  {
    assert Deeper(path, path, counter);
  }

  /** A cell that was assigned under the path is blocked there. */
  lemma WithinBlocks(state: AssignmentState, path: seq<Condition>, counter: nat)
    requires Within(state, path) && Below(state, counter)
    ensures Blocked(state, path, counter)
  {
    var b: seq<Condition> :| path <= b && state == Filled(b);
    forall q: seq<Condition> | Deeper(q, path, counter)
      ensures Assign(state, q).Err?
    {
      if b != [] && q != [] {
        assert forall k :: 0 <= k < |path| ==> b[k] == path[k] == q[k];
        assert |path| < |b| && |path| < |q| ==> b[|path|].id < counter <= q[|path|].id;
      }
    }
  }

  /** A cell that was assigned under the path's parent is blocked too. */
  lemma ParentBlocks(path: seq<Condition>, counter: nat)
    requires path != []
    ensures Blocked(Filled(Front(path)), path, counter)
  {
    var b := Front(path);
    forall q: seq<Condition> | Deeper(q, path, counter)
      ensures Assign(Filled(b), q).Err?
    {
      if b != [] {
        assert forall k :: 0 <= k < |b| ==> b[k] == path[k] == q[k];
      }
    }
  }

  /** What an accepted assignment does to a cell that was assigned under another branch. */
  lemma PartedAssigns(b: seq<Condition>, path: seq<Condition>, i: nat)
    requires PartedAt(b, path, i)
    ensures Assign(MightAssigned(b), path) ==
            Ok(if i == |path| - 1 && |b| == |path| then Filled(Front(path)) else MightAssigned(path))
  {
    var j := FirstDifference(b, path, 0, Min(|b|, |path|));
    assert forall k :: 0 <= k < i ==> b[k] == b[..i][k] == path[k];
    assert i == j;
  }

  /** The last conditions differ, and nothing else. */
  ghost predicate Sibling(b: seq<Condition>, path: seq<Condition>, i: nat) {
    i == |path| - 1 && |b| == |path|
  }

  lemma PartedPath(b: seq<Condition>, path: seq<Condition>, i: nat)
    requires PartedAt(b, path, i)
    ensures path != []
  {}

  lemma PartedBelow(b: seq<Condition>, path: seq<Condition>, i: nat, counter: nat, branch: bool)
    requires PartedAt(b, path, i) && PathBelow(b, counter)
    ensures PartedAt(b, path + [Condition(counter, branch)], i) && !Sibling(b, path + [Condition(counter, branch)], i)
  {
    assert (path + [Condition(counter, branch)])[..i] == path[..i];
  }

  lemma WithinShorter(state: AssignmentState, path: seq<Condition>, c: Condition)
    requires Within(state, path + [c])
    ensures Within(state, path) && state != Filled(path)
  {
    var q :| path + [c] <= q && state == Filled(q);
    assert path <= path + [c] <= q;
  }

  /** The true branch is done, the false one starts. */
  lemma WithinParts(state: AssignmentState, path: seq<Condition>, counter: nat) returns (b: seq<Condition>)
    requires Within(state, path + [Condition(counter, true)])
    ensures state == MightAssigned(b) && PartedAt(b, path + [Condition(counter, false)], |path|)
    ensures Sibling(b, path + [Condition(counter, false)], |path|) <==> state == Filled(path + [Condition(counter, true)])
  {
    var t := path + [Condition(counter, true)];
    b :| t <= b && state == Filled(b);
    assert b[..|path|] == t[..|path|] == (path + [Condition(counter, false)])[..|path|];
    assert b[|path|] == t[|path|];
    if |b| == |t| {
      assert b == t;
    }
  }

  lemma WithinNotFront(state: AssignmentState, path: seq<Condition>)
    requires Within(state, path) && path != []
    ensures state != Filled(Front(path))
  {}

  lemma FilledWithin(path: seq<Condition>)
    ensures Within(Filled(path), path)
  {}

  lemma DirectAssigns(s: Statement, cell: nat)
    ensures Direct(s, cell) ==> !Never(s, cell) && Settled(s, cell)
    ensures Settled(s, cell) ==> !Never(s, cell)
  {}

  /** A cell that is blocked after the first part is kept by the second, or the second is refused. */
  lemma ThenNever(s: Statement, cell: nat, path: seq<Condition>, counter: nat, state: AssignmentState)
    requires Below(state, counter)
    requires Within(state, path) || (path != [] && state == Filled(Front(path)))
    ensures Run(s, cell, path, counter, state) == (if Never(s, cell) then Ok(state) else Err(MultipleAssignments))
  {
    hide Within, Blocked, Assign;
    if Within(state, path) {
      WithinBlocks(state, path, counter);
    } else {
      ParentBlocks(path, counter);
    }
    BlockedRuns(s, cell, path, counter, state);
    if Never(s, cell) {
      NeverKeeps(s, cell, path, counter, state);
    }
    var r := Run(s, cell, path, counter, state);
    assert r.Err? ==> r.error == MultipleAssignments;
  }

  /** The else branch, after a true branch that assigned the cell. */
  lemma {:induction false} FalseBranch(e: Option<Statement>, cell: nat, path: seq<Condition>, counter: nat, next: nat, state: AssignmentState)
    requires Within(state, path + [Condition(counter, true)]) && Below(state, next) && PathBelow(path, counter) && counter < next
    ensures e.None? ==> Within(state, path) && state != Filled(path)
    ensures e.Some? ==>
              var r := Run(e.value, cell, path + [Condition(counter, false)], next, state);
              && (r.Ok? ==> Below(r.value, next + Conditions(e.value)) && Within(r.value, path))
              && (r == Ok(Filled(path)) <==> state == Filled(path + [Condition(counter, true)]) && Direct(e.value, cell))
    decreases e
  {
    hide Assign, Within, Blocked, ForkAt;
    var pf := path + [Condition(counter, false)];
    WithinShorter(state, path, Condition(counter, true));
    if e.Some? {
      DirectAssigns(e.value, cell);
      if Never(e.value, cell) {
        NeverKeeps(e.value, cell, pf, next, state);
      } else {
        var b := WithinParts(state, path, counter);
        PartedRuns(e.value, cell, pf, next, b, |path|);
        assert Front(pf) == path;
        FilledWithin(path);
        var r := Run(e.value, cell, pf, next, state);
        if r.Ok? && Within(r.value, pf) {
          WithinShorter(r.value, path, Condition(counter, false));
        }
      }
    }
  }

  /** A cell assigned under another branch ends under the path, or is merged into the parent by a direct assignment. */
  lemma {:induction false} PartedRuns(s: Statement, cell: nat, path: seq<Condition>, counter: nat, b: seq<Condition>, i: nat)
    requires PartedAt(b, path, i) && PathBelow(b, counter) && PathBelow(path, counter) && !Never(s, cell)
    ensures var r := Run(s, cell, path, counter, MightAssigned(b));
            && (r.Ok? ==> Below(r.value, counter + Conditions(s)))
            && (r.Ok? ==> Within(r.value, path) || (r.value == Filled(Front(path)) && Sibling(b, path, i)))
            && (Sibling(b, path, i) ==> (r == Ok(Filled(Front(path))) <==> Direct(s, cell)))
    decreases s, 1
  {
    hide Assign, Within, Blocked, ForkAt;
    var state := MightAssigned(b);
    DirectAssigns(s, cell);
    PartedPath(b, path, i);
    match s
    case Assignment(slice) =>
      PartedAssigns(b, path, i);
      FilledWithin(path);
      WithinNotFront(Filled(path), path);
    case Sequence(s1, s2) =>
      DirectAssigns(s1, cell);
      if Never(s1, cell) {
        NeverKeeps(s1, cell, path, counter, state);
        PartedRuns(s2, cell, path, counter + Conditions(s1), b, i);
      } else {
        PartedRuns(s1, cell, path, counter, b, i);
        var first := Run(s1, cell, path, counter, state);
        if first.Ok? {
          ThenNever(s2, cell, path, counter + Conditions(s1), first.value);
          if Within(first.value, path) {
            WithinNotFront(first.value, path);
          }
        }
      }
    case IfKnown(value, t, e) =>
      if value {
        PartedRuns(t, cell, path, counter, b, i);
      } else {
        PartedRuns(e.value, cell, path, counter, b, i);
      }
    case IfUnknown(t, e) =>
      PartedBranches(t, e, cell, path, counter, b, i);
  }

  lemma {:induction false} PartedBranches(t: Statement, e: Option<Statement>, cell: nat, path: seq<Condition>, counter: nat, b: seq<Condition>, i: nat)
    requires PartedAt(b, path, i) && PathBelow(b, counter) && PathBelow(path, counter) && !Never(IfUnknown(t, e), cell)
    ensures var r := Run(IfUnknown(t, e), cell, path, counter, MightAssigned(b));
            && (r.Ok? ==> Below(r.value, counter + Conditions(IfUnknown(t, e))) && Within(r.value, path))
            && r != Ok(Filled(Front(path)))
    decreases IfUnknown(t, e), 0
  {
    hide Assign, Within, Blocked, ForkAt, Below;
    var state := MightAssigned(b);
    PartedPath(b, path, i);
    DirectAssigns(t, cell);
    var pt, pf, next := path + [Condition(counter, true)], path + [Condition(counter, false)], counter + 1 + Conditions(t);
    PartedBelow(b, path, i, counter, true);
    PartedBelow(b, path, i, counter, false);
    if Never(t, cell) {
      NeverKeeps(t, cell, pt, counter + 1, state);
      PartedRuns(e.value, cell, pf, next, b, i);
      var r := Run(e.value, cell, pf, next, state);
      if r.Ok? {
        WithinShorter(r.value, path, Condition(counter, false));
        WithinNotFront(r.value, path);
      }
    } else {
      PartedRuns(t, cell, pt, counter + 1, b, i);
      var first := Run(t, cell, pt, counter + 1, state);
      if first.Ok? {
        FalseBranch(e, cell, path, counter, next, first.value);
        var r := Run(IfUnknown(t, e), cell, path, counter, state);
        if r.Ok? {
          WithinNotFront(r.value, path);
        }
      }
    }
  }

  /** A cell not assigned before ends under the path, and exactly at the path if the statement settles it. */
  lemma {:induction false} FreshRuns(s: Statement, cell: nat, path: seq<Condition>, counter: nat)
    requires PathBelow(path, counter) && !Never(s, cell)
    ensures var r := Run(s, cell, path, counter, NoAssigned);
            && (r.Ok? ==> Below(r.value, counter + Conditions(s)) && Within(r.value, path))
            && (r == Ok(Filled(path)) <==> Settled(s, cell))
    decreases s, 1
  {
    hide Assign, Within, Blocked, ForkAt;
    match s
    case Assignment(slice) =>
      FreshAssign(path);
      FilledWithin(path);
    case Sequence(s1, s2) =>
      DirectAssigns(s1, cell);
      if Never(s1, cell) {
        NeverKeeps(s1, cell, path, counter, NoAssigned);
        FreshRuns(s2, cell, path, counter + Conditions(s1));
      } else {
        FreshRuns(s1, cell, path, counter);
        var first := Run(s1, cell, path, counter, NoAssigned);
        if first.Ok? {
          ThenNever(s2, cell, path, counter + Conditions(s1), first.value);
        }
      }
    case IfKnown(value, t, e) =>
      if value {
        FreshRuns(t, cell, path, counter);
      } else {
        FreshRuns(e.value, cell, path, counter);
      }
    case IfUnknown(t, e) =>
      FreshBranches(t, e, cell, path, counter);
  }

  lemma {:induction false} FreshBranches(t: Statement, e: Option<Statement>, cell: nat, path: seq<Condition>, counter: nat)
    requires PathBelow(path, counter) && !Never(IfUnknown(t, e), cell)
    ensures var r := Run(IfUnknown(t, e), cell, path, counter, NoAssigned);
            && (r.Ok? ==> Below(r.value, counter + Conditions(IfUnknown(t, e))) && Within(r.value, path))
            && (r == Ok(Filled(path)) <==> e.Some? && Settled(t, cell) && Direct(e.value, cell))
    decreases IfUnknown(t, e), 0
  {
    hide Assign, Within, Blocked, ForkAt, Below;
    var pt, pf, next := path + [Condition(counter, true)], path + [Condition(counter, false)], counter + 1 + Conditions(t);
    DirectAssigns(t, cell);
    if Never(t, cell) {
      NeverKeeps(t, cell, pt, counter + 1, NoAssigned);
      FreshRuns(e.value, cell, pf, next);
      var r := Run(e.value, cell, pf, next, NoAssigned);
      if r.Ok? {
        WithinShorter(r.value, path, Condition(counter, false));
      }
    } else {
      FreshRuns(t, cell, pt, counter + 1);
      var first := Run(t, cell, pt, counter + 1, NoAssigned);
      if first.Ok? {
        FalseBranch(e, cell, path, counter, next, first.value);
      }
    }
  }

  lemma FreshAssign(path: seq<Condition>)
    ensures Assign(NoAssigned, path) == Ok(Filled(path))
  {}

  /** The final state is Assigned exactly if the program settles the cell. */
  lemma AssignedIsSettled(s: Statement, cell: nat)
    ensures Run(s, cell, [], 0, NoAssigned) == Ok(Assigned) <==> Settled(s, cell)
  {
    hide Run;
    DirectAssigns(s, cell);
    if Never(s, cell) {
      NeverKeeps(s, cell, [], 0, NoAssigned);
    } else {
      FreshRuns(s, cell, [], 0);
    }
  }

  /** A signal assigned once on every outcome ends as Assigned exactly if the program settles it; otherwise it stays perhaps assigned. */
  lemma AlwaysAssignedExactly(s: Statement, cell: nat)
    requires CountsAre(s, cell, 1)
    ensures Settled(s, cell) ==> Run(s, cell, [], 0, NoAssigned) == Ok(Assigned)
    ensures !Settled(s, cell) ==> exists p :: Run(s, cell, [], 0, NoAssigned) == Ok(MightAssigned(p))
  {
    hide Run, Count, Settled;
    AssignedIsSettled(s, cell);
    AssignmentIsExact(s, cell);
    OnceIsNotNever(s, cell);
    var r := Run(s, cell, [], 0, NoAssigned);
    if !Settled(s, cell) {
      assert r == Ok(MightAssigned(r.value.path));
    }
  }

  lemma OnceIsNotNever(s: Statement, cell: nat)
    requires CountsAre(s, cell, 1)
    ensures AtMostOnce(s, cell) && !CountsAre(s, cell, 0)
  {
    hide Count;
    assert Count(s, cell, 0, Follow([])) == 1;
  }

  /** if c0 { x } else { if c1 { x } else { x } } */
  const ALWAYS := IfUnknown(Assignment([0]), Some(IfUnknown(Assignment([0]), Some(Assignment([0])))))

  /** The converse for `Assigned` fails: a signal assigned exactly once on every outcome may be left as perhaps assigned. */
  lemma AlwaysAssignedUnnoticed()
    ensures forall o: Outcome :: Count(ALWAYS, 0, 0, o) == 1
    ensures Run(ALWAYS, 0, [], 0, NoAssigned) == Ok(MightAssigned([Condition(0, false)]))
    ensures !Settled(ALWAYS, 0)
  {
    var a, b := [Condition(0, false), Condition(1, true)], [Condition(0, false), Condition(1, false)];
    assert [] + [Condition(0, true)] == [Condition(0, true)] && [] + [Condition(0, false)] == [Condition(0, false)];
    assert [Condition(0, false)] + [Condition(1, true)] == a && [Condition(0, false)] + [Condition(1, false)] == b;
    assert Assign(MightAssigned([Condition(0, true)]), a) == Ok(MightAssigned(a));
    assert FirstDifference(a, b, 0, 2) == 1;
    assert b[..1] == [Condition(0, false)];
    assert Assign(MightAssigned(a), b) == Ok(MightAssigned([Condition(0, false)]));
  }
}
