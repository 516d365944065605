/**
 The quadratic constraints: their storage, the index from signals to constraints, and the
 propagation of substitutions through it (circom_algebra/src/constraint_storage,
 circom/constraint_list/src/non_linear_utils.rs and constraint_simplification.rs).
 */
module NonLinear {
  import opened Wrappers
  import opened LinearForms
  import opened Algebra
  import opened Rows
  import opened Orders
  import opened Elimination
  import opened EncodedSubstitution

  class ConstraintStorage {
    var constraints: seq<Constraint>

    constructor ()
      ensures constraints == []
    {
      constraints := [];
    }

    method AddConstraint(constraint: Constraint) returns (id: nat)
      modifies this
      ensures id == |old(constraints)| && constraints == old(constraints) + [constraint]
    {
      id := |constraints|;
      constraints := constraints + [constraint];
    }

    function ReadConstraint(id: nat): Option<Constraint>
      reads this
    {
      if id < |constraints| then Some(constraints[id]) else None
    }

    method Replace(id: nat, constraint: Constraint)
      modifies this
      ensures constraints == if id < |old(constraints)| then old(constraints)[id := constraint] else old(constraints)
    {
      if id < |constraints| {
        constraints := constraints[id := constraint];
      }
    }

    /** Removes the constraints the filter accepts; the others keep their order. */
    method ExtractWith(filter: Constraint -> bool) returns (removed: seq<Constraint>)
      modifies this
      ensures constraints == Select(old(constraints), filter, false)
      ensures removed == Select(old(constraints), filter, true)
    {
      var all := constraints;
      constraints, removed := [], [];
      for i := 0 to |all|
        invariant constraints == Select(all[..i], filter, false)
        invariant removed == Select(all[..i], filter, true)
      {
        PrefixStep(all, i);
        assert all[..i + 1][..i] == all[..i];
        if filter(all[i]) {
          removed := removed + [all[i]];
        } else {
          constraints := constraints + [all[i]];
        }
      }
      PrefixAll(all);
    }
  }

  /** The constraints on which the filter answers `answer`. */
  ghost function Select(cs: seq<Constraint>, filter: Constraint -> bool, answer: bool): seq<Constraint> {
    if |cs| == 0 then []
    else
      Select(cs[..|cs| - 1], filter, answer)
      + (if filter(cs[|cs| - 1]) == answer then [cs[|cs| - 1]] else [])
  }

  lemma {:induction false} SelectMembers(cs: seq<Constraint>, filter: Constraint -> bool, answer: bool, c: Constraint)
    ensures c in Select(cs, filter, answer) <==> c in cs && filter(c) == answer
  {
    if |cs| > 0 {
      SelectMembers(cs[..|cs| - 1], filter, answer, c);
      assert cs == cs[..|cs| - 1] + [cs[|cs| - 1]];
    }
  }

  // ------------------------------------------------------------------ the first propagation

  ghost predicate FramesHold(frames: seq<Encoded>, w: Assignment, p: int)
    requires p > 0
  {
    forall i :: 0 <= i < |frames| ==> EncodedHolds(frames[i], w, p)
  }

  /** The signals a set of signals becomes, frame after frame. */
  ghost function FramesImage(frames: seq<Encoded>, signals: set<nat>): set<nat> {
    if |frames| == 0 then signals
    else EncodedImage(frames[|frames| - 1], FramesImage(frames[..|frames| - 1], signals))
  }

  lemma ImageMonotonic(enc: Encoded, a: set<nat>, b: set<nat>)
    requires a <= b
    ensures EncodedImage(enc, a) <= EncodedImage(enc, b)
  {}

  /** A constraint after all frames. */
  ghost predicate Framed(frames: seq<Encoded>, c: Constraint, r: Constraint, p: int)
    requires p > 0
  {
    && (forall w: Assignment :: FramesHold(frames, w, p) ==> (Holds(r, w, p) <==> Holds(c, w, p)))
    && Signals(r) <= FramesImage(frames, Signals(c))
    && CanonicalConstraint(r, p)
  }

  lemma FramedStep(frames: seq<Encoded>, i: nat, c: Constraint, r: Constraint, next: Constraint, p: int)
    requires p > 0 && i < |frames| && Framed(frames[..i], c, r, p) && Substituted(frames[i], r, next, p)
    ensures Framed(frames[..i + 1], c, next, p)
  {
    hide Holds, EncodedHolds, Signals, CanonicalConstraint, ReadsAs, EncodedImage;
    assert frames[..i + 1][..i] == frames[..i];
    ImageMonotonic(frames[i], Signals(r), FramesImage(frames[..i], Signals(c)));
    forall w: Assignment | FramesHold(frames[..i + 1], w, p)
      ensures Holds(next, w, p) <==> Holds(c, w, p)
    {
      assert frames[..i + 1][i] == frames[i];
      assert FramesHold(frames[..i], w, p) by {
        forall j | 0 <= j < i
          ensures EncodedHolds(frames[..i][j], w, p)
        {
          assert frames[..i + 1][j] == frames[..i][j];
        }
      }
    }
  }

  lemma FramedFixed(frames: seq<Encoded>, c: Constraint, r: Constraint, p: int)
    requires p > 0 && Framed(frames, c, r, p)
    ensures Framed(frames, c, FixConstraint(r, p), p)
    ensures IsLinear(FixConstraint(r, p)) ==> LinearRow(FixConstraint(r, p), p)
  {
    hide Holds, FixConstraint, Signals, CanonicalConstraint;
    FixShape(r, p);
    ReducedIsCanonical(FixConstraint(r, p), p);
    ReducedLinear(FixConstraint(r, p), p);
    forall w: Assignment
      ensures Holds(FixConstraint(r, p), w, p) <==> Holds(r, w, p)
    {
      FixHolds(r, w, p);
    }
  }

  lemma ReducedLinear(c: Constraint, p: int)
    requires ReducedConstraint(c, p)
    ensures IsLinear(c) ==> LinearRow(c, p)
  {}

  ghost predicate GoodFrames(frames: seq<Encoded>, forbidden: set<nat>, u: set<nat>, p: int) {
    forall i :: 0 <= i < |frames| ==> GoodEncoded(frames[i], forbidden, u, p) && SolvedEncoded(frames[i])
  }

  /** One quadratic constraint, frame after frame, then normalised. */
  method ApplyFrames(constraint: Constraint, frames: seq<Encoded>, ghost forbidden: set<nat>, ghost u: set<nat>, field: int)
    returns (r: Constraint)
    requires field > 0 && CanonicalConstraint(constraint, field) && GoodFrames(frames, forbidden, u, field)
    ensures Framed(frames, constraint, r, field)
    ensures IsLinear(r) ==> LinearRow(r, field)
  {
    hide Holds, Signals, CanonicalConstraint, GoodEncoded, SolvedEncoded, Substituted;
    r := constraint;
    for i := 0 to |frames|
      invariant Framed(frames[..i], constraint, r, field)
    {
      var next, applied := FastEncodedConstraintSubstitution(r, frames[i], forbidden, u, field);
      FramedStep(frames, i, constraint, r, next, field);
      r := next;
    }
    PrefixAll(frames);
    FramedFixed(frames, constraint, r, field);
    r := FixConstraint(r, field);
  }

  /** Constraints obtained from a list by the frames; every one of the list was treated. */
  ghost predicate FromSome(frames: seq<Encoded>, cs: seq<Constraint>, n: nat, rs: seq<Constraint>, p: int)
    requires p > 0 && n <= |cs|
  {
    forall r :: r in rs ==> exists i :: 0 <= i < n && Framed(frames, cs[i], r, p)
  }

  ghost predicate IntoSome(frames: seq<Encoded>, cs: seq<Constraint>, n: nat, rs: seq<Constraint>, p: int)
    requires p > 0 && n <= |cs|
  {
    forall i :: 0 <= i < n ==> exists r :: r in rs && Framed(frames, cs[i], r, p)
  }

  ghost predicate FromList(frames: seq<Encoded>, cs: seq<Constraint>, n: nat, rs: seq<Constraint>, p: int)
    requires p > 0 && n <= |cs|
  {
    FromSome(frames, cs, n, rs, p) && IntoSome(frames, cs, n, rs, p)
  }

  lemma FromSomeStep(frames: seq<Encoded>, cs: seq<Constraint>, n: nat, rs: seq<Constraint>, rs': seq<Constraint>, r: Constraint, p: int)
    requires p > 0 && n < |cs| && FromSome(frames, cs, n, rs, p) && Framed(frames, cs[n], r, p)
    requires forall c :: c in rs' ==> c in rs || c == r
    ensures FromSome(frames, cs, n + 1, rs', p)
  {
    hide Framed;
  }

  lemma IntoSomeStep(frames: seq<Encoded>, cs: seq<Constraint>, n: nat, rs: seq<Constraint>, rs': seq<Constraint>, r: Constraint, p: int)
    requires p > 0 && n < |cs| && IntoSome(frames, cs, n, rs, p) && Framed(frames, cs[n], r, p)
    requires r in rs' && forall c :: c in rs ==> c in rs'
    ensures IntoSome(frames, cs, n + 1, rs', p)
  {
    hide Framed;
  }

  lemma FromListStep(frames: seq<Encoded>, cs: seq<Constraint>, n: nat, rs: seq<Constraint>, rs': seq<Constraint>, r: Constraint, p: int)
    requires p > 0 && n < |cs| && FromList(frames, cs, n, rs, p) && Framed(frames, cs[n], r, p)
    requires forall c :: c in rs' <==> c in rs || c == r
    ensures FromList(frames, cs, n + 1, rs', p)
  {
    hide FromSome, IntoSome, Framed;
    FromSomeStep(frames, cs, n, rs, rs', r, p);
    IntoSomeStep(frames, cs, n, rs, rs', r, p);
  }

  lemma FromListHolds(frames: seq<Encoded>, cs: seq<Constraint>, rs: seq<Constraint>, w: Assignment, p: int)
    requires p > 0 && FromList(frames, cs, |cs|, rs, p) && FramesHold(frames, w, p)
    ensures AllHold(rs, w, p) <==> AllHold(cs, w, p)
  {
    hide FromSome, IntoSome, Framed, AllHold, FramesHold;
    IntoSomeHolds(frames, cs, rs, w, p);
    FromSomeHolds(frames, cs, rs, w, p);
  }

  lemma IntoSomeHolds(frames: seq<Encoded>, cs: seq<Constraint>, rs: seq<Constraint>, w: Assignment, p: int)
    requires p > 0 && IntoSome(frames, cs, |cs|, rs, p) && FramesHold(frames, w, p)
    ensures AllHold(rs, w, p) ==> AllHold(cs, w, p)
  {
    hide Holds, FramesHold, Signals, CanonicalConstraint;
    if AllHold(rs, w, p) {
      forall c | c in cs
        ensures Holds(c, w, p)
      {
        var i :| 0 <= i < |cs| && cs[i] == c;
        var r :| r in rs && Framed(frames, cs[i], r, p);
      }
    }
  }

  lemma FromSomeHolds(frames: seq<Encoded>, cs: seq<Constraint>, rs: seq<Constraint>, w: Assignment, p: int)
    requires p > 0 && FromSome(frames, cs, |cs|, rs, p) && FramesHold(frames, w, p)
    ensures AllHold(cs, w, p) ==> AllHold(rs, w, p)
  {
    hide Holds, FramesHold, Signals, CanonicalConstraint;
    if AllHold(cs, w, p) {
      forall r | r in rs
        ensures Holds(r, w, p)
      {
        var i :| 0 <= i < |cs| && Framed(frames, cs[i], r, p);
        assert cs[i] in cs;
      }
    }
  }

  /** Every constraint is quadratic, or was moved out. */
  ghost predicate NoneLinear(cs: seq<Constraint>) {
    forall k :: 0 <= k < |cs| ==> IsLinear(cs[k]) ==> cs[k] == EMPTY
  }

  /**
   Pushes the substitutions into the quadratic constraints, given in the order of the circuit's tree; those that
   become linear are returned, the others stored.
   */
  method ObtainAndSimplifyNonLinear(nonLinear: seq<Constraint>, storage: ConstraintStorage, frames: seq<Encoded>,
                                    ghost forbidden: set<nat>, ghost u: set<nat>, field: int)
    returns (linear: seq<Constraint>, ghost framed: seq<Constraint>)
    requires field > 0 && storage.constraints == [] && GoodFrames(frames, forbidden, u, field)
    requires forall c :: c in nonLinear ==> CanonicalConstraint(c, field)
    modifies storage
    ensures FromList(frames, nonLinear, |nonLinear|, linear + storage.constraints, field)
    ensures |framed| == |nonLinear| && forall i :: 0 <= i < |framed| ==> Framed(frames, nonLinear[i], framed[i], field)
    ensures linear == Select(framed, IsLinear, true) && storage.constraints == Select(framed, IsLinear, false)
    ensures forall c :: c in linear ==> LinearRow(c, field)
    ensures NoneLinear(storage.constraints)
  {
    hide Framed, CanonicalConstraint, LinearRow, GoodFrames, FromList;
    linear, framed := [], [];
    EmptyFromList(frames, nonLinear, field);
    for i := 0 to |nonLinear|
      invariant FromList(frames, nonLinear, i, linear + storage.constraints, field)
      invariant |framed| == i && forall j :: 0 <= j < i ==> Framed(frames, nonLinear[j], framed[j], field)
      invariant linear == Select(framed, IsLinear, true) && storage.constraints == Select(framed, IsLinear, false)
      invariant forall c :: c in linear ==> LinearRow(c, field)
      invariant NoneLinear(storage.constraints)
    {
      assert nonLinear[i] in nonLinear;
      var constraint := ApplyFrames(nonLinear[i], frames, forbidden, u, field);
      ghost var before := linear + storage.constraints;
      if IsLinear(constraint) {
        linear := linear + [constraint];
      } else {
        var id := storage.AddConstraint(constraint);
      }
      FromListStep(frames, nonLinear, i, before, linear + storage.constraints, constraint, field);
      framed := framed + [constraint];
      assert framed[..i] + [constraint] == framed;
    }
  }

  lemma EmptyFromList(frames: seq<Encoded>, cs: seq<Constraint>, p: int)
    requires p > 0
    ensures FromList(frames, cs, 0, [] + [], p)
  {}

  // ------------------------------------------------------------------ the index

  type SignalToConstraints = map<nat, seq<nat>>

  /** Every signal of a stored constraint lists that constraint. */
  ghost predicate IndexCovers(index: SignalToConstraints, cs: seq<Constraint>) {
    forall id: nat, s: nat :: id < |cs| && s in Signals(cs[id]) ==> s in index && id in index[s]
  }

  /** The index lists stored constraints only. */
  ghost predicate IndexWithin(index: SignalToConstraints, n: nat) {
    forall s: nat, id: nat :: s in index && id in index[s] ==> id < n
  }

  function AddToIndex(index: SignalToConstraints, signal: nat, id: nat): SignalToConstraints {
    index[signal := (if signal in index then index[signal] else []) + [id]]
  }

  ghost predicate IndexGrows(index: SignalToConstraints, index': SignalToConstraints) {
    index.Keys <= index'.Keys && forall s: nat, id: nat :: s in index && id in index[s] ==> id in index'[s]
  }

  /** Lists a constraint under every one of some signals. */
  method AddAllToIndex(index: SignalToConstraints, signals: set<nat>, id: nat) returns (index': SignalToConstraints)
    ensures IndexGrows(index, index') && index'.Keys == index.Keys + signals
    ensures forall s: nat :: s in signals ==> id in index'[s]
    ensures forall s: nat, k: nat :: s in index' && k in index'[s] ==> k == id || (s in index && k in index[s])
  {
    index' := index;
    var todo := signals;
    while todo != {}
      invariant todo <= signals && IndexGrows(index, index')
      invariant index'.Keys == index.Keys + (signals - todo)
      invariant forall s: nat :: s in signals && s !in todo ==> id in index'[s]
      invariant forall s: nat, k: nat :: s in index' && k in index'[s] ==> k == id || (s in index && k in index[s])
      decreases todo
    {
      var signal :| signal in todo;
      index' := AddToIndex(index', signal, id);
      todo := todo - {signal};
    }
  }

  method BuildNonLinearSignalMap(nonLinear: ConstraintStorage) returns (index: SignalToConstraints)
    ensures IndexCovers(index, nonLinear.constraints) && IndexWithin(index, |nonLinear.constraints|)
    ensures index.Keys == SignalsOf(nonLinear.constraints)
  {
    index := map[];
    for id := 0 to |nonLinear.constraints|
      invariant forall k: nat, s: nat :: k < id && s in Signals(nonLinear.constraints[k]) ==> s in index && k in index[s]
      invariant IndexWithin(index, id)
      invariant forall s :: s in index ==> s in SignalsOf(nonLinear.constraints)
    {
      var constraint := nonLinear.ReadConstraint(id).value;
      index := AddAllToIndex(index, Signals(constraint), id);
    }
  }

  // ------------------------------------------------------------------ one substitution, through the index

  /** c with the signal replaced, perhaps more than once. */
  ghost predicate Changed(s: Substitution, c: Constraint, r: Constraint, p: int)
    requires p > 0
  {
    && (forall w: Assignment :: SubHolds(s, w, p) ==> (Holds(r, w, p) <==> Holds(c, w, p)))
    && Signals(r) <= (Signals(c) - {s.from}) + (s.to.Keys - {CONSTANT})
    && (s.from !in Signals(c) ==> Signals(r) <= Signals(c))
    && CanonicalConstraint(r, p)
  }

  /** The same, normalised. */
  ghost predicate Updated(s: Substitution, c: Constraint, r: Constraint, p: int)
    requires p > 0
  {
    Changed(s, c, r, p) && (LinearRow(c, p) ==> LinearRow(r, p))
  }

  function UpdateConstraint(c: Constraint, s: Substitution, field: int): Constraint
    requires field > 0
  {
    FixConstraint(ApplySubstitution(c, s, field), field)
  }

  lemma UpdateMeans(c: Constraint, s: Substitution, p: int)
    requires p > 0 && CanonicalConstraint(c, p) && s.from != CONSTANT && s.from !in s.to
    ensures Updated(s, c, UpdateConstraint(c, s, p), p)
    ensures IsLinear(UpdateConstraint(c, s, p)) ==> LinearRow(UpdateConstraint(c, s, p), p)
  {
    hide Holds, SubHolds, FixConstraint, ApplySubstitution, Signals, CanonicalConstraint, LinearRow, Vanishing;
    var applied := ApplySubstitution(c, s, p);
    ApplySignals(c, s, p);
    ApplyAbsent(c, s, p);
    SubstituteVanishings(c, s, p);
    FixShape(applied, p);
    ReducedIsCanonical(FixConstraint(applied, p), p);
    ReducedLinear(FixConstraint(applied, p), p);
    if LinearRow(c, p) {
      RowVanishes(c, p);
      VanishingFixed(applied, p);
    }
    forall w: Assignment | SubHolds(s, w, p)
      ensures Holds(FixConstraint(applied, p), w, p) <==> Holds(c, w, p)
    {
      FixHolds(applied, w, p);
      ApplySame(c, s, w, p);
    }
  }

  /** A substitution of a signal that is not there adds none. */
  lemma ApplyAbsent(c: Constraint, s: Substitution, p: int)
    requires p > 0 && s.from != CONSTANT
    ensures s.from !in Signals(c) ==> Signals(ApplySubstitution(c, s, p)) <= Signals(c)
  {}

  lemma RowVanishes(c: Constraint, p: int)
    requires LinearRow(c, p)
    ensures Vanishing(c.a) && Vanishing(c.b)
  {}

  lemma UpdatedTwice(s: Substitution, c: Constraint, r: Constraint, next: Constraint, p: int)
    requires p > 0 && Updated(s, c, r, p) && Updated(s, r, next, p)
    ensures Updated(s, c, next, p)
  {}

  ghost predicate CanonicalAll(cs: seq<Constraint>, p: int) {
    forall i :: 0 <= i < |cs| ==> CanonicalConstraint(cs[i], p)
  }

  /** The listed constraints were updated, the others were not touched. */
  ghost predicate UpdatedAt(s: Substitution, olds: seq<Constraint>, news: seq<Constraint>, ids: seq<nat>, p: int)
    requires p > 0
  {
    && |news| == |olds|
    && (forall k :: 0 <= k < |olds| && k !in ids ==> news[k] == olds[k])
    && (forall k :: 0 <= k < |olds| && k in ids ==> Updated(s, olds[k], news[k], p))
  }

  lemma UpdatedAtStep(s: Substitution, olds: seq<Constraint>, news: seq<Constraint>, ids: seq<nat>, id: nat, r: Constraint, p: int)
    requires p > 0 && UpdatedAt(s, olds, news, ids, p) && id < |olds| && Updated(s, news[id], r, p)
    ensures UpdatedAt(s, olds, news[id := r], ids + [id], p)
  {
    hide Updated;
    if id in ids {
      UpdatedTwice(s, olds[id], news[id], r, p);
    }
  }

  lemma CanonicalReplace(cs: seq<Constraint>, id: nat, r: Constraint, p: int)
    requires CanonicalAll(cs, p) && id < |cs| && CanonicalConstraint(r, p)
    ensures CanonicalAll(cs[id := r], p)
  {}

  /** The index keeps covering the constraints when one is updated and listed under its new signals. */
  lemma CoversReplace(index: SignalToConstraints, index': SignalToConstraints, cs: seq<Constraint>, id: nat,
                      s: Substitution, r: Constraint, p: int)
    requires p > 0 && IndexCovers(index, cs) && IndexGrows(index, index') && id < |cs| && Updated(s, cs[id], r, p)
    requires s.to.Keys <= index'.Keys && forall k: nat :: k in s.to ==> id in index'[k]
    ensures IndexCovers(index', cs[id := r])
  {}

  /** Replaces a signal in the constraints listed under it; returns the ones that are linear afterwards. */
  method ConstraintProcessing(storage: ConstraintStorage, index: SignalToConstraints, ids: seq<nat>, substitution: Substitution, field: int)
    returns (index': SignalToConstraints, linear: seq<nat>)
    requires field > 0 && substitution.from != CONSTANT && substitution.from !in substitution.to
    requires CanonicalAll(storage.constraints, field)
    requires IndexCovers(index, storage.constraints) && IndexWithin(index, |storage.constraints|)
    requires forall id :: id in ids ==> id < |storage.constraints|
    modifies storage
    ensures UpdatedAt(substitution, old(storage.constraints), storage.constraints, ids, field)
    ensures CanonicalAll(storage.constraints, field)
    ensures IndexGrows(index, index')
    ensures IndexCovers(index', storage.constraints) && IndexWithin(index', |storage.constraints|)
    ensures forall id :: id in linear ==> id in ids && LinearRow(storage.constraints[id], field)
    ensures forall id :: id in ids && IsLinear(storage.constraints[id]) ==> id in linear
    ensures index'.Keys <= index.Keys + substitution.to.Keys
  {
    hide Updated, UpdatedAt, CanonicalConstraint, CanonicalAll, IndexCovers, Signals, LinearRow, UpdateConstraint, FixConstraint;
    ghost var olds := storage.constraints;
    index', linear := index, [];
    NothingUpdated(substitution, olds, field);
    for i := 0 to |ids|
      invariant |storage.constraints| == |olds|
      invariant UpdatedAt(substitution, olds, storage.constraints, ids[..i], field)
      invariant CanonicalAll(storage.constraints, field)
      invariant IndexGrows(index, index') && index'.Keys <= index.Keys + substitution.to.Keys
      invariant IndexCovers(index', storage.constraints) && IndexWithin(index', |storage.constraints|)
      invariant forall id :: id in linear ==> id in ids && LinearRow(storage.constraints[id], field)
      invariant forall j :: 0 <= j < i ==> ids[j] < |olds| && (IsLinear(storage.constraints[ids[j]]) ==> ids[j] in linear)
    {
      var id := ids[i];
      assert id in ids;
      PrefixStep(ids, i);
      ghost var before := storage.constraints;
      CanonicalAt(before, id, field);
      var constraint := UpdateConstraint(storage.ReadConstraint(id).value, substitution, field);
      UpdateMeans(before[id], substitution, field);
      UpdatedCanonical(substitution, before[id], constraint, field);
      UpdatedAtStep(substitution, olds, before, ids[..i], id, constraint, field);
      CanonicalReplace(before, id, constraint, field);
      if IsLinear(constraint) {
        linear := linear + [id];
      }
      storage.Replace(id, constraint);
      var next := AddAllToIndex(index', substitution.to.Keys, id);
      CoversReplace(index', next, before, id, substitution, constraint, field);
      index' := next;
    }
    PrefixAll(ids);
  }

  lemma NothingUpdated(s: Substitution, cs: seq<Constraint>, p: int)
    requires p > 0
    ensures UpdatedAt(s, cs, cs, [], p)
  {}

  lemma CanonicalAt(cs: seq<Constraint>, id: nat, p: int)
    requires CanonicalAll(cs, p) && id < |cs|
    ensures CanonicalConstraint(cs[id], p)
  {}

  lemma UpdatedCanonical(s: Substitution, c: Constraint, r: Constraint, p: int)
    requires p > 0 && Updated(s, c, r, p)
    ensures CanonicalConstraint(r, p) && (LinearRow(c, p) ==> LinearRow(r, p))
  {}

  // ------------------------------------------------------------------ a list of substitutions, through the index

  ghost function Targets(subs: seq<Substitution>): set<nat> {
    set s, k | s in subs && k in s.to && k != CONSTANT :: k
  }

  /** The first n substitutions have reached the constraint. */
  ghost predicate Propagated(subs: seq<Substitution>, n: nat, c: Constraint, r: Constraint, p: int)
    requires p > 0 && n <= |subs|
  {
    && (forall w: Assignment :: SubsHold(subs, w, p) ==> (Holds(r, w, p) <==> Holds(c, w, p)))
    && Signals(r) <= (Signals(c) + Targets(subs)) - Froms(subs[..n])
    && (Signals(c) !! Froms(subs) ==> Signals(r) <= Signals(c))
    && CanonicalConstraint(r, p)
  }

  ghost predicate PropagatedAll(subs: seq<Substitution>, n: nat, olds: seq<Constraint>, news: seq<Constraint>, p: int)
    requires p > 0 && n <= |subs|
  {
    |news| == |olds| && forall k :: 0 <= k < |olds| ==> Propagated(subs, n, olds[k], news[k], p)
  }

  lemma PropagatedStep(subs: seq<Substitution>, n: nat, c: Constraint, r: Constraint, next: Constraint, p: int)
    requires p > 0 && n < |subs| && Propagated(subs, n, c, r, p) && Changed(subs[n], r, next, p)
    requires Solved(subs)
    ensures Propagated(subs, n + 1, c, next, p)
  {
    hide Holds, SubHolds, Signals, CanonicalConstraint, LinearRow;
    assert subs[n] in subs && subs[n].from in Froms(subs);
    assert subs[n].to.Keys - {CONSTANT} <= Targets(subs);
    assert Froms(subs[..n + 1]) !! subs[n].to.Keys by {
      forall s | s in subs[..n + 1]
        ensures s.from !in subs[n].to
      {
        assert s in subs;
      }
    }
    assert forall w: Assignment :: SubsHold(subs, w, p) ==> SubHolds(subs[n], w, p);
  }

  /** Whatever the index does not list does not hold the signal. */
  lemma UntouchedStep(subs: seq<Substitution>, n: nat, c: Constraint, r: Constraint, p: int)
    requires p > 0 && n < |subs| && Propagated(subs, n, c, r, p) && subs[n].from !in Signals(r)
    ensures Propagated(subs, n + 1, c, r, p)
  {}

  lemma PropagatedAllStep(subs: seq<Substitution>, n: nat, olds: seq<Constraint>, curs: seq<Constraint>, news: seq<Constraint>,
                          index: SignalToConstraints, ids: seq<nat>, p: int)
    requires p > 0 && n < |subs| && Solved(subs) && PropagatedAll(subs, n, olds, curs, p)
    requires IndexCovers(index, curs) && UpdatedAt(subs[n], curs, news, ids, p)
    requires ids == if subs[n].from in index then index[subs[n].from] else []
    ensures PropagatedAll(subs, n + 1, olds, news, p)
  {
    hide Propagated, Changed, LinearRow, Signals;
    forall k | 0 <= k < |olds|
      ensures Propagated(subs, n + 1, olds[k], news[k], p)
    {
      if k in ids {
        PropagatedStep(subs, n, olds[k], curs[k], news[k], p);
      } else {
        UntouchedStep(subs, n, olds[k], curs[k], p);
      }
    }
  }

  lemma NothingPropagated(subs: seq<Substitution>, cs: seq<Constraint>, p: int)
    requires p > 0 && CanonicalAll(cs, p)
    ensures PropagatedAll(subs, 0, cs, cs, p)
  {}

  /** The constraints moved out, and those left in their places, say what the constraints said. */
  ghost predicate Extracted(cs: seq<Constraint>, rest: seq<Constraint>, moved: seq<Constraint>) {
    && |rest| == |cs|
    && (forall k :: 0 <= k < |cs| ==> rest[k] == cs[k] || (rest[k] == EMPTY && cs[k] in moved))
    && (forall c :: c in moved ==> c == EMPTY || c in cs)
  }

  lemma ExtractedStep(cs: seq<Constraint>, rest: seq<Constraint>, moved: seq<Constraint>, id: nat)
    requires Extracted(cs, rest, moved) && id < |cs|
    ensures Extracted(cs, rest[id := EMPTY], moved + [rest[id]])
  {}

  lemma ExtractedHolds(cs: seq<Constraint>, rest: seq<Constraint>, moved: seq<Constraint>, w: Assignment, p: int)
    requires p > 0 && Extracted(cs, rest, moved)
    ensures AllHold(cs, w, p) <==> AllHold(rest, w, p) && AllHold(moved, w, p)
  {
    hide Holds;
    EmptyHolds(w, p);
    if AllHold(cs, w, p) {
      forall c | c in rest
        ensures Holds(c, w, p)
      {
        var k :| 0 <= k < |rest| && rest[k] == c;
        assert cs[k] in cs;
      }
    }
    if AllHold(rest, w, p) && AllHold(moved, w, p) {
      forall c | c in cs
        ensures Holds(c, w, p)
      {
        var k :| 0 <= k < |cs| && cs[k] == c;
        assert rest[k] in rest;
      }
    }
  }

  /** The listed constraints in order, empty when listed before. */
  ghost function Taken(cs: seq<Constraint>, ids: seq<nat>): (r: seq<Constraint>)
    requires forall i :: 0 <= i < |ids| ==> ids[i] < |cs|
    ensures |r| == |ids|
  {
    if |ids| == 0 then []
    else
      var last := |ids| - 1;
      Taken(cs, ids[..last]) + [if ids[last] in ids[..last] then EMPTY else cs[ids[last]]]
  }

  /** Reads the constraints with these numbers, leaving empty ones behind. */
  method TakeConstraints(storage: ConstraintStorage, ids: seq<nat>, field: int) returns (taken: seq<Constraint>)
    requires forall i :: 0 <= i < |ids| ==> ids[i] < |storage.constraints| && LinearRow(storage.constraints[ids[i]], field)
    modifies storage
    ensures Extracted(old(storage.constraints), storage.constraints, taken)
    ensures forall c :: c in taken ==> LinearRow(c, field)
    ensures taken == Taken(old(storage.constraints), ids)
    ensures forall k :: 0 <= k < |storage.constraints| ==> storage.constraints[k] == if k in ids then EMPTY else old(storage.constraints[k])
  {
    hide LinearRow;
    ghost var cs := storage.constraints;
    taken := [];
    EmptyRow(field);
    for i := 0 to |ids|
      invariant Extracted(cs, storage.constraints, taken)
      invariant forall k :: 0 <= k < |cs| ==> storage.constraints[k] == cs[k] || storage.constraints[k] == EMPTY
      invariant forall c :: c in taken ==> LinearRow(c, field)
      invariant |storage.constraints| == |cs| && taken == Taken(cs, ids[..i])
      invariant forall k :: 0 <= k < |cs| ==> storage.constraints[k] == if k in ids[..i] then EMPTY else cs[k]
    {
      var id := ids[i];
      assert ids[..i + 1] == ids[..i] + [id];
      ExtractedStep(cs, storage.constraints, taken, id);
      var constraint := storage.ReadConstraint(id).value;
      taken := taken + [constraint];
      storage.Replace(id, EMPTY);
    }
    assert ids[..|ids|] == ids;
  }

  lemma EmptyRow(p: int)
    ensures LinearRow(EMPTY, p)
  {}

  /** What pushing a round's substitutions into the stored constraints promises. */
  ghost predicate RoundResult(subs: seq<Substitution>, olds: seq<Constraint>, mid: seq<Constraint>, news: seq<Constraint>,
                              linear: seq<Constraint>, p: int)
    requires p > 0
  {
    && PropagatedAll(subs, |subs|, olds, mid, p)
    && Extracted(mid, news, linear)
    && (forall c :: c in linear ==> LinearRow(c, p))
  }

  lemma ExtractedCovers(index: SignalToConstraints, cs: seq<Constraint>, rest: seq<Constraint>, moved: seq<Constraint>)
    requires IndexCovers(index, cs) && Extracted(cs, rest, moved)
    ensures IndexCovers(index, rest)
  {}

  /**
   Pushes substitutions into the stored constraints through the index, and moves the constraints that became linear
   out. A constraint is moved only if some substitution was applied.
   */
  method ApplySubstitutionToMap(storage: ConstraintStorage, index: SignalToConstraints, substitutions: seq<Substitution>,
                                ghost forbidden: set<nat>, ghost u: set<nat>, field: int)
    returns (index': SignalToConstraints, linear: seq<Constraint>, ghost mid: seq<Constraint>)
    requires field > 0 && Solved(substitutions) && GoodSubstitutions(substitutions, forbidden, u, field)
    requires CanonicalAll(storage.constraints, field)
    requires IndexCovers(index, storage.constraints) && IndexWithin(index, |storage.constraints|)
    modifies storage
    ensures RoundResult(substitutions, old(storage.constraints), mid, storage.constraints, linear, field)
    ensures IndexGrows(index, index') && index'.Keys <= index.Keys + Targets(substitutions) + {CONSTANT}
    ensures IndexCovers(index', storage.constraints) && IndexWithin(index', |storage.constraints|)
    ensures linear != [] ==> substitutions != []
    ensures NoneLinear(old(storage.constraints)) ==> NoneLinear(storage.constraints)
  {
    hide Propagated, Updated, UpdatedAt, CanonicalConstraint, CanonicalAll, IndexCovers, IndexWithin, Signals, LinearRow, Solved,
         GoodSubstitution, IndexGrows, Extracted, Targets;
    ghost var olds := storage.constraints;
    index' := index;
    var linearId: seq<nat> := [];
    NothingPropagated(substitutions, olds, field);
    IndexGrowsSelf(index);
    for i := 0 to |substitutions|
      invariant PropagatedAll(substitutions, i, olds, storage.constraints, field)
      invariant CanonicalAll(storage.constraints, field)
      invariant IndexGrows(index, index') && index'.Keys <= index.Keys + Targets(substitutions) + {CONSTANT}
      invariant IndexCovers(index', storage.constraints) && IndexWithin(index', |storage.constraints|)
      invariant forall id :: id in linearId ==> id < |storage.constraints| && LinearRow(storage.constraints[id], field)
      invariant i == 0 ==> linearId == []
      invariant NoneLinear(olds) ==> AllListed(storage.constraints, linearId)
    {
      var substitution := substitutions[i];
      assert substitution in substitutions;
      TargetKeys(substitutions, substitution);
      GoodShape(substitution, u, field);
      ghost var curs := storage.constraints;
      if substitution.from in index' {
        var ids := index'[substitution.from];
        IndexIds(index', substitution.from, |curs|);
        ghost var index0 := index';
        var newLinear;
        index', newLinear := ConstraintProcessing(storage, index', ids, substitution, field);
        PropagatedAllStep(substitutions, i, olds, curs, storage.constraints, index0, ids, field);
        IndexGrowsChain(index, index0, index');
        StayLinear(substitution, curs, storage.constraints, ids, linearId, field);
        ProcessedWithin(substitution, curs, storage.constraints, ids, newLinear, field);
        ListedStep(substitution, curs, storage.constraints, ids, newLinear, linearId, field);
        linearId := linearId + newLinear;
      } else {
        UntouchedAt(substitution, curs, field);
        PropagatedAllStep(substitutions, i, olds, curs, curs, index', [], field);
      }
    }
    mid := storage.constraints;
    assert forall i :: 0 <= i < |linearId| ==> linearId[i] in linearId;
    linear := TakeConstraints(storage, linearId, field);
    ExtractedLength(mid, storage.constraints, linear);
    ExtractedCovers(index', mid, storage.constraints, linear);
  }

  /** Every linear constraint is listed, or was moved out before. */
  ghost predicate AllListed(cs: seq<Constraint>, listed: seq<nat>) {
    forall k :: 0 <= k < |cs| && IsLinear(cs[k]) ==> cs[k] == EMPTY || k in listed
  }

  lemma ListedStep(s: Substitution, olds: seq<Constraint>, news: seq<Constraint>, ids: seq<nat>, linear: seq<nat>, listed: seq<nat>, p: int)
    requires p > 0 && UpdatedAt(s, olds, news, ids, p) && forall id :: id in ids ==> id < |olds|
    requires forall id :: id in ids && IsLinear(news[id]) ==> id in linear
    ensures AllListed(olds, listed) ==> AllListed(news, listed + linear)
  {
    hide Updated;
  }

  lemma ExtractedLength(cs: seq<Constraint>, rest: seq<Constraint>, moved: seq<Constraint>)
    requires Extracted(cs, rest, moved)
    ensures |rest| == |cs|
  {}

  lemma GoodShape(s: Substitution, u: set<nat>, p: int)
    requires GoodSubstitution(s, s.from, u, p)
    ensures s.from != CONSTANT && s.from !in s.to
  {}

  lemma IndexGrowsSelf(index: SignalToConstraints)
    ensures IndexGrows(index, index)
  {}

  lemma IndexGrowsChain(a: SignalToConstraints, b: SignalToConstraints, c: SignalToConstraints)
    requires IndexGrows(a, b) && IndexGrows(b, c)
    ensures IndexGrows(a, c)
  {}

  lemma TargetKeys(subs: seq<Substitution>, s: Substitution)
    requires s in subs
    ensures s.to.Keys <= Targets(subs) + {CONSTANT}
  {}

  lemma IndexIds(index: SignalToConstraints, s: nat, n: nat)
    requires IndexWithin(index, n) && s in index
    ensures forall id :: id in index[s] ==> id < n
  {}

  lemma UntouchedAt(s: Substitution, cs: seq<Constraint>, p: int)
    requires p > 0
    ensures UpdatedAt(s, cs, cs, [], p)
  {}

  /** A constraint that was linear stays linear. */
  lemma StayLinear(s: Substitution, olds: seq<Constraint>, news: seq<Constraint>, ids: seq<nat>, linear: seq<nat>, p: int)
    requires p > 0 && UpdatedAt(s, olds, news, ids, p)
    requires forall id :: id in linear ==> id < |olds| && LinearRow(olds[id], p)
    ensures forall id :: id in linear ==> id < |news| && LinearRow(news[id], p)
  {}

  lemma ProcessedWithin(s: Substitution, olds: seq<Constraint>, news: seq<Constraint>, ids: seq<nat>, linear: seq<nat>, p: int)
    requires p > 0 && UpdatedAt(s, olds, news, ids, p)
    requires forall id :: id in ids ==> id < |olds|
    requires forall id :: id in linear ==> id in ids
    ensures |news| == |olds| && forall id :: id in linear ==> id < |news|
  {}

  // ------------------------------------------------------------------ what a round does

  /** Where the substitutions hold, updated constraints say what the constraints said. */
  lemma PropagatedHold(subs: seq<Substitution>, olds: seq<Constraint>, news: seq<Constraint>, w: Assignment, p: int)
    requires p > 0 && PropagatedAll(subs, |subs|, olds, news, p) && SubsHold(subs, w, p)
    ensures AllHold(news, w, p) <==> AllHold(olds, w, p)
  {
    hide Holds, SubsHold, Signals, CanonicalConstraint, Targets, Froms;
    forall k | 0 <= k < |olds|
      ensures Holds(news[k], w, p) <==> Holds(olds[k], w, p)
    {
      assert Propagated(subs, |subs|, olds[k], news[k], p);
    }
    if AllHold(olds, w, p) {
      forall c | c in news
        ensures Holds(c, w, p)
      {
        var k :| 0 <= k < |news| && news[k] == c;
        assert olds[k] in olds;
      }
    }
    if AllHold(news, w, p) {
      forall c | c in olds
        ensures Holds(c, w, p)
      {
        var k :| 0 <= k < |olds| && olds[k] == c;
        assert news[k] in news;
      }
    }
  }

  /** Updated constraints mention no substituted signal. */
  lemma PropagatedSignals(subs: seq<Substitution>, olds: seq<Constraint>, news: seq<Constraint>, p: int)
    requires p > 0 && PropagatedAll(subs, |subs|, olds, news, p)
    ensures SignalsOf(news) <= (SignalsOf(olds) + Targets(subs)) - Froms(subs)
    ensures SignalsOf(olds) !! Froms(subs) ==> SignalsOf(news) <= SignalsOf(olds)
    ensures CanonicalAll(news, p)
  {
    hide Propagated;
    forall c | c in news
      ensures Signals(c) <= (SignalsOf(olds) + Targets(subs)) - Froms(subs)
      ensures SignalsOf(olds) !! Froms(subs) ==> Signals(c) <= SignalsOf(olds)
    {
      var i :| 0 <= i < |news| && news[i] == c;
      assert olds[i] in olds;
      PropagatedOne(subs, olds[i], c, p);
    }
    forall i | 0 <= i < |news|
      ensures CanonicalConstraint(news[i], p)
    {
      PropagatedOne(subs, olds[i], news[i], p);
    }
  }

  lemma PropagatedOne(subs: seq<Substitution>, c: Constraint, r: Constraint, p: int)
    requires p > 0 && Propagated(subs, |subs|, c, r, p)
    ensures Signals(r) <= (Signals(c) + Targets(subs)) - Froms(subs)
    ensures Signals(c) !! Froms(subs) ==> Signals(r) <= Signals(c)
    ensures CanonicalConstraint(r, p)
  {
    assert subs[..|subs|] == subs;
  }

  lemma ExtractedSignals(cs: seq<Constraint>, rest: seq<Constraint>, moved: seq<Constraint>)
    requires Extracted(cs, rest, moved)
    ensures SignalsOf(rest) <= SignalsOf(cs) && SignalsOf(moved) <= SignalsOf(cs)
  {}

  lemma ExtractedCanonical(cs: seq<Constraint>, rest: seq<Constraint>, moved: seq<Constraint>, p: int)
    requires Extracted(cs, rest, moved) && CanonicalAll(cs, p)
    ensures CanonicalAll(rest, p)
  {}

  /** After a round, neither the stored nor the extracted constraints mention a substituted signal. */
  lemma RoundSignals(subs: seq<Substitution>, olds: seq<Constraint>, mid: seq<Constraint>, news: seq<Constraint>, linear: seq<Constraint>, p: int)
    requires p > 0 && RoundResult(subs, olds, mid, news, linear, p)
    ensures SignalsOf(news) + SignalsOf(linear) <= (SignalsOf(olds) + Targets(subs)) - Froms(subs)
    ensures CanonicalAll(news, p)
  {
    hide SignalsOf, Extracted, PropagatedAll, Targets, Froms, CanonicalAll;
    PropagatedSignals(subs, olds, mid, p);
    ExtractedSignals(mid, news, linear);
    ExtractedCanonical(mid, news, linear, p);
  }

  /** A round loses and adds nothing. */
  lemma RoundHolds(subs: seq<Substitution>, olds: seq<Constraint>, mid: seq<Constraint>, news: seq<Constraint>, linear: seq<Constraint>,
                   w: Assignment, p: int)
    requires p > 0 && RoundResult(subs, olds, mid, news, linear, p) && SubsHold(subs, w, p)
    ensures AllHold(olds, w, p) <==> AllHold(news, w, p) && AllHold(linear, w, p)
  {
    hide AllHold, Extracted, PropagatedAll, SubsHold;
    PropagatedHold(subs, olds, mid, w, p);
    ExtractedHolds(mid, news, linear, w, p);
  }

  lemma ChangedByOne(c: Constraint, s: Substitution, p: int)
    requires p > 0 && CanonicalConstraint(c, p) && s.from != CONSTANT && s.from !in s.to
    ensures Changed(s, c, ApplySubstitution(c, s, p), p)
  {
    hide Holds, SubHolds, ApplySubstitution, Signals, CanonicalConstraint;
    ApplySignals(c, s, p);
    forall w: Assignment | SubHolds(s, w, p)
      ensures Holds(ApplySubstitution(c, s, p), w, p) <==> Holds(c, w, p)
    {
      ApplySame(c, s, w, p);
    }
  }

  lemma PropagatedFixed(subs: seq<Substitution>, n: nat, c: Constraint, r: Constraint, p: int)
    requires p > 0 && n <= |subs| && Propagated(subs, n, c, r, p)
    ensures Propagated(subs, n, c, FixConstraint(r, p), p)
  {
    hide Holds, SubHolds, FixConstraint, Signals, CanonicalConstraint;
    FixShape(r, p);
    ReducedIsCanonical(FixConstraint(r, p), p);
    forall w: Assignment
      ensures Holds(FixConstraint(r, p), w, p) <==> Holds(r, w, p)
    {
      FixHolds(r, w, p);
    }
  }

  /** All substitutions of a round, one after the other, on every constraint of a list. */
  method ApplySubstitutions(constraints: seq<Constraint>, substitutions: seq<Substitution>, ghost forbidden: set<nat>, ghost u: set<nat>, field: int)
    returns (r: seq<Constraint>)
    requires field > 0 && Solved(substitutions) && GoodSubstitutions(substitutions, forbidden, u, field)
    requires CanonicalAll(constraints, field)
    ensures PropagatedAll(substitutions, |substitutions|, constraints, r, field)
  {
    hide Propagated, CanonicalAll, FixConstraint;
    r := [];
    for i := 0 to |constraints|
      invariant |r| == i
      invariant forall k :: 0 <= k < i ==> Propagated(substitutions, |substitutions|, constraints[k], r[k], field)
    {
      CanonicalAt(constraints, i, field);
      var constraint := ApplyInTurn(constraints[i], substitutions, forbidden, u, field);
      PropagatedFixed(substitutions, |substitutions|, constraints[i], constraint, field);
      r := r + [FixConstraint(constraint, field)];
    }
  }

  method ApplyInTurn(constraint: Constraint, substitutions: seq<Substitution>, ghost forbidden: set<nat>, ghost u: set<nat>, field: int)
    returns (r: Constraint)
    requires field > 0 && Solved(substitutions) && GoodSubstitutions(substitutions, forbidden, u, field)
    requires CanonicalConstraint(constraint, field)
    ensures Propagated(substitutions, |substitutions|, constraint, r, field)
  {
    hide Propagated, ApplySubstitution, CanonicalConstraint, Solved, GoodSubstitution, Changed;
    r := constraint;
    UnchangedSoFar(substitutions, constraint, field);
    for n := 0 to |substitutions|
      invariant Propagated(substitutions, n, constraint, r, field)
    {
      assert substitutions[n] in substitutions;
      GoodShape(substitutions[n], u, field);
      PropagatedCanonical(substitutions, n, constraint, r, field);
      ChangedByOne(r, substitutions[n], field);
      PropagatedStep(substitutions, n, constraint, r, ApplySubstitution(r, substitutions[n], field), field);
      r := ApplySubstitution(r, substitutions[n], field);
    }
  }

  lemma UnchangedSoFar(subs: seq<Substitution>, c: Constraint, p: int)
    requires p > 0 && CanonicalConstraint(c, p)
    ensures Propagated(subs, 0, c, c, p)
  {}

  lemma PropagatedCanonical(subs: seq<Substitution>, n: nat, c: Constraint, r: Constraint, p: int)
    requires p > 0 && n <= |subs| && Propagated(subs, n, c, r, p)
    ensures CanonicalConstraint(r, p)
  {}
}
