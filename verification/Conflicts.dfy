/**
 Constant equalities against equalities (circom/constraint_list/src/constraint_simplification.rs): the map of constant
 substitutions keeps the last binding of a signal, so constant equalities fixing signals that are tied together
 overwrite each other.
 */
module Conflicts {
  import opened Field
  import opened LinearForms
  import opened Algebra
  import opened Rows
  import opened Elimination
  import opened Equalities
  import opened ClusterPass
  import opened EncodedSubstitution
  import opened Constants

  // ------------------------------------------------------------------ tied signals

  lemma TiedSymmetric(equalities: seq<Constraint>, x: nat, y: nat)
    requires Tied(equalities, x, y)
    ensures Tied(equalities, y, x)
  {
    forall group: set<nat> | y in group && TiedClosed(equalities, group)
      ensures x in group
    {
      var others := SignalsOf(equalities) + {x} - group;
      assert TiedClosed(equalities, others);
    }
  }

  lemma TiedTransitive(equalities: seq<Constraint>, x: nat, y: nat, z: nat)
    requires Tied(equalities, x, y) && Tied(equalities, y, z)
    ensures Tied(equalities, x, z)
  {}

  // ------------------------------------------------------------------ overwritten constraints

  /** The signals the two constraints fix end in one signal that may be eliminated. */
  ghost predicate SameTarget(equalities: seq<Constraint>, forbidden: set<nat>, c: Constraint, d: Constraint) {
    exists x: nat, y: nat :: x in Signals(c) && y in Signals(d) && Tied(equalities, x, y) && Free(equalities, forbidden, x)
  }

  /** A later constant equality takes this one's place in the map. */
  ghost predicate Overwritten(equalities: seq<Constraint>, consEq: seq<Constraint>, forbidden: set<nat>, i: nat) {
    i < |consEq| && exists j :: i < j < |consEq| && SameTarget(equalities, forbidden, consEq[i], consEq[j])
  }

  /** The constant equalities the map keeps, and those of forbidden signals, hold. */
  ghost predicate SurvivorsHold(equalities: seq<Constraint>, consEq: seq<Constraint>, forbidden: set<nat>, w: Assignment, p: int)
    requires p > 0
  {
    forall i :: 0 <= i < |consEq| && !Overwritten(equalities, consEq, forbidden, i) ==> Holds(consEq[i], w, p)
  }

  /** Two constant equalities fix one eliminable signal, directly or through equalities, to different values. */
  ghost predicate Conflict(equalities: seq<Constraint>, consEq: seq<Constraint>, forbidden: set<nat>, p: int)
    requires p > 0
  {
    exists c, d :: c in consEq && d in consEq && SameTarget(equalities, forbidden, c, d) && Contradict(c, d, p)
  }

  /** A constant equality allows exactly one value modulo p. */
  lemma OneValue(c: Constraint, x: nat, a: int, b: int, p: int)
    requires Prime(p) && FixesSignal(c, x, p) && HoldsAt(c, a, p)
    ensures HoldsAt(c, b, p) <==> Eqv(a, b, p)
  {
    hide HoldsAt, FixesSignal, ClearSignalFromLinear, ConstantSubstitution, Solves;
    ClearIsConstant(c, x, {x}, {}, p);
    ClearSolves(c, x, p);
    var s := ClearSignalFromLinear(c, x, p);
    SolvesAt(s, c, {x}, {}, a, p);
    SolvesAt(s, c, {x}, {}, b, p);
  }

  lemma SomeValue(c: Constraint, x: nat, p: int) returns (a: int)
    requires Prime(p) && FixesSignal(c, x, p)
    ensures HoldsAt(c, a, p)
  {
    hide HoldsAt, FixesSignal, ClearSignalFromLinear, ConstantSubstitution, Solves;
    ClearIsConstant(c, x, {x}, {}, p);
    ClearSolves(c, x, p);
    var s := ClearSignalFromLinear(c, x, p);
    a := Coef(s.to, CONSTANT);
    SolvesAt(s, c, {x}, {}, a, p);
  }

  lemma TiedConstants(equalities: seq<Constraint>, forbidden: set<nat>, c: Constraint, x: nat, d: Constraint, y: nat, w: Assignment, p: int)
    requires Prime(p) && forall e :: e in equalities ==> GoodEquality(e, p)
    requires FixesSignal(c, x, p) && FixesSignal(d, y, p) && SameTarget(equalities, forbidden, c, d)
    requires AllHold(equalities, w, p)
    ensures Holds(c, w, p) <==> HoldsAt(c, w(y), p)
    ensures Holds(d, w, p) <==> HoldsAt(d, w(y), p)
  {
    hide HoldsAt, Holds, GoodEquality, Tied, Free;
    HoldsAtSignal(c, x, w, p);
    HoldsAtSignal(d, y, w, p);
    var a, b :| a in Signals(c) && b in Signals(d) && Tied(equalities, a, b);
    assert a == x && b == y;
    TiedEqual(equalities, x, y, w, p);
    if HoldsAt(c, w(x), p) {
      OneValue(c, x, w(x), w(y), p);
    }
    if HoldsAt(c, w(y), p) {
      OneValue(c, x, w(y), w(x), p);
    }
  }

  /** Without a conflict, an overwritten constraint follows from the one that took its place. */
  lemma {:induction false} SurvivorsSuffice(equalities: seq<Constraint>, consEq: seq<Constraint>, forbidden: set<nat>, i: nat, w: Assignment, p: int)
    requires Prime(p) && forall e :: e in equalities ==> GoodEquality(e, p)
    requires forall c :: c in consEq ==> exists x: nat :: FixesSignal(c, x, p)
    requires !Conflict(equalities, consEq, forbidden, p) && i < |consEq|
    requires AllHold(equalities, w, p) && SurvivorsHold(equalities, consEq, forbidden, w, p)
    ensures Holds(consEq[i], w, p)
    decreases |consEq| - i
  {
    hide Holds, GoodEquality, SameTarget, FixesSignal, HoldsAt;
    if Overwritten(equalities, consEq, forbidden, i) {
      var j :| i < j < |consEq| && SameTarget(equalities, forbidden, consEq[i], consEq[j]);
      SurvivorsSuffice(equalities, consEq, forbidden, j, w, p);
      var c, d := consEq[i], consEq[j];
      assert c in consEq && d in consEq;
      var x: nat :| FixesSignal(c, x, p);
      var y: nat :| FixesSignal(d, y, p);
      assert !Contradict(c, d, p);
      var value: int :| HoldsAt(c, value, p) && HoldsAt(d, value, p);
      TiedConstants(equalities, forbidden, c, x, d, y, w, p);
      OneValue(d, y, value, w(y), p);
      OneValue(c, x, value, w(y), p);
    }
  }

  /** Without a conflict nothing is lost. */
  lemma NoConflictKeepsAll(equalities: seq<Constraint>, consEq: seq<Constraint>, forbidden: set<nat>, w: Assignment, p: int)
    requires Prime(p) && forall e :: e in equalities ==> GoodEquality(e, p)
    requires forall c :: c in consEq ==> exists x: nat :: FixesSignal(c, x, p)
    requires !Conflict(equalities, consEq, forbidden, p) && AllHold(equalities, w, p)
    ensures SurvivorsHold(equalities, consEq, forbidden, w, p) <==> AllHold(consEq, w, p)
  {
    hide Holds, GoodEquality, Overwritten, Conflict, FixesSignal;
    if SurvivorsHold(equalities, consEq, forbidden, w, p) {
      forall c | c in consEq
        ensures Holds(c, w, p)
      {
        var i :| 0 <= i < |consEq| && consEq[i] == c;
        SurvivorsSuffice(equalities, consEq, forbidden, i, w, p);
      }
    }
  }

  /** With a conflict the circuit has no solution. */
  lemma ConflictIsUnsatisfiable(equalities: seq<Constraint>, consEq: seq<Constraint>, forbidden: set<nat>, w: Assignment, p: int)
    requires Prime(p) && forall e :: e in equalities ==> GoodEquality(e, p)
    requires forall c :: c in consEq ==> exists x: nat :: FixesSignal(c, x, p)
    requires Conflict(equalities, consEq, forbidden, p)
    ensures !(AllHold(equalities, w, p) && AllHold(consEq, w, p))
  {
    hide Holds, GoodEquality, SameTarget, FixesSignal, HoldsAt;
    if AllHold(equalities, w, p) && AllHold(consEq, w, p) {
      var c, d :| c in consEq && d in consEq && SameTarget(equalities, forbidden, c, d) && Contradict(c, d, p);
      var x: nat :| FixesSignal(c, x, p);
      var y: nat :| FixesSignal(d, y, p);
      assert !(HoldsAt(c, w(y), p) && HoldsAt(d, w(y), p));
      TiedConstants(equalities, forbidden, c, x, d, y, w, p);
    }
  }

  // ------------------------------------------------------------------ where the constraints go

  /** An entry of the map that renames. */
  lemma RenamingEntry(subs: seq<Substitution>, x: nat, p: int)
    requires p > 0 && x in Encode(subs)
    requires forall s :: s in subs ==> exists r: nat :: r != CONSTANT && s.to == map[r := 1]
    ensures exists r: nat :: r != CONSTANT && ImageOf(subs, x, r) && AsSubstitution(x, Encode(subs)[x]) == Substitution(x, map[r := 1])
  {
    EncodeEntries(subs);
    var s :| s in subs && s.from == x && Encode(subs)[x] == FormIntoExpr(s.to);
    var r: nat :| r != CONSTANT && s.to == map[r := 1];
  }

  lemma RenamingExpr(r: nat)
    requires r != CONSTANT
    ensures FormIntoExpr(map[r := 1]) == Signal(r)
  {}

  /** Reading a signal through the renamings. */
  ghost predicate ReadThrough(enc: Encoded, x: nat, r: nat) {
    && (forall w: Assignment :: Simultaneous(enc, enc.Keys, w)(x) == w(r))
    && EncodedImage(enc, {x}) == {r}
  }

  lemma ImageRead(subs: seq<Substitution>, x: nat, p: int) returns (r: nat)
    requires p > 0 && x != CONSTANT
    requires forall s :: s in subs ==> exists r: nat :: r != CONSTANT && s.to == map[r := 1]
    ensures ImageOf(subs, x, r) && r != CONSTANT && ReadThrough(Encode(subs), x, r)
  {
    hide FormIntoExpr, AsSubstitution, Encode, ReadThrough;
    var enc := Encode(subs);
    EncodeEntries(subs);
    if x in enc {
      RenamingEntry(subs, x, p);
      r :| r != CONSTANT && ImageOf(subs, x, r) && AsSubstitution(x, enc[x]) == Substitution(x, map[r := 1]);
      ReadRenamed(enc, x, r);
    } else {
      r := x;
      ReadUnchanged(enc, x);
    }
  }

  lemma ReadRenamed(enc: Encoded, x: nat, r: nat)
    requires x in enc && r != CONSTANT && AsSubstitution(x, enc[x]) == Substitution(x, map[r := 1])
    ensures ReadThrough(enc, x, r)
  {
    hide AsSubstitution;
    forall w: Assignment
      ensures Simultaneous(enc, enc.Keys, w)(x) == w(r)
    {
      EvalSingle(map[r := 1], r, w);
    }
    assert EncodedImage(enc, {x}) == {r} by {
      assert x in {x} && r in AsSubstitution(x, enc[x]).to;
    }
  }

  lemma ReadUnchanged(enc: Encoded, x: nat)
    requires x !in enc
    ensures ReadThrough(enc, x, x)
  {}

  /** A constant equality stays one when its signal is renamed. */
  lemma FixesRenamed(subs: seq<Substitution>, c: Constraint, x: nat, c': Constraint, p: int) returns (r: nat)
    requires Prime(p) && FixesSignal(c, x, p) && Rewritten(Encode(subs), c, c', p)
    requires forall s :: s in subs ==> exists r: nat :: r != CONSTANT && s.to == map[r := 1]
    ensures ImageOf(subs, x, r) && FixesSignal(c', r, p)
  {
    hide ReadThrough, LinearRow, ReadsAs, Encode, ImageOf, CanonicalConstraint, Holds;
    SingleSignal(c, x, p);
    SignalsExcludeConstant(c);
    r := ImageRead(subs, x, p);
    var enc := Encode(subs);
    assert Signals(c') <= {r} by {
      ReadImage(enc, x, r);
    }
    if Signals(c') == {} {
      NeverConstant(enc, c, x, c', r, p);
    }
    assert Signals(c') == {r};
  }

  lemma ReadImage(enc: Encoded, x: nat, r: nat)
    requires ReadThrough(enc, x, r)
    ensures EncodedImage(enc, {x}) == {r}
  {}

  /** The rewritten constraint depends on its signal's value, so it has one. */
  lemma NeverConstant(enc: Encoded, c: Constraint, x: nat, c': Constraint, r: nat, p: int)
    requires Prime(p) && FixesSignal(c, x, p) && ReadThrough(enc, x, r)
    requires forall w: Assignment :: ReadsAs(enc, enc.Keys, c, c', w, p)
    ensures Signals(c') != {}
  {
    hide Holds, HoldsAt, FixesSignal, ReadThrough, ReadsAs, Residue;
    if Signals(c') == {} {
      var a := SomeValue(c, x, p);
      var v: Assignment := (k: nat) => a;
      var w: Assignment := (k: nat) => a + 1;
      HoldsAgree(c', v, w, p);
      ReadAt(enc, c, x, c', r, v, p);
      ReadAt(enc, c, x, c', r, w, p);
      OneValue(c, x, a, a + 1, p);
      NextDiffers(a, p);
      assert false;
    }
  }

  lemma ReadAt(enc: Encoded, c: Constraint, x: nat, c': Constraint, r: nat, w: Assignment, p: int)
    requires p > 0 && FixesSignal(c, x, p) && ReadThrough(enc, x, r) && ReadsAs(enc, enc.Keys, c, c', w, p)
    ensures Holds(c', w, p) <==> HoldsAt(c, w(r), p)
  {
    HoldsAtSignal(c, x, Simultaneous(enc, enc.Keys, w), p);
  }

  lemma NextDiffers(a: int, p: int)
    requires p >= 2
    ensures !Eqv(a, a + 1, p)
  {
    EqvDifference(a, a + 1, p);
    NonzeroMinusOne(p);
  }

  lemma NonzeroMinusOne(p: int)
    requires p >= 2
    ensures !Eqv(-1, 0, p)
  {
    assert Residue(-1, p) == p - 1;
    assert Residue(0, p) == 0;
  }

  lemma ImageUnique(subs: seq<Substitution>, x: nat, r: nat, q: nat)
    requires Solved(subs) && ImageOf(subs, x, r) && ImageOf(subs, x, q)
    ensures r == q
  {
    if IsFrom(subs, x) {
      var s :| s in subs && s.from == x && s.to == map[r := 1];
      var t :| t in subs && t.from == x && t.to == map[q := 1];
      assert r in map[r := 1];
    }
  }

  lemma ImageTied(equalities: seq<Constraint>, subs: seq<Substitution>, forbidden: set<nat>, x: nat, r: nat)
    requires ImagesOk(equalities, subs, forbidden) && ImageOf(subs, x, r)
    ensures Tied(equalities, x, r)
  {
    hide Tied, Free;
    if IsFrom(subs, x) {
      var s :| s in subs && s.from == x && s.to == map[r := 1];
      var q: nat :| q != CONSTANT && s.to == map[q := 1] && Tied(equalities, s.from, q);
      assert q in map[r := 1];
    } else {
      TiedSelf(equalities, x);
    }
  }

  lemma TiedSelf(equalities: seq<Constraint>, x: nat)
    ensures Tied(equalities, x, x)
  {}

  /** Two signals go to one signal that may be eliminated exactly if they are tied and no forbidden signal is tied to them. */
  lemma SameImage(equalities: seq<Constraint>, subs: seq<Substitution>, forbidden: set<nat>, x: nat, r: nat, y: nat, q: nat)
    requires ImagesOk(equalities, subs, forbidden) && Solved(subs) && ImageOf(subs, x, r) && ImageOf(subs, y, q)
    ensures r == q && r !in forbidden <==> Tied(equalities, x, y) && Free(equalities, forbidden, x)
  {
    hide Tied, Solved, ImageOf;
    ImageTied(equalities, subs, forbidden, x, r);
    ImageTied(equalities, subs, forbidden, y, q);
    if r == q && r !in forbidden {
      TiedSymmetric(equalities, y, q);
      TiedTransitive(equalities, x, r, y);
    }
    if Tied(equalities, x, y) && Free(equalities, forbidden, x) {
      assert ImageOf(subs, y, r);
      ImageUnique(subs, y, r, q);
    }
  }

  // ------------------------------------------------------------------ what the map keeps

  /** A later substitution of the same signal follows. */
  ghost predicate Replaced(subs: seq<Substitution>, k: nat) {
    k < |subs| && exists j :: k < j < |subs| && subs[j].from == subs[k].from
  }

  /** The map holds, for every signal, what the last substitution of it says. */
  ghost predicate HoldsLast(subs: seq<Substitution>, enc: Encoded) {
    && (forall x :: x in enc ==>
          exists k :: 0 <= k < |subs| && subs[k].from == x && !Replaced(subs, k) && enc[x] == FormIntoExpr(subs[k].to))
    && (forall k :: 0 <= k < |subs| && !Replaced(subs, k) ==>
          subs[k].from in enc && enc[subs[k].from] == FormIntoExpr(subs[k].to))
  }

  lemma ReplacedNext(subs: seq<Substitution>, k: nat)
    requires k < |subs| - 1
    ensures Replaced(subs, k) <==> Replaced(subs[..|subs| - 1], k) || subs[|subs| - 1].from == subs[k].from
  {
    var front := subs[..|subs| - 1];
    assert forall j :: 0 <= j < |front| ==> front[j] == subs[j];
  }

  lemma LastStays(subs: seq<Substitution>)
    requires |subs| > 0
    ensures !Replaced(subs, |subs| - 1)
  {}

  lemma HoldsLastNext(subs: seq<Substitution>, enc: Encoded)
    requires |subs| > 0 && HoldsLast(subs[..|subs| - 1], enc)
    ensures HoldsLast(subs, enc[subs[|subs| - 1].from := FormIntoExpr(subs[|subs| - 1].to)])
  {
    hide FormIntoExpr, Replaced;
    var last := |subs| - 1;
    var front := subs[..last];
    var next := enc[subs[last].from := FormIntoExpr(subs[last].to)];
    LastStays(subs);
    forall x | x in next
      ensures exists k :: 0 <= k < |subs| && subs[k].from == x && !Replaced(subs, k) && next[x] == FormIntoExpr(subs[k].to)
    {
      if x != subs[last].from {
        var k: nat :| k < last && front[k].from == x && !Replaced(front, k) && enc[x] == FormIntoExpr(front[k].to);
        ReplacedNext(subs, k);
      }
    }
    forall k: nat | k < last && !Replaced(subs, k)
      ensures subs[k].from in next && next[subs[k].from] == FormIntoExpr(subs[k].to)
    {
      ReplacedNext(subs, k);
      assert subs[k] == front[k];
    }
  }

  lemma {:induction false} EncodeLast(subs: seq<Substitution>)
    ensures HoldsLast(subs, Encode(subs))
  {
    hide FormIntoExpr, Replaced;
    if |subs| > 0 {
      EncodeLast(subs[..|subs| - 1]);
      HoldsLastNext(subs, Encode(subs[..|subs| - 1]));
    }
  }

  /** The map says what the last substitution of every signal says. */
  lemma EncodeIsLast(subs: seq<Substitution>, w: Assignment, p: int)
    requires p > 0 && forall k :: 0 <= k < |subs| ==> subs[k].from != CONSTANT && subs[k].from !in subs[k].to
    ensures EncodedHolds(Encode(subs), w, p) <==>
            forall k :: 0 <= k < |subs| && !Replaced(subs, k) ==> SubHolds(subs[k], w, p)
  {
    hide FormIntoExpr, AsSubstitution, SubHolds, Encode, Replaced;
    var enc := Encode(subs);
    EncodeLast(subs);
    forall k | 0 <= k < |subs|
      ensures SubHolds(AsSubstitution(subs[k].from, FormIntoExpr(subs[k].to)), w, p) <==> SubHolds(subs[k], w, p)
    {
      RoundTripHolds(subs[k], w, p);
    }
    if forall k :: 0 <= k < |subs| && !Replaced(subs, k) ==> SubHolds(subs[k], w, p) {
      forall x | x in enc
        ensures SubHolds(AsSubstitution(x, enc[x]), w, p)
      {
        var k :| 0 <= k < |subs| && subs[k].from == x && !Replaced(subs, k) && enc[x] == FormIntoExpr(subs[k].to);
      }
    }
  }

  /** The constant equalities after renaming. */
  ghost predicate Renamed(subs: seq<Substitution>, consEq: seq<Constraint>, cEq: seq<Constraint>, p: int)
    requires p > 0
  {
    && |cEq| == |consEq|
    && (forall i :: 0 <= i < |cEq| ==> RenamedOne(subs, consEq[i], cEq[i], p))
  }

  ghost predicate RenamedOne(subs: seq<Substitution>, c: Constraint, d: Constraint, p: int)
    requires p > 0
  {
    && (exists x: nat, r: nat :: FixesSignal(c, x, p) && FixesSignal(d, r, p) && ImageOf(subs, x, r))
    && (forall w: Assignment :: SubsHold(subs, w, p) ==> (Holds(d, w, p) <==> Holds(c, w, p)))
  }

  /** After renaming, what takes a constraint's place can be seen from the signals. */
  ghost predicate TakenOver(cEq: seq<Constraint>, forbidden: set<nat>, i: nat) {
    && i < |cEq| && !(Signals(cEq[i]) <= forbidden)
    && exists j :: i < j < |cEq| && Signals(cEq[j]) == Signals(cEq[i])
  }

  lemma SameSignals(equalities: seq<Constraint>, subs: seq<Substitution>, forbidden: set<nat>,
                    c: Constraint, c': Constraint, d: Constraint, d': Constraint, p: int)
    requires p > 0 && ImagesOk(equalities, subs, forbidden) && Solved(subs)
    requires RenamedOne(subs, c, c', p) && RenamedOne(subs, d, d', p)
    ensures SameTarget(equalities, forbidden, c, d) <==> Signals(d') == Signals(c') && !(Signals(c') <= forbidden)
  {
    hide Tied, Solved, ImageOf, ImagesOk, Free, Holds, SubHolds, LinearRow;
    var x: nat, r: nat :| FixesSignal(c, x, p) && FixesSignal(c', r, p) && ImageOf(subs, x, r);
    var y: nat, q: nat :| FixesSignal(d, y, p) && FixesSignal(d', q, p) && ImageOf(subs, y, q);
    hide Signals;
    SameImage(equalities, subs, forbidden, x, r, y, q);
    assert Signals(c') == {r} && Signals(d') == {q} && Signals(c) == {x} && Signals(d) == {y};
    assert x in Signals(c) && y in Signals(d) && r in Signals(c') && q in Signals(d');
  }

  lemma OverwrittenIsTakenOver(equalities: seq<Constraint>, subs: seq<Substitution>, forbidden: set<nat>,
                               consEq: seq<Constraint>, cEq: seq<Constraint>, i: nat, p: int)
    requires p > 0 && ImagesOk(equalities, subs, forbidden) && Solved(subs) && Renamed(subs, consEq, cEq, p)
    ensures Overwritten(equalities, consEq, forbidden, i) <==> TakenOver(cEq, forbidden, i)
  {
    hide ImagesOk, Solved, RenamedOne, SameTarget, Signals;
    if i < |cEq| {
      forall j | i < j < |cEq|
        ensures SameTarget(equalities, forbidden, consEq[i], consEq[j])
                <==> Signals(cEq[j]) == Signals(cEq[i]) && !(Signals(cEq[i]) <= forbidden)
      {
        SameSignals(equalities, subs, forbidden, consEq[i], cEq[i], consEq[j], cEq[j], p);
      }
    }
  }

  lemma ConstantShape(s: Substitution, u: set<nat>, forbidden: set<nat>, p: int)
    requires ConstantSubstitution(s, u, forbidden, p)
    ensures s.from !in forbidden && s.from != CONSTANT && s.from !in s.to && s.from in u
  {}

  /** A substitution is replaced exactly if its constraint's place is taken. */
  lemma ReplacedIsTakenOver(cEq: seq<Constraint>, subs: seq<Substitution>, cons: seq<Constraint>, origin: seq<nat>,
                            u: set<nat>, forbidden: set<nat>, k: nat, p: int)
    requires p > 0 && ConstantsResult(cEq, subs, cons, origin, u, forbidden, p) && k < |subs|
    ensures Replaced(subs, k) <==> TakenOver(cEq, forbidden, origin[k])
  {}

  /** The explicit constraints and the map say what the constraints whose place was not taken say. */
  lemma ConstantsHold(cEq: seq<Constraint>, subs: seq<Substitution>, cons: seq<Constraint>, origin: seq<nat>,
                      u: set<nat>, forbidden: set<nat>, w: Assignment, p: int)
    requires p > 0 && ConstantsResult(cEq, subs, cons, origin, u, forbidden, p)
    ensures AllHold(cons, w, p) && EncodedHolds(Encode(subs), w, p) <==>
            forall i :: 0 <= i < |cEq| && !TakenOver(cEq, forbidden, i) ==> Holds(cEq[i], w, p)
  {
    hide ConstantSubstitution, Signals, Holds, SubHolds, EncodedHolds, Encode, TakenOver, Replaced, FixesSignal, CanonicalConstraint;
    forall k | 0 <= k < |subs|
      ensures SubHolds(subs[k], w, p) <==> Holds(cEq[origin[k]], w, p)
      ensures Replaced(subs, k) <==> TakenOver(cEq, forbidden, origin[k])
      ensures subs[k].from != CONSTANT && subs[k].from !in subs[k].to
    {
      ReplacedIsTakenOver(cEq, subs, cons, origin, u, forbidden, k, p);
      ConstantShape(subs[k], u, forbidden, p);
      assert Solves(subs[k], cEq[origin[k]], p);
    }
    EncodeIsLast(subs, w, p);
    forall i | 0 <= i < |cEq| && i !in origin
      ensures !TakenOver(cEq, forbidden, i)
    {
      KeptStays(cEq, forbidden, i);
    }
    forall c | c in cons
      ensures exists i :: 0 <= i < |cEq| && cEq[i] == c && !TakenOver(cEq, forbidden, i)
    {
      var i :| 0 <= i < |cEq| && cEq[i] == c;
      KeptStays(cEq, forbidden, i);
    }
    assert forall i :: i in origin ==> exists k :: 0 <= k < |subs| && origin[k] == i;
  }

  lemma KeptStays(cEq: seq<Constraint>, forbidden: set<nat>, i: nat)
    requires i < |cEq| && Signals(cEq[i]) <= forbidden
    ensures !TakenOver(cEq, forbidden, i)
  {}

  /** The whole treatment of constant equalities, in terms of the circuit's own constraints. */
  lemma ConstantsMean(equalities: seq<Constraint>, renamings: seq<Substitution>, consEq: seq<Constraint>, cEq: seq<Constraint>,
                      subs: seq<Substitution>, cons: seq<Constraint>, origin: seq<nat>,
                      u: set<nat>, forbidden: set<nat>, w: Assignment, p: int)
    requires p > 0 && ImagesOk(equalities, renamings, forbidden) && Solved(renamings) && Renamed(renamings, consEq, cEq, p)
    requires ConstantsResult(cEq, subs, cons, origin, u, forbidden, p)
    requires SubsHold(renamings, w, p)
    ensures AllHold(cons, w, p) && EncodedHolds(Encode(subs), w, p) <==> SurvivorsHold(equalities, consEq, forbidden, w, p)
  {
    hide Holds, ImagesOk, Solved, Overwritten, TakenOver, ConstantsResult, FixesSignal, ImageOf, SubsHold, EncodedHolds, Encode, AllHold;
    ConstantsHold(cEq, subs, cons, origin, u, forbidden, w, p);
    forall i | 0 <= i < |cEq|
      ensures Overwritten(equalities, consEq, forbidden, i) <==> TakenOver(cEq, forbidden, i)
      ensures Holds(cEq[i], w, p) <==> Holds(consEq[i], w, p)
    {
      OverwrittenIsTakenOver(equalities, renamings, forbidden, consEq, cEq, i, p);
      assert RenamedOne(renamings, consEq[i], cEq[i], p);
    }
  }

  // ------------------------------------------------------------------ seeing a conflict in the map

  /** An assignment that gives all signals one value satisfies renamings. */
  lemma ConstantKeepsRenamings(equalities: seq<Constraint>, subs: seq<Substitution>, forbidden: set<nat>, value: int, p: int)
    requires p > 0 && ImagesOk(equalities, subs, forbidden) && forall s :: s in subs ==> s.from != CONSTANT
    ensures SubsHold(subs, (k: nat) => value, p)
  {
    hide Tied, Free;
    var w: Assignment := (k: nat) => value;
    forall s | s in subs
      ensures SubHolds(s, w, p)
    {
      var r: nat :| r != CONSTANT && s.to == map[r := 1];
      EvalSingle(s.to, r, w);
    }
  }

  /** Renaming changes nothing about contradictions. */
  lemma RenamedContradict(equalities: seq<Constraint>, subs: seq<Substitution>, forbidden: set<nat>,
                          c: Constraint, c': Constraint, d: Constraint, d': Constraint, p: int)
    requires p > 0 && ImagesOk(equalities, subs, forbidden) && forall s :: s in subs ==> s.from != CONSTANT
    requires RenamedOne(subs, c, c', p) && RenamedOne(subs, d, d', p)
    ensures Contradict(c', d', p) <==> Contradict(c, d, p)
  {
    hide ImagesOk, SubsHold, Holds, FixesSignal, ImageOf;
    forall value: int
      ensures HoldsAt(c', value, p) <==> HoldsAt(c, value, p)
      ensures HoldsAt(d', value, p) <==> HoldsAt(d, value, p)
    {
      ConstantKeepsRenamings(equalities, subs, forbidden, value, p);
    }
  }

  /** Constant equalities conflict exactly if the constants substituted for some signal differ. */
  lemma ConflictIsDisagreement(equalities: seq<Constraint>, renamings: seq<Substitution>, consEq: seq<Constraint>, cEq: seq<Constraint>,
                               subs: seq<Substitution>, cons: seq<Constraint>, origin: seq<nat>, u: set<nat>, forbidden: set<nat>, p: int)
    requires Prime(p) && ImagesOk(equalities, renamings, forbidden) && Solved(renamings) && Renamed(renamings, consEq, cEq, p)
    requires forall s :: s in renamings ==> s.from != CONSTANT
    requires ConstantsResult(cEq, subs, cons, origin, u, forbidden, p)
    ensures Conflict(equalities, consEq, forbidden, p) <==> !Agreeing(subs, p)
  {
    hide ImagesOk, Solved, RenamedOne, SameTarget, Contradict, SameConstant, ConstantSubstitution, Solves, Signals;
    assert |origin| == |subs|;
    hide ConstantsResult;
    if !Agreeing(subs, p) {
      var s, t :| s in subs && t in subs && s.from == t.from && !SameConstant(s, t, p);
      var i :| 0 <= i < |subs| && subs[i] == s;
      var j :| 0 <= j < |subs| && subs[j] == t;
      PairSeen(equalities, renamings, consEq, cEq, subs, cons, origin, u, forbidden, i, j, p);
      assert consEq[origin[i]] in consEq && consEq[origin[j]] in consEq;
    }
    if Conflict(equalities, consEq, forbidden, p) {
      var c, d :| c in consEq && d in consEq && SameTarget(equalities, forbidden, c, d) && Contradict(c, d, p);
      var m :| 0 <= m < |consEq| && consEq[m] == c;
      var n :| 0 <= n < |consEq| && consEq[n] == d;
      var i, j := TargetSeen(equalities, renamings, consEq, cEq, subs, cons, origin, u, forbidden, m, n, p);
      PairSeen(equalities, renamings, consEq, cEq, subs, cons, origin, u, forbidden, i, j, p);
      assert subs[i] in subs && subs[j] in subs;
    }
  }

  /** Substitutions of one signal come from constant equalities with one target. */
  lemma PairSeen(equalities: seq<Constraint>, renamings: seq<Substitution>, consEq: seq<Constraint>, cEq: seq<Constraint>,
                 subs: seq<Substitution>, cons: seq<Constraint>, origin: seq<nat>, u: set<nat>, forbidden: set<nat>, i: nat, j: nat, p: int)
    requires Prime(p) && ImagesOk(equalities, renamings, forbidden) && Solved(renamings) && Renamed(renamings, consEq, cEq, p)
    requires forall s :: s in renamings ==> s.from != CONSTANT
    requires ConstantsResult(cEq, subs, cons, origin, u, forbidden, p)
    requires i < |subs| && j < |subs| && |origin| == |subs| && subs[i].from == subs[j].from
    ensures origin[i] < |consEq| && origin[j] < |consEq|
    ensures SameTarget(equalities, forbidden, consEq[origin[i]], consEq[origin[j]])
    ensures SameConstant(subs[i], subs[j], p) <==> !Contradict(consEq[origin[i]], consEq[origin[j]], p)
  {
    hide ImagesOk, Solved, RenamedOne, SameTarget, Contradict, SameConstant, Holds, SubHolds, LinearRow, Canonical, Signals;
    var c, d := cEq[origin[i]], cEq[origin[j]];
    assert Signals(c) == {subs[i].from} && Signals(d) == {subs[i].from};
    assert subs[i].from in Signals(c);
    SameSignals(equalities, renamings, forbidden, consEq[origin[i]], c, consEq[origin[j]], d, p);
    RenamedContradict(equalities, renamings, forbidden, consEq[origin[i]], c, consEq[origin[j]], d, p);
    SameConstantIsConsistent(subs[i], c, subs[j], d, u, forbidden, p);
  }

  /** Constant equalities with one target become substitutions of one signal. */
  lemma TargetSeen(equalities: seq<Constraint>, renamings: seq<Substitution>, consEq: seq<Constraint>, cEq: seq<Constraint>,
                   subs: seq<Substitution>, cons: seq<Constraint>, origin: seq<nat>, u: set<nat>, forbidden: set<nat>, m: nat, n: nat, p: int)
    returns (i: nat, j: nat)
    requires Prime(p) && ImagesOk(equalities, renamings, forbidden) && Solved(renamings) && Renamed(renamings, consEq, cEq, p)
    requires ConstantsResult(cEq, subs, cons, origin, u, forbidden, p)
    requires m < |consEq| && n < |consEq| && SameTarget(equalities, forbidden, consEq[m], consEq[n])
    ensures |origin| == |subs| && i < |subs| && j < |subs| && origin[i] == m && origin[j] == n && subs[i].from == subs[j].from
  {
    hide ImagesOk, Solved, RenamedOne, SameTarget, Holds, SubHolds, LinearRow, Canonical, ConstantSubstitution, Signals;
    SameSignals(equalities, renamings, forbidden, consEq[m], cEq[m], consEq[n], cEq[n], p);
    assert m in origin && n in origin;
    i :| 0 <= i < |origin| && origin[i] == m;
    j :| 0 <= j < |origin| && origin[j] == n;
    assert Signals(cEq[m]) == {subs[i].from} && Signals(cEq[n]) == {subs[j].from};
    assert subs[i].from in {subs[j].from};
  }
}
