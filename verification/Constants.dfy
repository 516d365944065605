/**
 Constant equalities (circom/constraint_list/src/constraint_simplification.rs,
 constant_eq_simplification): a signal fixed to a constant is substituted by it.
 */
module Constants {
  import opened Field
  import opened LinearForms
  import opened Algebra
  import opened Rows
  import opened Elimination
  import opened Equalities
  import opened EncodedSubstitution

  /** The one constraint shape expected here: v*x + k = 0 with v not zero. */
  ghost predicate FixesSignal(c: Constraint, x: nat, p: int) {
    LinearRow(c, p) && Signals(c) == {x}
  }

  /** Whether the constraint holds when its signal has this value. */
  ghost predicate HoldsAt(c: Constraint, value: int, p: int)
    requires p > 0
  {
    Holds(c, (k: nat) => value, p)
  }

  lemma HoldsAtSignal(c: Constraint, x: nat, w: Assignment, p: int)
    requires p > 0 && FixesSignal(c, x, p)
    ensures Holds(c, w, p) <==> HoldsAt(c, w(x), p)
  {
    HoldsAgree(c, w, (k: nat) => w(x), p);
  }

  // ------------------------------------------------------------------ solving for the signal

  /** Divides a linear constraint by the pivot and moves it to the left: the substitution of the signal. */
  function ClearSignalFromLinear(c: Constraint, signal: nat, field: int): Substitution
    requires field >= 2 && signal in c.c
  {
    var valueToTheRight := Mul(c.c[signal], -1, field);
    match DivideForm(valueToTheRight, InitConstant(c.c - {signal}), field)
    case Ok(m) => Substitution(signal, RemoveZeros(m))
    case Err(_) => Substitution(signal, map[])
  }

  lemma ClearFromLinear(c: Constraint, signal: nat, w: Assignment, p: int)
    requires Prime(p) && LinearRow(c, p) && signal in c.c && signal != CONSTANT
    ensures DivideForm(Mul(c.c[signal], -1, p), InitConstant(c.c - {signal}), p).Ok?
    ensures SubHolds(ClearSignalFromLinear(c, signal, p), w, p) <==> Holds(c, w, p)
  {
    var row := ClearSignalNotNormalized(c, signal, p);
    DivisionWorks(row.coefficient, p);
    ClearHolds(c, signal, w, p);
    EvalDivide(row.coefficient, row.sub.to, w, p);
    var m := DivideForm(row.coefficient, row.sub.to, p).value;
    EvalRemoveZeros(m, w);
    PivotDivided(row.coefficient, Wire(w, signal), Eval(m, w), Eval(row.sub.to, w), p);
  }

  lemma DivisionWorks(a: int, p: int)
    requires Prime(p) && !Eqv(a, 0, p)
    ensures Div(1, a, p).Ok?
  {
    var inverse := PrimeInverse(a, p);
    assert Eqv(Times(a, inverse), 1, p);
  }

  lemma PivotDivided(a: int, x: int, quotient: int, to: int, p: int)
    requires Prime(p) && !Eqv(a, 0, p) && Eqv(quotient * a, to, p)
    ensures Eqv(x, quotient, p) <==> Eqv(a * x, to, p)
  {
    Cancel(a, x, quotient, p);
    assert a * quotient == quotient * a;
  }

  /** The substitution of a fixed signal is a constant. */
  ghost predicate ConstantSubstitution(s: Substitution, u: set<nat>, forbidden: set<nat>, p: int) {
    s.from !in forbidden && s.from != CONSTANT && s.from in u && s.to.Keys <= {CONSTANT} && Canonical(s.to, p)
  }

  lemma ClearIsConstant(c: Constraint, x: nat, u: set<nat>, forbidden: set<nat>, p: int)
    requires p >= 2 && FixesSignal(c, x, p) && x !in forbidden && x in u
    ensures x in c.c
    ensures ConstantSubstitution(ClearSignalFromLinear(c, x, p), u, forbidden, p)
    ensures ClearSignalFromLinear(c, x, p).from == x
  {}

  /** Where a constraint and its substitution came from. */
  ghost predicate Solves(s: Substitution, c: Constraint, p: int)
    requires p > 0
  {
    FixesSignal(c, s.from, p) && forall w: Assignment :: SubHolds(s, w, p) <==> Holds(c, w, p)
  }

  /** What treating constant equalities promises; `origin` tells which constraint each substitution came from. */
  ghost predicate ConstantsResult(cEq: seq<Constraint>, subs: seq<Substitution>, cons: seq<Constraint>, origin: seq<nat>,
                                  u: set<nat>, forbidden: set<nat>, p: int)
    requires p > 0
  {
    && ConstantsUpTo(cEq, |cEq|, subs, cons, origin, u, forbidden, p)
  }

  ghost predicate ConstantsUpTo(cEq: seq<Constraint>, n: nat, subs: seq<Substitution>, cons: seq<Constraint>, origin: seq<nat>,
                                u: set<nat>, forbidden: set<nat>, p: int)
    requires p > 0 && n <= |cEq|
  {
    && |origin| == |subs|
    && (forall k :: 0 <= k < |subs| ==> origin[k] < n && Solves(subs[k], cEq[origin[k]], p))
    && (forall k :: 0 <= k < |subs| ==> ConstantSubstitution(subs[k], u, forbidden, p))
    && (forall j, k :: 0 <= j < k < |subs| ==> origin[j] < origin[k])
    && (forall c :: c in cons ==> (exists i :: 0 <= i < n && cEq[i] == c) && Kept(c, forbidden, u, p))
    && (forall i :: 0 <= i < n ==> (Signals(cEq[i]) <= forbidden && cEq[i] in cons) || i in origin)
  }

  method ConstantEqSimplification(cEq: seq<Constraint>, forbidden: set<nat>, ghost u: set<nat>, field: int)
    returns (subs: seq<Substitution>, cons: seq<Constraint>, ghost origin: seq<nat>)
    requires Prime(field)
    requires forall c :: c in cEq ==> exists x :: x in u && FixesSignal(c, x, field)
    ensures ConstantsResult(cEq, subs, cons, origin, u, forbidden, field)
  {
    hide ClearSignalFromLinear, Holds, SubHolds, FixesSignal, ConstantSubstitution, Kept, Signals, Solves, ConstantsUpTo;
    cons, subs, origin := [], [], [];
    NoConstants(cEq, u, forbidden, field);
    for i := 0 to |cEq|
      invariant ConstantsUpTo(cEq, i, subs, cons, origin, u, forbidden, field)
    {
      var constraint := cEq[i];
      assert constraint in cEq;
      ghost var x :| x in u && FixesSignal(constraint, x, field);
      SingleSignal(constraint, x, field);
      var signal :| signal in Signals(constraint);
      if signal in forbidden {
        FixedIsKept(constraint, x, forbidden, u, field);
        KeepConstant(cEq, i, subs, cons, origin, u, forbidden, field);
        cons := cons + [constraint];
      } else {
        ClearIsConstant(constraint, signal, u, forbidden, field);
        ClearSolves(constraint, signal, field);
        var sub := ClearSignalFromLinear(constraint, signal, field);
        SubstituteConstant(cEq, i, subs, cons, origin, sub, u, forbidden, field);
        subs := subs + [sub];
        origin := origin + [i];
      }
    }
  }

  lemma NoConstants(cEq: seq<Constraint>, u: set<nat>, forbidden: set<nat>, p: int)
    requires p > 0
    ensures ConstantsUpTo(cEq, 0, [], [], [], u, forbidden, p)
  {}

  lemma KeepConstant(cEq: seq<Constraint>, n: nat, subs: seq<Substitution>, cons: seq<Constraint>, origin: seq<nat>,
                     u: set<nat>, forbidden: set<nat>, p: int)
    requires p > 0 && n < |cEq| && ConstantsUpTo(cEq, n, subs, cons, origin, u, forbidden, p)
    requires Kept(cEq[n], forbidden, u, p) && Signals(cEq[n]) <= forbidden
    ensures ConstantsUpTo(cEq, n + 1, subs, cons + [cEq[n]], origin, u, forbidden, p)
  {
    hide Solves, ConstantSubstitution, Kept, Signals;
    forall c | c in cons + [cEq[n]]
      ensures (exists i :: 0 <= i < n + 1 && cEq[i] == c) && Kept(c, forbidden, u, p)
    {
      if c in cons {
        var i :| 0 <= i < n && cEq[i] == c;
      }
    }
    assert cEq[n] in cons + [cEq[n]];
    assert forall c :: c in cons ==> c in cons + [cEq[n]];
  }

  lemma SubstituteConstant(cEq: seq<Constraint>, n: nat, subs: seq<Substitution>, cons: seq<Constraint>, origin: seq<nat>,
                           sub: Substitution, u: set<nat>, forbidden: set<nat>, p: int)
    requires p > 0 && n < |cEq| && ConstantsUpTo(cEq, n, subs, cons, origin, u, forbidden, p)
    requires Solves(sub, cEq[n], p) && ConstantSubstitution(sub, u, forbidden, p)
    ensures ConstantsUpTo(cEq, n + 1, subs + [sub], cons, origin + [n], u, forbidden, p)
  {
    hide Solves, ConstantSubstitution, Kept, Signals;
    forall c | c in cons
      ensures exists i :: 0 <= i < n + 1 && cEq[i] == c
    {
      var i :| 0 <= i < n && cEq[i] == c;
    }
    assert n in origin + [n];
    assert forall i :: i in origin ==> i in origin + [n];
  }

  lemma SingleSignal(c: Constraint, x: nat, p: int)
    requires FixesSignal(c, x, p)
    ensures Signals(c) == {x}
  {}

  lemma FixedIsKept(c: Constraint, x: nat, forbidden: set<nat>, u: set<nat>, p: int)
    requires FixesSignal(c, x, p) && x in forbidden && x in u
    ensures Kept(c, forbidden, u, p)
  {}

  lemma ClearSolves(c: Constraint, x: nat, p: int)
    requires Prime(p) && FixesSignal(c, x, p)
    ensures x in c.c && ClearSignalFromLinear(c, x, p).from == x
    ensures Solves(ClearSignalFromLinear(c, x, p), c, p)
  {
    forall w: Assignment
      ensures SubHolds(ClearSignalFromLinear(c, x, p), w, p) <==> Holds(c, w, p)
    {
      ClearFromLinear(c, x, w, p);
    }
  }

  // ------------------------------------------------------------------ what the map loses

  /** The two substitutions give their signal the same value. */
  ghost predicate SameConstant(s: Substitution, t: Substitution, p: int)
    requires p > 0
  {
    Eqv(Coef(s.to, CONSTANT), Coef(t.to, CONSTANT), p)
  }

  ghost predicate Agreeing(subs: seq<Substitution>, p: int)
    requires p > 0
  {
    forall s, t :: s in subs && t in subs && s.from == t.from ==> SameConstant(s, t, p)
  }

  lemma ConstantGood(subs: seq<Substitution>, u: set<nat>, forbidden: set<nat>, p: int)
    requires p > 0 && forall s :: s in subs ==> ConstantSubstitution(s, u, forbidden, p)
    ensures GoodSubstitutions(subs, forbidden, u, p)
    ensures forall s, t :: s in subs && t in subs ==> s.from !in t.to
  {}

  lemma ConstantHolds(s: Substitution, u: set<nat>, forbidden: set<nat>, w: Assignment, p: int)
    requires p > 0 && ConstantSubstitution(s, u, forbidden, p)
    ensures SubHolds(s, w, p) <==> Eqv(w(s.from), Coef(s.to, CONSTANT), p)
  {
    EvalSingle(s.to, CONSTANT, w);
  }

  /** The assignment the map describes. */
  ghost function Chosen(enc: Encoded): Assignment {
    (k: nat) => if k in enc then Coef(AsSubstitution(k, enc[k]).to, CONSTANT) else 0
  }

  lemma ChosenHolds(subs: seq<Substitution>, u: set<nat>, forbidden: set<nat>, p: int)
    requires p > 0 && forall s :: s in subs ==> ConstantSubstitution(s, u, forbidden, p)
    ensures EncodedHolds(Encode(subs), Chosen(Encode(subs)), p)
  {
    hide FormIntoExpr, AsSubstitution, Encode, Chosen, SubHolds;
    var enc := Encode(subs);
    EncodeEntries(subs);
    forall k | k in enc
      ensures SubHolds(AsSubstitution(k, enc[k]), Chosen(enc), p)
    {
      var s :| s in subs && s.from == k && enc[k] == FormIntoExpr(s.to);
      ChosenEntry(enc, s, p);
    }
  }

  lemma ChosenEntry(enc: Encoded, s: Substitution, p: int)
    requires p > 0 && s.from in enc && enc[s.from] == FormIntoExpr(s.to)
    requires s.from != CONSTANT && s.to.Keys <= {CONSTANT}
    ensures SubHolds(AsSubstitution(s.from, enc[s.from]), Chosen(enc), p)
  {
    hide FormIntoExpr, AsSubstitution;
    RoundTripShape(s.from, s.to, p);
    EvalSingle(AsSubstitution(s.from, enc[s.from]).to, CONSTANT, Chosen(enc));
  }

  /**
   The map keeps one binding per signal: it says what the list says exactly when no two substitutions
   give a signal different values.
   */
  lemma EncodingLossless(subs: seq<Substitution>, u: set<nat>, forbidden: set<nat>, p: int)
    requires p > 0 && forall s :: s in subs ==> ConstantSubstitution(s, u, forbidden, p)
    ensures Agreeing(subs, p) <==>
            forall w: Assignment :: EncodedHolds(Encode(subs), w, p) ==> SubsHold(subs, w, p)
  {
    var enc := Encode(subs);
    if Agreeing(subs, p) {
      forall w: Assignment | EncodedHolds(enc, w, p)
        ensures SubsHold(subs, w, p)
      {
        AgreeingHold(subs, u, forbidden, w, p);
      }
    }
    if forall w: Assignment :: EncodedHolds(enc, w, p) ==> SubsHold(subs, w, p) {
      ChosenHolds(subs, u, forbidden, p);
      var w := Chosen(enc);
      forall s, t | s in subs && t in subs && s.from == t.from
        ensures SameConstant(s, t, p)
      {
        ConstantHolds(s, u, forbidden, w, p);
        ConstantHolds(t, u, forbidden, w, p);
      }
    }
  }

  lemma AgreeingHold(subs: seq<Substitution>, u: set<nat>, forbidden: set<nat>, w: Assignment, p: int)
    requires p > 0 && forall s :: s in subs ==> ConstantSubstitution(s, u, forbidden, p)
    requires Agreeing(subs, p) && EncodedHolds(Encode(subs), w, p)
    ensures SubsHold(subs, w, p)
  {
    hide FormIntoExpr, AsSubstitution, Encode, SubHolds;
    var enc := Encode(subs);
    EncodeEntries(subs);
    forall s | s in subs
      ensures SubHolds(s, w, p)
    {
      var t :| t in subs && t.from == s.from && enc[s.from] == FormIntoExpr(t.to);
      RoundTripHolds(t, w, p);
      ConstantHolds(s, u, forbidden, w, p);
      ConstantHolds(t, u, forbidden, w, p);
    }
  }

  /** Two constraints on one signal that no value satisfies together. */
  ghost predicate Contradict(c: Constraint, d: Constraint, p: int)
    requires p > 0
  {
    forall value: int :: !(HoldsAt(c, value, p) && HoldsAt(d, value, p))
  }

  /** Substitutions agree exactly when the constraints they were made from do not contradict. */
  lemma SameConstantIsConsistent(s: Substitution, c: Constraint, t: Substitution, d: Constraint,
                                 u: set<nat>, forbidden: set<nat>, p: int)
    requires p > 0 && ConstantSubstitution(s, u, forbidden, p) && ConstantSubstitution(t, u, forbidden, p)
    requires s.from == t.from && Solves(s, c, p) && Solves(t, d, p)
    ensures SameConstant(s, t, p) <==> !Contradict(c, d, p)
  {
    var a, b := Coef(s.to, CONSTANT), Coef(t.to, CONSTANT);
    SolvesAt(s, c, u, forbidden, a, p);
    SolvesAt(t, d, u, forbidden, a, p);
    if !Contradict(c, d, p) {
      var value: int :| HoldsAt(c, value, p) && HoldsAt(d, value, p);
      SolvesAt(s, c, u, forbidden, value, p);
      SolvesAt(t, d, u, forbidden, value, p);
    }
  }

  lemma SolvesAt(s: Substitution, c: Constraint, u: set<nat>, forbidden: set<nat>, value: int, p: int)
    requires p > 0 && ConstantSubstitution(s, u, forbidden, p) && Solves(s, c, p)
    ensures HoldsAt(c, value, p) <==> Eqv(value, Coef(s.to, CONSTANT), p)
  {
    var w: Assignment := (k: nat) => value;
    ConstantHolds(s, u, forbidden, w, p);
    assert SubHolds(s, w, p) <==> Holds(c, w, p);
  }
}
