/**
 Substitutions encoded as a map from signals to expressions, and their application to
 constraints (circom_algebra/src/simplification_utils.rs, the fast encoded substitutions).
 */
module EncodedSubstitution {
  import opened LinearForms
  import opened Algebra
  import opened Rows
  import opened Orders
  import opened Elimination

  type Encoded = map<nat, Expr>

  /** The substitution an entry of the map stands for. */
  function AsSubstitution(from: nat, e: Expr): Substitution {
    match NewSubstitution(from, e)
    case Some(s) => s
    case None => Substitution(from, map[])
  }

  ghost predicate EncodedHolds(enc: Encoded, w: Assignment, p: int)
    requires p > 0
  {
    forall s :: s in enc ==> SubHolds(AsSubstitution(s, enc[s]), w, p)
  }

  ghost predicate GoodEncoded(enc: Encoded, forbidden: set<nat>, u: set<nat>, p: int) {
    forall s :: s in enc ==>
                  && s !in forbidden
                  && NewSubstitution(s, enc[s]).Some?
                  && GoodSubstitution(AsSubstitution(s, enc[s]), s, u, p)
  }

  /** No expression mentions a signal of the map. */
  ghost predicate SolvedEncoded(enc: Encoded) {
    forall s, t :: s in enc && t in enc ==> s !in AsSubstitution(t, enc[t]).to
  }

  // ------------------------------------------------------------------ encoding a list

  /** The last substitution of a signal is the one that stays. */
  ghost function Encode(subs: seq<Substitution>): Encoded {
    if |subs| == 0 then map[]
    else
      var s := subs[|subs| - 1];
      Encode(subs[..|subs| - 1])[s.from := FormIntoExpr(s.to)]
  }

  method BuildEncodedFastSubstitutions(fastSub: seq<Substitution>) returns (encoded: Encoded)
    ensures encoded == Encode(fastSub)
  {
    encoded := map[];
    for i := 0 to |fastSub|
      invariant encoded == Encode(fastSub[..i])
    {
      PrefixStep(fastSub, i);
      assert fastSub[..i + 1][..i] == fastSub[..i];
      encoded := encoded[fastSub[i].from := FormIntoExpr(fastSub[i].to)];
    }
    PrefixAll(fastSub);
  }

  lemma {:induction false} EncodeEntries(subs: seq<Substitution>)
    ensures forall k :: k in Encode(subs) ==> exists s :: s in subs && s.from == k && Encode(subs)[k] == FormIntoExpr(s.to)
    ensures forall s :: s in subs ==> s.from in Encode(subs)
  {
    if |subs| > 0 {
      var last := |subs| - 1;
      EncodeEntries(subs[..last]);
      assert subs == subs[..last] + [subs[last]];
    }
  }

  /** Encoding a form and decoding it keeps its value, its coefficients and its signals. */
  lemma RoundTripForm(from: nat, to: Form, w: Assignment, p: int)
    requires p > 0 && from !in to && from != CONSTANT
    ensures NewSubstitution(from, FormIntoExpr(to)).Some?
    ensures Eval(AsSubstitution(from, FormIntoExpr(to)).to, w) == Eval(to, w)
  {
    FormIntoExprMeans(to, w);
    NewSubstitutionMeans(from, FormIntoExpr(to), w);
  }

  lemma RoundTripShape(from: nat, to: Form, p: int)
    requires p > 0 && from !in to && from != CONSTANT
    ensures NewSubstitution(from, FormIntoExpr(to)).Some?
    ensures var r := AsSubstitution(from, FormIntoExpr(to));
            && r.from == from && r.to.Keys <= to.Keys + {CONSTANT}
            && (Canonical(to, p) ==> Canonical(r.to, p))
  {}

  lemma RoundTripHolds(s: Substitution, w: Assignment, p: int)
    requires p > 0 && s.from !in s.to && s.from != CONSTANT
    ensures SubHolds(AsSubstitution(s.from, FormIntoExpr(s.to)), w, p) <==> SubHolds(s, w, p)
  {
    RoundTripForm(s.from, s.to, w, p);
  }

  lemma EncodeGood(subs: seq<Substitution>, forbidden: set<nat>, u: set<nat>, p: int)
    requires p > 0 && GoodSubstitutions(subs, forbidden, u, p)
    ensures GoodEncoded(Encode(subs), forbidden, u, p)
  {
    EncodeEntries(subs);
    forall k | k in Encode(subs)
      ensures k !in forbidden && NewSubstitution(k, Encode(subs)[k]).Some?
      ensures GoodSubstitution(AsSubstitution(k, Encode(subs)[k]), k, u, p)
    {
      var s :| s in subs && s.from == k && Encode(subs)[k] == FormIntoExpr(s.to);
      RoundTripShape(k, s.to, p);
    }
  }

  lemma EncodeSolved(subs: seq<Substitution>, forbidden: set<nat>, u: set<nat>, p: int)
    requires p > 0 && GoodSubstitutions(subs, forbidden, u, p)
    requires forall s, t :: s in subs && t in subs ==> s.from !in t.to
    ensures SolvedEncoded(Encode(subs))
  {
    var enc := Encode(subs);
    EncodeEntries(subs);
    forall k, l | k in enc && l in enc
      ensures k !in AsSubstitution(l, enc[l]).to
    {
      var s :| s in subs && s.from == k && enc[k] == FormIntoExpr(s.to);
      var t :| t in subs && t.from == l && enc[l] == FormIntoExpr(t.to);
      RoundTripShape(l, t.to, p);
      assert s.from != CONSTANT;
    }
  }

  /** What the list says, the map says; nothing is lost when no signal is substituted twice. */
  lemma EncodeHolds(subs: seq<Substitution>, forbidden: set<nat>, u: set<nat>, w: Assignment, p: int)
    requires p > 0 && GoodSubstitutions(subs, forbidden, u, p)
    ensures SubsHold(subs, w, p) ==> EncodedHolds(Encode(subs), w, p)
    ensures Solved(subs) && EncodedHolds(Encode(subs), w, p) ==> SubsHold(subs, w, p)
  {
    var enc := Encode(subs);
    EncodeEntries(subs);
    if SubsHold(subs, w, p) {
      forall k | k in enc
        ensures SubHolds(AsSubstitution(k, enc[k]), w, p)
      {
        var s :| s in subs && s.from == k && enc[k] == FormIntoExpr(s.to);
        RoundTripHolds(s, w, p);
      }
    }
    if Solved(subs) && EncodedHolds(enc, w, p) {
      forall s | s in subs
        ensures SubHolds(s, w, p)
      {
        var t :| t in subs && t.from == s.from && enc[s.from] == FormIntoExpr(t.to);
        DistinctSame(subs, s, t);
        RoundTripHolds(s, w, p);
      }
    }
  }

  lemma DistinctSame(subs: seq<Substitution>, s: Substitution, t: Substitution)
    requires Solved(subs) && s in subs && t in subs && s.from == t.from
    ensures s == t
  {}

  // ------------------------------------------------------------------ applying the map

  /** Every signal of the map read as its expression, all at once. */
  ghost function Simultaneous(enc: Encoded, done: set<nat>, w: Assignment): Assignment {
    (k: nat) => if k in done && k in enc then Eval(AsSubstitution(k, enc[k]).to, w) else w(k)
  }

  /** The signals a set of signals becomes. */
  ghost function EncodedImage(enc: Encoded, signals: set<nat>): set<nat> {
    (signals - enc.Keys) + set s, t | s in signals && s in enc && t in AsSubstitution(s, enc[s]).to && t != CONSTANT :: t
  }

  lemma ImageAvoidsKeys(enc: Encoded, signals: set<nat>)
    requires SolvedEncoded(enc)
    ensures EncodedImage(enc, signals) !! enc.Keys
  {}

  lemma ApplySignals(c: Constraint, s: Substitution, p: int)
    requires p > 0 && s.from != CONSTANT && s.from !in s.to
    ensures Signals(ApplySubstitution(c, s, p)) <= (Signals(c) - {s.from}) + (s.to.Keys - {CONSTANT})
    ensures s.from !in Signals(c) ==> Signals(ApplySubstitution(c, s, p)) <= Signals(c)
    ensures CanonicalConstraint(c, p) ==> CanonicalConstraint(ApplySubstitution(c, s, p), p)
  {
    hide Substitute;
    SubstituteKeys(c.a, s.from, s.to, p);
    SubstituteKeys(c.b, s.from, s.to, p);
    SubstituteKeys(c.c, s.from, s.to, p);
  }

  /** Forms with nothing but a zero constant. */
  ghost predicate Vanishing(m: Form) {
    forall k :: k in m ==> k == CONSTANT && m[k] == 0
  }

  lemma VanishingFixed(c: Constraint, p: int)
    requires p > 0 && Vanishing(c.a) && Vanishing(c.b) && CanonicalConstraint(c, p)
    ensures LinearRow(FixConstraint(c, p), p)
  {}

  /** r holds where c does when the signals of `done` are read as their expressions. */
  ghost predicate ReadsAs(enc: Encoded, done: set<nat>, c: Constraint, r: Constraint, w: Assignment, p: int)
    requires p > 0
  {
    Holds(r, w, p) <==> Holds(c, Simultaneous(enc, done, w), p)
  }

  /** Treating one more signal extends the simultaneous reading by it. */
  lemma SimultaneousStep(enc: Encoded, done: set<nat>, s: nat, c: Constraint, cur: Constraint, w: Assignment, p: int)
    requires p > 0 && s in enc && s !in done && s != CONSTANT && SolvedEncoded(enc)
    requires NewSubstitution(s, enc[s]).Some?
    requires forall v: Assignment :: ReadsAs(enc, done, c, cur, v, p)
    ensures ReadsAs(enc, done + {s}, c, ApplySubstitution(cur, AsSubstitution(s, enc[s]), p), w, p)
  {
    hide Holds;
    var sub := AsSubstitution(s, enc[s]);
    var v := Update(w, s, Eval(sub.to, w));
    assert ReadsAs(enc, done, c, cur, v, p);
    ApplyIsUpdate(cur, sub, w, p);
    forall k | k in Signals(c)
      ensures Simultaneous(enc, done, v)(k) == Simultaneous(enc, done + {s}, w)(k)
    {
      if k in done && k in enc {
        EvalAgree(AsSubstitution(k, enc[k]).to, v, w);
      }
    }
    HoldsAgree(c, Simultaneous(enc, done, v), Simultaneous(enc, done + {s}, w), p);
  }

  /** What applying an encoded map to a constraint does, in whatever order the signals are visited. */
  ghost predicate Substituted(enc: Encoded, c: Constraint, r: Constraint, p: int)
    requires p > 0
  {
    && (forall w: Assignment :: EncodedHolds(enc, w, p) ==> (Holds(r, w, p) <==> Holds(c, w, p)))
    && (forall w: Assignment :: ReadsAs(enc, enc.Keys, c, r, w, p))
    && Signals(r) <= EncodedImage(enc, Signals(c))
    && (CanonicalConstraint(c, p) ==> CanonicalConstraint(r, p))
    && (Vanishing(c.a) ==> Vanishing(r.a))
    && (Vanishing(c.b) ==> Vanishing(r.b))
  }

  /** The same, for the signals treated so far. */
  ghost predicate PartlySubstituted(enc: Encoded, done: set<nat>, c: Constraint, r: Constraint, p: int)
    requires p > 0
  {
    && (forall w: Assignment :: EncodedHolds(enc, w, p) ==> (Holds(r, w, p) <==> Holds(c, w, p)))
    && (forall w: Assignment :: ReadsAs(enc, done, c, r, w, p))
    && Signals(r) <= EncodedImage(enc, Signals(c)) + (Signals(c) - done)
    && (CanonicalConstraint(c, p) ==> CanonicalConstraint(r, p))
    && (Vanishing(c.a) ==> Vanishing(r.a))
    && (Vanishing(c.b) ==> Vanishing(r.b))
  }

  lemma SubstituteOne(enc: Encoded, done: set<nat>, s: nat, c: Constraint, r: Constraint, p: int)
    requires p > 0 && SolvedEncoded(enc) && s in enc && s !in done && s != CONSTANT && s in Signals(c)
    requires NewSubstitution(s, enc[s]).Some? && s !in AsSubstitution(s, enc[s]).to
    requires PartlySubstituted(enc, done, c, r, p)
    ensures PartlySubstituted(enc, done + {s}, c, ApplySubstitution(r, AsSubstitution(s, enc[s]), p), p)
  {
    hide Holds, SubHolds, Signals, ApplySubstitution, ReadsAs, SolvedEncoded, CanonicalConstraint, Vanishing;
    var sub := AsSubstitution(s, enc[s]);
    var next := ApplySubstitution(r, sub, p);
    forall w: Assignment
      ensures EncodedHolds(enc, w, p) ==> (Holds(next, w, p) <==> Holds(c, w, p))
      ensures ReadsAs(enc, done + {s}, c, next, w, p)
    {
      if EncodedHolds(enc, w, p) {
        ApplySame(r, sub, w, p);
      }
      SimultaneousStep(enc, done, s, c, r, w, p);
    }
    ApplySignals(r, sub, p);
    SubstituteVanishings(r, sub, p);
    SubstitutedSignals(enc, Signals(c), Signals(r), Signals(next), done, s);
  }

  lemma SubstitutedSignals(enc: Encoded, before: set<nat>, cur: set<nat>, next: set<nat>, done: set<nat>, s: nat)
    requires s in before && s in enc
    requires cur <= EncodedImage(enc, before) + (before - done)
    requires next <= (cur - {s}) + (AsSubstitution(s, enc[s]).to.Keys - {CONSTANT})
    ensures next <= EncodedImage(enc, before) + (before - (done + {s}))
  {}

  lemma SignalsExcludeConstant(c: Constraint)
    ensures CONSTANT !in Signals(c)
  {}

  lemma SubstituteVanishings(r: Constraint, s: Substitution, p: int)
    requires p > 0 && s.from != CONSTANT
    ensures Vanishing(r.a) ==> Vanishing(ApplySubstitution(r, s, p).a)
    ensures Vanishing(r.b) ==> Vanishing(ApplySubstitution(r, s, p).b)
  {}

  /** A signal outside the map, or outside the constraint, makes no difference. */
  lemma SimultaneousRelevant(enc: Encoded, done: set<nat>, c: Constraint, r: Constraint, w: Assignment, p: int)
    requires p > 0 && forall k :: k in Signals(c) && k in enc ==> k in done
    requires ReadsAs(enc, done, c, r, w, p)
    ensures ReadsAs(enc, enc.Keys, c, r, w, p)
  {
    HoldsAgree(c, Simultaneous(enc, done, w), Simultaneous(enc, enc.Keys, w), p);
  }

  lemma NothingSubstituted(enc: Encoded, c: Constraint, p: int)
    requires p > 0
    ensures PartlySubstituted(enc, {}, c, c, p)
  {
    hide Holds, SubHolds;
    forall w: Assignment
      ensures ReadsAs(enc, {}, c, c, w, p)
    {
      HoldsAgree(c, w, Simultaneous(enc, {}, w), p);
    }
  }

  lemma AllSubstituted(enc: Encoded, done: set<nat>, c: Constraint, r: Constraint, p: int)
    requires p > 0 && PartlySubstituted(enc, done, c, r, p)
    requires forall k :: k in Signals(c) && k in enc ==> k in done
    ensures Substituted(enc, c, r, p)
  {
    hide Holds, SubHolds, Signals, CanonicalConstraint, Vanishing, ReadsAs;
    forall w: Assignment
      ensures ReadsAs(enc, enc.Keys, c, r, w, p)
    {
      SimultaneousRelevant(enc, done, c, r, w, p);
    }
  }

  method FastEncodedConstraintSubstitution(c: Constraint, enc: Encoded, ghost forbidden: set<nat>, ghost u: set<nat>, field: int)
    returns (r: Constraint, appliedSubstitution: bool)
    requires field > 0 && GoodEncoded(enc, forbidden, u, field) && SolvedEncoded(enc)
    ensures Substituted(enc, c, r, field)
    ensures appliedSubstitution <==> Signals(c) * enc.Keys != {}
    ensures !appliedSubstitution ==> r == c
  {
    hide Signals, Substituted, PartlySubstituted, Substitute;
    r, appliedSubstitution := c, false;
    var todo := Signals(c);
    SignalsExcludeConstant(c);
    NothingSubstituted(enc, c, field);
    ghost var done: set<nat> := {};
    while todo != {}
      invariant todo <= Signals(c) && done <= enc.Keys && done !! todo
      invariant forall k :: k in Signals(c) && k in enc ==> k in done || k in todo
      invariant PartlySubstituted(enc, done, c, r, field)
      invariant appliedSubstitution <==> (Signals(c) - todo) * enc.Keys != {}
      invariant !appliedSubstitution ==> r == c
      decreases todo
    {
      var signal :| signal in todo;
      if signal in enc {
        SubstituteOne(enc, done, signal, c, r, field);
        r := ApplySubstitution(r, AsSubstitution(signal, enc[signal]), field);
        appliedSubstitution := true;
        done := done + {signal};
        assert signal in (Signals(c) - (todo - {signal})) * enc.Keys;
      }
      todo := todo - {signal};
    }
    AllSubstituted(enc, done, c, r, field);
  }

  // ------------------------------------------------------------------ lists of linear constraints

  /** What becomes of a linear constraint: substituted, and normalised if anything was substituted. */
  ghost predicate Rewritten(enc: Encoded, c: Constraint, r: Constraint, p: int)
    requires p > 0
  {
    && (forall w: Assignment :: EncodedHolds(enc, w, p) ==> (Holds(r, w, p) <==> Holds(c, w, p)))
    && (forall w: Assignment :: ReadsAs(enc, enc.Keys, c, r, w, p))
    && Signals(r) <= EncodedImage(enc, Signals(c))
    && (CanonicalConstraint(c, p) ==> CanonicalConstraint(r, p))
    && (LinearRow(c, p) ==> LinearRow(r, p))
  }

  lemma FixedIsRewritten(enc: Encoded, c: Constraint, r: Constraint, p: int)
    requires p > 0 && Substituted(enc, c, r, p) && CanonicalConstraint(c, p)
    ensures Rewritten(enc, c, FixConstraint(r, p), p)
  {
    hide Holds, SubHolds, Signals, FixConstraint, CanonicalConstraint, LinearRow, EncodedImage, Simultaneous;
    FixShape(r, p);
    ReducedIsCanonical(FixConstraint(r, p), p);
    LinearStaysLinear(c, r, p);
    forall w: Assignment
      ensures Holds(FixConstraint(r, p), w, p) <==> Holds(r, w, p)
      ensures ReadsAs(enc, enc.Keys, c, FixConstraint(r, p), w, p)
    {
      FixHolds(r, w, p);
      assert ReadsAs(enc, enc.Keys, c, r, w, p);
    }
  }

  lemma LinearStaysLinear(c: Constraint, r: Constraint, p: int)
    requires p > 0 && CanonicalConstraint(r, p)
    requires (Vanishing(c.a) ==> Vanishing(r.a)) && (Vanishing(c.b) ==> Vanishing(r.b))
    ensures LinearRow(c, p) ==> LinearRow(FixConstraint(r, p), p)
  {}

  lemma ReducedIsCanonical(c: Constraint, p: int)
    requires ReducedConstraint(c, p)
    ensures CanonicalConstraint(c, p)
  {}

  lemma UntouchedIsRewritten(enc: Encoded, c: Constraint, p: int)
    requires p > 0 && Substituted(enc, c, c, p)
    ensures Rewritten(enc, c, c, p)
  {}

  /** Applies the map to every constraint of a list; normalises the ones it changed. */
  method SubstituteAll(constraints: seq<Constraint>, enc: Encoded, ghost forbidden: set<nat>, ghost u: set<nat>, field: int)
    returns (r: seq<Constraint>)
    requires field > 0 && GoodEncoded(enc, forbidden, u, field) && SolvedEncoded(enc)
    requires forall c :: c in constraints ==> CanonicalConstraint(c, field)
    ensures |r| == |constraints|
    ensures forall i :: 0 <= i < |r| ==> Rewritten(enc, constraints[i], r[i], field)
  {
    hide CanonicalConstraint, Substituted, Rewritten, Signals, GoodEncoded, SolvedEncoded, FixConstraint;
    r := [];
    for i := 0 to |constraints|
      invariant |r| == i
      invariant forall j :: 0 <= j < i ==> Rewritten(enc, constraints[j], r[j], field)
    {
      var constraint, applied := FastEncodedConstraintSubstitution(constraints[i], enc, forbidden, u, field);
      if applied {
        FixedIsRewritten(enc, constraints[i], constraint, field);
        constraint := FixConstraint(constraint, field);
      } else {
        UntouchedIsRewritten(enc, constraints[i], field);
      }
      r := r + [constraint];
    }
  }

  /** Where the map holds, a rewritten list says what the list said. */
  lemma RewrittenListHolds(enc: Encoded, cs: seq<Constraint>, rs: seq<Constraint>, w: Assignment, p: int)
    requires p > 0 && |rs| == |cs| && EncodedHolds(enc, w, p)
    requires forall i :: 0 <= i < |rs| ==> Rewritten(enc, cs[i], rs[i], p)
    ensures AllHold(rs, w, p) <==> AllHold(cs, w, p)
  {
    hide Holds, EncodedHolds, EncodedImage, CanonicalConstraint, LinearRow, ReadsAs, Signals;
    forall i | 0 <= i < |rs|
      ensures Holds(rs[i], w, p) <==> Holds(cs[i], w, p)
    {
      assert Rewritten(enc, cs[i], rs[i], p);
    }
    if AllHold(cs, w, p) {
      forall c | c in rs
        ensures Holds(c, w, p)
      {
        var i :| 0 <= i < |rs| && rs[i] == c;
        assert cs[i] in cs;
      }
    }
    if AllHold(rs, w, p) {
      forall c | c in cs
        ensures Holds(c, w, p)
      {
        var i :| 0 <= i < |cs| && cs[i] == c;
        assert rs[i] in rs;
      }
    }
  }
}
