/**
 Dropping substitutions that cannot reach the quadratic constraints (circom/constraint_list/src/constraint_simplification.rs,
 build_relevant_set and remove_not_relevant): the frames that are left still eliminate everything.
 */
module Relevance {
  import opened LinearForms
  import opened Algebra
  import opened Rows
  import opened Elimination
  import opened EncodedSubstitution
  import opened NonLinear

  function UnwrappedSignal(renames: Encoded, signal: nat): nat {
    if signal in renames && renames[signal].Signal? then renames[signal].symbol else signal
  }

  /** The signals of some constraints after renaming, without the deleted ones. */
  ghost function RelevantSignals(cs: seq<Constraint>, renames: Encoded, deletes: Encoded): set<nat> {
    set s | s in SignalsOf(cs) && UnwrappedSignal(renames, s) !in deletes :: UnwrappedSignal(renames, s)
  }

  /** The relevant signals of a single constraint. */
  method AddRelevant(relevant: set<nat>, constraint: Constraint, renames: Encoded, deletes: Encoded) returns (relevant': set<nat>)
    ensures relevant' == relevant + set s | s in Signals(constraint) && UnwrappedSignal(renames, s) !in deletes :: UnwrappedSignal(renames, s)
  {
    relevant' := relevant;
    var todo := Signals(constraint);
    while todo != {}
      invariant todo <= Signals(constraint)
      invariant relevant' == relevant + set s | s in Signals(constraint) - todo && UnwrappedSignal(renames, s) !in deletes :: UnwrappedSignal(renames, s)
      decreases todo
    {
      var s :| s in todo;
      var signal := UnwrappedSignal(renames, s);
      todo := todo - {s};
      if signal !in deletes {
        relevant' := relevant' + {signal};
      }
    }
  }

  /** The relevant signals of the quadratic constraints, which are given in the order of the circuit's tree. */
  method BuildRelevantSet(nonLinear: seq<Constraint>, renames: Encoded, deletes: Encoded) returns (relevant: set<nat>)
    ensures relevant == RelevantSignals(nonLinear, renames, deletes)
  {
    hide UnwrappedSignal, Signals;
    relevant := {};
    for n := 0 to |nonLinear|
      invariant relevant == RelevantSignals(nonLinear[..n], renames, deletes)
    {
      relevant := AddRelevant(relevant, nonLinear[n], renames, deletes);
    }
  }

  function Restrict(enc: Encoded, relevant: set<nat>): Encoded { map k | k in enc && k in relevant :: enc[k] }

  method RemoveNotRelevant(substitutions: Encoded, relevant: set<nat>) returns (kept: Encoded)
    ensures kept == Restrict(substitutions, relevant)
  {
    kept := substitutions;
    var signals := substitutions.Keys;
    while signals != {}
      invariant signals <= substitutions.Keys
      invariant kept.Keys == set k | k in substitutions && (k in relevant || k in signals)
      invariant forall k :: k in kept ==> kept[k] == substitutions[k]
      decreases signals
    {
      var signal :| signal in signals;
      signals := signals - {signal};
      if signal !in relevant {
        kept := kept - {signal};
      }
    }
  }

  // ------------------------------------------------------------------ the image of the frames

  lemma RestrictImage(enc: Encoded, relevant: set<nat>, signals: set<nat>)
    requires signals <= relevant
    ensures EncodedImage(Restrict(enc, relevant), signals) == EncodedImage(enc, signals)
  {
    hide AsSubstitution;
    var kept := Restrict(enc, relevant);
    forall t
      ensures t in EncodedImage(kept, signals) <==> t in EncodedImage(enc, signals)
    {
      assert forall s :: s in signals && s in enc ==> s in kept && kept[s] == enc[s];
    }
  }

  lemma RestrictGood(enc: Encoded, relevant: set<nat>, forbidden: set<nat>, u: set<nat>, p: int)
    requires GoodEncoded(enc, forbidden, u, p) && SolvedEncoded(enc)
    ensures GoodEncoded(Restrict(enc, relevant), forbidden, u, p) && SolvedEncoded(Restrict(enc, relevant))
  {}

  lemma RestrictHolds(enc: Encoded, relevant: set<nat>, w: Assignment, p: int)
    requires p > 0 && EncodedHolds(enc, w, p)
    ensures EncodedHolds(Restrict(enc, relevant), w, p)
  {}

  /** Every entry is a renaming. */
  ghost predicate AllRename(enc: Encoded) {
    forall k :: k in enc ==> enc[k].Signal?
  }

  /** Every entry is a constant. */
  ghost predicate AllConstant(enc: Encoded) {
    forall k :: k in enc ==> AsSubstitution(k, enc[k]).to.Keys <= {CONSTANT}
  }

  lemma RenameImage(enc: Encoded, signals: set<nat>)
    requires AllRename(enc)
    ensures EncodedImage(enc, signals) <= set s | s in signals :: UnwrappedSignal(enc, s)
  {}

  lemma ConstantImage(enc: Encoded, signals: set<nat>)
    requires AllConstant(enc)
    ensures EncodedImage(enc, signals) == signals - enc.Keys
  {}

  /** An image consists of old signals and of signals the map mentions. */
  lemma ImageWithin(enc: Encoded, signals: set<nat>, forbidden: set<nat>, u: set<nat>, p: int)
    requires GoodEncoded(enc, forbidden, u, p)
    ensures EncodedImage(enc, signals) <= signals + u
    ensures EncodedImage(enc, signals) - u <= signals - enc.Keys
  {}

  lemma ThreeFrames(e: Encoded, c: Encoded, l: Encoded, signals: set<nat>)
    ensures FramesImage([e, c, l], signals) == EncodedImage(l, EncodedImage(c, EncodedImage(e, signals)))
  {
    hide EncodedImage;
    assert [e, c, l][..2] == [e, c];
    assert [e, c][..1] == [e];
    assert [e][..0] == [];
    assert FramesImage([e], signals) == EncodedImage(e, FramesImage([], signals));
    assert FramesImage([e, c], signals) == EncodedImage(c, FramesImage([e], signals));
  }

  /**
   Restricting the renamings to the signals of the quadratic constraints, and the other substitutions to what those
   become, changes nothing: no signal of a frame is left in a quadratic constraint.
   */
  lemma FramesEliminate(nonLinear: seq<Constraint>, e: Encoded, c: Encoded, l: Encoded, signals: set<nat>, v: set<nat>, forbidden: set<nat>, p: int)
    requires signals <= SignalsOf(nonLinear)
    requires SolvedEncoded(e) && AllRename(e) && SolvedEncoded(c) && AllConstant(c)
    requires SolvedEncoded(l) && GoodEncoded(l, forbidden, v, p) && v !! e.Keys && v !! c.Keys
    ensures var e' := Restrict(e, RelevantSignals(nonLinear, map[], map[]));
            var l' := Restrict(l, RelevantSignals(nonLinear, e', c));
            FramesImage([e', c, l'], signals) !! e.Keys + c.Keys + l.Keys
  {
    hide EncodedImage, AsSubstitution, SolvedEncoded, GoodEncoded, SignalsOf, FramesImage, UnwrappedSignal;
    var relevant := RelevantSignals(nonLinear, map[], map[]);
    var e' := Restrict(e, relevant);
    EverySignalRelevant(nonLinear);
    RestrictImage(e, relevant, signals);
    ImageAvoidsKeys(e, signals);
    var s1 := EncodedImage(e', signals);
    RestrictRenames(e, relevant);
    RenameImage(e', signals);
    ConstantImage(c, s1);
    var s2 := s1 - c.Keys;
    var relevant2 := RelevantSignals(nonLinear, e', c);
    assert s2 <= relevant2;
    RestrictImage(l, relevant2, s2);
    ImageAvoidsKeys(l, s2);
    ImageWithin(l, s2, forbidden, v, p);
    ThreeFrames(e', c, Restrict(l, relevant2), signals);
  }

  lemma EverySignalRelevant(nonLinear: seq<Constraint>)
    ensures RelevantSignals(nonLinear, map[], map[]) == SignalsOf(nonLinear)
  {}

  lemma RestrictRenames(enc: Encoded, relevant: set<nat>)
    requires AllRename(enc)
    ensures AllRename(Restrict(enc, relevant))
  {}

  /** The frames introduce only signals of the circuit. */
  lemma FramesWithin(e: Encoded, c: Encoded, l: Encoded, signals: set<nat>, forbidden: set<nat>, u: set<nat>, p: int)
    requires signals <= u && GoodEncoded(e, forbidden, u, p) && GoodEncoded(c, forbidden, u, p) && GoodEncoded(l, forbidden, u, p)
    ensures FramesImage([e, c, l], signals) <= u
  {
    hide EncodedImage, GoodEncoded, FramesImage;
    ThreeFrames(e, c, l, signals);
    ImageWithin(e, signals, forbidden, u, p);
    ImageWithin(c, EncodedImage(e, signals), forbidden, u, p);
    ImageWithin(l, EncodedImage(c, EncodedImage(e, signals)), forbidden, u, p);
  }

  // ------------------------------------------------------------------ a map as a list

  /** The substitutions of a map, in some order. */
  ghost function ListOf(enc: Encoded): seq<Substitution> {
    if enc == map[] then []
    else
      var k :| k in enc;
      ListOf(enc - {k}) + [AsSubstitution(k, enc[k])]
  }

  lemma {:induction false} ListOfMembers(enc: Encoded)
    ensures forall s :: s in ListOf(enc) <==> s.from in enc && s == AsSubstitution(s.from, enc[s.from])
    ensures forall i, j :: 0 <= i < j < |ListOf(enc)| ==> ListOf(enc)[i].from != ListOf(enc)[j].from
    decreases |enc|
  {
    if enc != map[] {
      var k :| k in enc && ListOf(enc) == ListOf(enc - {k}) + [AsSubstitution(k, enc[k])];
      var rest := enc - {k};
      assert |rest| < |enc| by { SmallerMap(enc, k); }
      ListOfMembers(rest);
      FromKept(k, enc[k]);
      var list := ListOf(rest);
      forall s
        ensures s in ListOf(enc) <==> s.from in enc && s == AsSubstitution(s.from, enc[s.from])
      {
        assert s in ListOf(enc) <==> s in list || s == AsSubstitution(k, enc[k]);
        assert s in list <==> s.from in rest && s == AsSubstitution(s.from, rest[s.from]);
      }
      forall i | 0 <= i < |list|
        ensures list[i].from != k
      {
        assert list[i] in list;
      }
    }
  }

  lemma SmallerMap(enc: Encoded, k: nat)
    requires k in enc
    ensures |enc - {k}| < |enc|
  {}

  lemma FromKept(k: nat, e: Expr)
    ensures AsSubstitution(k, e).from == k
  {}

  /** The list says what the map says. */
  lemma ListOfHolds(enc: Encoded, w: Assignment, p: int)
    requires p > 0
    ensures SubsHold(ListOf(enc), w, p) <==> EncodedHolds(enc, w, p)
  {
    hide AsSubstitution, SubHolds, ListOf;
    ListOfMembers(enc);
    forall k | k in enc
      ensures AsSubstitution(k, enc[k]) in ListOf(enc)
    {
      FromKept(k, enc[k]);
    }
  }

  lemma ListOfSolved(enc: Encoded, forbidden: set<nat>, u: set<nat>, p: int)
    requires GoodEncoded(enc, forbidden, u, p) && SolvedEncoded(enc)
    ensures Solved(ListOf(enc)) && GoodSubstitutions(ListOf(enc), forbidden, u, p)
    ensures Froms(ListOf(enc)) == enc.Keys
  {
    hide AsSubstitution, NewSubstitution, ListOf;
    ListOfMembers(enc);
    forall k | k in enc
      ensures k in Froms(ListOf(enc))
    {
      assert AsSubstitution(k, enc[k]) in ListOf(enc);
    }
  }
}
