/**
 The exported file (circom/constraint_list/src/r1cs_porting.rs, port_r1cs): the renumbered constraints, the header and the
 signal of every wire, as bytes. What the bytes say, read back, is what the templates say.
 */
module Export {
  import opened Wrappers
  import opened Field
  import opened LinearForms
  import opened Algebra
  import opened Rows
  import opened Elimination
  import opened Extension
  import opened ClusterPass
  import opened NonLinear
  import opened Renaming
  import opened Witness
  import opened Simplification
  import opened WholePass
  import opened Dag
  import opened Flattening
  import opened Compilation
  import opened R1csFormat
  import opened R1csRoundTrip
  import opened R1csLayout
  import Bits
  import Writer = R1csWriter
  import Reader = R1csReader

  // ------------------------------------------------------------------ the width of the field

  /** The bytes of a coefficient: as many words of 64 bits as the field needs. */
  function FieldSize(p: nat): nat {
    var bits := Bits.NumBits(p);
    if bits % 64 == 0 then bits / 8 else (bits / 64 + 1) * 8
  }

  lemma {:induction false} PowersAgree(k: nat)
    ensures Bits.Pow2(8 * k) == Pow256(k)
  {
    if k > 0 {
      PowersAgree(k - 1);
      EightMore(8 * (k - 1));
    }
  }

  lemma EightMore(n: nat)
    ensures Bits.Pow2(n + 8) == 256 * Bits.Pow2(n)
  {
    assert Bits.Pow2(n + 4) == 2 * Bits.Pow2(n + 3) == 4 * Bits.Pow2(n + 2) == 8 * Bits.Pow2(n + 1) == 16 * Bits.Pow2(n);
    assert Bits.Pow2(n + 8) == 2 * Bits.Pow2(n + 7) == 4 * Bits.Pow2(n + 6) == 8 * Bits.Pow2(n + 5) == 16 * Bits.Pow2(n + 4);
  }

  lemma {:induction false} Pow2Grows(a: nat, b: nat)
    requires a <= b
    ensures Bits.Pow2(a) <= Bits.Pow2(b)
  {
    if a < b {
      Pow2Grows(a, b - 1);
    }
  }

  /** The field and its elements fit. */
  lemma FieldFits(p: nat)
    requires p > 0
    ensures FieldSize(p) > 0 && p < Pow256(FieldSize(p))
  {
    hide Bits.Pow2, Pow256, Bits.NumBits;
    Bits.NumBitsBounds(p);
    Pow2Grows(Bits.NumBits(p), 8 * FieldSize(p));
    PowersAgree(FieldSize(p));
  }

  /** It is the least whole number of 64-bit words that does. */
  lemma FieldLeast(p: nat, n: nat)
    requires p > 0 && n % 8 == 0 && p < Pow256(n)
    ensures FieldSize(p) % 8 == 0 && FieldSize(p) <= n
  {
    hide Bits.Pow2, Pow256, Bits.NumBits;
    Bits.NumBitsBounds(p);
    if n < FieldSize(p) {
      Pow2Grows(8 * n, Bits.NumBits(p) - 1);
      PowersAgree(n);
    }
  }

  // ------------------------------------------------------------------ constraints in the file

  function AsR1cs(c: Constraint): R1csConstraint
    requires (forall k :: k in c.a ==> c.a[k] >= 0) && (forall k :: k in c.b ==> c.b[k] >= 0) && (forall k :: k in c.c ==> c.c[k] >= 0)
  {
    R1csConstraint(c.a, c.b, c.c)
  }

  function AsConstraint(c: R1csConstraint): Constraint { Constraint(c.a, c.b, c.c) }

  /** The constraints of a file. */
  function ConstraintsOf(d: Reader.R1csData): seq<Constraint> {
    seq(|d.constraints|, i requires 0 <= i < |d.constraints| => AsConstraint(d.constraints[i]))
  }

  datatype Gates = Gates(used: seq<GateUsed>, applied: seq<GateApplied>)

  function FileOf(exported: seq<Constraint>, signals: seq<nat>, labels: nat, counts: Counts, gates: Option<Gates>, p: nat): R1csFile
    requires CanonicalAll(exported, p)
  {
    R1csFile(FieldSize(p),
             HeaderData(p, |signals|, counts.publicOutputs, counts.publicInputs, counts.privateInputs, labels, |exported|),
             seq(|exported|, i requires 0 <= i < |exported| => AsR1cs(exported[i])), signals, gates.Some?,
             if gates.Some? then gates.value.used else [], if gates.Some? then gates.value.applied else [])
  }

  /** The signals in the order of their wires. */
  ghost predicate ListsWires(signals: seq<nat>, names: map<nat, nat>) {
    && |signals| == |names|
    && (forall i :: 0 <= i < |signals| ==> signals[i] in names && names[signals[i]] == i)
    && (forall s :: s in names ==> names[s] < |signals| && signals[names[s]] == s)
  }

  /** The counts of the file fit their widths. */
  ghost predicate CountsFit(exported: seq<Constraint>, signals: seq<nat>, labels: nat, counts: Counts, gates: Option<Gates>, p: nat) {
    && |signals| < Pow256(4) && |exported| < Pow256(4) && labels < Pow256(8) && FieldSize(p) < Pow256(4)
    && counts.publicOutputs < Pow256(4) && counts.publicInputs < Pow256(4) && counts.privateInputs < Pow256(4)
    && (gates.Some? ==>
          && |gates.value.used| < Pow256(4) && |gates.value.applied| < Pow256(4)
          && (forall i :: 0 <= i < |gates.value.used| ==> GateUsedFits(gates.value.used[i], FieldSize(p)))
          && (forall i :: 0 <= i < |gates.value.applied| ==> GateAppliedFits(gates.value.applied[i])))
  }

  // ------------------------------------------------------------------ constraints and counts fit

  /** Renaming keeps the coefficients, and uses wires. */
  lemma RenamedFits(m: Form, names: map<nat, nat>, r: Form, wires: nat, p: int)
    requires IsRenamed(m, names, r) && Canonical(m, p) && m.Keys - {CONSTANT} <= names.Keys
    requires wires > 0 && forall s :: s in names ==> names[s] < wires
    ensures Canonical(r, p) && forall k :: k in r ==> k < wires
  {
    forall t | t in r
      ensures 0 <= r[t] < p && t < wires
    {
      var k :| k in m && Target(names, k) == t;
      assert r[t] == m[k];
    }
  }

  lemma {:induction false} FewBelow(s: set<nat>, n: nat)
    requires forall k :: k in s ==> k < n
    ensures |s| <= n
  {
    if n == 0 {
      assert s == {};
    } else {
      FewBelow(s - {n - 1}, n - 1);
      assert n - 1 !in s ==> s - {n - 1} == s;
    }
  }

  lemma CombinationOk(m: LinearCombination, wires: nat, p: nat)
    requires p > 0 && wires < Pow256(4) && forall k :: k in m ==> k < wires && m[k] < p
    ensures CombinationFits(m, FieldSize(p))
  {
    hide Pow256, FieldSize;
    FieldFits(p);
    FewBelow(m.Keys, wires);
    assert |m| == |m.Keys|;
  }

  lemma ExportedFits(k: Circuit, out: seq<Constraint>, names: map<nat, nat>, subs: seq<Substitution>, exported: seq<Constraint>,
                     signals: seq<nat>, p: int)
    requires p > 0 && SimplifiedTo(k, out, names, subs, p) && Renumbered(out, names, exported) && ListsWires(signals, names)
    requires CONSTANT in names
    ensures CanonicalAll(exported, p)
    ensures forall i, s :: 0 <= i < |exported| && (s in exported[i].a || s in exported[i].b || s in exported[i].c) ==> s < |signals|
  {
    hide IsRenamed, SurvivingHolds, AllHold, SubsHold, Triangular, IsRanking, Froms, Canonical;
    forall i | 0 <= i < |exported|
      ensures CanonicalConstraint(exported[i], p)
      ensures forall s :: s in exported[i].a || s in exported[i].b || s in exported[i].c ==> s < |signals|
    {
      var c, r := out[i], exported[i];
      assert c in out;
      assert forall s :: s in Signals(c) ==> s in SignalsOf(out);
      RenamedFits(c.a, names, r.a, |signals|, p);
      RenamedFits(c.b, names, r.b, |signals|, p);
      RenamedFits(c.c, names, r.c, |signals|, p);
    }
  }

  /** Everything in the file fits its width. */
  lemma FileFits(k: Circuit, out: seq<Constraint>, names: map<nat, nat>, subs: seq<Substitution>, exported: seq<Constraint>,
                 signals: seq<nat>, counts: Counts, gates: Option<Gates>, p: int)
    requires p > 0 && SimplifiedTo(k, out, names, subs, p) && Renumbered(out, names, exported) && ListsWires(signals, names)
    requires CONSTANT in names && CountsFit(exported, signals, k.maxSignal, counts, gates, p)
    ensures CanonicalAll(exported, p) && Fits(FileOf(exported, signals, k.maxSignal, counts, gates, p))
  {
    hide Pow256, FieldSize, Renumbered, GateUsedFits, GateAppliedFits, IsRanking, CombinationFits, SurvivingHolds, AllHold, SubsHold, Triangular,
         Froms, SignalsOf;
    ExportedFits(k, out, names, subs, exported, signals, p);
    FieldFits(p);
    var d := FileOf(exported, signals, k.maxSignal, counts, gates, p);
    forall i | 0 <= i < |d.constraints|
      ensures ConstraintFits(d.constraints[i], d.fieldSize)
    {
      assert CanonicalConstraint(exported[i], p);
      CombinationOk(d.constraints[i].a, |signals|, p);
      CombinationOk(d.constraints[i].b, |signals|, p);
      CombinationOk(d.constraints[i].c, |signals|, p);
    }
    forall i | 0 <= i < |signals|
      ensures signals[i] < Pow256(8)
    {
      assert signals[i] in names.Keys && signals[i] in Ids(k.maxSignal);
    }
  }

  // ------------------------------------------------------------------ what the file says

  /** The wires carry the values of the signals the file lists for them. */
  ghost predicate WiresCarry(signals: seq<nat>, v: Assignment, w: Assignment) {
    forall i :: 0 <= i < |signals| ==> w(i) == v(signals[i])
  }

  lemma WiresCarries(signals: seq<nat>, names: map<nat, nat>, v: Assignment, w: Assignment)
    requires ListsWires(signals, names)
    ensures WiresCarry(signals, v, w) <==> Carries(names, v, w)
  {
    if WiresCarry(signals, v, w) {
      assert forall s :: s in names ==> w(names[s]) == v(signals[names[s]]);
    }
  }

  /** Reading the bytes back gives the exported constraints, the field, and the signals of the wires. */
  lemma ExportedBack(k: Circuit, out: seq<Constraint>, names: map<nat, nat>, subs: seq<Substitution>, exported: seq<Constraint>,
                     signals: seq<nat>, counts: Counts, gates: Option<Gates>, bytes: seq<Byte>, order: seq<nat>, p: int)
    requires p > 0 && SimplifiedTo(k, out, names, subs, p) && Renumbered(out, names, exported) && ListsWires(signals, names)
    requires CONSTANT in names && CountsFit(exported, signals, k.maxSignal, counts, gates, p)
    requires CanonicalAll(exported, p) && IsFile(bytes, order, FileOf(exported, signals, k.maxSignal, counts, gates, p))
    ensures var r := Reader.ReadR1cs(bytes);
            && r.Ok? && ConstraintsOf(r.value) == exported && r.value.signals == signals
            && r.value.header.fieldSize == FieldSize(p)
            && r.value.header.data == HeaderData(p, |signals|, counts.publicOutputs, counts.publicInputs, counts.privateInputs,
                                                 k.maxSignal, |exported|)
            && r.value.customGates == gates.Some?
            && r.value.gatesUsed == (if gates.Some? then Some(gates.value.used) else None)
            && r.value.gatesApplied == (if gates.Some? then Some(gates.value.applied) else None)
  {
    hide Renumbered, Fits, IsFile, SimplifiedTo, ListsWires, CountsFit, Reader.ReadR1cs, FieldSize;
    FileFits(k, out, names, subs, exported, signals, counts, gates, p);
    RoundTrip(bytes, order, FileOf(exported, signals, k.maxSignal, counts, gates, p));
    var read := AsRead(FileOf(exported, signals, k.maxSignal, counts, gates, p));
    assert ConstraintsOf(read) == exported;
  }

  /** The bytes hold all of it where the format says. */
  lemma ExportedLayout(k: Circuit, out: seq<Constraint>, names: map<nat, nat>, subs: seq<Substitution>, exported: seq<Constraint>,
                       signals: seq<nat>, counts: Counts, gates: Option<Gates>, bytes: seq<Byte>, order: seq<nat>, p: int)
    requires p > 0 && SimplifiedTo(k, out, names, subs, p) && Renumbered(out, names, exported) && ListsWires(signals, names)
    requires CONSTANT in names && CountsFit(exported, signals, k.maxSignal, counts, gates, p)
    requires CanonicalAll(exported, p) && IsFile(bytes, order, FileOf(exported, signals, k.maxSignal, counts, gates, p))
    ensures exists d: R1csFile ::
              && FileLayout(bytes, order, d) && d.fieldSize == FieldSize(p) && d.signals == signals
              && d.header == HeaderData(p, |signals|, counts.publicOutputs, counts.publicInputs, counts.privateInputs, k.maxSignal, |exported|)
              && |d.constraints| == |exported| && (forall i :: 0 <= i < |exported| ==> AsConstraint(d.constraints[i]) == exported[i])
              && d.customGates == gates.Some?
              && (gates.Some? ==> d.gatesUsed == gates.value.used && d.gatesApplied == gates.value.applied)
  {
    hide Renumbered, Fits, IsFile, SimplifiedTo, ListsWires, CountsFit, FileLayout, FieldSize;
    FileFits(k, out, names, subs, exported, signals, counts, gates, p);
    FileIsLaidOut(bytes, order, FileOf(exported, signals, k.maxSignal, counts, gates, p));
  }

  /**
   From the templates to the bytes: unless two constant equalities conflict, the constraints read from the file, whatever the
   order of its sections, hold exactly for the wires that carry the listed signals of an assignment under which the main
   template and all its components hold.
   */
  lemma FileIsEquivalent(g: Graph, k: Circuit, out: seq<Constraint>, names: map<nat, nat>, subs: seq<Substitution>, exported: seq<Constraint>,
                         signals: seq<nat>, counts: Counts, gates: Option<Gates>, bytes: seq<Byte>, order: seq<nat>, p: int)
    requires Prime(p) && IsGraph(g) && g.nodes != [] && IsMapped(g, k, p) && ValidCircuit(k, p) && k.maxSignal > 0
    requires SimplifiedTo(k, out, names, subs, p) && !HasConflict(k, p)
    requires Renumbered(out, names, exported) && ListsWires(signals, names)
    requires CountsFit(exported, signals, k.maxSignal, counts, gates, p)
    requires CanonicalAll(exported, p) && IsFile(bytes, order, FileOf(exported, signals, k.maxSignal, counts, gates, p))
    ensures Reader.ReadR1cs(bytes).Ok?
    ensures var read := Reader.ReadR1cs(bytes).value;
            && read.header.data == HeaderData(p, |signals|, counts.publicOutputs, counts.publicInputs, counts.privateInputs,
                                              k.maxSignal, |exported|)
            && read.customGates == gates.Some?
            && read.gatesUsed == (if gates.Some? then Some(gates.value.used) else None)
            && read.gatesApplied == (if gates.Some? then Some(gates.value.applied) else None)
            && (forall w: Assignment :: AllHold(ConstraintsOf(read), w, p) ==>
                  exists v: Assignment :: NodeHolds(g, Main(g), 0, v, p) && WiresCarry(read.signals, v, w))
            && (forall v: Assignment, w: Assignment :: NodeHolds(g, Main(g), 0, v, p) && WiresCarry(read.signals, v, w) ==>
                  AllHold(ConstraintsOf(read), w, p))
  {
    hide IsGraph, IsMapped, ValidCircuit, SimplifiedTo, HasConflict, AllHold, NodeHolds, Carries, WiresCarry, IsFile, CountsFit, IsRenamedConstraint,
         Reader.ReadR1cs, ListsWires, FileOf, ConstraintsOf;
    NamesFit(k, out, names, subs, p);
    ExportedBack(k, out, names, subs, exported, signals, counts, gates, bytes, order, p);
    CompileIsEquivalent(g, k, out, names, subs, exported, p);
    forall v: Assignment, w: Assignment
      ensures WiresCarry(signals, v, w) <==> Carries(names, v, w)
    {
      WiresCarries(signals, names, v, w);
    }
  }

  // ------------------------------------------------------------------ writing

  /** The order in which the compiler writes the sections. */
  function PortOrder(gates: Option<Gates>): seq<nat> {
    [CONSTRAINTS, HEADER, SIGNALS] + if gates.Some? then [GATES_USED, GATES_APPLIED] else []
  }

  /** Writes the file of a compiled circuit. */
  method PortR1cs(k: Circuit, exported: seq<Constraint>, names: map<nat, nat>, counts: Counts, gates: Option<Gates>, field: int,
                  ghost out: seq<Constraint>, ghost subs: seq<Substitution>)
    returns (signals: seq<nat>, file: Writer.ByteFile)
    requires field > 0 && SimplifiedTo(k, out, names, subs, field) && Renumbered(out, names, exported) && CanonicalAll(exported, field)
    requires forall s :: ListsWires(s, names) ==> SizesFit(FileOf(exported, s, k.maxSignal, counts, gates, field))
    ensures ListsWires(signals, names) && fresh(file)
    ensures IsFile(file.bytes, if gates.Some? then [2, 1, 3, 4, 5] else [2, 1, 3], FileOf(exported, signals, k.maxSignal, counts, gates, field))
  {
    hide SurvivingHolds, Triangular, IsFile, SizesFit, FileOf, Renumbered, SectionOrder, IsRanking;
    var order := GetWitnessAsVec(names, names.Keys, k.maxSignal);
    signals := order[..];
    var d := FileOf(exported, signals, k.maxSignal, counts, gates, field);
    PortOrderIsOrder(gates, exported, signals, k.maxSignal, counts, field);
    file := Write(d, PortOrder(gates));
    assert PortOrder(gates) == if gates.Some? then [2, 1, 3, 4, 5] else [2, 1, 3];
  }

  lemma PortOrderIsOrder(gates: Option<Gates>, exported: seq<Constraint>, signals: seq<nat>, labels: nat, counts: Counts, p: int)
    requires p > 0 && CanonicalAll(exported, p)
    ensures SectionOrder(PortOrder(gates), FileOf(exported, signals, labels, counts, gates, p))
  {}

  /** The wires of signals from 0 on that are all forbidden are the signals themselves: outputs and public inputs come first. */
  lemma {:induction false} FirstWires(k: Circuit, out: seq<Constraint>, names: map<nat, nat>, subs: seq<Substitution>, m: nat, p: int)
    requires p > 0 && SimplifiedTo(k, out, names, subs, p) && m < k.maxSignal && forall s: nat :: s <= m ==> s in k.forbidden
    ensures forall s: nat :: s <= m ==> s in names && names[s] == s
  {
    hide SurvivingHolds, AllHold, SubsHold, Triangular, Froms, SignalsOf;
    forall s: nat | s <= m
      ensures s in names && names[s] == s
    {
      assert s in k.forbidden * Ids(k.maxSignal);
      RankOfPrefix(names.Keys, s);
    }
  }

  /** What the header says of the main template's interface. */
  function CountsOf(g: Graph): Counts
    requires IsGraph(g) && g.nodes != []
  {
    GraphNode(g, Main(g));
    NodeCounts(g.nodes[Main(g)])
  }

  /** Once outputs and public inputs are numbered first, as many wires as the header says, after the constant one, are theirs. */
  lemma InterfaceWires(g: Graph, k: Circuit, out: seq<Constraint>, names: map<nat, nat>, subs: seq<Substitution>, p: int)
    requires p > 0 && IsGraph(g) && g.nodes != [] && IsMapped(g, k, p) && SimplifiedTo(k, out, names, subs, p)
    requires var counts := CountsOf(g);
             forall s :: s in g.nodes[Main(g)].forbiddenIfMain ==> s <= counts.publicOutputs + counts.publicInputs
    ensures var counts := CountsOf(g);
            forall s: nat :: s <= counts.publicOutputs + counts.publicInputs ==>
              s in g.nodes[Main(g)].forbiddenIfMain && s in names && names[s] == s
  {
    hide SimplifiedTo, IsGraph, CountsOf;
    InterfaceFits(g);
    FirstWires(k, out, names, subs, CountsOf(g).publicOutputs + CountsOf(g).publicInputs, p);
  }

  lemma InterfaceFits(g: Graph)
    requires IsGraph(g) && g.nodes != []
    requires var counts := CountsOf(g);
             forall s :: s in g.nodes[Main(g)].forbiddenIfMain ==> s <= counts.publicOutputs + counts.publicInputs
    ensures var counts := CountsOf(g);
            && counts.publicOutputs + counts.publicInputs <= Size(g, Main(g))
            && forall s: nat :: s <= counts.publicOutputs + counts.publicInputs ==> s in g.nodes[Main(g)].forbiddenIfMain
  {
    hide ValidGraph, EdgesValid, Covered, Named;
    GraphNode(g, Main(g));
    FillsUp(g.nodes[Main(g)].forbiddenIfMain, CountsOf(g).publicOutputs + CountsOf(g).publicInputs);
  }

  lemma FillsUp(s: set<nat>, m: nat)
    requires |s| == m + 1 && forall k :: k in s ==> k <= m
    ensures forall k: nat :: k <= m ==> k in s
  {
    IdsSize(m + 1);
    assert Ids(m + 1) == s + (Ids(m + 1) - s);
  }

  lemma {:induction false} RankOfPrefix(kept: set<nat>, s: nat)
    requires forall i: nat :: i < s ==> i in kept
    ensures Rank(kept, s) == s
  {
    if s > 0 {
      RankOfPrefix(kept, s - 1);
    }
  }
}
