/**
 Where everything is in a written file, byte by byte: section types, sizes and offsets as plain numbers, without the
 functions with which the writer and the reader are specified.
 */
module R1csLayout {
  import opened R1csFormat
  import opened R1csWriter
  import opened R1csRoundTrip

  // ------------------------------------------------------------------ numbers

  /** Little-endian: every byte times its power of 256. */
  ghost function Number(bytes: seq<Byte>, at: nat, width: nat): nat
    requires at + width <= |bytes|
  {
    if width == 0 then 0 else Number(bytes, at, width - 1) + bytes[at + width - 1] * Power(width - 1)
  }

  ghost function Power(k: nat): nat { if k == 0 then 1 else Power(k - 1) * 256 }

  ghost predicate Says(bytes: seq<Byte>, at: nat, width: nat, n: nat) {
    at + width <= |bytes| && Number(bytes, at, width) == n
  }

  /** The place of entry i when every entry has the same width. */
  ghost function Place(at: nat, i: nat, width: nat): nat { if i == 0 then at else Place(at, i - 1, width) + width }

  ghost predicate NumbersLayout(bytes: seq<Byte>, at: nat, end: nat, numbers: seq<nat>, width: nat) {
    && end == Place(at, |numbers|, width)
    && forall i :: 0 <= i < |numbers| ==> Says(bytes, Place(at, i, width), width, numbers[i])
  }

  // ------------------------------------------------------------------ the sections

  ghost predicate HeaderLayout(bytes: seq<Byte>, at: nat, end: nat, h: HeaderData, fieldSize: nat) {
    && end == at + 32 + fieldSize
    && Says(bytes, at, 4, fieldSize)
    && Says(bytes, at + 4, fieldSize, h.field)
    && Says(bytes, at + 4 + fieldSize, 4, h.totalWires)
    && Says(bytes, at + 8 + fieldSize, 4, h.publicOutputs)
    && Says(bytes, at + 12 + fieldSize, 4, h.publicInputs)
    && Says(bytes, at + 16 + fieldSize, 4, h.privateInputs)
    && Says(bytes, at + 20 + fieldSize, 8, h.numberOfLabels)
    && Says(bytes, at + 28 + fieldSize, 4, h.numberOfConstraints)
  }

  /** The number of terms, then wire and coefficient of each, ordered by the bytes of the wire. */
  ghost predicate CombinationLayout(bytes: seq<Byte>, at: nat, end: nat, m: LinearCombination, fieldSize: nat) {
    && Says(bytes, at, 4, |m|)
    && end == Place(at + 4, |m|, 4 + fieldSize)
    && exists wires: seq<nat> ::
         && |wires| == |m| && (forall k :: k in wires <==> k in m)
         && (forall i, j :: 0 <= i < j < |wires| ==> Less(ToBytesLe(wires[i]), ToBytesLe(wires[j])))
         && EntriesLayout(bytes, at + 4, wires, m, fieldSize)
  }

  ghost predicate EntriesLayout(bytes: seq<Byte>, at: nat, wires: seq<nat>, m: LinearCombination, fieldSize: nat)
    requires forall k :: k in wires ==> k in m
  {
    forall i :: 0 <= i < |wires| ==>
      var place := Place(at, i, 4 + fieldSize);
      wires[i] in wires && Says(bytes, place, 4, wires[i]) && Says(bytes, place + 4, fieldSize, m[wires[i]])
  }

  ghost predicate ConstraintLayout(bytes: seq<Byte>, at: nat, end: nat, c: R1csConstraint, fieldSize: nat) {
    exists b: nat, d: nat ::
      CombinationLayout(bytes, at, b, c.a, fieldSize) && CombinationLayout(bytes, b, d, c.b, fieldSize) && CombinationLayout(bytes, d, end, c.c, fieldSize)
  }

  ghost predicate ConstraintsLayout(bytes: seq<Byte>, at: nat, end: nat, cs: seq<R1csConstraint>, fieldSize: nat)
    decreases |cs|
  {
    if |cs| == 0 then end == at
    else
      var last := |cs| - 1;
      exists mid: nat :: ConstraintsLayout(bytes, at, mid, cs[..last], fieldSize) && ConstraintLayout(bytes, mid, end, cs[last], fieldSize)
  }

  /** The name and a zero byte, the number of parameters, the parameters. */
  ghost predicate GateUsedLayout(bytes: seq<Byte>, at: nat, end: nat, g: GateUsed, fieldSize: nat) {
    var numbers := at + |g.name| + 1;
    && numbers + 4 <= |bytes| && bytes[at..at + |g.name|] == g.name && bytes[at + |g.name|] == 0
    && Says(bytes, numbers, 4, |g.parameters|)
    && NumbersLayout(bytes, numbers + 4, end, g.parameters, fieldSize)
  }

  ghost predicate GatesUsedLayout(bytes: seq<Byte>, at: nat, end: nat, gates: seq<GateUsed>, fieldSize: nat)
    decreases |gates|
  {
    if |gates| == 0 then end == at
    else
      var last := |gates| - 1;
      exists mid: nat :: GatesUsedLayout(bytes, at, mid, gates[..last], fieldSize) && GateUsedLayout(bytes, mid, end, gates[last], fieldSize)
  }

  ghost predicate GateAppliedLayout(bytes: seq<Byte>, at: nat, end: nat, g: GateApplied) {
    Says(bytes, at, 4, g.index) && Says(bytes, at + 4, 4, |g.signals|) && NumbersLayout(bytes, at + 8, end, g.signals, 8)
  }

  ghost predicate GatesAppliedLayout(bytes: seq<Byte>, at: nat, end: nat, gates: seq<GateApplied>)
    decreases |gates|
  {
    if |gates| == 0 then end == at
    else
      var last := |gates| - 1;
      exists mid: nat :: GatesAppliedLayout(bytes, at, mid, gates[..last]) && GateAppliedLayout(bytes, mid, end, gates[last])
  }

  /** Four bytes of type, eight of size, then the content. */
  ghost predicate SectionLayout(bytes: seq<Byte>, at: nat, end: nat, kind: nat, d: R1csFile) {
    && at + 12 <= end <= |bytes| && bytes[at..at + 4] == [kind, 0, 0, 0] && Says(bytes, at + 4, 8, end - at - 12)
    && (kind == 1 ==> HeaderLayout(bytes, at + 12, end, d.header, d.fieldSize))
    && (kind == 2 ==> ConstraintsLayout(bytes, at + 12, end, d.constraints, d.fieldSize))
    && (kind == 3 ==> NumbersLayout(bytes, at + 12, end, d.signals, 8))
    && (kind == 4 ==> Says(bytes, at + 12, 4, |d.gatesUsed|) && GatesUsedLayout(bytes, at + 16, end, d.gatesUsed, d.fieldSize))
    && (kind == 5 ==> Says(bytes, at + 12, 4, |d.gatesApplied|) && GatesAppliedLayout(bytes, at + 16, end, d.gatesApplied))
  }

  /** The sections, one after the other. */
  ghost predicate SectionsLayout(bytes: seq<Byte>, at: nat, end: nat, order: seq<nat>, d: R1csFile)
    decreases |order|
  {
    if |order| == 0 then end == at
    else
      var last := |order| - 1;
      exists mid: nat :: SectionsLayout(bytes, at, mid, order[..last], d) && SectionLayout(bytes, mid, end, order[last], d)
  }

  /** "r1cs", version 1, the number of sections, and the sections up to the end of the file. */
  ghost predicate FileLayout(bytes: seq<Byte>, order: seq<nat>, d: R1csFile) {
    && |bytes| >= 12 && bytes[..12] == [114, 49, 99, 115, 1, 0, 0, 0, if d.customGates then 5 else 3, 0, 0, 0]
    && |order| == (if d.customGates then 5 else 3) && (forall k :: k in order <==> 1 <= k <= |order|)
    && SectionsLayout(bytes, 12, |bytes|, order, d)
  }

  // ------------------------------------------------------------------ numbers are where they were written

  lemma {:induction false} PowersSame(k: nat)
    ensures Power(k) == Pow256(k)
  {
    if k > 0 {
      PowersSame(k - 1);
    }
  }

  lemma {:induction false} FromLast(s: seq<Byte>, b: Byte)
    ensures FromBytesLe(s + [b]) == FromBytesLe(s) + b * Power(|s|)
  {
    if |s| == 0 {
      assert (s + [b])[1..] == [];
    } else {
      FromLast(s[1..], b);
      assert (s + [b])[1..] == s[1..] + [b];
      Shifted(FromBytesLe(s[1..]), b, Power(|s| - 1));
    }
  }

  lemma Shifted(rest: nat, b: nat, power: nat)
    ensures 256 * (rest + b * power) == 256 * rest + b * (power * 256)
  {}

  lemma {:induction false} NumberIsLe(bytes: seq<Byte>, at: nat, width: nat)
    requires at + width <= |bytes|
    ensures Number(bytes, at, width) == FromBytesLe(bytes[at..at + width])
  {
    if width > 0 {
      NumberIsLe(bytes, at, width - 1);
      FromLast(bytes[at..at + width - 1], bytes[at + width - 1]);
      assert bytes[at..at + width] == bytes[at..at + width - 1] + [bytes[at + width - 1]];
    }
  }

  lemma NumberPlaced(bytes: seq<Byte>, at: nat, n: nat, width: nat)
    requires width > 0 && n < Pow256(width) && At(bytes, at, Le(n, width))
    ensures Says(bytes, at, width, n) && |Le(n, width)| == width
  {
    hide Le, Number;
    LeFits(n, width);
    NumberIsLe(bytes, at, width);
  }

  lemma {:induction false} NumbersPlaced(bytes: seq<Byte>, at: nat, numbers: seq<nat>, width: nat)
    requires width > 0 && NumbersFit(numbers, width) && At(bytes, at, EncodeNumbers(numbers, width))
    ensures NumbersLayout(bytes, at, at + |EncodeNumbers(numbers, width)|, numbers, width)
  {
    hide Le, Says, At;
    if |numbers| > 0 {
      var last := |numbers| - 1;
      var front := numbers[..last];
      AtAppend(bytes, at, EncodeNumbers(front, width), Le(numbers[last], width));
      NumbersPlaced(bytes, at, front, width);
      NumberPlaced(bytes, at + |EncodeNumbers(front, width)|, numbers[last], width);
      forall i | 0 <= i < |numbers|
        ensures Says(bytes, Place(at, i, width), width, numbers[i])
      {
        if i < last {
          assert front[i] == numbers[i];
        }
      }
    }
  }

  // ------------------------------------------------------------------ constraints

  lemma {:induction false} EntriesPlaced(bytes: seq<Byte>, at: nat, wires: seq<nat>, m: LinearCombination, fieldSize: nat)
    requires fieldSize > 0 && CombinationFits(m, fieldSize) && forall k :: k in wires ==> k in m
    requires At(bytes, at, EncodeEntries(wires, m, fieldSize))
    ensures EntriesLayout(bytes, at, wires, m, fieldSize)
    ensures at + |EncodeEntries(wires, m, fieldSize)| == Place(at, |wires|, 4 + fieldSize)
  {
    hide Le, Says, At, Pow256;
    if |wires| > 0 {
      var last := |wires| - 1;
      var front := wires[..last];
      assert forall k :: k in front ==> k in wires;
      assert wires[last] in wires;
      var done := EncodeEntries(front, m, fieldSize);
      AtAppend(bytes, at, done, Le(wires[last], 4) + Le(m[wires[last]], fieldSize));
      AtAppend(bytes, at + |done|, Le(wires[last], 4), Le(m[wires[last]], fieldSize));
      EntriesPlaced(bytes, at, front, m, fieldSize);
      NumberPlaced(bytes, at + |done|, wires[last], 4);
      NumberPlaced(bytes, at + |done| + 4, m[wires[last]], fieldSize);
      forall i | 0 <= i < |wires|
        ensures wires[i] in wires && Says(bytes, Place(at, i, 4 + fieldSize), 4, wires[i])
        ensures Says(bytes, Place(at, i, 4 + fieldSize) + 4, fieldSize, m[wires[i]])
      {
        if i < last {
          assert front[i] == wires[i] && front[i] in front;
        }
      }
    }
  }

  lemma CombinationPlaced(bytes: seq<Byte>, at: nat, block: seq<Byte>, m: LinearCombination, fieldSize: nat)
    requires fieldSize > 0 && CombinationFits(m, fieldSize) && IsBlock(block, m, fieldSize) && At(bytes, at, block)
    ensures CombinationLayout(bytes, at, at + |block|, m, fieldSize)
  {
    hide Le, Says, At, EncodeEntries, EntriesLayout, ToBytesLe, Less;
    var wires: seq<nat> :| KeyOrder(wires, m) && block == Le(|m|, 4) + EncodeEntries(wires, m, fieldSize);
    AtAppend(bytes, at, Le(|m|, 4), EncodeEntries(wires, m, fieldSize));
    NumberPlaced(bytes, at, |m|, 4);
    EntriesPlaced(bytes, at + 4, wires, m, fieldSize);
  }

  lemma ConstraintPlaced(bytes: seq<Byte>, at: nat, block: seq<Byte>, c: R1csConstraint, fieldSize: nat)
    requires fieldSize > 0 && ConstraintFits(c, fieldSize) && IsConstraintBlock(block, c, fieldSize) && At(bytes, at, block)
    ensures ConstraintLayout(bytes, at, at + |block|, c, fieldSize)
  {
    hide CombinationFits, IsBlock, CombinationLayout, At;
    var a: seq<Byte>, b: seq<Byte>, d: seq<Byte> :|
      IsBlock(a, c.a, fieldSize) && IsBlock(b, c.b, fieldSize) && IsBlock(d, c.c, fieldSize) && block == a + b + d;
    AtAppend(bytes, at, a + b, d);
    AtAppend(bytes, at, a, b);
    CombinationPlaced(bytes, at, a, c.a, fieldSize);
    CombinationPlaced(bytes, at + |a|, b, c.b, fieldSize);
    CombinationPlaced(bytes, at + |a| + |b|, d, c.c, fieldSize);
    assert at + |a| + |b| + |d| == at + |block|;
  }

  lemma {:induction false} ConstraintsPlaced(bytes: seq<Byte>, at: nat, body: seq<Byte>, cs: seq<R1csConstraint>, fieldSize: nat)
    requires fieldSize > 0 && forall i :: 0 <= i < |cs| ==> ConstraintFits(cs[i], fieldSize)
    requires IsConstraintsBody(body, cs, fieldSize) && At(bytes, at, body)
    ensures ConstraintsLayout(bytes, at, at + |body|, cs, fieldSize)
    decreases |cs|
  {
    hide ConstraintFits, IsConstraintBlock, ConstraintLayout, At;
    if |cs| > 0 {
      var last := |cs| - 1;
      var front: seq<Byte>, block: seq<Byte> :|
        IsConstraintsBody(front, cs[..last], fieldSize) && IsConstraintBlock(block, cs[last], fieldSize) && body == front + block;
      AtAppend(bytes, at, front, block);
      ConstraintsPlaced(bytes, at, front, cs[..last], fieldSize);
      ConstraintPlaced(bytes, at + |front|, block, cs[last], fieldSize);
    }
  }

  // ------------------------------------------------------------------ header and custom gates

  lemma HeaderPlaced(bytes: seq<Byte>, at: nat, h: HeaderData, fieldSize: nat)
    requires HeaderFits(h, fieldSize) && At(bytes, at, EncodeHeader(h, fieldSize))
    ensures HeaderLayout(bytes, at, at + |EncodeHeader(h, fieldSize)|, h, fieldSize)
  {
    hide Le, At, Pow256, Says;
    var s1 := Le(fieldSize, 4) + Le(h.field, fieldSize);
    var s2 := s1 + Le(h.totalWires, 4);
    var s3 := s2 + Le(h.publicOutputs, 4);
    var s4 := s3 + Le(h.publicInputs, 4);
    var s5 := s4 + Le(h.privateInputs, 4);
    var s6 := s5 + Le(h.numberOfLabels, 8);
    AtAppend(bytes, at, s6, Le(h.numberOfConstraints, 4));
    AtAppend(bytes, at, s5, Le(h.numberOfLabels, 8));
    AtAppend(bytes, at, s4, Le(h.privateInputs, 4));
    AtAppend(bytes, at, s3, Le(h.publicInputs, 4));
    AtAppend(bytes, at, s2, Le(h.publicOutputs, 4));
    AtAppend(bytes, at, s1, Le(h.totalWires, 4));
    AtAppend(bytes, at, Le(fieldSize, 4), Le(h.field, fieldSize));
    NumberPlaced(bytes, at, fieldSize, 4);
    NumberPlaced(bytes, at + 4, h.field, fieldSize);
    NumberPlaced(bytes, at + 4 + fieldSize, h.totalWires, 4);
    NumberPlaced(bytes, at + 8 + fieldSize, h.publicOutputs, 4);
    NumberPlaced(bytes, at + 12 + fieldSize, h.publicInputs, 4);
    NumberPlaced(bytes, at + 16 + fieldSize, h.privateInputs, 4);
    NumberPlaced(bytes, at + 20 + fieldSize, h.numberOfLabels, 8);
    NumberPlaced(bytes, at + 28 + fieldSize, h.numberOfConstraints, 4);
  }

  lemma GateUsedPlaced(bytes: seq<Byte>, at: nat, g: GateUsed, fieldSize: nat)
    requires fieldSize > 0 && GateUsedFits(g, fieldSize) && At(bytes, at, EncodeGateUsed(g, fieldSize))
    ensures GateUsedLayout(bytes, at, at + |EncodeGateUsed(g, fieldSize)|, g, fieldSize)
  {
    hide Le, Says, EncodeNumbers, NumbersLayout;
    var numbers := EncodeNumbers(g.parameters, fieldSize);
    AtAppend(bytes, at, g.name + [0] + Le(|g.parameters|, 4), numbers);
    AtAppend(bytes, at, g.name + [0], Le(|g.parameters|, 4));
    AtAppend(bytes, at, g.name, [0]);
    assert bytes[at + |g.name|] == bytes[at + |g.name|..at + |g.name| + 1][0];
    NumberPlaced(bytes, at + |g.name| + 1, |g.parameters|, 4);
    NumbersPlaced(bytes, at + |g.name| + 5, g.parameters, fieldSize);
  }

  lemma {:induction false} GatesUsedPlaced(bytes: seq<Byte>, at: nat, gates: seq<GateUsed>, fieldSize: nat)
    requires fieldSize > 0 && forall i :: 0 <= i < |gates| ==> GateUsedFits(gates[i], fieldSize)
    requires At(bytes, at, EncodeGatesUsedList(gates, fieldSize))
    ensures GatesUsedLayout(bytes, at, at + |EncodeGatesUsedList(gates, fieldSize)|, gates, fieldSize)
  {
    hide GateUsedFits, EncodeGateUsed, GateUsedLayout, At;
    if |gates| > 0 {
      var last := |gates| - 1;
      var front := EncodeGatesUsedList(gates[..last], fieldSize);
      AtAppend(bytes, at, front, EncodeGateUsed(gates[last], fieldSize));
      GatesUsedPlaced(bytes, at, gates[..last], fieldSize);
      GateUsedPlaced(bytes, at + |front|, gates[last], fieldSize);
    }
  }

  lemma GateAppliedPlaced(bytes: seq<Byte>, at: nat, g: GateApplied)
    requires GateAppliedFits(g) && At(bytes, at, EncodeGateApplied(g))
    ensures GateAppliedLayout(bytes, at, at + |EncodeGateApplied(g)|, g)
  {
    hide Le, Says, EncodeNumbers, NumbersLayout, At;
    AtAppend(bytes, at, Le(g.index, 4) + Le(|g.signals|, 4), EncodeNumbers(g.signals, 8));
    AtAppend(bytes, at, Le(g.index, 4), Le(|g.signals|, 4));
    NumberPlaced(bytes, at, g.index, 4);
    NumberPlaced(bytes, at + 4, |g.signals|, 4);
    NumbersPlaced(bytes, at + 8, g.signals, 8);
  }

  lemma {:induction false} GatesAppliedPlaced(bytes: seq<Byte>, at: nat, gates: seq<GateApplied>)
    requires forall i :: 0 <= i < |gates| ==> GateAppliedFits(gates[i])
    requires At(bytes, at, EncodeGatesAppliedList(gates))
    ensures GatesAppliedLayout(bytes, at, at + |EncodeGatesAppliedList(gates)|, gates)
  {
    hide GateAppliedFits, EncodeGateApplied, GateAppliedLayout, At;
    if |gates| > 0 {
      var last := |gates| - 1;
      var front := EncodeGatesAppliedList(gates[..last]);
      AtAppend(bytes, at, front, EncodeGateApplied(gates[last]));
      GatesAppliedPlaced(bytes, at, gates[..last]);
      GateAppliedPlaced(bytes, at + |front|, gates[last]);
    }
  }

  // ------------------------------------------------------------------ the whole file

  lemma ContentPlaced(bytes: seq<Byte>, at: nat, kind: nat, body: seq<Byte>, d: R1csFile)
    requires Fits(d) && IsSectionBody(kind, body, d) && At(bytes, at, body)
    ensures kind == 1 ==> HeaderLayout(bytes, at, at + |body|, d.header, d.fieldSize)
    ensures kind == 2 ==> ConstraintsLayout(bytes, at, at + |body|, d.constraints, d.fieldSize)
    ensures kind == 3 ==> NumbersLayout(bytes, at, at + |body|, d.signals, 8)
    ensures kind == 4 ==> Says(bytes, at, 4, |d.gatesUsed|) && GatesUsedLayout(bytes, at + 4, at + |body|, d.gatesUsed, d.fieldSize)
    ensures kind == 5 ==> Says(bytes, at, 4, |d.gatesApplied|) && GatesAppliedLayout(bytes, at + 4, at + |body|, d.gatesApplied)
  {
    hide Says, At, EncodeHeader, EncodeNumbers, EncodeGatesUsedList, EncodeGatesAppliedList, IsConstraintsBody, Le, HeaderLayout, ConstraintsLayout,
         NumbersLayout, GatesUsedLayout, GatesAppliedLayout, ConstraintFits, GateUsedFits, GateAppliedFits;
    if kind == 1 {
      HeaderPlaced(bytes, at, d.header, d.fieldSize);
    } else if kind == 2 {
      ConstraintsPlaced(bytes, at, body, d.constraints, d.fieldSize);
    } else if kind == 3 {
      NumbersPlaced(bytes, at, d.signals, 8);
    } else if kind == 4 {
      AtAppend(bytes, at, Le(|d.gatesUsed|, 4), EncodeGatesUsedList(d.gatesUsed, d.fieldSize));
      NumberPlaced(bytes, at, |d.gatesUsed|, 4);
      GatesUsedPlaced(bytes, at + 4, d.gatesUsed, d.fieldSize);
    } else if kind == 5 {
      AtAppend(bytes, at, Le(|d.gatesApplied|, 4), EncodeGatesAppliedList(d.gatesApplied));
      NumberPlaced(bytes, at, |d.gatesApplied|, 4);
      GatesAppliedPlaced(bytes, at + 4, d.gatesApplied);
    }
  }

  lemma SectionPlaced(bytes: seq<Byte>, at: nat, kind: nat, body: seq<Byte>, d: R1csFile)
    requires Fits(d) && kind < 256 && IsSectionBody(kind, body, d) && |body| < Pow256(8) && At(bytes, at, SectionBytes(kind, body))
    ensures SectionLayout(bytes, at, at + |SectionBytes(kind, body)|, kind, d)
  {
    hide Fits, IsSectionBody, Le, Says, HeaderLayout, ConstraintsLayout, NumbersLayout, GatesUsedLayout, GatesAppliedLayout, Pow256;
    AtAppend(bytes, at, TypeBytes(kind) + Le(|body|, 8), body);
    AtAppend(bytes, at, TypeBytes(kind), Le(|body|, 8));
    NumberPlaced(bytes, at + 4, |body|, 8);
    ContentPlaced(bytes, at + 12, kind, body, d);
  }

  lemma BodiesMatch(order: seq<nat>, bodies: seq<seq<Byte>>, d: R1csFile)
    requires AreBodies(order, bodies, d)
    ensures |bodies| == |order| && forall i :: 0 <= i < |order| ==> order[i] < 256
  {}

  lemma {:induction false} SectionsPlaced(bytes: seq<Byte>, at: nat, order: seq<nat>, bodies: seq<seq<Byte>>, d: R1csFile)
    requires Fits(d) && AreBodies(order, bodies, d) && At(bytes, at, Sections(order, bodies))
    ensures SectionsLayout(bytes, at, at + |Sections(order, bodies)|, order, d)
    decreases |order|
  {
    hide Fits, IsSectionBody, SectionBytes, SectionLayout, At, AreBodies, Sections;
    if |order| == 0 {
      NothingStarts(bytes, order, bodies, d);
    } else {
      var last := |order| - 1;
      BodiesFront(order, bodies, d);
      BodiesMatch(order[..last], bodies[..last], d);
      var front := Sections(order[..last], bodies[..last]);
      AtAppend(bytes, at, front, SectionBytes(order[last], bodies[last]));
      SectionsPlaced(bytes, at, order[..last], bodies[..last], d);
      SectionPlaced(bytes, at + |front|, order[last], bodies[last], d);
      SectionAdded(bytes, at, at + |front|, at + |Sections(order, bodies)|, order, d);
    }
  }

  lemma SectionAdded(bytes: seq<Byte>, at: nat, mid: nat, end: nat, order: seq<nat>, d: R1csFile)
    requires |order| > 0 && SectionsLayout(bytes, at, mid, order[..|order| - 1], d)
    requires SectionLayout(bytes, mid, end, order[|order| - 1], d)
    ensures SectionsLayout(bytes, at, end, order, d)
  {
    hide SectionLayout;
  }

  /** A written file has everything where the format says. */
  lemma FileIsLaidOut(bytes: seq<Byte>, order: seq<nat>, d: R1csFile)
    requires IsFile(bytes, order, d) && Fits(d)
    ensures FileLayout(bytes, order, d)
  {
    hide Fits, IsSectionBody, SectionsLayout, Sections;
    var bodies: seq<seq<Byte>> :| AreBodies(order, bodies, d) && bytes == FileStart(NoSections(d)) + Sections(order, bodies);
    assert At(bytes, 0, bytes);
    AtAppend(bytes, 0, FileStart(NoSections(d)), Sections(order, bodies));
    SectionsPlaced(bytes, 12, order, bodies, d);
  }
}
