/** What the R1CS writer writes, the R1CS reader reads back, whatever the order of the sections. */
module R1csRoundTrip {
  import opened Wrappers
  import opened R1csFormat
  import opened R1csReader
  import opened R1csWriter
  import opened Orders

  datatype R1csFile = R1csFile(fieldSize: nat, header: HeaderData, constraints: seq<R1csConstraint>, signals: seq<nat>, customGates: bool,
                               gatesUsed: seq<GateUsed>, gatesApplied: seq<GateApplied>)

  /** Every number fits its width, and the header counts the constraints and the signals. */
  ghost predicate Fits(d: R1csFile) {
    && HeaderFits(d.header, d.fieldSize)
    && d.header.numberOfConstraints == |d.constraints| && d.header.totalWires == |d.signals|
    && (forall i :: 0 <= i < |d.constraints| ==> ConstraintFits(d.constraints[i], d.fieldSize))
    && NumbersFit(d.signals, 8)
    && |d.gatesUsed| < Pow256(4) && (forall i :: 0 <= i < |d.gatesUsed| ==> GateUsedFits(d.gatesUsed[i], d.fieldSize))
    && |d.gatesApplied| < Pow256(4) && (forall i :: 0 <= i < |d.gatesApplied| ==> GateAppliedFits(d.gatesApplied[i]))
  }

  function NoSections(d: R1csFile): nat { if d.customGates then 5 else 3 }

  /** Each section once. */
  ghost predicate SectionOrder(order: seq<nat>, d: R1csFile) {
    && |order| == NoSections(d)
    && (forall k :: k in order <==> 1 <= k <= NoSections(d))
    && (forall i, j :: 0 <= i < j < |order| ==> order[i] != order[j])
  }

  ghost predicate IsSectionBody(kind: nat, body: seq<Byte>, d: R1csFile) {
    if kind == HEADER then body == EncodeHeader(d.header, d.fieldSize)
    else if kind == CONSTRAINTS then IsConstraintsBody(body, d.constraints, d.fieldSize)
    else if kind == SIGNALS then body == EncodeNumbers(d.signals, 8)
    else if kind == GATES_USED then body == EncodeGatesUsed(d.gatesUsed, d.fieldSize)
    else body == EncodeGatesApplied(d.gatesApplied)
  }

  function Sections(order: seq<nat>, bodies: seq<seq<Byte>>): seq<Byte>
    requires |bodies| == |order| && forall i :: 0 <= i < |order| ==> order[i] < 256
  {
    if |order| == 0 then []
    else
      var last := |order| - 1;
      Sections(order[..last], bodies[..last]) + SectionBytes(order[last], bodies[last])
  }

  /** The bodies, in the order in which the sections are written. */
  ghost predicate AreBodies(order: seq<nat>, bodies: seq<seq<Byte>>, d: R1csFile) {
    && |bodies| == |order|
    && (forall i :: 0 <= i < |order| ==> order[i] < 256)
    && (forall i :: 0 <= i < |order| ==> IsSectionBody(order[i], bodies[i], d))
    && (forall i :: 0 <= i < |order| ==> |bodies[i]| < Pow256(8))
  }

  ghost predicate IsFile(bytes: seq<Byte>, order: seq<nat>, d: R1csFile) {
    && SectionOrder(order, d)
    && exists bodies: seq<seq<Byte>> :: AreBodies(order, bodies, d) && bytes == FileStart(NoSections(d)) + Sections(order, bodies)
  }

  // ------------------------------------------------------------------ writing a file

  /** No section is longer than its size field can tell. */
  ghost predicate SizesFit(d: R1csFile) {
    forall kind: nat, body: seq<Byte> :: IsSectionBody(kind, body, d) ==> |body| < Pow256(8)
  }

  method WriteConstraints(section: Section, constraints: seq<R1csConstraint>)
    requires section.Valid() && section.body == []
    modifies section, section.file
    ensures section.Valid() && IsConstraintsBody(section.body, constraints, section.fieldSize)
  {
    hide Section.Valid, IsConstraintBlock;
    assert constraints[..0] == [];
    for i := 0 to |constraints|
      invariant section.Valid() && IsConstraintsBody(section.body, constraints[..i], section.fieldSize)
    {
      ghost var front := section.body;
      section.WriteConstraint(constraints[i]);
      assert constraints[..i + 1][..i] == constraints[..i];
    }
    PrefixAll(constraints);
  }

  method WriteSignals(section: Section, signals: seq<nat>)
    requires section.Valid() && section.body == []
    modifies section, section.file
    ensures section.Valid() && section.body == EncodeNumbers(signals, 8)
  {
    hide Le, Section.Valid;
    assert signals[..0] == [];
    for i := 0 to |signals|
      invariant section.Valid() && section.body == EncodeNumbers(signals[..i], 8)
    {
      assert signals[..i + 1][..i] == signals[..i];
      section.WriteSignal(signals[i]);
    }
    PrefixAll(signals);
  }

  /** Writes one section. */
  method WriteSection(file: ByteFile, kind: nat, d: R1csFile) returns (ghost body: seq<Byte>)
    requires 1 <= kind <= 5 && file.position == |file.bytes| && SizesFit(d)
    modifies file
    ensures IsSectionBody(kind, body, d) && |body| < Pow256(8)
    ensures file.bytes == old(file.bytes) + SectionBytes(kind, body) && file.position == |file.bytes|
  {
    hide EncodeHeader, EncodeNumbers, EncodeGatesUsed, EncodeGatesApplied, IsConstraintsBody, SectionBytes;
    var section := new Section(file, kind, d.fieldSize);
    if kind == HEADER {
      section.WriteHeader(d.header);
    } else if kind == CONSTRAINTS {
      WriteConstraints(section, d.constraints);
    } else if kind == SIGNALS {
      WriteSignals(section, d.signals);
    } else if kind == GATES_USED {
      section.WriteCustomGatesUsages(d.gatesUsed);
    } else {
      section.WriteCustomGatesApplications(d.gatesApplied);
    }
    body := section.body;
    assert IsSectionBody(kind, body, d);
    section.EndSection();
  }

  lemma BodiesStep(order: seq<nat>, i: nat, bodies: seq<seq<Byte>>, body: seq<Byte>, d: R1csFile)
    requires i < |order| && order[i] < 256 && AreBodies(order[..i], bodies, d)
    requires IsSectionBody(order[i], body, d) && |body| < Pow256(8)
    ensures AreBodies(order[..i + 1], bodies + [body], d)
    ensures Sections(order[..i + 1], bodies + [body]) == Sections(order[..i], bodies) + SectionBytes(order[i], body)
  {
    hide IsSectionBody, SectionBytes;
    assert order[..i + 1][..i] == order[..i] && (bodies + [body])[..i] == bodies;
  }

  lemma NoBodies(order: seq<nat>, d: R1csFile)
    ensures AreBodies(order[..0], [], d) && Sections(order[..0], []) == []
  {}

  /** Writes the sections in any order. */
  method Write(d: R1csFile, order: seq<nat>) returns (file: ByteFile)
    requires SectionOrder(order, d) && SizesFit(d)
    ensures fresh(file) && IsFile(file.bytes, order, d)
  {
    hide IsSectionBody, SectionBytes, FileStart, SizesFit, AreBodies, Sections;
    file := StartFile(d.customGates);
    ghost var start := file.bytes;
    ghost var bodies: seq<seq<Byte>> := [];
    NoBodies(order, d);
    for i := 0 to |order|
      invariant AreBodies(order[..i], bodies, d)
      invariant file.bytes == start + Written(order, i, bodies, d) && file.position == |file.bytes|
    {
      assert order[i] in order;
      ghost var body := WriteSection(file, order[i], d);
      BodiesStep(order, i, bodies, body, d);
      Assoc(start, Written(order, i, bodies, d), SectionBytes(order[i], body));
      bodies := bodies + [body];
    }
    PrefixAll(order);
    AllWritten(order, bodies, d);
  }

  /** The sections written so far. */
  ghost function Written(order: seq<nat>, i: nat, bodies: seq<seq<Byte>>, d: R1csFile): seq<Byte>
    requires i <= |order| && AreBodies(order[..i], bodies, d)
  {
    Sections(order[..i], bodies)
  }

  lemma AllWritten(order: seq<nat>, bodies: seq<seq<Byte>>, d: R1csFile)
    requires AreBodies(order[..|order|], bodies, d)
    ensures AreBodies(order, bodies, d) && Written(order, |order|, bodies, d) == Sections(order, bodies)
  {
    assert order[..|order|] == order;
  }

  // ------------------------------------------------------------------ reading parts back

  ghost predicate At(bytes: seq<Byte>, at: nat, s: seq<Byte>) {
    at + |s| <= |bytes| && bytes[at..at + |s|] == s
  }

  lemma AtAppend(bytes: seq<Byte>, at: nat, s: seq<Byte>, t: seq<Byte>)
    ensures At(bytes, at, s + t) <==> At(bytes, at, s) && At(bytes, at + |s|, t)
  {
    if at + |s| + |t| <= |bytes| {
      var whole := bytes[at..at + |s + t|];
      assert whole == bytes[at..at + |s|] + bytes[at + |s|..at + |s| + |t|];
      assert whole[..|s|] == bytes[at..at + |s|] && whole[|s|..] == bytes[at + |s|..at + |s| + |t|];
      assert (s + t)[..|s|] == s && (s + t)[|s|..] == t;
    }
  }

  lemma NumberBack(bytes: seq<Byte>, at: nat, n: nat, width: nat)
    requires width > 0 && n < Pow256(width) && At(bytes, at, Le(n, width))
    ensures ParseNumber(bytes, at, width) == Ok(Cursor(n, at + width)) && |Le(n, width)| == width
  {
    LeFits(n, width);
  }

  /** Numbers, followed by k more. */
  lemma {:induction false} NumbersBack(bytes: seq<Byte>, at: nat, numbers: seq<nat>, width: nat, k: nat, acc: seq<nat>)
    requires width > 0 && NumbersFit(numbers, width) && At(bytes, at, EncodeNumbers(numbers, width))
    ensures ParseNumbers(bytes, at, |numbers| + k, width, acc)
            == ParseNumbers(bytes, at + |EncodeNumbers(numbers, width)|, k, width, acc + numbers)
  {
    hide Le, ParseNumber;
    if |numbers| == 0 {
      assert acc + numbers == acc;
    } else {
      var last := |numbers| - 1;
      var front := numbers[..last];
      AtAppend(bytes, at, EncodeNumbers(front, width), Le(numbers[last], width));
      NumbersBack(bytes, at, front, width, k + 1, acc);
      NumberBack(bytes, at + |EncodeNumbers(front, width)|, numbers[last], width);
      assert acc + front + [numbers[last]] == acc + numbers;
    }
  }

  ghost function Insert(acc: LinearCombination, order: seq<nat>, m: LinearCombination): LinearCombination
    requires forall k :: k in order ==> k in m
  {
    map k | k in acc.Keys + (set j | j in order) :: if k in order then m[k] else acc[k]
  }

  lemma InsertStep(acc: LinearCombination, order: seq<nat>, m: LinearCombination)
    requires |order| > 0 && forall k :: k in order ==> k in m
    ensures var last := |order| - 1;
            Insert(acc, order, m) == Insert(acc, order[..last], m)[order[last] := m[order[last]]]
  {}

  lemma {:induction false} EntriesBack(bytes: seq<Byte>, at: nat, order: seq<nat>, m: LinearCombination, fieldSize: nat, k: nat, acc: LinearCombination)
    requires fieldSize > 0 && CombinationFits(m, fieldSize) && (forall j :: j in order ==> j in m)
    requires At(bytes, at, EncodeEntries(order, m, fieldSize))
    ensures ParseEntries(bytes, at, |order| + k, fieldSize, acc)
            == ParseEntries(bytes, at + |EncodeEntries(order, m, fieldSize)|, k, fieldSize, Insert(acc, order, m))
  {
    hide Le, ParseNumber, Insert, At, Pow256;
    if |order| == 0 {
      InsertNothing(acc, m);
    } else {
      var last := |order| - 1;
      var key, front := order[last], order[..last];
      assert key in order && forall j :: j in front ==> j in order;
      var done := EncodeEntries(front, m, fieldSize);
      AtAppend(bytes, at, done, Le(key, 4) + Le(m[key], fieldSize));
      AtAppend(bytes, at + |done|, Le(key, 4), Le(m[key], fieldSize));
      EntriesBack(bytes, at, front, m, fieldSize, k + 1, acc);
      NumberBack(bytes, at + |done|, key, 4);
      NumberBack(bytes, at + |done| + 4, m[key], fieldSize);
      InsertStep(acc, order, m);
    }
  }

  lemma InsertNothing(acc: LinearCombination, m: LinearCombination)
    ensures Insert(acc, [], m) == acc
  {}

  lemma InsertAll(order: seq<nat>, m: LinearCombination)
    requires forall k :: k in order <==> k in m
    ensures Insert(map[], order, m) == m
  {}

  lemma BlockBack(bytes: seq<Byte>, at: nat, block: seq<Byte>, m: LinearCombination, fieldSize: nat)
    requires fieldSize > 0 && CombinationFits(m, fieldSize) && IsBlock(block, m, fieldSize) && At(bytes, at, block)
    ensures ParseBlock(bytes, at, fieldSize) == Ok(Cursor(m, at + |block|))
  {
    hide Le, ParseNumber, Insert, EncodeEntries;
    var order: seq<nat> :| KeyOrder(order, m) && block == Le(|m|, 4) + EncodeEntries(order, m, fieldSize);
    AtAppend(bytes, at, Le(|m|, 4), EncodeEntries(order, m, fieldSize));
    NumberBack(bytes, at, |m|, 4);
    EntriesBack(bytes, at + 4, order, m, fieldSize, 0, map[]);
    InsertAll(order, m);
  }

  lemma ConstraintBack(bytes: seq<Byte>, at: nat, block: seq<Byte>, c: R1csConstraint, fieldSize: nat)
    requires fieldSize > 0 && ConstraintFits(c, fieldSize) && IsConstraintBlock(block, c, fieldSize) && At(bytes, at, block)
    ensures ParseConstraint(bytes, at, fieldSize) == Ok(Cursor(c, at + |block|))
  {
    hide IsBlock, CombinationFits, ParseBlock;
    var a: seq<Byte>, b: seq<Byte>, d: seq<Byte> :|
      IsBlock(a, c.a, fieldSize) && IsBlock(b, c.b, fieldSize) && IsBlock(d, c.c, fieldSize) && block == a + b + d;
    AtAppend(bytes, at, a + b, d);
    AtAppend(bytes, at, a, b);
    BlockBack(bytes, at, a, c.a, fieldSize);
    BlockBack(bytes, at + |a|, b, c.b, fieldSize);
    BlockBack(bytes, at + |a| + |b|, d, c.c, fieldSize);
  }

  lemma {:induction false} ConstraintsBack(bytes: seq<Byte>, at: nat, body: seq<Byte>, cs: seq<R1csConstraint>, fieldSize: nat, k: nat,
                                           acc: seq<R1csConstraint>)
    requires fieldSize > 0 && (forall i :: 0 <= i < |cs| ==> ConstraintFits(cs[i], fieldSize))
    requires IsConstraintsBody(body, cs, fieldSize) && At(bytes, at, body)
    ensures ParseConstraints(bytes, at, |cs| + k, fieldSize, acc) == ParseConstraints(bytes, at + |body|, k, fieldSize, acc + cs)
    decreases |cs|
  {
    hide ConstraintFits, IsConstraintBlock, ParseConstraint;
    if |cs| == 0 {
      assert acc + cs == acc;
    } else {
      var last := |cs| - 1;
      var front: seq<Byte>, block: seq<Byte> :|
        IsConstraintsBody(front, cs[..last], fieldSize) && IsConstraintBlock(block, cs[last], fieldSize) && body == front + block;
      AtAppend(bytes, at, front, block);
      ConstraintsBack(bytes, at, front, cs[..last], fieldSize, k + 1, acc);
      ConstraintBack(bytes, at + |front|, block, cs[last], fieldSize);
      assert acc + cs[..last] + [cs[last]] == acc + cs;
    }
  }

  lemma {:induction false} NameBack(bytes: seq<Byte>, at: nat, name: seq<Byte>, acc: seq<Byte>)
    requires 0 !in name && At(bytes, at, name + [0])
    ensures ParseName(bytes, at, acc) == Ok(Cursor(acc + name, at + |name| + 1))
    decreases |name|
  {
    assert bytes[at..at + |name| + 1] == name + [0];
    if |name| == 0 {
      assert bytes[at] == 0;
      assert acc + name == acc;
    } else {
      assert bytes[at] == (name + [0])[0] == name[0];
      assert name[0] in name;
      assert (name + [0]) == [name[0]] + (name[1..] + [0]);
      AtAppend(bytes, at, [name[0]], name[1..] + [0]);
      NameBack(bytes, at + 1, name[1..], acc + [name[0]]);
      assert acc + [name[0]] + name[1..] == acc + name;
    }
  }

  lemma GateUsedBack(bytes: seq<Byte>, at: nat, g: GateUsed, fieldSize: nat)
    requires fieldSize > 0 && GateUsedFits(g, fieldSize) && At(bytes, at, EncodeGateUsed(g, fieldSize))
    ensures ParseGateUsed(bytes, at, fieldSize) == Ok(Cursor(g, at + |EncodeGateUsed(g, fieldSize)|))
  {
    hide Le, ParseNumber, ParseName, EncodeNumbers;
    var numbers := EncodeNumbers(g.parameters, fieldSize);
    AtAppend(bytes, at, g.name + [0] + Le(|g.parameters|, 4), numbers);
    AtAppend(bytes, at, g.name + [0], Le(|g.parameters|, 4));
    NameBack(bytes, at, g.name, []);
    assert [] + g.name == g.name;
    NumberBack(bytes, at + |g.name| + 1, |g.parameters|, 4);
    NumbersBack(bytes, at + |g.name| + 5, g.parameters, fieldSize, 0, []);
    assert [] + g.parameters == g.parameters;
  }

  lemma {:induction false} GatesUsedBack(bytes: seq<Byte>, at: nat, gates: seq<GateUsed>, fieldSize: nat, k: nat, acc: seq<GateUsed>)
    requires fieldSize > 0 && (forall i :: 0 <= i < |gates| ==> GateUsedFits(gates[i], fieldSize))
    requires At(bytes, at, EncodeGatesUsedList(gates, fieldSize))
    ensures ParseGatesUsed(bytes, at, |gates| + k, fieldSize, acc)
            == ParseGatesUsed(bytes, at + |EncodeGatesUsedList(gates, fieldSize)|, k, fieldSize, acc + gates)
  {
    hide GateUsedFits, EncodeGateUsed, ParseGateUsed;
    if |gates| == 0 {
      assert acc + gates == acc;
    } else {
      var last := |gates| - 1;
      var front := EncodeGatesUsedList(gates[..last], fieldSize);
      AtAppend(bytes, at, front, EncodeGateUsed(gates[last], fieldSize));
      GatesUsedBack(bytes, at, gates[..last], fieldSize, k + 1, acc);
      GateUsedBack(bytes, at + |front|, gates[last], fieldSize);
      assert acc + gates[..last] + [gates[last]] == acc + gates;
    }
  }

  lemma GateAppliedBack(bytes: seq<Byte>, at: nat, g: GateApplied)
    requires GateAppliedFits(g) && At(bytes, at, EncodeGateApplied(g))
    ensures ParseGateApplied(bytes, at) == Ok(Cursor(g, at + |EncodeGateApplied(g)|))
  {
    hide Le, ParseNumber, EncodeNumbers;
    AtAppend(bytes, at, Le(g.index, 4) + Le(|g.signals|, 4), EncodeNumbers(g.signals, 8));
    AtAppend(bytes, at, Le(g.index, 4), Le(|g.signals|, 4));
    NumberBack(bytes, at, g.index, 4);
    NumberBack(bytes, at + 4, |g.signals|, 4);
    NumbersBack(bytes, at + 8, g.signals, 8, 0, []);
    assert [] + g.signals == g.signals;
  }

  lemma {:induction false} GatesAppliedBack(bytes: seq<Byte>, at: nat, gates: seq<GateApplied>, k: nat, acc: seq<GateApplied>)
    requires forall i :: 0 <= i < |gates| ==> GateAppliedFits(gates[i])
    requires At(bytes, at, EncodeGatesAppliedList(gates))
    ensures ParseGatesApplied(bytes, at, |gates| + k, acc)
            == ParseGatesApplied(bytes, at + |EncodeGatesAppliedList(gates)|, k, acc + gates)
  {
    hide GateAppliedFits, EncodeGateApplied, ParseGateApplied;
    if |gates| == 0 {
      assert acc + gates == acc;
    } else {
      var last := |gates| - 1;
      var front := EncodeGatesAppliedList(gates[..last]);
      AtAppend(bytes, at, front, EncodeGateApplied(gates[last]));
      GatesAppliedBack(bytes, at, gates[..last], k + 1, acc);
      GateAppliedBack(bytes, at + |front|, gates[last]);
      assert acc + gates[..last] + [gates[last]] == acc + gates;
    }
  }

  // ------------------------------------------------------------------ reading sections back

  lemma HeaderBack(bytes: seq<Byte>, at: nat, h: HeaderData, fieldSize: nat)
    requires HeaderFits(h, fieldSize) && At(bytes, at, EncodeHeader(h, fieldSize))
    ensures ParseHeader(bytes, at) == Ok(Cursor(ReadHeader(fieldSize, h), at + |EncodeHeader(h, fieldSize)|))
  {
    hide Le, ParseNumber, At, Pow256;
    var s1 := Le(fieldSize, 4) + Le(h.field, fieldSize);
    var s2 := s1 + Le(h.totalWires, 4);
    var s3 := s2 + Le(h.publicOutputs, 4);
    var s4 := s3 + Le(h.publicInputs, 4);
    var s5 := s4 + Le(h.privateInputs, 4);
    var s6 := s5 + Le(h.numberOfLabels, 8);
    AtAppend(bytes, at, s6, Le(h.numberOfConstraints, 4));
    AtAppend(bytes, at, s5, Le(h.numberOfLabels, 8));
    AtAppend(bytes, at, s4, Le(h.privateInputs, 4));
    AtAppend(bytes, at, s3, Le(h.publicInputs, 4));
    AtAppend(bytes, at, s2, Le(h.publicOutputs, 4));
    AtAppend(bytes, at, s1, Le(h.totalWires, 4));
    AtAppend(bytes, at, Le(fieldSize, 4), Le(h.field, fieldSize));
    var f := at + 4 + fieldSize;
    NumberBack(bytes, at, fieldSize, 4);
    NumberBack(bytes, at + 4, h.field, fieldSize);
    NumberBack(bytes, f, h.totalWires, 4);
    NumberBack(bytes, f + 4, h.publicOutputs, 4);
    NumberBack(bytes, f + 8, h.publicInputs, 4);
    NumberBack(bytes, f + 12, h.privateInputs, 4);
    FourNumbers(bytes, f, h.totalWires, h.publicOutputs, h.publicInputs, h.privateInputs);
    NumberBack(bytes, f + 16, h.numberOfLabels, 8);
    NumberBack(bytes, f + 24, h.numberOfConstraints, 4);
  }

  lemma FourNumbers(bytes: seq<Byte>, at: nat, a: nat, b: nat, c: nat, d: nat)
    requires ParseNumber(bytes, at, 4) == Ok(Cursor(a, at + 4)) && ParseNumber(bytes, at + 4, 4) == Ok(Cursor(b, at + 8))
    requires ParseNumber(bytes, at + 8, 4) == Ok(Cursor(c, at + 12)) && ParseNumber(bytes, at + 12, 4) == Ok(Cursor(d, at + 16))
    ensures ParseNumbers(bytes, at, 4, 4, []) == Ok(Cursor([a, b, c, d], at + 16))
  {
    hide ParseNumber;
    assert ParseNumbers(bytes, at + 16, 0, 4, [a, b, c, d]) == Ok(Cursor([a, b, c, d], at + 16));
    assert [a, b, c] + [d] == [a, b, c, d];
    assert ParseNumbers(bytes, at + 12, 1, 4, [a, b, c]) == Ok(Cursor([a, b, c, d], at + 16));
    assert [a, b] + [c] == [a, b, c];
    assert ParseNumbers(bytes, at + 8, 2, 4, [a, b]) == Ok(Cursor([a, b, c, d], at + 16));
    assert [a] + [b] == [a, b];
    assert ParseNumbers(bytes, at + 4, 3, 4, [a]) == Ok(Cursor([a, b, c, d], at + 16));
    assert [] + [a] == [a];
  }

  /** A section that is where it is said to be. */
  ghost predicate SectionAt(bytes: seq<Byte>, at: nat, kind: nat, d: R1csFile) {
    exists body: seq<Byte> :: kind < 256 && IsSectionBody(kind, body, d) && |body| < Pow256(8) && At(bytes, at, SectionBytes(kind, body))
  }

  lemma SectionParts(bytes: seq<Byte>, at: nat, kind: nat, body: seq<Byte>)
    requires kind < 256 && |body| < Pow256(8) && At(bytes, at, SectionBytes(kind, body))
    ensures Exact(bytes, at, 4) == Ok(Cursor(TypeBytes(kind), at + 4))
    ensures var size: nat := |body|; ParseNumber(bytes, at + 4, 8) == Ok(Cursor(size, at + 12))
    ensures SectionBody(bytes, at, kind) == Ok(Cursor((), at + 12))
    ensures SectionEnd(bytes, at) == ParseNumber(bytes, at + 4, 8)
    ensures At(bytes, at + 12, body) && |SectionBytes(kind, body)| == 12 + |body|
  {
    hide Le, ParseNumber;
    AtAppend(bytes, at, TypeBytes(kind) + Le(|body|, 8), body);
    AtAppend(bytes, at, TypeBytes(kind), Le(|body|, 8));
    NumberBack(bytes, at + 4, |body|, 8);
  }

  /** Every section is found. */
  ghost predicate StartsRight(bytes: seq<Byte>, order: seq<nat>, starts: map<nat, nat>, d: R1csFile) {
    forall i :: 0 <= i < |order| ==> order[i] in starts && SectionAt(bytes, starts[order[i]], order[i], d)
  }

  lemma BodiesFront(order: seq<nat>, bodies: seq<seq<Byte>>, d: R1csFile)
    requires AreBodies(order, bodies, d) && |order| > 0
    ensures var last := |order| - 1;
            && |bodies| == |order| && AreBodies(order[..last], bodies[..last], d)
            && order[last] < 256 && IsSectionBody(order[last], bodies[last], d) && |bodies[last]| < Pow256(8)
            && Sections(order, bodies) == Sections(order[..last], bodies[..last]) + SectionBytes(order[last], bodies[last])
  {}

  lemma StartsRightStep(bytes: seq<Byte>, order: seq<nat>, starts: map<nat, nat>, at: nat, d: R1csFile)
    requires |order| > 0 && StartsRight(bytes, order[..|order| - 1], starts, d)
    requires forall i, j :: 0 <= i < j < |order| ==> order[i] != order[j]
    requires SectionAt(bytes, at, order[|order| - 1], d)
    ensures StartsRight(bytes, order, starts[order[|order| - 1] := at], d)
  {
    hide SectionAt;
    var last := |order| - 1;
    assert forall i :: 0 <= i < last ==> order[..last][i] == order[i];
  }

  /** The scan over the sections. */
  lemma {:induction false} StartsBack(bytes: seq<Byte>, at: nat, order: seq<nat>, bodies: seq<seq<Byte>>, noSections: nat, k: nat, d: R1csFile)
    returns (starts: map<nat, nat>)
    requires AreBodies(order, bodies, d) && noSections < 256
    requires forall i :: 0 <= i < |order| ==> 1 <= order[i] <= noSections
    requires forall i, j :: 0 <= i < j < |order| ==> order[i] != order[j]
    requires At(bytes, at, Sections(order, bodies))
    ensures ParseStarts(bytes, at, |order| + k, noSections, map[])
            == ParseStarts(bytes, at + |Sections(order, bodies)|, k, noSections, starts)
    ensures StartsRight(bytes, order, starts, d)
    decreases |order|
  {
    hide IsSectionBody, SectionBytes, Exact, ParseNumber, SectionBody, SectionEnd, At, AreBodies, StartsRight, SectionAt;
    if |order| == 0 {
      starts := map[];
      NothingStarts(bytes, order, bodies, d);
    } else {
      var last := |order| - 1;
      BodiesFront(order, bodies, d);
      var front := Sections(order[..last], bodies[..last]);
      var kind, body := order[last], bodies[last];
      AtAppend(bytes, at, front, SectionBytes(kind, body));
      var before := StartsBack(bytes, at, order[..last], bodies[..last], noSections, k + 1, d);
      SectionParts(bytes, at + |front|, kind, body);
      starts := before[kind := at + |front|];
      SectionIsAt(bytes, at + |front|, kind, body, d);
      StartsRightStep(bytes, order, before, at + |front|, d);
    }
  }

  lemma NothingStarts(bytes: seq<Byte>, order: seq<nat>, bodies: seq<seq<Byte>>, d: R1csFile)
    requires |order| == 0 && AreBodies(order, bodies, d)
    ensures StartsRight(bytes, order, map[], d) && Sections(order, bodies) == []
  {}

  lemma SectionIsAt(bytes: seq<Byte>, at: nat, kind: nat, body: seq<Byte>, d: R1csFile)
    requires kind < 256 && IsSectionBody(kind, body, d) && |body| < Pow256(8) && At(bytes, at, SectionBytes(kind, body))
    ensures SectionAt(bytes, at, kind, d)
  {}

  lemma InitializationBack(bytes: seq<Byte>, noSections: nat)
    requires noSections < 256 && At(bytes, 0, FileStart(noSections))
    ensures ParseInitialization(bytes) == Ok(Cursor(noSections, 12)) && |FileStart(noSections)| == 12
  {}

  lemma HeaderSectionBack(bytes: seq<Byte>, starts: map<nat, nat>, d: R1csFile)
    requires Fits(d) && HEADER in starts && SectionAt(bytes, starts[HEADER], HEADER, d)
    ensures ReadHeaderSection(bytes, starts) == Ok(ReadHeader(d.fieldSize, d.header))
  {
    hide SectionBytes, SectionBody, SectionEnd, ParseHeader, EncodeHeader, HeaderFits, ConstraintFits, IsConstraintsBody, EncodeNumbers,
         EncodeGatesUsed, EncodeGatesApplied, At, GateUsedFits, GateAppliedFits;
    var at := starts[HEADER];
    var body: seq<Byte> :| IsSectionBody(HEADER, body, d) && |body| < Pow256(8) && At(bytes, at, SectionBytes(HEADER, body));
    SectionParts(bytes, at, HEADER, body);
    HeaderBack(bytes, at + 12, d.header, d.fieldSize);
  }

  lemma ConstraintsSectionBack(bytes: seq<Byte>, starts: map<nat, nat>, d: R1csFile)
    requires Fits(d) && CONSTRAINTS in starts && SectionAt(bytes, starts[CONSTRAINTS], CONSTRAINTS, d)
    ensures ReadConstraintsSection(bytes, starts, |d.constraints|, d.fieldSize) == Ok(d.constraints)
  {
    hide SectionBytes, SectionBody, SectionEnd, IsConstraintsBody, ConstraintFits, EncodeNumbers, EncodeHeader, EncodeGatesUsed, EncodeGatesApplied,
         At, GateUsedFits, GateAppliedFits, ParseConstraint;
    var at := starts[CONSTRAINTS];
    var body: seq<Byte> :| IsSectionBody(CONSTRAINTS, body, d) && |body| < Pow256(8) && At(bytes, at, SectionBytes(CONSTRAINTS, body));
    SectionParts(bytes, at, CONSTRAINTS, body);
    ConstraintsBack(bytes, at + 12, body, d.constraints, d.fieldSize, 0, []);
    assert [] + d.constraints == d.constraints;
  }

  lemma SignalsSectionBack(bytes: seq<Byte>, starts: map<nat, nat>, d: R1csFile)
    requires Fits(d) && SIGNALS in starts && SectionAt(bytes, starts[SIGNALS], SIGNALS, d)
    ensures ReadSignalsSection(bytes, starts, |d.signals|) == Ok(d.signals)
  {
    hide SectionBytes, SectionBody, SectionEnd, EncodeNumbers, ConstraintFits, IsConstraintsBody, EncodeHeader, EncodeGatesUsed, EncodeGatesApplied,
         At, HeaderFits, GateUsedFits, GateAppliedFits, ParseNumber;
    var at := starts[SIGNALS];
    var body: seq<Byte> :| IsSectionBody(SIGNALS, body, d) && |body| < Pow256(8) && At(bytes, at, SectionBytes(SIGNALS, body));
    SectionParts(bytes, at, SIGNALS, body);
    NumbersBack(bytes, at + 12, d.signals, 8, 0, []);
    assert [] + d.signals == d.signals;
  }

  lemma GatesUsedSectionBack(bytes: seq<Byte>, starts: map<nat, nat>, d: R1csFile)
    requires Fits(d) && GATES_USED in starts && SectionAt(bytes, starts[GATES_USED], GATES_USED, d)
    ensures ReadGatesUsedSection(bytes, starts, d.fieldSize) == Ok(d.gatesUsed)
  {
    hide SectionBytes, SectionBody, SectionEnd, EncodeGatesUsedList, GateUsedFits, ConstraintFits, Le, ParseNumber, IsConstraintsBody,
         EncodeNumbers, EncodeGatesApplied, At, GateAppliedFits;
    var at := starts[GATES_USED];
    var body: seq<Byte> :| IsSectionBody(GATES_USED, body, d) && |body| < Pow256(8) && At(bytes, at, SectionBytes(GATES_USED, body));
    SectionParts(bytes, at, GATES_USED, body);
    AtAppend(bytes, at + 12, Le(|d.gatesUsed|, 4), EncodeGatesUsedList(d.gatesUsed, d.fieldSize));
    NumberBack(bytes, at + 12, |d.gatesUsed|, 4);
    GatesUsedBack(bytes, at + 16, d.gatesUsed, d.fieldSize, 0, []);
    assert [] + d.gatesUsed == d.gatesUsed;
  }

  lemma GatesAppliedSectionBack(bytes: seq<Byte>, starts: map<nat, nat>, d: R1csFile)
    requires Fits(d) && GATES_APPLIED in starts && SectionAt(bytes, starts[GATES_APPLIED], GATES_APPLIED, d)
    ensures ReadGatesAppliedSection(bytes, starts) == Ok(d.gatesApplied)
  {
    hide SectionBytes, SectionBody, SectionEnd, EncodeGatesAppliedList, GateAppliedFits, ConstraintFits, Le, ParseNumber, IsConstraintsBody,
         EncodeHeader, EncodeNumbers, EncodeGatesUsed, At, HeaderFits, GateUsedFits;
    var at := starts[GATES_APPLIED];
    var body: seq<Byte> :| IsSectionBody(GATES_APPLIED, body, d) && |body| < Pow256(8) && At(bytes, at, SectionBytes(GATES_APPLIED, body));
    SectionParts(bytes, at, GATES_APPLIED, body);
    AtAppend(bytes, at + 12, Le(|d.gatesApplied|, 4), EncodeGatesAppliedList(d.gatesApplied));
    NumberBack(bytes, at + 12, |d.gatesApplied|, 4);
    GatesAppliedBack(bytes, at + 16, d.gatesApplied, 0, []);
    assert [] + d.gatesApplied == d.gatesApplied;
  }

  /** What was written, as the reader returns it. */
  function AsRead(d: R1csFile): R1csData {
    R1csData(ReadHeader(d.fieldSize, d.header), d.constraints, d.signals, d.customGates,
             if d.customGates then Some(d.gatesUsed) else None, if d.customGates then Some(d.gatesApplied) else None)
  }

  lemma SectionsBack(bytes: seq<Byte>, starts: map<nat, nat>, d: R1csFile)
    requires Fits(d)
    requires forall k: nat :: 1 <= k <= NoSections(d) ==> k in starts && SectionAt(bytes, starts[k], k, d)
    ensures ReadSections(bytes, d.customGates, starts) == Ok(AsRead(d))
  {
    hide SectionAt, ConstraintFits, ReadHeaderSection, ReadConstraintsSection, ReadSignalsSection, ReadGatesUsedSection, ReadGatesAppliedSection;
    HeaderSectionBack(bytes, starts, d);
    ConstraintsSectionBack(bytes, starts, d);
    SignalsSectionBack(bytes, starts, d);
    if d.customGates {
      GatesUsedSectionBack(bytes, starts, d);
      GatesAppliedSectionBack(bytes, starts, d);
    }
  }

  /** Whatever the order of the sections, the reader returns what was written. */
  lemma RoundTrip(bytes: seq<Byte>, order: seq<nat>, d: R1csFile)
    requires IsFile(bytes, order, d) && Fits(d)
    ensures ReadR1cs(bytes) == Ok(AsRead(d))
  {
    hide Fits, IsSectionBody, SectionAt, ParseInitialization, ReadSections, FileStart, Sections;
    var bodies: seq<seq<Byte>> :| AreBodies(order, bodies, d) && bytes == FileStart(NoSections(d)) + Sections(order, bodies);
    forall i | 0 <= i < |order|
      ensures 1 <= order[i] <= NoSections(d)
    {
      assert order[i] in order;
    }
    assert At(bytes, 0, bytes);
    AtAppend(bytes, 0, FileStart(NoSections(d)), Sections(order, bodies));
    InitializationBack(bytes, NoSections(d));
    var starts := StartsBack(bytes, 12, order, bodies, NoSections(d), 0, d);
    forall k: nat | 1 <= k <= NoSections(d)
      ensures k in starts && SectionAt(bytes, starts[k], k, d)
    {
      assert k in order;
      var i :| 0 <= i < |order| && order[i] == k;
    }
    SectionsBack(bytes, starts, d);
  }
}
