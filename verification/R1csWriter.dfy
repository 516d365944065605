/**
 The R1CS writer (circom/constraint_writers/src/r1cs_writer.rs). The file is a sequence of bytes with a cursor; a section
 starts with a placeholder for its size, which is overwritten when the section ends.
 */
module R1csWriter {
  import opened R1csFormat
  import opened Orders

  class ByteFile {
    var bytes: seq<Byte>
    var position: nat

    constructor ()
      ensures bytes == [] && position == 0
    {
      bytes, position := [], 0;
    }

    /** Writes at the cursor: over the bytes that are there, and past the end. */
    method WriteAll(s: seq<Byte>)
      requires position <= |bytes|
      modifies this
      ensures position == old(position) + |s|
      ensures bytes == old(bytes[..position]) + s + (if position <= |old(bytes)| then old(bytes)[position..] else [])
    {
      var after := position + |s|;
      bytes := bytes[..position] + s + (if after <= |bytes| then bytes[after..] else []);
      position := after;
    }

    method Seek(start: nat)
      requires start <= |bytes|
      modifies this`position
      ensures position == start
    {
      position := start;
    }
  }

  method IntoFormat(number: seq<Byte>, withBytes: nat) returns (value: seq<Byte>, size: nat)
    ensures value == Padded(number, withBytes) && size == |value|
  {
    value := number;
    while |value| < withBytes
      invariant |number| <= |value| && (|value| <= withBytes || value == number)
      invariant value == number + Zeros(|value| - |number|)
      decreases withBytes - |value|
    {
      value := value + [0];
    }
    size := |value|;
  }

  method BigintAsBytes(number: nat, withBytes: nat) returns (value: seq<Byte>, size: nat)
    ensures value == Le(number, withBytes) && size == |value|
  {
    value, size := IntoFormat(ToBytesLe(number), withBytes);
  }

  // ------------------------------------------------------------------ linear combinations

  lemma {:induction false} LeastKey(keys: set<nat>) returns (least: nat)
    requires keys != {}
    ensures least in keys && forall k :: k in keys ==> k == least || Less(ToBytesLe(least), ToBytesLe(k))
  {
    var k :| k in keys;
    if keys == {k} {
      least := k;
    } else {
      var rest := keys - {k};
      var other := LeastKey(rest);
      LessTotal(ToBytesLe(k), ToBytesLe(other));
      FromToBytes(k);
      FromToBytes(other);
      if Less(ToBytesLe(k), ToBytesLe(other)) {
        least := k;
        forall j | j in keys && j != k
          ensures Less(ToBytesLe(k), ToBytesLe(j))
        {
          if j != other {
            LessTransitive(ToBytesLe(k), ToBytesLe(other), ToBytesLe(j));
          }
        }
      } else {
        least := other;
      }
    }
  }

  /** The keys sorted by their bytes. */
  method SortByBytes(keys: set<nat>) returns (order: seq<nat>)
    ensures forall k :: k in order <==> k in keys
    ensures |order| == |keys|
    ensures forall i, j :: 0 <= i < j < |order| ==> Less(ToBytesLe(order[i]), ToBytesLe(order[j]))
  {
    order := [];
    var todo := keys;
    while todo != {}
      invariant todo <= keys && |order| + |todo| == |keys|
      invariant forall k :: k in order <==> k in keys && k !in todo
      invariant forall i, k :: 0 <= i < |order| && k in todo ==> Less(ToBytesLe(order[i]), ToBytesLe(k))
      invariant forall i, j :: 0 <= i < j < |order| ==> Less(ToBytesLe(order[i]), ToBytesLe(order[j]))
      decreases todo
    {
      ghost var smallest := LeastKey(todo);
      var least :| least in todo && forall k :: k in todo ==> k == least || Less(ToBytesLe(least), ToBytesLe(k));
      order := order + [least];
      todo := todo - {least};
    }
  }

  lemma Assoc(a: seq<Byte>, b: seq<Byte>, c: seq<Byte>)
    ensures (a + b) + c == a + (b + c)
  {}

  lemma EntriesStep(order: seq<nat>, m: LinearCombination, fieldSize: nat, i: nat)
    requires i < |order| && forall k :: k in order ==> k in m
    ensures EncodeEntries(order[..i + 1], m, fieldSize)
            == EncodeEntries(order[..i], m, fieldSize) + (Le(order[i], 4) + Le(m[order[i]], fieldSize))
  {
    assert order[..i + 1][..i] == order[..i];
  }

  method ObtainLinearCombinationBlock(m: LinearCombination, fieldSize: nat) returns (block: seq<Byte>, size: nat)
    ensures IsBlock(block, m, fieldSize) && size == |block|
  {
    hide EncodeEntries, Le, Padded, ToBytesLe, Less;
    block, size := [], 0;
    var stream, bytes := BigintAsBytes(|m|, 4);
    size := size + bytes;
    block := block + stream;
    ghost var count := block;
    var order := SortByBytes(m.Keys);
    assert |m.Keys| == |m|;
    NoEntries(m, fieldSize);
    assert order[..0] == [];
    for i := 0 to |order|
      invariant block == count + EncodeEntries(order[..i], m, fieldSize) && size == |block|
    {
      var key := order[i];
      assert key in order;
      ghost var done := EncodeEntries(order[..i], m, fieldSize);
      ghost var entry := Le(order[i], 4) + Le(m[order[i]], fieldSize);
      stream, bytes := IntoFormat(ToBytesLe(key), 4);
      KeyBytes(key);
      size := size + bytes;
      block := block + stream;
      stream, bytes := BigintAsBytes(m[key], fieldSize);
      size := size + bytes;
      block := block + stream;
      Assoc(count + done, Le(order[i], 4), Le(m[order[i]], fieldSize));
      Assoc(count, done, entry);
      EntriesStep(order, m, fieldSize, i);
    }
    PrefixAll(order);
    assert KeyOrder(order, m);
  }

  lemma NoEntries(m: LinearCombination, fieldSize: nat)
    ensures EncodeEntries([], m, fieldSize) == []
  {}

  lemma KeyBytes(key: nat)
    ensures Padded(ToBytesLe(key), 4) == Le(key, 4)
  {}

  // ------------------------------------------------------------------ sections

  /** A section being written at the end of a file. */
  class Section {
    const file: ByteFile
    const goBack: nat
    const kind: nat
    const fieldSize: nat
    var size: nat
    ghost const before: seq<Byte>
    ghost var body: seq<Byte>

    /** The file holds what it held, the section's start with the placeholder, and what was written to the section. */
    ghost predicate Valid()
      reads this, file
    {
      && kind < 256
      && file.bytes == before + TypeBytes(kind) + PLACE_HOLDER + body
      && file.position == |file.bytes|
      && goBack == |before| + 4
      && size == |body|
    }

    constructor (file: ByteFile, kind: nat, fieldSize: nat)
      requires kind < 256 && file.position == |file.bytes|
      modifies file
      ensures Valid() && this.file == file && this.kind == kind && this.fieldSize == fieldSize
      ensures before == old(file.bytes) && body == []
    {
      this.file, this.kind, this.fieldSize, size, goBack := file, kind, fieldSize, 0, file.position + 4;
      before, body := file.bytes, [];
      new;
      file.WriteAll(TypeBytes(kind));
      file.WriteAll(PLACE_HOLDER);
    }

    /** Appends bytes to the section. */
    method Append(s: seq<Byte>)
      requires Valid()
      modifies this, file
      ensures Valid() && body == old(body) + s
    {
      file.WriteAll(s);
      size := size + |s|;
      body := body + s;
    }

    method AppendNumber(number: nat, width: nat)
      requires Valid()
      modifies this, file
      ensures Valid() && body == old(body) + Le(number, width)
    {
      var stream, bytes := BigintAsBytes(number, width);
      Append(stream);
    }

    method WriteHeader(data: HeaderData)
      requires Valid()
      modifies this, file
      ensures Valid() && body == old(body) + EncodeHeader(data, fieldSize)
    {
      hide Valid, Le;
      AppendNumber(fieldSize, 4);
      AppendNumber(data.field, fieldSize);
      AppendNumber(data.totalWires, 4);
      AppendNumber(data.publicOutputs, 4);
      AppendNumber(data.publicInputs, 4);
      AppendNumber(data.privateInputs, 4);
      AppendNumber(data.numberOfLabels, 8);
      AppendNumber(data.numberOfConstraints, 4);
      AppendedHeader(old(body), data, fieldSize);
    }

    method WriteConstraint(c: R1csConstraint)
      requires Valid()
      modifies this, file
      ensures Valid()
      ensures exists block: seq<Byte> :: IsConstraintBlock(block, c, fieldSize) && body == old(body) + block
    {
      hide Valid, IsBlock;
      var blockA, sizeA := ObtainLinearCombinationBlock(c.a, fieldSize);
      var blockB, sizeB := ObtainLinearCombinationBlock(c.b, fieldSize);
      var blockC, sizeC := ObtainLinearCombinationBlock(c.c, fieldSize);
      Append(blockA);
      Append(blockB);
      Append(blockC);
      Assoc(old(body), blockA, blockB);
      Assoc(old(body), blockA + blockB, blockC);
      assert IsConstraintBlock(blockA + blockB + blockC, c, fieldSize);
    }

    method WriteSignal(signal: nat)
      requires Valid()
      modifies this, file
      ensures Valid() && body == old(body) + Le(signal, 8)
    {
      AppendNumber(signal, 8);
    }

    method WriteNumbers(numbers: seq<nat>, width: nat)
      requires Valid()
      modifies this, file
      ensures Valid() && body == old(body) + EncodeNumbers(numbers, width)
    {
      hide Valid, Le;
      assert numbers[..0] == [];
      for i := 0 to |numbers|
        invariant Valid() && body == old(body) + EncodeNumbers(numbers[..i], width)
      {
        assert numbers[..i + 1][..i] == numbers[..i];
        Assoc(old(body), EncodeNumbers(numbers[..i], width), Le(numbers[i], width));
        AppendNumber(numbers[i], width);
      }
      PrefixAll(numbers);
    }

    method WriteGateUsed(gate: GateUsed)
      requires Valid()
      modifies this, file
      ensures Valid() && body == old(body) + EncodeGateUsed(gate, fieldSize)
    {
      hide Valid, Le, EncodeNumbers;
      Append(gate.name);
      Append([0]);
      AppendNumber(|gate.parameters|, 4);
      WriteNumbers(gate.parameters, fieldSize);
    }

    method WriteCustomGatesUsages(gates: seq<GateUsed>)
      requires Valid()
      modifies this, file
      ensures Valid() && body == old(body) + EncodeGatesUsed(gates, fieldSize)
    {
      hide Valid, Le, EncodeGateUsed;
      AppendNumber(|gates|, 4);
      ghost var start := body;
      assert gates[..0] == [];
      for i := 0 to |gates|
        invariant Valid() && body == start + EncodeGatesUsedList(gates[..i], fieldSize)
      {
        assert gates[..i + 1][..i] == gates[..i];
        Assoc(start, EncodeGatesUsedList(gates[..i], fieldSize), EncodeGateUsed(gates[i], fieldSize));
        WriteGateUsed(gates[i]);
      }
      PrefixAll(gates);
      Assoc(old(body), Le(|gates|, 4), EncodeGatesUsedList(gates, fieldSize));
    }

    method WriteGateApplied(gate: GateApplied)
      requires Valid()
      modifies this, file
      ensures Valid() && body == old(body) + EncodeGateApplied(gate)
    {
      hide Valid, Le, EncodeNumbers;
      AppendNumber(gate.index, 4);
      AppendNumber(|gate.signals|, 4);
      WriteNumbers(gate.signals, 8);
    }

    method WriteCustomGatesApplications(gates: seq<GateApplied>)
      requires Valid()
      modifies this, file
      ensures Valid() && body == old(body) + EncodeGatesApplied(gates)
    {
      hide Valid, Le, EncodeGateApplied;
      AppendNumber(|gates|, 4);
      ghost var start := body;
      assert gates[..0] == [];
      for i := 0 to |gates|
        invariant Valid() && body == start + EncodeGatesAppliedList(gates[..i])
      {
        assert gates[..i + 1][..i] == gates[..i];
        Assoc(start, EncodeGatesAppliedList(gates[..i]), EncodeGateApplied(gates[i]));
        WriteGateApplied(gates[i]);
      }
      PrefixAll(gates);
      Assoc(old(body), Le(|gates|, 4), EncodeGatesAppliedList(gates));
    }

    /** Goes back and overwrites the placeholder by the number of bytes written. */
    method EndSection()
      requires Valid() && size < Pow256(8)
      modifies file
      ensures file.bytes == before + SectionBytes(kind, body) && file.position == |file.bytes|
    {
      var goBack1 := file.position;
      file.Seek(goBack);
      var stream, bytes := BigintAsBytes(size, 8);
      LeFits(size, 8);
      file.WriteAll(stream);
      file.Seek(goBack1);
    }
  }

  lemma AppendedHeader(start: seq<Byte>, h: HeaderData, fieldSize: nat)
    ensures start + Le(fieldSize, 4) + Le(h.field, fieldSize) + Le(h.totalWires, 4) + Le(h.publicOutputs, 4) + Le(h.publicInputs, 4)
            + Le(h.privateInputs, 4) + Le(h.numberOfLabels, 8) + Le(h.numberOfConstraints, 4)
            == start + EncodeHeader(h, fieldSize)
  {
    hide Le;
  }

  /** The start of a file with the given number of sections. */
  function FileStart(noSections: nat): seq<Byte>
    requires noSections < 256
  {
    MAGIC + VERSION + [noSections, 0, 0, 0]
  }

  method StartFile(customGates: bool) returns (file: ByteFile)
    ensures fresh(file) && file.bytes == FileStart(if customGates then 5 else 3) && file.position == |file.bytes|
  {
    file := new ByteFile();
    file.WriteAll(MAGIC);
    file.WriteAll(VERSION);
    file.WriteAll([if customGates then 5 else 3, 0, 0, 0]);
  }
}
