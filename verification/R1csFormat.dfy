/**
 The bytes of the R1CS binary format: numbers, linear combinations and sections, as the writer
 (circom/constraint_writers/src/r1cs_writer.rs) lays them out.
 */
module R1csFormat {
  type Byte = x: int | 0 <= x < 256

  // ------------------------------------------------------------------ numbers

  function Pow256(k: nat): (r: nat)
    ensures r >= 1
  {
    if k == 0 then 1 else 256 * Pow256(k - 1)
  }

  /** The bytes of a number, the lowest first; zero has one byte. */
  function ToBytesLe(n: nat): (bytes: seq<Byte>)
    ensures |bytes| > 0
  {
    if n < 256 then [n] else [n % 256] + ToBytesLe(n / 256)
  }

  function FromBytesLe(bytes: seq<Byte>): nat {
    if |bytes| == 0 then 0 else bytes[0] + 256 * FromBytesLe(bytes[1..])
  }

  lemma {:induction false} FromToBytes(n: nat)
    ensures FromBytesLe(ToBytesLe(n)) == n
  {
    if n < 256 {
      assert ToBytesLe(n)[1..] == [];
    } else {
      FromToBytes(n / 256);
      assert ToBytesLe(n)[1..] == ToBytesLe(n / 256);
    }
  }

  lemma {:induction false} ToBytesFit(n: nat, k: nat)
    requires k > 0 && n < Pow256(k)
    ensures |ToBytesLe(n)| <= k
  {
    assert Pow256(1) == 256 * Pow256(0) == 256;
    if n >= 256 {
      ToBytesFit(n / 256, k - 1);
    }
  }

  function Zeros(n: nat): (s: seq<Byte>)
    ensures |s| == n && forall i :: 0 <= i < n ==> s[i] == 0
  {
    if n == 0 then [] else Zeros(n - 1) + [0]
  }

  /** The number's bytes, filled up with zeros; a number too long for the width keeps all its bytes. */
  function Padded(number: seq<Byte>, width: nat): (r: seq<Byte>)
    ensures |r| == if |number| < width then width else |number|
  {
    if |number| < width then number + Zeros(width - |number|) else number
  }

  lemma {:induction false} ZerosAddNothing(bytes: seq<Byte>, n: nat)
    ensures FromBytesLe(bytes + Zeros(n)) == FromBytesLe(bytes)
  {
    if |bytes| > 0 {
      ZerosAddNothing(bytes[1..], n);
      assert (bytes + Zeros(n))[1..] == bytes[1..] + Zeros(n);
    } else if n > 0 {
      assert ([] + Zeros(n)) == Zeros(n) && Zeros(n)[0] == 0;
      assert Zeros(n)[1..] == [] + Zeros(n - 1);
      ZerosAddNothing([], n - 1);
    }
  }

  /** A number in a fixed number of bytes. */
  function Le(n: nat, width: nat): seq<Byte> { Padded(ToBytesLe(n), width) }

  /** A number that fits takes exactly its width, and is read back. */
  lemma LeFits(n: nat, width: nat)
    requires width > 0 && n < Pow256(width)
    ensures |Le(n, width)| == width && FromBytesLe(Le(n, width)) == n
  {
    ToBytesFit(n, width);
    FromToBytes(n);
    if |ToBytesLe(n)| < width {
      ZerosAddNothing(ToBytesLe(n), width - |ToBytesLe(n)|);
    }
  }

  /** Without the width it is not: the sizes of sections and the positions of fields would be wrong. */
  lemma LeOverflows(n: nat, width: nat)
    requires width > 0 && n >= Pow256(width)
    ensures |Le(n, width)| > width
  {
    if |ToBytesLe(n)| <= width {
      FromToBytes(n);
      FromBelow(ToBytesLe(n));
      Pow256Grows(|ToBytesLe(n)|, width);
    }
  }

  lemma {:induction false} FromBelow(bytes: seq<Byte>)
    ensures FromBytesLe(bytes) < Pow256(|bytes|)
  {
    if |bytes| > 0 {
      FromBelow(bytes[1..]);
    }
  }

  lemma {:induction false} Pow256Grows(a: nat, b: nat)
    requires a <= b
    ensures Pow256(a) <= Pow256(b)
  {
    if a < b {
      Pow256Grows(a, b - 1);
    }
  }

  // ------------------------------------------------------------------ the parts of a file

  const MAGIC: seq<Byte> := [114, 49, 99, 115]
  const VERSION: seq<Byte> := [1, 0, 0, 0]
  const PLACE_HOLDER: seq<Byte> := [3, 3, 3, 3, 3, 3, 3, 3]

  const HEADER: nat := 1
  const CONSTRAINTS: nat := 2
  const SIGNALS: nat := 3
  const GATES_USED: nat := 4
  const GATES_APPLIED: nat := 5

  type LinearCombination = map<nat, nat>

  datatype R1csConstraint = R1csConstraint(a: LinearCombination, b: LinearCombination, c: LinearCombination)

  datatype HeaderData = HeaderData(field: nat, totalWires: nat, publicOutputs: nat, publicInputs: nat, privateInputs: nat,
                                   numberOfLabels: nat, numberOfConstraints: nat)

  /** A name, as bytes, with parameters. */
  datatype GateUsed = GateUsed(name: seq<Byte>, parameters: seq<nat>)

  datatype GateApplied = GateApplied(index: nat, signals: seq<nat>)

  /** Lexicographic order of byte strings. */
  predicate Less(a: seq<Byte>, b: seq<Byte>) {
    if |b| == 0 then false
    else if |a| == 0 then true
    else a[0] < b[0] || (a[0] == b[0] && Less(a[1..], b[1..]))
  }

  lemma {:induction false} LessTotal(a: seq<Byte>, b: seq<Byte>)
    ensures Less(a, b) || Less(b, a) || a == b
  {
    if |a| > 0 && |b| > 0 && a[0] == b[0] {
      LessTotal(a[1..], b[1..]);
      assert a == [a[0]] + a[1..] && b == [b[0]] + b[1..];
    }
  }

  lemma {:induction false} LessTransitive(a: seq<Byte>, b: seq<Byte>, c: seq<Byte>)
    requires Less(a, b) && Less(b, c)
    ensures Less(a, c)
  {
    if |a| > 0 && a[0] == b[0] == c[0] {
      LessTransitive(a[1..], b[1..], c[1..]);
    }
  }

  /** The keys in the order in which they are written. */
  ghost predicate KeyOrder(order: seq<nat>, m: LinearCombination) {
    && (forall k :: k in order <==> k in m)
    && |order| == |m|
    && (forall i, j :: 0 <= i < j < |order| ==> Less(ToBytesLe(order[i]), ToBytesLe(order[j])))
  }

  function EncodeEntries(order: seq<nat>, m: LinearCombination, fieldSize: nat): seq<Byte>
    requires forall k :: k in order ==> k in m
  {
    if |order| == 0 then []
    else
      var last := |order| - 1;
      EncodeEntries(order[..last], m, fieldSize) + (Le(order[last], 4) + Le(m[order[last]], fieldSize))
  }

  ghost predicate IsBlock(block: seq<Byte>, m: LinearCombination, fieldSize: nat) {
    exists order: seq<nat> :: KeyOrder(order, m) && block == Le(|m|, 4) + EncodeEntries(order, m, fieldSize)
  }

  ghost predicate IsConstraintBlock(block: seq<Byte>, c: R1csConstraint, fieldSize: nat) {
    exists a: seq<Byte>, b: seq<Byte>, d: seq<Byte> ::
      IsBlock(a, c.a, fieldSize) && IsBlock(b, c.b, fieldSize) && IsBlock(d, c.c, fieldSize) && block == a + b + d
  }

  /** The concatenation of constraint blocks. */
  ghost predicate IsConstraintsBody(body: seq<Byte>, cs: seq<R1csConstraint>, fieldSize: nat)
    decreases |cs|
  {
    if |cs| == 0 then body == []
    else
      exists front: seq<Byte>, block: seq<Byte> ::
        IsConstraintsBody(front, cs[..|cs| - 1], fieldSize) && IsConstraintBlock(block, cs[|cs| - 1], fieldSize) && body == front + block
  }

  function EncodeHeader(h: HeaderData, fieldSize: nat): seq<Byte> {
    Le(fieldSize, 4) + Le(h.field, fieldSize) + Le(h.totalWires, 4) + Le(h.publicOutputs, 4) + Le(h.publicInputs, 4)
    + Le(h.privateInputs, 4) + Le(h.numberOfLabels, 8) + Le(h.numberOfConstraints, 4)
  }

  function EncodeNumbers(numbers: seq<nat>, width: nat): seq<Byte> {
    if |numbers| == 0 then []
    else EncodeNumbers(numbers[..|numbers| - 1], width) + Le(numbers[|numbers| - 1], width)
  }

  function EncodeGateUsed(g: GateUsed, fieldSize: nat): seq<Byte> {
    g.name + [0] + Le(|g.parameters|, 4) + EncodeNumbers(g.parameters, fieldSize)
  }

  function EncodeGatesUsedList(gates: seq<GateUsed>, fieldSize: nat): seq<Byte> {
    if |gates| == 0 then []
    else EncodeGatesUsedList(gates[..|gates| - 1], fieldSize) + EncodeGateUsed(gates[|gates| - 1], fieldSize)
  }

  function EncodeGatesUsed(gates: seq<GateUsed>, fieldSize: nat): seq<Byte> {
    Le(|gates|, 4) + EncodeGatesUsedList(gates, fieldSize)
  }

  function EncodeGateApplied(g: GateApplied): seq<Byte> {
    Le(g.index, 4) + Le(|g.signals|, 4) + EncodeNumbers(g.signals, 8)
  }

  function EncodeGatesAppliedList(gates: seq<GateApplied>): seq<Byte> {
    if |gates| == 0 then []
    else EncodeGatesAppliedList(gates[..|gates| - 1]) + EncodeGateApplied(gates[|gates| - 1])
  }

  function EncodeGatesApplied(gates: seq<GateApplied>): seq<Byte> { Le(|gates|, 4) + EncodeGatesAppliedList(gates) }

  function TypeBytes(kind: nat): seq<Byte>
    requires kind < 256
  {
    [kind, 0, 0, 0]
  }

  /** A section: its type, the number of bytes in it, the bytes. */
  function SectionBytes(kind: nat, body: seq<Byte>): seq<Byte>
    requires kind < 256
  {
    TypeBytes(kind) + Le(|body|, 8) + body
  }

  // ------------------------------------------------------------------ what fits

  ghost predicate NumbersFit(numbers: seq<nat>, width: nat) {
    forall i :: 0 <= i < |numbers| ==> numbers[i] < Pow256(width)
  }

  ghost predicate CombinationFits(m: LinearCombination, fieldSize: nat) {
    |m| < Pow256(4) && forall k :: k in m ==> k < Pow256(4) && m[k] < Pow256(fieldSize)
  }

  ghost predicate ConstraintFits(c: R1csConstraint, fieldSize: nat) {
    CombinationFits(c.a, fieldSize) && CombinationFits(c.b, fieldSize) && CombinationFits(c.c, fieldSize)
  }

  ghost predicate HeaderFits(h: HeaderData, fieldSize: nat) {
    && 0 < fieldSize < Pow256(4) && h.field < Pow256(fieldSize)
    && h.totalWires < Pow256(4) && h.publicOutputs < Pow256(4) && h.publicInputs < Pow256(4) && h.privateInputs < Pow256(4)
    && h.numberOfLabels < Pow256(8) && h.numberOfConstraints < Pow256(4)
  }

  /** A name holds no zero byte. */
  ghost predicate GateUsedFits(g: GateUsed, fieldSize: nat) {
    0 !in g.name && |g.parameters| < Pow256(4) && NumbersFit(g.parameters, fieldSize)
  }

  ghost predicate GateAppliedFits(g: GateApplied) {
    g.index < Pow256(4) && |g.signals| < Pow256(4) && NumbersFit(g.signals, 8)
  }
}
