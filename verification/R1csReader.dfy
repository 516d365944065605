/** The R1CS reader (circom/constraint_writers/src/r1cs_reader.rs). */
module R1csReader {
  import opened Wrappers
  import opened R1csFormat

  datatype ReadError = UnexpectedEof | InvalidMagicNumber | InvalidVersion | InvalidSectionHeader | InvalidSectionType | SectionNotPresent(kind: nat)

  /** A value and the position after it. */
  datatype Cursor<T> = Cursor(value: T, next: nat)

  type Parsed<T> = Result<Cursor<T>, ReadError>

  // ------------------------------------------------------------------ what is read

  /** The next n bytes; none left is an error only if some are wanted. */
  function Exact(bytes: seq<Byte>, at: nat, n: nat): (r: Parsed<seq<Byte>>)
    ensures r.Ok? ==> |r.value.value| == n && r.value.next == at + n
  {
    if n == 0 then Ok(Cursor([], at))
    else if at + n <= |bytes| then Ok(Cursor(bytes[at..at + n], at + n))
    else Err(UnexpectedEof)
  }

  function ParseNumber(bytes: seq<Byte>, at: nat, size: nat): Parsed<nat> {
    match Exact(bytes, at, size)
    case Err(e) => Err(e)
    case Ok(read) => Ok(Cursor(FromBytesLe(read.value), read.next))
  }

  /** n pairs of a signal and a coefficient; a signal that comes again replaces the earlier one. */
  function ParseEntries(bytes: seq<Byte>, at: nat, n: nat, fieldSize: nat, acc: LinearCombination): Parsed<LinearCombination>
    decreases n
  {
    if n == 0 then Ok(Cursor(acc, at))
    else
      match ParseNumber(bytes, at, 4)
      case Err(e) => Err(e)
      case Ok(id) =>
        match ParseNumber(bytes, id.next, fieldSize)
        case Err(e) => Err(e)
        case Ok(factor) => ParseEntries(bytes, factor.next, n - 1, fieldSize, acc[id.value := factor.value])
  }

  function ParseBlock(bytes: seq<Byte>, at: nat, fieldSize: nat): Parsed<LinearCombination> {
    match ParseNumber(bytes, at, 4)
    case Err(e) => Err(e)
    case Ok(count) => ParseEntries(bytes, count.next, count.value, fieldSize, map[])
  }

  function ParseConstraint(bytes: seq<Byte>, at: nat, fieldSize: nat): Parsed<R1csConstraint> {
    match ParseBlock(bytes, at, fieldSize)
    case Err(e) => Err(e)
    case Ok(a) =>
      match ParseBlock(bytes, a.next, fieldSize)
      case Err(e) => Err(e)
      case Ok(b) =>
        match ParseBlock(bytes, b.next, fieldSize)
        case Err(e) => Err(e)
        case Ok(c) => Ok(Cursor(R1csConstraint(a.value, b.value, c.value), c.next))
  }

  function ParseConstraints(bytes: seq<Byte>, at: nat, n: nat, fieldSize: nat, acc: seq<R1csConstraint>): Parsed<seq<R1csConstraint>>
    decreases n
  {
    if n == 0 then Ok(Cursor(acc, at))
    else
      match ParseConstraint(bytes, at, fieldSize)
      case Err(e) => Err(e)
      case Ok(c) => ParseConstraints(bytes, c.next, n - 1, fieldSize, acc + [c.value])
  }

  function ParseNumbers(bytes: seq<Byte>, at: nat, n: nat, width: nat, acc: seq<nat>): (r: Parsed<seq<nat>>)
    ensures r.Ok? ==> |r.value.value| == |acc| + n
    decreases n
  {
    if n == 0 then Ok(Cursor(acc, at))
    else
      match ParseNumber(bytes, at, width)
      case Err(e) => Err(e)
      case Ok(number) => ParseNumbers(bytes, number.next, n - 1, width, acc + [number.value])
  }

  /** The bytes up to the next zero. */
  function ParseName(bytes: seq<Byte>, at: nat, acc: seq<Byte>): Parsed<seq<Byte>>
    decreases |bytes| - at
  {
    if at >= |bytes| then Err(UnexpectedEof)
    else if bytes[at] == 0 then Ok(Cursor(acc, at + 1))
    else ParseName(bytes, at + 1, acc + [bytes[at]])
  }

  function ParseGateUsed(bytes: seq<Byte>, at: nat, fieldSize: nat): Parsed<GateUsed> {
    match ParseName(bytes, at, [])
    case Err(e) => Err(e)
    case Ok(name) =>
      match ParseNumber(bytes, name.next, 4)
      case Err(e) => Err(e)
      case Ok(count) =>
        match ParseNumbers(bytes, count.next, count.value, fieldSize, [])
        case Err(e) => Err(e)
        case Ok(parameters) => Ok(Cursor(GateUsed(name.value, parameters.value), parameters.next))
  }

  function ParseGatesUsed(bytes: seq<Byte>, at: nat, n: nat, fieldSize: nat, acc: seq<GateUsed>): Parsed<seq<GateUsed>>
    decreases n
  {
    if n == 0 then Ok(Cursor(acc, at))
    else
      match ParseGateUsed(bytes, at, fieldSize)
      case Err(e) => Err(e)
      case Ok(gate) => ParseGatesUsed(bytes, gate.next, n - 1, fieldSize, acc + [gate.value])
  }

  function ParseGateApplied(bytes: seq<Byte>, at: nat): Parsed<GateApplied> {
    match ParseNumber(bytes, at, 4)
    case Err(e) => Err(e)
    case Ok(index) =>
      match ParseNumber(bytes, index.next, 4)
      case Err(e) => Err(e)
      case Ok(count) =>
        match ParseNumbers(bytes, count.next, count.value, 8, [])
        case Err(e) => Err(e)
        case Ok(signals) => Ok(Cursor(GateApplied(index.value, signals.value), signals.next))
  }

  function ParseGatesApplied(bytes: seq<Byte>, at: nat, n: nat, acc: seq<GateApplied>): Parsed<seq<GateApplied>>
    decreases n
  {
    if n == 0 then Ok(Cursor(acc, at))
    else
      match ParseGateApplied(bytes, at)
      case Err(e) => Err(e)
      case Ok(gate) => ParseGatesApplied(bytes, gate.next, n - 1, acc + [gate.value])
  }

  datatype ReadHeader = ReadHeader(fieldSize: nat, data: HeaderData)

  function ParseHeader(bytes: seq<Byte>, at: nat): Parsed<ReadHeader> {
    match ParseNumber(bytes, at, 4)
    case Err(e) => Err(e)
    case Ok(fieldSize) =>
      match ParseNumber(bytes, fieldSize.next, fieldSize.value)
      case Err(e) => Err(e)
      case Ok(field) =>
        match ParseNumbers(bytes, field.next, 4, 4, [])
        case Err(e) => Err(e)
        case Ok(counts) =>
          match ParseNumber(bytes, counts.next, 8)
          case Err(e) => Err(e)
          case Ok(labels) =>
            match ParseNumber(bytes, labels.next, 4)
            case Err(e) => Err(e)
            case Ok(constraints) =>
              var c := counts.value;
              Ok(Cursor(ReadHeader(fieldSize.value, HeaderData(field.value, c[0], c[1], c[2], c[3], labels.value, constraints.value)),
                        constraints.next))
  }

  /** The place after a section's type and size, if the type is the expected one. */
  function SectionBody(bytes: seq<Byte>, at: nat, kind: nat): Parsed<()>
    requires kind < 256
  {
    match Exact(bytes, at, 4)
    case Err(e) => Err(e)
    case Ok(header) => if header.value != TypeBytes(kind) then Err(InvalidSectionHeader) else Ok(Cursor((), header.next + 8))
  }

  /** Ending a section reads its size back. */
  function SectionEnd(bytes: seq<Byte>, at: nat): Parsed<nat> { ParseNumber(bytes, at + 4, 8) }

  /** Where the sections start, by their type; a type that comes again replaces the earlier start. */
  function ParseStarts(bytes: seq<Byte>, at: nat, n: nat, noSections: nat, acc: map<nat, nat>): Parsed<map<nat, nat>>
    decreases n
  {
    if n == 0 then Ok(Cursor(acc, at))
    else
      match Exact(bytes, at, 4)
      case Err(e) => Err(e)
      case Ok(kind) =>
        match ParseNumber(bytes, kind.next, 8)
        case Err(e) => Err(e)
        case Ok(size) =>
          if 1 <= kind.value[0] <= noSections then
            ParseStarts(bytes, size.next + size.value, n - 1, noSections, acc[kind.value[0] := at])
          else Err(InvalidSectionType)
  }

  /** The magic number, the version and the number of sections. */
  function ParseInitialization(bytes: seq<Byte>): Parsed<nat> {
    match Exact(bytes, 0, |MAGIC|)
    case Err(e) => Err(e)
    case Ok(magic) =>
      if magic.value != MAGIC then Err(InvalidMagicNumber)
      else
        match Exact(bytes, magic.next, |VERSION|)
        case Err(e) => Err(e)
        case Ok(version) =>
          if version.value != VERSION then Err(InvalidVersion)
          else
            match Exact(bytes, version.next, 4)
            case Err(e) => Err(e)
            case Ok(count) => Ok(Cursor(count.value[0], count.next))
  }

  datatype R1csData = R1csData(header: ReadHeader, constraints: seq<R1csConstraint>, signals: seq<nat>, customGates: bool,
                               gatesUsed: Option<seq<GateUsed>>, gatesApplied: Option<seq<GateApplied>>)

  function Start(starts: map<nat, nat>, kind: nat): Result<nat, ReadError> {
    if kind in starts then Ok(starts[kind]) else Err(SectionNotPresent(kind))
  }

  function ReadHeaderSection(bytes: seq<Byte>, starts: map<nat, nat>): Result<ReadHeader, ReadError> {
    match Start(starts, HEADER)
    case Err(e) => Err(e)
    case Ok(at) =>
      match SectionBody(bytes, at, HEADER)
      case Err(e) => Err(e)
      case Ok(start) =>
        match ParseHeader(bytes, start.next)
        case Err(e) => Err(e)
        case Ok(header) =>
          match SectionEnd(bytes, at)
          case Err(e) => Err(e)
          case Ok(_) => Ok(header.value)
  }

  function ReadConstraintsSection(bytes: seq<Byte>, starts: map<nat, nat>, n: nat, fieldSize: nat): Result<seq<R1csConstraint>, ReadError> {
    match Start(starts, CONSTRAINTS)
    case Err(e) => Err(e)
    case Ok(at) =>
      match SectionBody(bytes, at, CONSTRAINTS)
      case Err(e) => Err(e)
      case Ok(start) =>
        match ParseConstraints(bytes, start.next, n, fieldSize, [])
        case Err(e) => Err(e)
        case Ok(constraints) =>
          match SectionEnd(bytes, at)
          case Err(e) => Err(e)
          case Ok(_) => Ok(constraints.value)
  }

  function ReadSignalsSection(bytes: seq<Byte>, starts: map<nat, nat>, n: nat): Result<seq<nat>, ReadError> {
    match Start(starts, SIGNALS)
    case Err(e) => Err(e)
    case Ok(at) =>
      match SectionBody(bytes, at, SIGNALS)
      case Err(e) => Err(e)
      case Ok(start) =>
        match ParseNumbers(bytes, start.next, n, 8, [])
        case Err(e) => Err(e)
        case Ok(signals) =>
          match SectionEnd(bytes, at)
          case Err(e) => Err(e)
          case Ok(_) => Ok(signals.value)
  }

  function ReadGatesUsedSection(bytes: seq<Byte>, starts: map<nat, nat>, fieldSize: nat): Result<seq<GateUsed>, ReadError> {
    match Start(starts, GATES_USED)
    case Err(e) => Err(e)
    case Ok(at) =>
      match SectionBody(bytes, at, GATES_USED)
      case Err(e) => Err(e)
      case Ok(start) =>
        match ParseNumber(bytes, start.next, 4)
        case Err(e) => Err(e)
        case Ok(count) =>
          match ParseGatesUsed(bytes, count.next, count.value, fieldSize, [])
          case Err(e) => Err(e)
          case Ok(gates) =>
            match SectionEnd(bytes, at)
            case Err(e) => Err(e)
            case Ok(_) => Ok(gates.value)
  }

  function ReadGatesAppliedSection(bytes: seq<Byte>, starts: map<nat, nat>): Result<seq<GateApplied>, ReadError> {
    match Start(starts, GATES_APPLIED)
    case Err(e) => Err(e)
    case Ok(at) =>
      match SectionBody(bytes, at, GATES_APPLIED)
      case Err(e) => Err(e)
      case Ok(start) =>
        match ParseNumber(bytes, start.next, 4)
        case Err(e) => Err(e)
        case Ok(count) =>
          match ParseGatesApplied(bytes, count.next, count.value, [])
          case Err(e) => Err(e)
          case Ok(gates) =>
            match SectionEnd(bytes, at)
            case Err(e) => Err(e)
            case Ok(_) => Ok(gates.value)
  }

  function ReadSections(bytes: seq<Byte>, customGates: bool, starts: map<nat, nat>): Result<R1csData, ReadError> {
    match ReadHeaderSection(bytes, starts)
    case Err(e) => Err(e)
    case Ok(header) =>
      match ReadConstraintsSection(bytes, starts, header.data.numberOfConstraints, header.fieldSize)
      case Err(e) => Err(e)
      case Ok(constraints) =>
        match ReadSignalsSection(bytes, starts, header.data.totalWires)
        case Err(e) => Err(e)
        case Ok(signals) =>
          if !customGates then Ok(R1csData(header, constraints, signals, false, None, None))
          else
            match ReadGatesUsedSection(bytes, starts, header.fieldSize)
            case Err(e) => Err(e)
            case Ok(used) =>
              match ReadGatesAppliedSection(bytes, starts)
              case Err(e) => Err(e)
              case Ok(applied) => Ok(R1csData(header, constraints, signals, true, Some(used), Some(applied)))
  }

  /** The whole file. */
  function ReadR1cs(bytes: seq<Byte>): Result<R1csData, ReadError> {
    match ParseInitialization(bytes)
    case Err(e) => Err(e)
    case Ok(count) =>
      match ParseStarts(bytes, count.next, count.value, count.value, map[])
      case Err(e) => Err(e)
      case Ok(starts) => ReadSections(bytes, count.value == 5, starts.value)
  }

  // ------------------------------------------------------------------ the reader

  /** The result is what the specification reads, and the cursor is after it. */
  ghost predicate Agrees<T>(parsed: Parsed<T>, r: Result<T, ReadError>, position: nat) {
    match parsed
    case Ok(c) => r == Ok(c.value) && position == c.next
    case Err(e) => r == Err(e)
  }

  lemma {:induction false} FromInjective(a: seq<Byte>, b: seq<Byte>)
    requires |a| == |b| && FromBytesLe(a) == FromBytesLe(b)
    ensures a == b
  {
    if |a| > 0 {
      FromInjective(a[1..], b[1..]);
      assert a == [a[0]] + a[1..] && b == [b[0]] + b[1..];
    }
  }

  /** A map from identifiers as four bytes, and the same map from numbers. */
  ghost predicate SameMap(m: map<seq<Byte>, nat>, keys: set<seq<Byte>>, numbers: LinearCombination) {
    && keys <= m.Keys
    && (forall k :: k in keys ==> |k| == 4 && FromBytesLe(k) in numbers && numbers[FromBytesLe(k)] == m[k])
    && (forall n :: n in numbers ==> exists k :: k in keys && FromBytesLe(k) == n)
  }

  lemma NothingMapped()
    ensures var none: map<seq<Byte>, nat> := map[]; SameMap(none, none.Keys, map[])
  {}

  lemma SameMapInsert(m: map<seq<Byte>, nat>, numbers: LinearCombination, id: seq<Byte>, factor: nat)
    requires SameMap(m, m.Keys, numbers) && |id| == 4
    ensures SameMap(m[id := factor], m[id := factor].Keys, numbers[FromBytesLe(id) := factor])
  {
    var m' := m[id := factor];
    forall k | k in m'
      ensures FromBytesLe(k) == FromBytesLe(id) ==> k == id
    {
      if FromBytesLe(k) == FromBytesLe(id) {
        FromInjective(k, id);
      }
    }
    var numbers' := numbers[FromBytesLe(id) := factor];
    forall n | n in numbers'
      ensures exists k :: k in m'.Keys && FromBytesLe(k) == n
    {
      if n == FromBytesLe(id) {
        assert id in m'.Keys;
      } else {
        var k :| k in m.Keys && FromBytesLe(k) == n;
        assert k in m'.Keys;
      }
    }
  }

  lemma SameMapUnique(m: map<seq<Byte>, nat>, a: LinearCombination, b: LinearCombination)
    requires SameMap(m, m.Keys, a) && SameMap(m, m.Keys, b)
    ensures a == b
  {}

  /** The identifiers as numbers. */
  method ConvertKeys(m: map<seq<Byte>, nat>, ghost numbers: LinearCombination) returns (r: LinearCombination)
    requires SameMap(m, m.Keys, numbers)
    ensures r == numbers
  {
    r := map[];
    var todo := m.Keys;
    while todo != {}
      invariant todo <= m.Keys && SameMap(m, m.Keys - todo, r)
      decreases todo
    {
      var k :| k in todo;
      ConvertOne(m, m.Keys - todo, r, k);
      r := r[FromBytesLe(k) := m[k]];
      todo := todo - {k};
      assert m.Keys - todo == m.Keys - (todo + {k}) + {k};
    }
    assert m.Keys - {} == m.Keys;
    SameMapUnique(m, r, numbers);
  }

  lemma ConvertOne(m: map<seq<Byte>, nat>, keys: set<seq<Byte>>, r: LinearCombination, k: seq<Byte>)
    requires SameMap(m, keys, r) && k in m && k !in keys && |k| == 4
    ensures SameMap(m, keys + {k}, r[FromBytesLe(k) := m[k]])
  {
    forall j | j in keys
      ensures FromBytesLe(j) != FromBytesLe(k)
    {
      if FromBytesLe(j) == FromBytesLe(k) {
        FromInjective(j, k);
      }
    }
    var r' := r[FromBytesLe(k) := m[k]];
    forall n | n in r'
      ensures exists j :: j in keys + {k} && FromBytesLe(j) == n
    {
      if n == FromBytesLe(k) {
        assert k in keys + {k};
      } else {
        var j :| j in keys && FromBytesLe(j) == n;
        assert j in keys + {k};
      }
    }
  }

  class Reader {
    const bytes: seq<Byte>
    var position: nat
    var fieldSize: nat

    constructor (bytes: seq<Byte>)
      ensures this.bytes == bytes && position == 0 && fieldSize == 0
    {
      this.bytes, position, fieldSize := bytes, 0, 0;
    }

    method ReadExact(n: nat) returns (r: Result<seq<Byte>, ReadError>)
      modifies this`position
      ensures Agrees(Exact(bytes, old(position), n), r, position)
    {
      if n == 0 {
        r := Ok([]);
      } else if position + n <= |bytes| {
        r := Ok(bytes[position..position + n]);
        position := position + n;
      } else {
        r := Err(UnexpectedEof);
      }
    }

    method ReadBigint(size: nat) returns (r: Result<nat, ReadError>)
      modifies this`position
      ensures Agrees(ParseNumber(bytes, old(position), size), r, position)
    {
      var buffer := ReadExact(size);
      match buffer {
        case Err(e) => r := Err(e);
        case Ok(read) => r := Ok(FromBytesLe(read));
      }
    }

    method ReadLinearCombinationBlock() returns (r: Result<map<seq<Byte>, nat>, ReadError>, ghost numbers: LinearCombination)
      modifies this`position
      ensures Agrees(ParseBlock(bytes, old(position), fieldSize), if r.Ok? then Ok(numbers) else Err(r.error), position)
      ensures r.Ok? ==> SameMap(r.value, r.value.Keys, numbers)
    {
      hide SameMap, FromBytesLe, Exact;
      numbers := map[];
      NothingMapped();
      var count := ReadBigint(4);
      if count.Err? {
        r := Err(count.error);
        return;
      }
      var combination: map<seq<Byte>, nat> := map[];
      ghost var start := position;
      for i := 0 to count.value
        invariant SameMap(combination, combination.Keys, numbers)
        invariant ParseEntries(bytes, start, count.value, fieldSize, map[]) == ParseEntries(bytes, position, count.value - i, fieldSize, numbers)
      {
        var id := ReadExact(4);
        if id.Err? {
          r := Err(id.error);
          return;
        }
        var factor := ReadBigint(fieldSize);
        if factor.Err? {
          r := Err(factor.error);
          return;
        }
        SameMapInsert(combination, numbers, id.value, factor.value);
        combination := combination[id.value := factor.value];
        numbers := numbers[FromBytesLe(id.value) := factor.value];
      }
      r := Ok(combination);
    }

    method ReadConstraint() returns (r: Result<R1csConstraint, ReadError>)
      modifies this`position
      ensures Agrees(ParseConstraint(bytes, old(position), fieldSize), r, position)
    {
      var a, b, c;
      ghost var na, nb, nc;
      a, na := ReadLinearCombinationBlock();
      if a.Err? {
        r := Err(a.error);
        return;
      }
      b, nb := ReadLinearCombinationBlock();
      if b.Err? {
        r := Err(b.error);
        return;
      }
      c, nc := ReadLinearCombinationBlock();
      if c.Err? {
        r := Err(c.error);
        return;
      }
      var constraintA := ConvertKeys(a.value, na);
      var constraintB := ConvertKeys(b.value, nb);
      var constraintC := ConvertKeys(c.value, nc);
      r := Ok(R1csConstraint(constraintA, constraintB, constraintC));
    }

    method ReadNumbers(n: nat, width: nat) returns (r: Result<seq<nat>, ReadError>)
      modifies this`position
      ensures Agrees(ParseNumbers(bytes, old(position), n, width, []), r, position)
    {
      var numbers: seq<nat> := [];
      for i := 0 to n
        invariant ParseNumbers(bytes, old(position), n, width, []) == ParseNumbers(bytes, position, n - i, width, numbers)
      {
        var number := ReadBigint(width);
        if number.Err? {
          r := Err(number.error);
          return;
        }
        numbers := numbers + [number.value];
      }
      r := Ok(numbers);
    }

    method ReadName() returns (r: Result<seq<Byte>, ReadError>)
      modifies this`position
      ensures Agrees(ParseName(bytes, old(position), []), r, position)
    {
      var name: seq<Byte> := [];
      while true
        invariant ParseName(bytes, old(position), []) == ParseName(bytes, position, name)
        decreases |bytes| - position
      {
        var buffer := ReadExact(1);
        if buffer.Err? {
          r := Err(buffer.error);
          return;
        }
        if buffer.value[0] == 0 {
          r := Ok(name);
          return;
        }
        name := name + [buffer.value[0]];
      }
    }

    method ReadGateUsed() returns (r: Result<GateUsed, ReadError>)
      modifies this`position
      ensures Agrees(ParseGateUsed(bytes, old(position), fieldSize), r, position)
    {
      var name := ReadName();
      if name.Err? {
        r := Err(name.error);
        return;
      }
      var count := ReadBigint(4);
      if count.Err? {
        r := Err(count.error);
        return;
      }
      var parameters := ReadNumbers(count.value, fieldSize);
      if parameters.Err? {
        r := Err(parameters.error);
        return;
      }
      r := Ok(GateUsed(name.value, parameters.value));
    }

    method ReadGateApplied() returns (r: Result<GateApplied, ReadError>)
      modifies this`position
      ensures Agrees(ParseGateApplied(bytes, old(position)), r, position)
    {
      var index := ReadBigint(4);
      if index.Err? {
        r := Err(index.error);
        return;
      }
      var count := ReadBigint(4);
      if count.Err? {
        r := Err(count.error);
        return;
      }
      var signals := ReadNumbers(count.value, 8);
      if signals.Err? {
        r := Err(signals.error);
        return;
      }
      r := Ok(GateApplied(index.value, signals.value));
    }

    method ReadGatesUsed() returns (r: Result<seq<GateUsed>, ReadError>)
      modifies this`position
      ensures match ParseNumber(bytes, old(position), 4)
              case Err(e) => r == Err(e)
              case Ok(count) => Agrees(ParseGatesUsed(bytes, count.next, count.value, fieldSize, []), r, position)
    {
      var count := ReadBigint(4);
      if count.Err? {
        r := Err(count.error);
        return;
      }
      var data: seq<GateUsed> := [];
      ghost var start := position;
      for i := 0 to count.value
        invariant ParseGatesUsed(bytes, start, count.value, fieldSize, []) == ParseGatesUsed(bytes, position, count.value - i, fieldSize, data)
      {
        var gate := ReadGateUsed();
        if gate.Err? {
          r := Err(gate.error);
          return;
        }
        data := data + [gate.value];
      }
      r := Ok(data);
    }

    method ReadGatesApplied() returns (r: Result<seq<GateApplied>, ReadError>)
      modifies this`position
      ensures match ParseNumber(bytes, old(position), 4)
              case Err(e) => r == Err(e)
              case Ok(count) => Agrees(ParseGatesApplied(bytes, count.next, count.value, []), r, position)
    {
      var count := ReadBigint(4);
      if count.Err? {
        r := Err(count.error);
        return;
      }
      var data: seq<GateApplied> := [];
      ghost var start := position;
      for i := 0 to count.value
        invariant ParseGatesApplied(bytes, start, count.value, []) == ParseGatesApplied(bytes, position, count.value - i, data)
      {
        var gate := ReadGateApplied();
        if gate.Err? {
          r := Err(gate.error);
          return;
        }
        data := data + [gate.value];
      }
      r := Ok(data);
    }

    method ReadConstraints(n: nat) returns (r: Result<seq<R1csConstraint>, ReadError>)
      modifies this`position
      ensures Agrees(ParseConstraints(bytes, old(position), n, fieldSize, []), r, position)
    {
      hide ParseConstraint;
      var constraints: seq<R1csConstraint> := [];
      while |constraints| < n
        invariant |constraints| <= n
        invariant ParseConstraints(bytes, old(position), n, fieldSize, [])
                  == ParseConstraints(bytes, position, n - |constraints|, fieldSize, constraints)
      {
        var constraint := ReadConstraint();
        if constraint.Err? {
          r := Err(constraint.error);
          return;
        }
        constraints := constraints + [constraint.value];
      }
      r := Ok(constraints);
    }

    method ReadHeaderData() returns (r: Result<ReadHeader, ReadError>)
      modifies this`position
      ensures Agrees(ParseHeader(bytes, old(position)), r, position)
    {
      var size := ReadBigint(4);
      if size.Err? {
        r := Err(size.error);
        return;
      }
      var field := ReadBigint(size.value);
      if field.Err? {
        r := Err(field.error);
        return;
      }
      var counts := ReadNumbers(4, 4);
      if counts.Err? {
        r := Err(counts.error);
        return;
      }
      var labels := ReadBigint(8);
      if labels.Err? {
        r := Err(labels.error);
        return;
      }
      var constraints := ReadBigint(4);
      if constraints.Err? {
        r := Err(constraints.error);
        return;
      }
      var c := counts.value;
      r := Ok(ReadHeader(size.value, HeaderData(field.value, c[0], c[1], c[2], c[3], labels.value, constraints.value)));
    }

    /** Goes to a section and checks its type. */
    method StartSection(starts: map<nat, nat>, kind: nat) returns (r: Result<nat, ReadError>)
      requires kind < 256
      modifies this`position
      ensures match Start(starts, kind)
              case Err(e) => r == Err(e)
              case Ok(at) =>
                match SectionBody(bytes, at, kind)
                case Err(e) => r == Err(e)
                case Ok(start) => r == Ok(at) && position == start.next
    {
      if kind !in starts {
        r := Err(SectionNotPresent(kind));
        return;
      }
      position := starts[kind];
      var header := ReadExact(4);
      if header.Err? {
        r := Err(header.error);
      } else if header.value != TypeBytes(kind) {
        r := Err(InvalidSectionHeader);
      } else {
        position := position + 8;
        r := Ok(starts[kind]);
      }
    }

    /** Reads the size and comes back. */
    method EndSection(at: nat) returns (r: Result<nat, ReadError>)
      modifies this`position
      ensures match SectionEnd(bytes, at)
              case Err(e) => r == Err(e)
              case Ok(size) => r == Ok(size.value) && position == old(position)
    {
      var goBack := position;
      position := at + 4;
      r := ReadBigint(8);
      if r.Ok? {
        position := goBack;
      }
    }

    method ReadAllSections(customGates: bool, starts: map<nat, nat>) returns (r: Result<R1csData, ReadError>)
      modifies this
      ensures r == ReadSections(bytes, customGates, starts)
    {
      hide ParseHeader, ParseConstraints, ParseNumbers, ParseGatesUsed, ParseGatesApplied, SectionBody, SectionEnd, Start, ParseNumber;
      var at := StartSection(starts, HEADER);
      if at.Err? { return Err(at.error); }
      var header := ReadHeaderData();
      if header.Err? { return Err(header.error); }
      var size := EndSection(at.value);
      if size.Err? { return Err(size.error); }
      fieldSize := header.value.fieldSize;

      at := StartSection(starts, CONSTRAINTS);
      if at.Err? { return Err(at.error); }
      var constraints := ReadConstraints(header.value.data.numberOfConstraints);
      if constraints.Err? { return Err(constraints.error); }
      size := EndSection(at.value);
      if size.Err? { return Err(size.error); }

      at := StartSection(starts, SIGNALS);
      if at.Err? { return Err(at.error); }
      var signals := ReadNumbers(header.value.data.totalWires, 8);
      if signals.Err? { return Err(signals.error); }
      size := EndSection(at.value);
      if size.Err? { return Err(size.error); }
      if !customGates {
        return Ok(R1csData(header.value, constraints.value, signals.value, false, None, None));
      }

      at := StartSection(starts, GATES_USED);
      if at.Err? { return Err(at.error); }
      var used := ReadGatesUsed();
      if used.Err? { return Err(used.error); }
      size := EndSection(at.value);
      if size.Err? { return Err(size.error); }

      at := StartSection(starts, GATES_APPLIED);
      if at.Err? { return Err(at.error); }
      var applied := ReadGatesApplied();
      if applied.Err? { return Err(applied.error); }
      size := EndSection(at.value);
      if size.Err? { return Err(size.error); }
      r := Ok(R1csData(header.value, constraints.value, signals.value, true, Some(used.value), Some(applied.value)));
    }

    method ReadInitialization() returns (r: Result<nat, ReadError>)
      requires position == 0
      modifies this`position
      ensures Agrees(ParseInitialization(bytes), r, position)
    {
      var buffer := ReadExact(|MAGIC|);
      if buffer.Err? { return Err(buffer.error); }
      if buffer.value != MAGIC { return Err(InvalidMagicNumber); }
      buffer := ReadExact(|VERSION|);
      if buffer.Err? { return Err(buffer.error); }
      if buffer.value != VERSION { return Err(InvalidVersion); }
      buffer := ReadExact(4);
      if buffer.Err? { return Err(buffer.error); }
      r := Ok(buffer.value[0]);
    }

    /** Reads the whole file: first where the sections are, then the sections in the order of their types. */
    method Read() returns (r: Result<R1csData, ReadError>)
      requires position == 0
      modifies this
      ensures r == ReadR1cs(bytes)
    {
      hide ReadSections, ParseInitialization;
      var count := ReadInitialization();
      if count.Err? { return Err(count.error); }
      var noSections := count.value;
      var starts: map<nat, nat> := map[];
      var currentOffset: nat := 0;
      ghost var start := position;
      for i := 0 to noSections
        invariant ParseStarts(bytes, start, noSections, noSections, map[])
                  == ParseStarts(bytes, position + currentOffset, noSections - i, noSections, starts)
      {
        var newOffset := position + currentOffset;
        position := newOffset;
        var buffer := ReadExact(4);
        if buffer.Err? { return Err(buffer.error); }
        var sectionSize := ReadBigint(8);
        if sectionSize.Err? { return Err(sectionSize.error); }
        if !(1 <= buffer.value[0] <= noSections) { return Err(InvalidSectionType); }
        starts := starts[buffer.value[0] := newOffset];
        currentOffset := sectionSize.value;
      }
      r := ReadAllSections(noSections == 5, starts);
    }
  }
}
