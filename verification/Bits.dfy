/** Bit complement of field elements (circom_algebra/src/modular_arithmetic.rs, complement). */
module Bits {
  import opened Field

  function Pow2(n: nat): (r: int)
    ensures r >= 1
  {
    if n == 0 then 1 else 2 * Pow2(n - 1)
  }

  function BitValue(bit: bool): nat { if bit then 1 else 0 }

  /** The number written by some bits, the lowest first. */
  function Value(bits: seq<bool>): (r: nat)
  {
    if |bits| == 0 then 0 else BitValue(bits[0]) + 2 * Value(bits[1..])
  }

  /** The bits of a number, the lowest first; zero has one bit. */
  function ToBits(m: nat): (bits: seq<bool>)
    ensures |bits| > 0
  {
    if m < 2 then [m == 1] else [m % 2 == 1] + ToBits(m / 2)
  }

  lemma {:induction false} ToBitsValue(m: nat)
    ensures Value(ToBits(m)) == m
  {
    if m < 2 {
      assert ToBits(m)[1..] == [];
    } else {
      ToBitsValue(m / 2);
      assert ToBits(m)[1..] == ToBits(m / 2);
    }
  }

  function Sign(elem: int): int { if elem < 0 then -1 else 1 }

  function Magnitude(elem: int): nat { if elem < 0 then -elem else elem }

  function NumBits(m: nat): nat { if m == 0 then 0 else 1 + NumBits(m / 2) }

  /** A number lies between the powers of two its bits give. */
  lemma {:induction false} NumBitsBounds(m: nat)
    requires m > 0
    ensures NumBits(m) > 0 && Pow2(NumBits(m) - 1) <= m < Pow2(NumBits(m))
  {
    if m > 1 {
      NumBitsBounds(m / 2);
    } else {
      assert NumBits(m / 2) == 0;
    }
  }

  // ------------------------------------------------------------------ low and high bits

  /** The lowest n bits of a number. */
  function Low(m: nat, n: nat): nat { if n == 0 then 0 else m % 2 + 2 * Low(m / 2, n - 1) }

  /** The number without its lowest n bits. */
  function High(m: nat, n: nat): nat { if n == 0 then m else High(m / 2, n - 1) }

  lemma {:induction false} LowHigh(m: nat, n: nat)
    ensures Low(m, n) < Pow2(n) && m == Low(m, n) + Pow2(n) * High(m, n)
  {
    if n > 0 {
      LowHigh(m / 2, n - 1);
      DoubleSplit(m % 2, Low(m / 2, n - 1), Pow2(n - 1), High(m / 2, n - 1));
    }
  }

  lemma DoubleSplit(bit: int, low: int, power: int, high: int)
    ensures bit + 2 * (low + power * high) == (bit + 2 * low) + (2 * power) * high
  {}

  lemma {:induction false} LowOfSmall(m: nat, n: nat)
    requires m < Pow2(n)
    ensures Low(m, n) == m
  {
    if n > 0 {
      LowOfSmall(m / 2, n - 1);
    }
  }

  /** Cutting a number's bits to at most n, and filling up to n with zeros, writes its lowest n bits. */
  lemma {:induction false} CutIsLow(bits: seq<bool>, n: nat)
    ensures |bits| >= n ==> Value(bits[..n]) == Low(Value(bits), n)
    ensures |bits| < n ==> Value(bits) == Low(Value(bits), n)
  {
    if n == 0 {
    } else if |bits| == 0 {
      LowOfSmall(0, n);
    } else {
      CutIsLow(bits[1..], n - 1);
      assert Value(bits) % 2 == BitValue(bits[0]) && Value(bits) / 2 == Value(bits[1..]);
      if |bits| >= n {
        assert bits[..n][0] == bits[0] && bits[..n][1..] == bits[1..][..n - 1];
      }
    }
  }

  lemma {:induction false} PadKeepsValue(bits: seq<bool>)
    ensures Value(bits + [false]) == Value(bits)
  {
    if |bits| > 0 {
      PadKeepsValue(bits[1..]);
      assert (bits + [false])[1..] == bits[1..] + [false];
    } else {
      assert ([] + [false])[1..] == [];
    }
  }

  function Flipped(bits: seq<bool>): (r: seq<bool>) { seq(|bits|, i requires 0 <= i < |bits| => !bits[i]) }

  /** Flipping every bit subtracts from the largest number with as many bits. */
  lemma {:induction false} FlippedValue(bits: seq<bool>)
    ensures Value(Flipped(bits)) == Pow2(|bits|) - 1 - Value(bits)
  {
    if |bits| > 0 {
      FlippedValue(bits[1..]);
      assert Flipped(bits)[1..] == Flipped(bits[1..]);
    }
  }

  // ------------------------------------------------------------------ the complement

  /** What the complement is: the flipped low bits with the sign of the number, in the field. */
  function ComplementOf(elem: int, field: nat): int
    requires field > 0
  {
    var n := NumBits(field);
    Modulus(Sign(elem) * (Pow2(n) - 1 - Low(Magnitude(elem), n)), field)
  }

  method Complement(elem: int, field: nat) returns (r: int)
    requires field > 0
    ensures r == ComplementOf(elem, field)
  {
    var newSign, bitRepr := Sign(elem), ToBits(Magnitude(elem));
    var nbits := NumBits(field);
    ghost var all := bitRepr;
    ToBitsValue(Magnitude(elem));
    CutIsLow(all, nbits);
    while |bitRepr| > nbits
      invariant bitRepr == all || (|bitRepr| >= nbits && |all| >= nbits && bitRepr == all[..|bitRepr|])
      decreases |bitRepr|
    {
      assert bitRepr[..|bitRepr| - 1] == all[..|bitRepr| - 1];
      bitRepr := bitRepr[..|bitRepr| - 1];
    }
    assert Value(bitRepr) == Low(Magnitude(elem), nbits) by {
      if |bitRepr| == nbits {
        assert bitRepr == all[..nbits];
      }
    }
    while |bitRepr| < nbits
      invariant |bitRepr| <= nbits && Value(bitRepr) == Low(Magnitude(elem), nbits)
      decreases nbits - |bitRepr|
    {
      PadKeepsValue(bitRepr);
      bitRepr := bitRepr + [false];
    }
    ghost var before := bitRepr;
    for i := 0 to nbits
      invariant |bitRepr| == nbits
      invariant forall j :: 0 <= j < nbits ==> bitRepr[j] == if j < i then !before[j] else before[j]
    {
      bitRepr := bitRepr[i := !bitRepr[i]];
    }
    assert bitRepr == Flipped(before);
    FlippedValue(before);
    var cp := newSign * Value(bitRepr);
    r := Modulus(cp, field);
  }

  /** The value a complement has before it is reduced. */
  lemma ComplementResidue(elem: int, field: nat)
    requires field > 0
    ensures 0 <= ComplementOf(elem, field) < field
    ensures Eqv(ComplementOf(elem, field), Sign(elem) * (Pow2(NumBits(field)) - 1 - Low(Magnitude(elem), NumBits(field))), field)
  {}

  /** The complement of an element of the field cuts no bits. */
  lemma ComplementOfElement(elem: int, field: nat)
    requires 0 <= elem < field
    ensures Eqv(ComplementOf(elem, field), Pow2(NumBits(field)) - 1 - elem, field)
  {
    hide ComplementOf;
    ComplementResidue(elem, field);
    NumBitsBounds(field);
    LowOfSmall(elem, NumBits(field));
  }

  /** Complementing twice: the second complement cuts no bits. */
  lemma ComplementTwice(elem: int, field: nat)
    requires field > 0
    ensures var n := NumBits(field);
            Eqv(ComplementOf(ComplementOf(elem, field), field),
                Pow2(n) - 1 - Sign(elem) * (Pow2(n) - 1 - Low(Magnitude(elem), n)), field)
  {
    hide ComplementOf, Low, Sign, Pow2, Residue, Modulus;
    ComplementResidue(elem, field);
    ComplementOfElement(ComplementOf(elem, field), field);
    Subtracted(Pow2(NumBits(field)) - 1, ComplementOf(elem, field),
               Sign(elem) * (Pow2(NumBits(field)) - 1 - Low(Magnitude(elem), NumBits(field))), field);
  }

  lemma Subtracted(top: int, once: int, cp: int, p: int)
    requires p > 0 && Eqv(once, cp, p)
    ensures Eqv(top - once, top - cp, p)
  {
    EqvSub(top, top, once, cp, p);
  }

  /** On the field's own elements the complement is an involution, for every modulus. */
  lemma ComplementInvolution(elem: int, field: nat)
    requires 0 <= elem < field
    ensures ComplementOf(ComplementOf(elem, field), field) == elem
  {
    var n := NumBits(field);
    ComplementTwice(elem, field);
    NumBitsBounds(field);
    LowOfSmall(elem, n);
  }

  /** On other numbers it gives back the number modulo the field exactly if the cut-off bits vanish in the field. */
  lemma ComplementBeyondField(elem: nat, field: nat)
    requires field > 0
    ensures Eqv(ComplementOf(ComplementOf(elem, field), field), elem, field)
            <==> Eqv(Pow2(NumBits(field)) * High(elem, NumBits(field)), 0, field)
  {
    hide ComplementOf, Low, High, Pow2, NumBits, Residue;
    var n := NumBits(field);
    ComplementTwice(elem, field);
    LowHigh(elem, n);
    EqvDifference(elem, Low(elem, n), field);
  }

  /** On negative numbers, whose magnitude is complemented, this takes twice the largest value as well. */
  lemma ComplementOfNegative(elem: int, field: nat)
    requires field > 0 && elem < 0
    ensures var n := NumBits(field);
            Eqv(ComplementOf(ComplementOf(elem, field), field), elem, field)
            <==> Eqv(2 * (Pow2(n) - 1) + Pow2(n) * High(-elem, n), 0, field)
  {
    hide ComplementOf, Low, High, Pow2;
    var n := NumBits(field);
    var top, low := Pow2(n) - 1, Low(-elem, n);
    ComplementTwice(elem, field);
    LowHigh(-elem, n);
    assert Sign(elem) * (top - low) == low - top;
    EqvDifference(2 * top - low, elem, field);
  }

  /** 1234 modulo 257 is 206, but its complement's complement is 210. */
  lemma ComplementLosesBits()
    ensures ComplementOf(ComplementOf(1234, 257), 257) == 210
    ensures Modulus(1234, 257) == 206
  {
    assert NumBits(257) == 9 by {
      assert NumBits(1) == 1 && NumBits(2) == 2 && NumBits(4) == 3 && NumBits(8) == 4 && NumBits(16) == 5;
      assert NumBits(32) == 6 && NumBits(64) == 7 && NumBits(128) == 8;
    }
    assert Pow2(9) == 512 by {
      assert Pow2(5) == 32 && Pow2(8) == 256;
    }
    LowOf1234();
    assert ComplementOf(1234, 257) == Modulus(301, 257) == 44;
    LowOfSmall(44, 9);
  }

  lemma LowOf1234()
    ensures Low(1234, 9) == 210
  {
    assert Low(1234, 9) == 2 * Low(617, 8) && Low(617, 8) == 1 + 2 * Low(308, 7) && Low(308, 7) == 2 * Low(154, 6);
    assert Low(154, 6) == 2 * Low(77, 5) && Low(77, 5) == 1 + 2 * Low(38, 4) && Low(38, 4) == 2 * Low(19, 3);
    assert Low(19, 3) == 1 + 2 * Low(9, 2) && Low(9, 2) == 1 + 2 * Low(4, 1) && Low(4, 1) == 0;
  }
}
