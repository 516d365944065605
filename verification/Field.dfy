/**
 Arithmetic modulo the field size (circom_algebra/src/modular_arithmetic.rs).

 Numbers are unbounded integers, as BigInt is; a residue is reached through `Residue`, and
 two integers are the same field element when their residues are equal (`Eqv`).
 */
module Field {
  import opened Wrappers

  datatype ArithmeticError = DivisionByZero | BitOverFlowInShift

  // ------------------------------------------------------------------ residues

  /** The representative of a in [0,p), by repeated addition or subtraction of p. */
  ghost function Residue(a: int, p: int): (r: int)
    requires p > 0
    ensures 0 <= r < p
    decreases if a < 0 then p - a else a
  {
    if a < 0 then Residue(a + p, p)
    else if a < p then a
    else Residue(a - p, p)
  }

  /** a and b are the same field element. */
  ghost predicate Eqv(a: int, b: int, p: int)
    requires p > 0
  {
    Residue(a, p) == Residue(b, p)
  }

  function Times(k: int, p: int): int { k * p }

  lemma TimesNext(k: int, p: int)
    ensures Times(k + 1, p) == Times(k, p) + p
  {}

  lemma ResidueNext(b: int, p: int)
    requires p > 0
    ensures Residue(b + p, p) == Residue(b, p)
  {}

  lemma {:induction false} ResidueShift(a: int, k: int, p: int)
    requires p > 0
    ensures Residue(a + Times(k, p), p) == Residue(a, p)
    decreases if k < 0 then -k else k
  {
    if k > 0 {
      ResidueShift(a, k - 1, p);
      TimesNext(k - 1, p);
      ResidueNext(a + Times(k - 1, p), p);
    } else if k < 0 {
      ResidueShift(a, k + 1, p);
      TimesNext(k, p);
      ResidueNext(a + Times(k, p), p);
    }
  }

  lemma {:induction false} ResidueQuotient(a: int, p: int) returns (k: int)
    requires p > 0
    ensures a == Residue(a, p) + Times(k, p)
    decreases if a < 0 then p - a else a
  {
    if a < 0 {
      k := ResidueQuotient(a + p, p);
      k := k - 1;
    } else if a < p {
      k := 0;
    } else {
      k := ResidueQuotient(a - p, p);
      k := k + 1;
    }
  }

  /** Being the same field element means differing by a multiple of p. */
  lemma EqvQuotient(a: int, b: int, p: int) returns (k: int)
    requires p > 0 && Eqv(a, b, p)
    ensures a == b + Times(k, p)
  {
    hide Residue, Times;
    var i := ResidueQuotient(a, p);
    var j := ResidueQuotient(b, p);
    k := i - j;
    TimesMinus(i, j, p);
  }

  lemma TimesMinus(i: int, j: int, p: int)
    ensures Times(i - j, p) == Times(i, p) - Times(j, p)
  {}

  lemma TimesPlus(i: int, j: int, p: int)
    ensures Times(i + j, p) == Times(i, p) + Times(j, p)
  {}

  lemma EqvFromQuotient(a: int, b: int, k: int, p: int)
    requires p > 0 && a == b + Times(k, p)
    ensures Eqv(a, b, p)
  {
    ResidueShift(b, k, p);
  }

  lemma EqvAdd(a: int, b: int, c: int, d: int, p: int)
    requires p > 0 && Eqv(a, b, p) && Eqv(c, d, p)
    ensures Eqv(a + c, b + d, p)
  {
    hide Residue, Times;
    var i := EqvQuotient(a, b, p);
    var j := EqvQuotient(c, d, p);
    TimesPlus(i, j, p);
    EqvFromQuotient(a + c, b + d, i + j, p);
  }

  lemma ProductOfShifts(b: int, i: int, d: int, j: int, p: int)
    ensures (b + Times(i, p)) * (d + Times(j, p)) == b * d + Times(b * j + i * d + i * j * p, p)
  {}

  lemma EqvMul(a: int, b: int, c: int, d: int, p: int)
    requires p > 0 && Eqv(a, b, p) && Eqv(c, d, p)
    ensures Eqv(a * c, b * d, p)
  {
    var i := EqvQuotient(a, b, p);
    var j := EqvQuotient(c, d, p);
    ProductOfShifts(b, i, d, j, p);
    EqvFromQuotient(a * c, b * d, b * j + i * d + i * j * p, p);
  }

  lemma Regroup(a: int, b: int, c: int)
    ensures a * b * c == a * (b * c) == b * (a * c) == (b * a) * c
  {}

  lemma EqvScale(c: int, a: int, b: int, p: int)
    requires p > 0 && Eqv(a, b, p)
    ensures Eqv(c * a, c * b, p)
  {
    EqvMul(c, c, a, b, p);
  }

  lemma EqvSub(a: int, b: int, c: int, d: int, p: int)
    requires p > 0 && Eqv(a, b, p) && Eqv(c, d, p)
    ensures Eqv(a - c, b - d, p)
  {
    EqvScale(-1, c, d, p);
    EqvAdd(a, b, -c, -d, p);
  }

  /** Equality of field elements is vanishing of their difference. */
  lemma EqvDifference(a: int, b: int, p: int)
    requires p > 0
    ensures Eqv(a, b, p) <==> Eqv(a - b, 0, p)
  {
    if Eqv(a, b, p) {
      EqvSub(a, b, b, b, p);
    }
    if Eqv(a - b, 0, p) {
      EqvAdd(a - b, 0, b, b, p);
    }
  }

  lemma ResidueFixed(a: int, p: int)
    requires 0 <= a < p
    ensures Residue(a, p) == a
  {}

  lemma ResidueIdempotent(a: int, p: int)
    requires p > 0
    ensures Eqv(Residue(a, p), a, p)
  {}

  // ------------------------------------------------------------------ the operations

  /** BigInt's remainder truncates toward zero. */
  function TruncRem(a: int, b: int): int
    requires b > 0
  {
    if a >= 0 then a % b else -((-a) % b)
  }

  function Modulus(a: int, b: int): (r: int)
    requires b > 0
    ensures r == Residue(a, b)
  {
    ModulusIsResidue(a, b);
    TruncRem(TruncRem(a, b) + b, b)
  }

  lemma EuclideanRemainder(a: int, b: int)
    requires a >= 0 && b > 0
    ensures a % b == Residue(a, b)
  {
    assert a == a % b + Times(a / b, b);
    ResidueShift(a % b, a / b, b);
  }

  lemma ModulusIsResidue(a: int, b: int)
    requires b > 0
    ensures TruncRem(TruncRem(a, b) + b, b) == Residue(a, b)
  {
    var t := TruncRem(a, b);
    if a >= 0 {
      EuclideanRemainder(a, b);
    } else {
      EuclideanRemainder(-a, b);
      EqvSub(0, 0, Residue(-a, b), -a, b);
    }
    assert Eqv(t, a, b);
    EuclideanRemainder(t + b, b);
    ResidueShift(t, 1, b);
  }

  function Add(left: int, right: int, field: int): (r: int)
    requires field > 0
    ensures 0 <= r < field && Eqv(r, left + right, field)
  {
    Modulus(left + right, field)
  }

  function Mul(left: int, right: int, field: int): (r: int)
    requires field > 0
    ensures 0 <= r < field && Eqv(r, left * right, field)
  {
    Modulus(left * right, field)
  }

  // ------------------------------------------------------------------ primality and inverses

  ghost predicate Divides(d: int, n: int) {
    exists k :: Times(k, d) == n
  }

  ghost predicate Prime(p: int) {
    p >= 2 && forall d: int :: 1 < d < p ==> !Divides(d, p)
  }

  /** Extended Euclid: the greatest common divisor with its Bezout coefficients. */
  function ExtGcd(a: nat, b: nat): (r: (nat, int, int))
    ensures r.0 == a * r.1 + b * r.2
    ensures Divides(r.0, a) && Divides(r.0, b)
    decreases b
  {
    if b == 0 then
      assert Times(1, a) == a && Times(0, a) == 0;
      (a, 1, 0)
    else
      var (g, x, y) := ExtGcd(b, a % b);
      ExtGcdStep(a, b, g, x, y);
      (g, y, x - (a / b) * y)
  }

  lemma ExtGcdStep(a: nat, b: nat, g: nat, x: int, y: int)
    requires b > 0
    requires g == b * x + (a % b) * y
    requires Divides(g, b) && Divides(g, a % b)
    ensures g == a * y + b * (x - (a / b) * y)
    ensures Divides(g, a)
  {
    var q, r := a / b, a % b;
    assert a == b * q + r;
    assert a * y == b * q * y + r * y;
    assert b * (x - q * y) == b * x - b * q * y;
    var i :| Times(i, g) == b;
    var j :| Times(j, g) == r;
    assert a == Times(i * q + j, g) by {
      assert b * q == i * g * q == (i * q) * g;
    }
  }

  /** The library's modular inverse: absent exactly when the argument is not invertible. */
  function ModInverse(a: int, field: int): (r: Option<int>)
    requires field >= 2
    ensures r.Some? ==> 0 <= r.value < field && Eqv(a * r.value, 1, field)
    ensures r.None? ==> forall x: int :: !Eqv(Times(a, x), 1, field)
  {
    var m := Modulus(a, field);
    var (g, x, y) := ExtGcd(m, field);
    ModInverseStep(a, m, g, x, y, field);
    if g == 1 then Some(Modulus(x, field)) else None
  }

  lemma ModInverseStep(a: int, m: nat, g: nat, x: int, y: int, field: int)
    requires field >= 2 && Eqv(m, a, field)
    requires g == m * x + field * y
    requires Divides(g, m) && Divides(g, field)
    ensures g == 1 ==> Eqv(a * Residue(x, field), 1, field)
    ensures g != 1 ==> forall z: int :: !Eqv(Times(a, z), 1, field)
  {
    hide Residue, Times, Divides;
    if g == 1 {
      UnitCombination(m, x, y, field);
      EqvFromQuotient(m * x, 1, -y, field);
      ResidueIdempotent(x, field);
      EqvMul(a, m, Residue(x, field), x, field);
    } else {
      forall z: int
        ensures !Eqv(Times(a, z), 1, field)
      {
        if Eqv(Times(a, z), 1, field) {
          TimesIs(a, z);
          EqvMul(m, a, z, z, field);
          InverseMakesUnit(m, z, g, field);
        }
      }
    }
  }

  lemma UnitCombination(m: int, x: int, y: int, field: int)
    requires 1 == m * x + field * y
    ensures m * x == 1 + Times(-y, field)
  {}

  lemma TimesIs(k: int, p: int)
    ensures Times(k, p) == k * p
  {}

  lemma InverseMakesUnit(m: int, z: int, g: nat, field: int)
    requires field > 0 && Eqv(m * z, 1, field)
    requires Divides(g, m) && Divides(g, field)
    ensures g == 1
  {
    var k := EqvQuotient(m * z, 1, field);
    var i :| Times(i, g) == m;
    var j :| Times(j, g) == field;
    CommonFactor(i, j, g, z, k);
    OnlyUnitsDivideOne(g, i * z - k * j);
  }

  lemma CommonFactor(i: int, j: int, g: int, z: int, k: int)
    ensures Times(i, g) * z - Times(k, Times(j, g)) == g * (i * z - k * j)
  {}

  lemma OnlyUnitsDivideOne(g: nat, t: int)
    requires g * t == 1
    ensures g == 1
  {}

  lemma FactorBound(i: int, g: nat, m: nat)
    requires i * g == m && m > 0
    ensures 1 <= g <= m
  {}

  function Div(left: int, right: int, field: int): (r: Result<int, ArithmeticError>)
    requires field >= 2
    ensures r.Err? <==> forall x: int :: !Eqv(Times(right, x), 1, field)
    ensures r.Ok? ==> 0 <= r.value < field && Eqv(r.value * right, left, field)
  {
    match ModInverse(right, field)
    case None => Err(DivisionByZero)
    case Some(inverse) =>
      DivStep(left, right, inverse, field);
      Ok(Mul(left, inverse, field))
  }

  lemma DivStep(left: int, right: int, inverse: int, field: int)
    requires field > 0 && Eqv(right * inverse, 1, field)
    ensures Eqv(Mul(left, inverse, field) * right, left, field)
    ensures Eqv(Times(right, inverse), 1, field)
  {
    EqvMul(Mul(left, inverse, field), left * inverse, right, right, field);
    EqvScale(left, right * inverse, 1, field);
    Regroup(left, inverse, right);
    assert inverse * right == right * inverse;
  }

  /** Modulo a prime, every element but zero has an inverse. */
  lemma PrimeInverse(a: int, p: int) returns (inverse: int)
    requires Prime(p) && !Eqv(a, 0, p)
    ensures ModInverse(a, p) == Some(inverse)
    ensures Eqv(a * inverse, 1, p)
  {
    var m := Modulus(a, p);
    var (g, x, y) := ExtGcd(m, p);
    assert m != 0 by { ResidueFixed(0, p); }
    var i :| Times(i, g) == m;
    var j :| Times(j, g) == p;
    FactorBound(i, g, m);
    assert 1 <= g < p;
    assert g == 1;
    inverse := ModInverse(a, p).value;
  }

  /** Euclid's lemma, in the form the elimination uses: a nonzero factor can be cancelled. */
  lemma Cancel(c: int, a: int, b: int, p: int)
    requires Prime(p) && !Eqv(c, 0, p)
    ensures Eqv(c * a, c * b, p) <==> Eqv(a, b, p)
  {
    if Eqv(a, b, p) {
      EqvScale(c, a, b, p);
    }
    if Eqv(c * a, c * b, p) {
      var d := PrimeInverse(c, p);
      EqvScale(d, c * a, c * b, p);
      Unscale(c, d, a, p);
      Unscale(c, d, b, p);
    }
  }

  lemma Unscale(c: int, d: int, a: int, p: int)
    requires p > 0 && Eqv(c * d, 1, p)
    ensures Eqv(d * (c * a), a, p)
  {
    EqvMul(c * d, 1, a, a, p);
    Regroup(d, c, a);
  }

  lemma PrimeProduct(a: int, b: int, p: int)
    requires Prime(p) && !Eqv(a, 0, p) && !Eqv(b, 0, p)
    ensures !Eqv(a * b, 0, p)
  {
    Cancel(a, b, 0, p);
  }

  // ------------------------------------------------------------------ batch inversion

  /** The product of the first n values. */
  ghost function ProductTo(values: seq<int>, n: nat): int
    requires n <= |values|
  {
    if n == 0 then 1 else ProductTo(values, n - 1) * values[n - 1]
  }

  /** Montgomery's trick: all inverses from the inverse of the whole product. */
  method MultiInv(values: seq<int>, field: int) returns (outputs: seq<int>)
    requires Prime(field)
    requires forall i :: 0 <= i < |values| ==> !Eqv(values[i], 0, field)
    ensures |outputs| == |values| + 1
    ensures forall i :: 0 <= i < |values| ==> IsInverse(outputs[i], values[i], field)
  {
    var partials := [1];
    for i := 0 to |values|
      invariant |partials| == i + 1
      invariant forall j :: 0 <= j <= i ==> PartialOk(partials[j], values, j, field)
    {
      ForwardStep(partials[i], values, i, field);
      partials := partials + [Mul(partials[i], values[i], field)];
    }
    LastInverse(partials[|values|], values, field);
    var inverse := Div(1, partials[|partials| - 1], field).value;
    outputs := seq(|partials|, _ => 0);
    var i := |values|;
    while i > 0
      invariant 0 <= i <= |values|
      invariant |outputs| == |values| + 1
      invariant Eqv(inverse * ProductTo(values, i), 1, field)
      invariant forall j :: i <= j < |values| ==> IsInverse(outputs[j], values[j], field)
    {
      BackStep(partials[i - 1], ProductTo(values, i - 1), inverse, values[i - 1], field);
      outputs := outputs[i - 1 := Mul(partials[i - 1], inverse, field)];
      inverse := Mul(inverse, values[i - 1], field);
      i := i - 1;
    }
  }

  ghost predicate IsInverse(inverse: int, value: int, field: int)
    requires field > 0
  {
    0 <= inverse < field && Eqv(inverse * value, 1, field)
  }

  ghost predicate PartialOk(partial: int, values: seq<int>, n: nat, field: int)
    requires field > 0 && n <= |values|
  {
    Eqv(partial, ProductTo(values, n), field) && !Eqv(partial, 0, field)
  }

  lemma ForwardStep(partial: int, values: seq<int>, i: nat, p: int)
    requires Prime(p) && i < |values| && !Eqv(values[i], 0, p)
    requires PartialOk(partial, values, i, p)
    ensures PartialOk(Mul(partial, values[i], p), values, i + 1, p)
  {
    PrimeProduct(partial, values[i], p);
    EqvMul(partial, ProductTo(values, i), values[i], values[i], p);
  }

  lemma LastInverse(last: int, values: seq<int>, p: int)
    requires Prime(p) && PartialOk(last, values, |values|, p)
    ensures Div(1, last, p).Ok?
    ensures Eqv(Div(1, last, p).value * ProductTo(values, |values|), 1, p)
  {
    var d := PrimeInverse(last, p);
    assert Eqv(Times(last, d), 1, p);
    var inverse := Div(1, last, p).value;
    EqvScale(inverse, last, ProductTo(values, |values|), p);
  }

  lemma BackStep(partial: int, product: int, inverse: int, value: int, p: int)
    requires p > 0 && Eqv(partial, product, p)
    requires Eqv(inverse * (product * value), 1, p)
    ensures Eqv(Mul(partial, inverse, p) * value, 1, p)
    ensures Eqv(Mul(inverse, value, p) * product, 1, p)
  {
    EqvMul(partial, product, inverse, inverse, p);
    EqvMul(Mul(partial, inverse, p), product * inverse, value, value, p);
    Regroup(product, inverse, value);
    EqvMul(Mul(inverse, value, p), inverse * value, product, product, p);
    Regroup(inverse, value, product);
    assert value * product == product * value;
  }
}
