/**
 * The loops of AlgebraicNumber as written: fresh coefficient arrays filled
 * index by index, and scans that return at the first decisive coefficient.
 * Each method is proved to compute the value function of AlgebraicNumbers.
 */
module AlgebraicNumberLoops {
  import opened Wrappers
  import AN = AlgebraicNumbers
  import Q = Rationals

  /** The constructor: copy the given coefficients, then pad with zero. */
  method Create(field: AN.Field, given: seq<Q.Rat>) returns (r: Result<AN.AlgebraicNumber, AN.Error>)
    ensures r == AN.Create(field, given)
  {
    if |given| > field.order {
      return Failure(AN.TooManyCoordinates(|given|, field.name));
    }
    var factors := new Q.Rat[field.order](_ => Q.Zero);
    for i := 0 to |given|
      invariant forall k :: 0 <= k < i ==> factors[k] == given[k]
    {
      factors[i] := given[i];
    }
    for i := |given| to field.order
      invariant forall k :: 0 <= k < |given| ==> factors[k] == given[k]
      invariant forall k :: |given| <= k < i ==> factors[k] == Q.Zero
    {
      factors[i] := Q.Zero;
    }
    assert factors[..] == given + AN.Zeros(field.order - |given|);
    return Success(AN.Number(field, factors[..]));
  }

  /** getDivisor: fold the lcm over the denominators, starting from one. */
  method GetDivisor(a: AN.AlgebraicNumber) returns (lcm: nat)
    ensures lcm == AN.DivisorOf(a.factors)
  {
    lcm := 1;
    for i := 0 to |a.factors|
      invariant lcm == AN.DivisorOf(a.factors[..i])
    {
      var aDivisor := a.factors[i].den;
      assert a.factors[..i + 1][..i] == a.factors[..i];
      Q.GcdPositive(lcm, aDivisor);
      lcm := Q.Abs(lcm * aDivisor) / Q.Gcd(lcm, aDivisor);
    }
    assert a.factors[..|a.factors|] == a.factors;
  }

  /** isZero: false at the first nonzero coefficient, true after the scan. */
  method IsZero(a: AN.AlgebraicNumber) returns (zero: bool)
    ensures zero == AN.IsZero(a)
  {
    for i := 0 to |a.factors|
      invariant forall k :: 0 <= k < i ==> Q.IsZero(a.factors[k])
    {
      if !Q.IsZero(a.factors[i]) {
        return false;
      }
    }
    return true;
  }

  /** isOne as written: every path through it returns false. */
  method IsOne(a: AN.AlgebraicNumber) returns (one: bool)
    ensures one == AN.IsOne(a)
  {
    if !Q.IsOne(a.factors[0]) {
      return false;
    }
    for i := 1 to |a.factors| {
      if !Q.IsZero(a.factors[i]) {
        return false;
      }
    }
    return false;
  }

  /** plus: the zero shortcut, then a fresh array of coefficientwise sums. */
  method Plus(a: AN.AlgebraicNumber, b: AN.AlgebraicNumber) returns (r: AN.AlgebraicNumber)
    requires AN.IsZero(b) || a.field.order <= b.field.order
    ensures r == AN.Plus(a, b)
  {
    var bIsZero := IsZero(b);
    if bIsZero {
      return a;
    }
    var order := |a.factors|;
    var sum := new Q.Rat[order];
    for i := 0 to order
      invariant forall k :: 0 <= k < i ==> sum[k] == Q.Add(a.factors[k], b.factors[k])
    {
      sum[i] := Q.Add(a.factors[i], b.factors[i]);
    }
    var created := Create(a.field, sum[..]);
    r := created.value;
    assert r.factors == AN.Plus(a, b).factors;
  }

  /** negate: a fresh array of negated coefficients. */
  method Negate(a: AN.AlgebraicNumber) returns (r: AN.AlgebraicNumber)
    ensures r == AN.Negate(a)
  {
    var result := new Q.Rat[|a.factors|];
    for i := 0 to result.Length
      invariant forall k :: 0 <= k < i ==> result[k] == Q.Neg(a.factors[k])
    {
      result[i] := Q.Neg(a.factors[i]);
    }
    var created := Create(a.field, result[..]);
    r := created.value;
    assert r.factors == AN.Negate(a).factors;
  }

  /** minus: the zero shortcut, then plus of the negation. */
  method Minus(a: AN.AlgebraicNumber, b: AN.AlgebraicNumber) returns (r: AN.AlgebraicNumber)
    requires AN.IsZero(b) || a.field.order <= b.field.order
    ensures r == AN.Minus(a, b)
  {
    var bIsZero := IsZero(b);
    if bIsZero {
      return a;
    }
    var n := Negate(b);
    r := Plus(a, n);
  }

  /** compareTo: null, equality, the orders, then the first differing coefficient. */
  method CompareTo(a: AN.AlgebraicNumber, other: Option<AN.AlgebraicNumber>, fieldCompare: (AN.Field, AN.Field) -> int)
    returns (comparison: int)
    ensures comparison == AN.CompareTo(a, other, fieldCompare)
  {
    if other.None? {
      return -1;
    }
    var b := other.value;
    if AN.Equals(a, other) {
      return 0;
    }
    comparison := AN.IntCompare(|a.factors|, |b.factors|);
    if comparison != 0 {
      return;
    }
    for i := 0 to |a.factors|
      invariant AN.CompareFactors(a.factors, b.factors, 0, fieldCompare(a.field, b.field))
             == AN.CompareFactors(a.factors, b.factors, i, fieldCompare(a.field, b.field))
    {
      comparison := Q.Compare(a.factors[i], b.factors[i]);
      if comparison != 0 {
        return;
      }
    }
    return fieldCompare(a.field, b.field);
  }
}
