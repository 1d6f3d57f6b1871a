/**
 * AlgebraicNumber: an element of an algebraic number field, kept as one
 * exact rational coefficient per basis element of the field.  Values are
 * immutable, so every operation is a function here; the loops of the Java
 * class are methods in AlgebraicNumberLoops, proved equal to these.
 */
module AlgebraicNumbers {
  import opened Wrappers
  import Q = Rationals

  /** A field's order: the number of its basis elements, at least one (the rational one). */
  type Order = n: nat | 0 < n witness 1

  /** An algebraic field as far as its elements need it: its name and its order. */
  datatype Field = Field(name: string, order: Order)

  datatype Number = Number(field: Field, factors: seq<Q.Rat>)

  /** The class invariant: exactly one coefficient per basis element. */
  type AlgebraicNumber = n: Number | |n.factors| == n.field.order
    witness Number(Field("", 1), [Q.Zero])

  /**
   * The operations of AlgebraicField that this model does not define:
   * multiplication and reciprocal through the field's structure constants,
   * and its zero element.
   */
  datatype FieldArithmetic = FieldArithmetic(
    multiply: (seq<Q.Rat>, seq<Q.Rat>) -> seq<Q.Rat>,
    reciprocal: seq<Q.Rat> -> seq<Q.Rat>,
    zero: AlgebraicNumber)

  /** The field's zero element is a number of that field with every coefficient zero. */
  predicate ZeroOf(arith: FieldArithmetic, f: Field)
  {
    arith.zero.field == f && IsZero(arith.zero)
  }

  /** The constructor's IllegalStateException. */
  datatype Error = TooManyCoordinates(count: nat, fieldName: string)

  function Zeros(n: nat): seq<Q.Rat>
  {
    seq(n, _ => Q.Zero)
  }

  /**
   * The constructor: the given coefficients in place, zero for the rest,
   * and an error when more coefficients are given than the field's order.
   */
  function Create(field: Field, given: seq<Q.Rat>): (r: Result<AlgebraicNumber, Error>)
    ensures r.Failure? <==> |given| > field.order
    ensures r.Failure? ==> r.error == TooManyCoordinates(|given|, field.name)
    ensures r.Success? ==> r.value.field == field
    ensures r.Success? ==> forall i :: 0 <= i < |given| ==> r.value.factors[i] == given[i]
    ensures r.Success? ==> forall i :: |given| <= i < field.order ==> r.value.factors[i] == Q.Zero
  {
    if |given| > field.order then
      Failure(TooManyCoordinates(|given|, field.name))
    else
      Success(Number(field, given + Zeros(field.order - |given|)))
  }

  // ---------------------------------------------------------------------
  // Predicates

  predicate IsZero(a: AlgebraicNumber)
  {
    forall i :: 0 <= i < |a.factors| ==> Q.IsZero(a.factors[i])
  }

  /** isZero holds exactly of the all-zero coefficient sequence. */
  lemma {:induction false} IsZeroIffZeros(a: AlgebraicNumber)
    ensures IsZero(a) <==> a.factors == Zeros(a.field.order)
  {
    if IsZero(a) {
      forall i | 0 <= i < |a.factors|
        ensures a.factors[i] == Q.Zero
      {
        Q.ZeroIsUnique(a.factors[i]);
      }
    }
  }

  /**
   * isOne as written: both of its scans can only end in `false`, so no
   * number is ever reported to be one.
   */
  function IsOne(a: AlgebraicNumber): (one: bool)
    ensures !one
  {
    if !Q.IsOne(a.factors[0]) then false
    else if exists i :: 1 <= i < |a.factors| && !Q.IsZero(a.factors[i]) then false
    else false
  }

  // ---------------------------------------------------------------------
  // Arithmetic

  /**
   * plus: coefficientwise sum in this number's field, returning this
   * number itself when the argument is zero.  The shortcut agrees with the
   * sum: every coefficient of the result is the rational sum.
   */
  function Plus(a: AlgebraicNumber, b: AlgebraicNumber): (r: AlgebraicNumber)
    requires IsZero(b) || a.field.order <= b.field.order
    ensures r.field == a.field
    ensures IsZero(b) ==> r == a
    ensures a.field.order <= b.field.order ==>
      forall i :: 0 <= i < |r.factors| ==> r.factors[i] == Q.Add(a.factors[i], b.factors[i])
  {
    if IsZero(b) then
      PlusZero(a, b);
      a
    else
      Number(a.field, seq(|a.factors|, i requires 0 <= i < |a.factors| => Q.Add(a.factors[i], b.factors[i])))
  }

  lemma PlusZero(a: AlgebraicNumber, b: AlgebraicNumber)
    requires IsZero(b)
    ensures a.field.order <= b.field.order ==>
      forall i :: 0 <= i < |a.factors| ==> a.factors[i] == Q.Add(a.factors[i], b.factors[i])
  {
    if a.field.order <= b.field.order {
      forall i | 0 <= i < |a.factors|
        ensures a.factors[i] == Q.Add(a.factors[i], b.factors[i])
      {
        Q.AddZero(a.factors[i], b.factors[i]);
      }
    }
  }

  /** negate: every coefficient negated, in the same field. */
  function Negate(a: AlgebraicNumber): (r: AlgebraicNumber)
    ensures r.field == a.field
    ensures forall i :: 0 <= i < |r.factors| ==> r.factors[i] == Q.Neg(a.factors[i])
  {
    Number(a.field, seq(|a.factors|, i requires 0 <= i < |a.factors| => Q.Neg(a.factors[i])))
  }

  /** minus: this number when the argument is zero, else plus(negate). */
  function Minus(a: AlgebraicNumber, b: AlgebraicNumber): (r: AlgebraicNumber)
    requires IsZero(b) || a.field.order <= b.field.order
    ensures r == Plus(a, Negate(b))
  {
    NegateIsZeroIff(b);
    if IsZero(b) then a else Plus(a, Negate(b))
  }

  /**
   * times as written: the field's zero for a zero argument, and otherwise
   * the field multiplication; the isOne shortcut between them is never taken.
   */
  function Times(a: AlgebraicNumber, b: AlgebraicNumber, arith: FieldArithmetic): (r: Result<AlgebraicNumber, Error>)
    requires ZeroOf(arith, a.field)
    ensures IsZero(b) ==> r.Success? && r.value.field == a.field && IsZero(r.value)
    ensures IsZero(b) ==> r == Success(arith.zero)
    ensures !IsZero(b) ==> r == Create(a.field, arith.multiply(a.factors, b.factors))
  {
    if IsZero(b) then Success(arith.zero)
    else if IsOne(b) then Success(a)
    else Create(a.field, arith.multiply(a.factors, b.factors))
  }

  /**
   * dividedBy as written: its isOne shortcut is never taken, so it always
   * multiplies by the reciprocal the field computes.
   */
  function DividedBy(a: AlgebraicNumber, b: AlgebraicNumber, arith: FieldArithmetic): (r: Result<AlgebraicNumber, Error>)
    requires ZeroOf(arith, a.field)
    ensures var inverse := Create(b.field, arith.reciprocal(b.factors));
      r == if inverse.Failure? then Failure(inverse.error) else Times(a, inverse.value, arith)
  {
    if IsOne(b) then Success(a)
    else
      match Create(b.field, arith.reciprocal(b.factors))
      case Failure(e) => Failure(e)
      case Success(inverse) => Times(a, inverse, arith)
  }

  // ---------------------------------------------------------------------
  // Properties of the arithmetic

  lemma {:induction false} NegateIsZeroIff(a: AlgebraicNumber)
    ensures IsZero(Negate(a)) <==> IsZero(a)
  {
    var n := Negate(a);
    if IsZero(n) {
      forall i | 0 <= i < |a.factors|
        ensures Q.IsZero(a.factors[i])
      {
        assert Q.IsZero(n.factors[i]);
      }
    }
  }

  lemma {:induction false} NegateInvolutive(a: AlgebraicNumber)
    ensures Negate(Negate(a)) == a
  {
    var n := Negate(Negate(a));
    assert n.factors == a.factors by {
      forall i | 0 <= i < |a.factors|
        ensures n.factors[i] == a.factors[i]
      {
        assert n.factors[i].num == a.factors[i].num;
      }
    }
  }

  /** a.plus(a.negate()) is zero, for every a. */
  lemma {:induction false} PlusNegateIsZero(a: AlgebraicNumber)
    ensures IsZero(Plus(a, Negate(a)))
  {
    var n := Negate(a);
    var s := Plus(a, n);
    forall i | 0 <= i < |s.factors|
      ensures Q.IsZero(s.factors[i])
    {
      Q.AddNeg(a.factors[i]);
    }
  }

  /** a.minus(a) is zero, for every a. */
  lemma {:induction false} MinusSelfIsZero(a: AlgebraicNumber)
    ensures IsZero(Minus(a, a))
  {
    PlusNegateIsZero(a);
  }

  // ---------------------------------------------------------------------
  // Equality and ordering

  /** equals: the same coefficients in the same field, and never null. */
  function Equals(a: AlgebraicNumber, other: Option<AlgebraicNumber>): (r: bool)
    ensures r <==> other == Some(a)
  {
    other.Some? && a.factors == other.value.factors && a.field == other.value.field
  }

  /** Integer.compare. */
  function IntCompare(x: int, y: int): int
  {
    if x < y then -1 else if x > y then 1 else 0
  }

  /**
   * The coefficient scan of compareTo from position i on: the first
   * nonzero rational comparison, or `tie` (the fields' comparison).
   */
  function CompareFactors(x: seq<Q.Rat>, y: seq<Q.Rat>, i: nat, tie: int): (r: int)
    requires |x| == |y| && i <= |x|
    ensures r == 0 ==> tie == 0
    decreases |x| - i
  {
    if i == |x| then tie
    else if Q.Compare(x[i], y[i]) != 0 then Q.Compare(x[i], y[i])
    else CompareFactors(x, y, i + 1, tie)
  }

  /** compareTo: -1 for null, 0 for an equal number, then lexicographic. */
  function CompareTo(a: AlgebraicNumber, other: Option<AlgebraicNumber>, fieldCompare: (Field, Field) -> int): (r: int)
    ensures other.None? ==> r == -1
    ensures other == Some(a) ==> r == 0
  {
    match other
    case None => -1
    case Some(b) =>
      if Equals(a, other) then 0
      else if |a.factors| != |b.factors| then IntCompare(|a.factors|, |b.factors|)
      else CompareFactors(a.factors, b.factors, 0, fieldCompare(a.field, b.field))
  }

  /** compare(o1, o2): two nulls are equal, a null comes first, else o1.compareTo(o2). */
  function Compare(o1: Option<AlgebraicNumber>, o2: Option<AlgebraicNumber>, fieldCompare: (Field, Field) -> int): (r: int)
    ensures o1.None? && o2.None? ==> r == 0
    ensures o1.None? && o2.Some? ==> r == -1
    ensures o1.Some? && o2.None? ==> r == -1
    ensures o1 == o2 ==> r == 0
  {
    if o1.None? then (if o2.None? then 0 else -1)
    else CompareTo(o1.value, o2, fieldCompare)
  }

  /** The scan returns zero exactly when the rest of the coefficients agree and the tie is zero. */
  lemma {:induction false} CompareFactorsZeroIff(x: seq<Q.Rat>, y: seq<Q.Rat>, i: nat, tie: int)
    requires |x| == |y| && i <= |x|
    ensures CompareFactors(x, y, i, tie) == 0 <==> x[i..] == y[i..] && tie == 0
    decreases |x| - i
  {
    if i < |x| {
      Q.CompareZeroIff(x[i], y[i]);
      CompareFactorsZeroIff(x, y, i + 1, tie);
      assert x[i..] == [x[i]] + x[i + 1..];
      assert y[i..] == [y[i]] + y[i + 1..];
    }
  }

  /** The scan skips a common prefix and is decided by the first differing coefficient. */
  lemma {:induction false} CompareFactorsFirstDifference(x: seq<Q.Rat>, y: seq<Q.Rat>, i: nat, k: nat, tie: int)
    requires |x| == |y| && i <= k < |x|
    requires x[i..k] == y[i..k] && x[k] != y[k]
    ensures CompareFactors(x, y, i, tie) == Q.Compare(x[k], y[k]) != 0
    decreases k - i
  {
    Q.CompareZeroIff(x[k], y[k]);
    if i < k {
      assert x[i] == x[i..k][0] && y[i] == y[i..k][0];
      Q.CompareZeroIff(x[i], y[i]);
      assert x[i + 1..k] == x[i..k][1..] && y[i + 1..k] == y[i..k][1..];
      CompareFactorsFirstDifference(x, y, i + 1, k, tie);
    }
  }

  lemma {:induction false} CompareFactorsAntisymmetric(x: seq<Q.Rat>, y: seq<Q.Rat>, i: nat, tie: int)
    requires |x| == |y| && i <= |x|
    ensures CompareFactors(x, y, i, tie) == -CompareFactors(y, x, i, -tie)
    decreases |x| - i
  {
    if i < |x| {
      Q.CompareAntisymmetric(x[i], y[i]);
      CompareFactorsAntisymmetric(x, y, i + 1, tie);
    }
  }

  /**
   * For numbers of one order whose coefficients differ, the first differing
   * coefficient decides the sign of compareTo.
   */
  lemma {:induction false} CompareToFirstDifference(a: AlgebraicNumber, b: AlgebraicNumber, k: nat, fieldCompare: (Field, Field) -> int)
    requires |a.factors| == |b.factors| && k < |a.factors|
    requires a.factors[..k] == b.factors[..k] && a.factors[k] != b.factors[k]
    ensures CompareTo(a, Some(b), fieldCompare) == Q.Compare(a.factors[k], b.factors[k]) != 0
  {
    assert a.factors[0..k] == a.factors[..k] && b.factors[0..k] == b.factors[..k];
    CompareFactorsFirstDifference(a.factors, b.factors, 0, k, fieldCompare(a.field, b.field));
  }

  /**
   * When the field comparison is zero exactly on equal fields, compareTo is
   * zero exactly when equals holds.
   */
  lemma {:induction false} CompareToZeroIffEquals(a: AlgebraicNumber, b: AlgebraicNumber, fieldCompare: (Field, Field) -> int)
    requires forall f, g :: fieldCompare(f, g) == 0 <==> f == g
    ensures CompareTo(a, Some(b), fieldCompare) == 0 <==> Equals(a, Some(b))
  {
    if !Equals(a, Some(b)) && |a.factors| == |b.factors| {
      var tie := fieldCompare(a.field, b.field);
      CompareFactorsZeroIff(a.factors, b.factors, 0, tie);
      assert a.factors[0..] == a.factors && b.factors[0..] == b.factors;
    }
  }

  /** When the field comparison is antisymmetric, so is compareTo. */
  lemma {:induction false} CompareToAntisymmetric(a: AlgebraicNumber, b: AlgebraicNumber, fieldCompare: (Field, Field) -> int)
    requires forall f, g :: fieldCompare(f, g) == -fieldCompare(g, f)
    ensures CompareTo(a, Some(b), fieldCompare) == -CompareTo(b, Some(a), fieldCompare)
  {
    if !Equals(a, Some(b)) && |a.factors| == |b.factors| {
      CompareFactorsAntisymmetric(a.factors, b.factors, 0, fieldCompare(a.field, b.field));
    }
  }

  // ---------------------------------------------------------------------
  // getDivisor

  /** The lcm accumulated over the denominators, starting from one. */
  function DivisorOf(s: seq<Q.Rat>): (l: nat)
    ensures l > 0
    decreases |s|
  {
    if s == [] then 1
    else
      var l' := DivisorOf(s[..|s| - 1]);
      Q.LcmStepIsLeast(l', s[|s| - 1].den);
      Q.LcmStep(l', s[|s| - 1].den)
  }

  predicate DenominatorsDivide(s: seq<Q.Rat>, m: nat)
  {
    forall i :: 0 <= i < |s| ==> Q.Divides(s[i].den, m)
  }

  /**
   * getDivisor is the least common multiple of the denominators: each of
   * them divides it, and it divides every common multiple of them.
   */
  lemma {:induction false} DivisorIsLeastCommonMultiple(s: seq<Q.Rat>)
    ensures DenominatorsDivide(s, DivisorOf(s))
    ensures forall m: nat :: DenominatorsDivide(s, m) ==> Q.Divides(DivisorOf(s), m)
  {
    if s == [] {
      forall m: nat
        ensures Q.Divides(1, m)
      {
        Q.DividesIntro(1, m, m);
      }
    } else {
      var init, d := s[..|s| - 1], s[|s| - 1].den;
      DivisorIsLeastCommonMultiple(init);
      var l' := DivisorOf(init);
      Q.LcmStepIsLeast(l', d);
      forall i | 0 <= i < |s|
        ensures Q.Divides(s[i].den, DivisorOf(s))
      {
        if i < |s| - 1 {
          assert init[i] == s[i];
          Q.DividesTransitive(s[i].den, l', DivisorOf(s));
        }
      }
      forall m: nat | DenominatorsDivide(s, m)
        ensures Q.Divides(DivisorOf(s), m)
      {
        assert DenominatorsDivide(init, m) by {
          forall i | 0 <= i < |init|
            ensures Q.Divides(init[i].den, m)
          {
            assert init[i] == s[i];
          }
        }
      }
    }
  }

  /** Scaling a number by its divisor clears every denominator. */
  lemma ScaledByDivisorIsIntegral(a: AlgebraicNumber)
    ensures forall i :: 0 <= i < |a.factors| ==>
      Q.Divides(a.factors[i].den, a.factors[i].num * DivisorOf(a.factors))
  {
    DivisorIsLeastCommonMultiple(a.factors);
    forall i | 0 <= i < |a.factors|
      ensures Q.Divides(a.factors[i].den, a.factors[i].num * DivisorOf(a.factors))
    {
      Q.DividesMultiple(a.factors[i].den, DivisorOf(a.factors), a.factors[i].num);
      Q.MulCommutes(DivisorOf(a.factors), a.factors[i].num);
    }
  }

  /** The divisor of the coefficients 1/2 and 1/3 is 6. */
  lemma DivisorExample()
    ensures DivisorOf([Q.Fraction(1, 2), Q.Fraction(1, 3)]) == 6
  {
    var s: seq<Q.Rat> := [Q.Fraction(1, 2), Q.Fraction(1, 3)];
    assert s[..1] == [Q.Fraction(1, 2)] && s[..1][..0] == [];
    assert Q.Gcd(1, 2) == 1 by {
      assert Q.Gcd(1, 2) == Q.Gcd(2, 1) == Q.Gcd(1, 0);
    }
    assert DivisorOf(s[..1]) == 2;
    assert Q.Gcd(2, 3) == 1 by {
      assert Q.Gcd(2, 3) == Q.Gcd(3, 2) == Q.Gcd(2, 1) == Q.Gcd(1, 0);
    }
  }
}
