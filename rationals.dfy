/**
 * Exact rationals, as the coefficients of an algebraic number are kept:
 * a numerator and a positive denominator with no common factor, so that
 * every rational value has exactly one representation.  Euclid's
 * algorithm and the least common multiple used by getDivisor live here too.
 */
module Rationals {

  function Abs(x: int): nat
  {
    if x < 0 then -x else x
  }

  /** Euclid's algorithm on magnitudes, as BigInteger.gcd: Gcd(0, 0) == 0. */
  function Gcd(a: nat, b: nat): nat
    decreases b
  {
    if b == 0 then a else Gcd(b, a % b)
  }

  /** d is a positive divisor of n. */
  predicate Divides(d: nat, n: int)
  {
    d > 0 && n % d == 0
  }

  /** The lcm step of getDivisor: |acc * d| / gcd(acc, d), for a denominator d. */
  function LcmStep(acc: nat, d: nat): nat
    requires d > 0
  {
    GcdPositive(acc, d);
    var g := Gcd(acc, d);
    var p := Abs(acc * d);
    p / g
  }

  // ---------------------------------------------------------------------
  // Integer division facts

  /** Sign rules for products, stated so that callers need no case split. */
  lemma {:induction false} MulSigns(a: int, b: int)
    ensures a >= 1 && b > 0 ==> a * b >= b
    ensures a <= -1 && b > 0 ==> a * b <= -b
    ensures a > 0 && b > 0 ==> a * b > 0
    ensures a > 0 && b < 0 ==> a * b < 0
    ensures a > 0 && b <= 0 ==> a * b <= 0
    ensures a >= 0 && b >= 0 ==> a * b >= 0
  {
    if a >= 1 && b > 0 {
      assert a * b == (a - 1) * b + b;
    }
    if a <= -1 && b > 0 {
      assert a * b == (a + 1) * b - b;
    }
  }

  lemma {:induction false} MulAssociative(a: int, b: int, c: int)
    ensures (a * b) * c == a * (b * c)
  {
  }

  lemma {:induction false} MulCommutes(a: int, b: int)
    ensures a * b == b * a
  {
  }

  /** A positive factor can be cancelled. */
  lemma {:induction false} MulCancel(g: int, a: int, b: int)
    requires g > 0 && g * a == g * b
    ensures a == b
  {
    assert g * (a - b) == 0;
    MulSigns(g, a - b);
    MulSigns(g, b - a);
  }

  lemma {:induction false} DivModUnique(x: int, m: int, q: int, r: int)
    requires m > 0 && 0 <= r < m && x == q * m + r
    ensures x / m == q && x % m == r
  {
    var q', r' := x / m, x % m;
    assert x == q' * m + r';
    assert (q - q') * m == r' - r;
    MulSigns(q - q', m);
  }

  lemma {:induction false} DividesIntro(d: nat, n: int, k: int)
    requires d > 0 && n == d * k
    ensures Divides(d, n) && n / d == k
  {
    DivModUnique(n, d, k, 0);
  }

  lemma {:induction false} DividesElim(d: nat, n: int)
    requires Divides(d, n)
    ensures n == d * (n / d)
  {
  }

  lemma {:induction false} DividesTransitive(a: nat, b: nat, c: int)
    requires Divides(a, b) && Divides(b, c)
    ensures Divides(a, c)
  {
    var x, y := b / a, c / b;
    DividesElim(a, b);
    DividesElim(b, c);
    assert c == a * (x * y) by {
      assert c == (a * x) * y;
    }
    DividesIntro(a, c, x * y);
  }

  lemma {:induction false} DividesMultiple(d: nat, n: int, k: int)
    requires Divides(d, n)
    ensures Divides(d, n * k)
  {
    DividesElim(d, n);
    var x := n / d;
    assert n * k == d * (x * k) by {
      assert n * k == (d * x) * k;
    }
    DividesIntro(d, n * k, x * k);
  }

  lemma {:induction false} DividesAntisymmetric(a: nat, b: nat)
    requires Divides(a, b) && Divides(b, a)
    ensures a == b
  {
    DividesElim(a, b);
    DividesElim(b, a);
    var x, y := b / a, a / b;
    assert a == a * (x * y) by {
      assert a == (a * x) * y;
    }
    assert x * y == 1;
    MulSigns(x, y);
    MulSigns(y, x);
  }

  // ---------------------------------------------------------------------
  // Greatest common divisor

  lemma {:induction false} GcdPositive(a: nat, b: nat)
    requires a > 0 || b > 0
    ensures Gcd(a, b) > 0
    decreases b
  {
    if b != 0 {
      GcdPositive(b, a % b);
    }
  }

  /** Gcd(a, b) divides both arguments. */
  lemma {:induction false} GcdDivides(a: nat, b: nat)
    requires a > 0 || b > 0
    ensures Divides(Gcd(a, b), a) && Divides(Gcd(a, b), b)
    decreases b
  {
    if b != 0 {
      var g := Gcd(b, a % b);
      GcdDivides(b, a % b);
      DividesElim(g, b);
      DividesElim(g, a % b);
      var x, y := b / g, (a % b) / g;
      assert a == g * ((a / b) * x + y) by {
        assert a == (a / b) * b + a % b;
        assert a == (a / b) * (g * x) + g * y;
      }
      DividesIntro(g, a, (a / b) * x + y);
    }
  }

  /** Every common divisor of a and b divides Gcd(a, b). */
  lemma {:induction false} CommonDivisorDividesGcd(c: nat, a: nat, b: nat)
    requires Divides(c, a) && Divides(c, b) && (a > 0 || b > 0)
    ensures Divides(c, Gcd(a, b))
    decreases b
  {
    if b != 0 {
      DividesElim(c, a);
      DividesElim(c, b);
      var x, y := a / c, b / c;
      assert a % b == c * (x - (a / b) * y) by {
        assert a % b == a - (a / b) * b;
        assert a % b == c * x - (a / b) * (c * y);
      }
      DividesIntro(c, a % b, x - (a / b) * y);
      CommonDivisorDividesGcd(c, b, a % b);
    }
  }

  lemma {:induction false} ModScale(k: nat, a: nat, b: nat)
    requires k > 0 && b > 0
    ensures (k * a) % (k * b) == k * (a % b)
  {
    var q, r := a / b, a % b;
    assert k * a == q * (k * b) + k * r by {
      assert a == q * b + r;
      assert k * a == k * (q * b) + k * r;
    }
    assert k * r < k * b by {
      assert k * (b - r) > 0;
    }
    DivModUnique(k * a, k * b, q, k * r);
  }

  /** Scaling both arguments scales their gcd. */
  lemma {:induction false} GcdScale(k: nat, a: nat, b: nat)
    requires k > 0
    ensures Gcd(k * a, k * b) == k * Gcd(a, b)
    decreases b
  {
    if b != 0 {
      ModScale(k, a, b);
      GcdScale(k, b, a % b);
    }
  }

  /** Dividing out the gcd leaves coprime parts. */
  lemma {:induction false} CoprimeParts(a: nat, b: nat)
    requires b > 0
    ensures Gcd(a, b) > 0 && Gcd(a / Gcd(a, b), b / Gcd(a, b)) == 1
  {
    var g := Gcd(a, b);
    GcdPositive(a, b);
    GcdDivides(a, b);
    DividesElim(g, a);
    DividesElim(g, b);
    var x, y := a / g, b / g;
    MulSigns(g, x);
    MulSigns(g, y);
    GcdScale(g, x, y);
    MulCancel(g, Gcd(x, y), 1);
  }

  /** Euclid's lemma: a divisor of b * c that is coprime to b divides c. */
  lemma {:induction false} Euclid(a: nat, b: nat, c: nat)
    requires a > 0 && Gcd(a, b) == 1 && Divides(a, b * c)
    ensures Divides(a, c)
  {
    if c == 0 {
      assert c % a == 0;
    } else {
      var ca, cb := c * a, c * b;
      MulSigns(c, a);
      MulSigns(c, b);
      assert ca > 0;
      GcdScale(c, a, b);
      assert Gcd(ca, cb) == c * Gcd(a, b);
      assert Gcd(ca, cb) == c;
      DividesIntro(a, ca, c);
      assert Divides(a, ca);
      assert cb == b * c;
      assert Divides(a, cb);
      CommonDivisorDividesGcd(a, ca, cb);
    }
  }

  lemma {:induction false} GcdSymmetric(a: nat, b: nat)
    ensures Gcd(a, b) == Gcd(b, a)
  {
    if a > 0 && b > 0 {
      GcdPositive(a, b);
      GcdPositive(b, a);
      GcdDivides(a, b);
      GcdDivides(b, a);
      CommonDivisorDividesGcd(Gcd(a, b), b, a);
      CommonDivisorDividesGcd(Gcd(b, a), a, b);
      DividesAntisymmetric(Gcd(a, b), Gcd(b, a));
    } else if a == 0 && b > 0 {
      assert Gcd(a, b) == Gcd(b, 0);
    } else if b == 0 && a > 0 {
      assert Gcd(b, a) == Gcd(a, 0);
    }
  }

  // ---------------------------------------------------------------------
  // Least common multiple

  /**
   * LcmStep(x, d) is the least common multiple of two positive numbers:
   * both divide it, and it divides every common multiple.
   */
  lemma {:induction false} LcmStepIsLeast(x: nat, d: nat)
    requires x > 0 && d > 0
    ensures LcmStep(x, d) > 0
    ensures Divides(x, LcmStep(x, d)) && Divides(d, LcmStep(x, d))
    ensures forall m: nat :: Divides(x, m) && Divides(d, m) ==> Divides(LcmStep(x, d), m)
  {
    var g := Gcd(x, d);
    CoprimeParts(x, d);
    GcdDivides(x, d);
    DividesElim(g, x);
    DividesElim(g, d);
    var x', d' := x / g, d / g;
    MulSigns(g, x');
    MulSigns(g, d');
    assert x' > 0 && d' > 0;
    var gx := g * x';
    var l := gx * d';
    MulSigns(gx, d');
    assert l > 0;
    assert x == gx;
    assert x * d == g * l by {
      assert x * d == gx * (g * d');
      MulAssociative(gx, g, d');
      MulCommutes(gx, g);
      MulAssociative(g, gx, d');
    }
    DividesIntro(g, x * d, l);
    assert Abs(x * d) == x * d;
    assert LcmStep(x, d) == l;
    DividesIntro(x, l, d');
    assert l == d * x' by {
      MulAssociative(g, x', d');
      MulCommutes(x', d');
      MulAssociative(g, d', x');
    }
    DividesIntro(d, l, x');
    forall m: nat | Divides(x, m) && Divides(d, m)
      ensures Divides(l, m)
    {
      LcmDividesCommonMultiple(g, x', d', m);
    }
  }

  lemma {:induction false} LcmDividesCommonMultiple(g: nat, x': nat, d': nat, m: nat)
    requires g > 0 && x' > 0 && d' > 0 && Gcd(x', d') == 1
    requires Divides(g * x', m) && Divides(g * d', m)
    ensures Divides(g * x' * d', m)
  {
    // m == g * x' * u and g * d' divides it, so d' divides x' * u, hence u
    var gx, gd := g * x', g * d';
    MulSigns(g, x');
    MulSigns(g, d');
    assert gx > 0 && gd > 0;
    DividesElim(gx, m);
    DividesElim(gd, m);
    var u: nat := m / gx;
    var v: nat := m / gd;
    assert m == gx * u;
    assert m == gd * v;
    assert g * (x' * u) == g * (d' * v) by {
      MulAssociative(g, x', u);
      MulAssociative(g, d', v);
    }
    MulCancel(g, x' * u, d' * v);
    DividesIntro(d', x' * u, v);
    GcdSymmetric(x', d');
    Euclid(d', x', u);
    DividesElim(d', u);
    var w := u / d';
    assert u == d' * w;
    assert m == (gx * d') * w by {
      MulAssociative(gx, d', w);
    }
    DividesIntro(gx * d', m, w);
  }

  // ---------------------------------------------------------------------
  // Rationals

  datatype Fraction = Fraction(num: int, den: int)

  /** A BigRational: positive denominator, numerator and denominator coprime. */
  type Rat = q: Fraction | q.den > 0 && Gcd(Abs(q.num), q.den) == 1
    witness Fraction(0, 1)

  const Zero: Rat := Fraction(0, 1)

  predicate IsZero(q: Rat)
  {
    q.num == 0
  }

  predicate IsOne(q: Rat)
  {
    q.num == 1 && q.den == 1
  }

  /** The only rational with a zero numerator is Zero. */
  lemma {:induction false} ZeroIsUnique(q: Rat)
    requires IsZero(q)
    ensures q == Zero
  {
    assert Gcd(0, q.den) == Gcd(q.den, 0);
  }

  /** Dividing n and d by their gcd gives a reduced fraction of the same value. */
  lemma {:induction false} NormalizeParts(n: int, d: int)
    requires d > 0
    ensures Gcd(Abs(n), d) > 0
    ensures var g := Gcd(Abs(n), d);
      d / g > 0 && Gcd(Abs(n / g), d / g) == 1 && (n / g) * d == n * (d / g)
  {
    CoprimeParts(Abs(n), d);
    var g := Gcd(Abs(n), d);
    GcdDivides(Abs(n), d);
    DividesElim(g, Abs(n));
    DividesElim(g, d);
    var a := Abs(n) / g;
    var s := if n < 0 then -a else a;
    assert n == g * s;
    DividesIntro(g, n, s);
    assert Abs(n / g) == a;
    var e := d / g;
    MulSigns(g, e);
    assert d == g * e;
    MulAssociative(s, g, e);
    MulCommutes(s, g);
    MulAssociative(g, s, e);
  }

  /** Brings n/d into lowest terms. */
  function Normalize(n: int, d: int): (r: Rat)
    requires d > 0
    ensures r.num * d == n * r.den
  {
    NormalizeParts(n, d);
    var g := Gcd(Abs(n), d);
    Fraction(n / g, d / g)
  }

  /** A rational already in lowest terms is left as it is. */
  lemma {:induction false} NormalizeReduced(q: Rat)
    ensures Normalize(q.num, q.den) == q
  {
    var r := Normalize(q.num, q.den);
    assert Gcd(Abs(q.num), q.den) == 1;
    DividesIntro(1, q.num, q.num);
    DividesIntro(1, q.den, q.den);
  }

  /** BigRational.plus. */
  function Add(p: Rat, q: Rat): (r: Rat)
    ensures r.num * (p.den * q.den) == (p.num * q.den + q.num * p.den) * r.den
  {
    assert p.den * q.den > 0;
    Normalize(p.num * q.den + q.num * p.den, p.den * q.den)
  }

  /** BigRational.negate. */
  function Neg(q: Rat): (r: Rat)
    ensures r.num == -q.num && r.den == q.den
  {
    assert Abs(-q.num) == Abs(q.num);
    Fraction(-q.num, q.den)
  }

  function Sign(x: int): int
  {
    if x < 0 then -1 else if x > 0 then 1 else 0
  }

  /** BigRational.compareTo: the sign of p - q. */
  function Compare(p: Rat, q: Rat): int
  {
    Sign(p.num * q.den - q.num * p.den)
  }

  /** Adding zero changes nothing. */
  lemma {:induction false} AddZero(p: Rat, q: Rat)
    requires IsZero(q)
    ensures Add(p, q) == p
  {
    ZeroIsUnique(q);
    NormalizeReduced(p);
  }

  /** A rational plus its negation is zero. */
  lemma {:induction false} AddNeg(q: Rat)
    ensures IsZero(Add(q, Neg(q)))
  {
    var r := Add(q, Neg(q));
    assert q.num * q.den + (-q.num) * q.den == 0;
    assert r.num * (q.den * q.den) == 0;
    assert q.den * q.den > 0;
  }

  /** Two rationals compare equal exactly when they are the same rational. */
  lemma {:induction false} CompareZeroIff(p: Rat, q: Rat)
    ensures Compare(p, q) == 0 <==> p == q
  {
    if Compare(p, q) == 0 {
      assert p.num * q.den == q.num * p.den;
      SameValueSameFraction(p, q);
    }
  }

  lemma {:induction false} SameValueSameFraction(p: Rat, q: Rat)
    requires p.num * q.den == q.num * p.den
    ensures p == q
  {
    DenominatorDivides(p, q);
    DenominatorDivides(q, p);
    DividesAntisymmetric(p.den, q.den);
    assert q.den * p.num == q.den * q.num;
    MulCancel(q.den, p.num, q.num);
  }

  lemma {:induction false} DenominatorDivides(p: Rat, q: Rat)
    requires p.num * q.den == q.num * p.den
    ensures Divides(p.den, q.den)
  {
    // p.den divides |q.num| * p.den == |p.num| * q.den and is coprime to |p.num|
    var a := Abs(p.num);
    MulSigns(p.den, q.num);
    MulSigns(q.den, p.num);
    assert Abs(q.num) * p.den == a * q.den;
    DividesIntro(p.den, a * q.den, Abs(q.num)) by {
      assert a * q.den == p.den * Abs(q.num);
    }
    GcdSymmetric(a, p.den);
    Euclid(p.den, a, q.den);
  }

  lemma {:induction false} CompareAntisymmetric(p: Rat, q: Rat)
    ensures Compare(p, q) == -Compare(q, p)
  {
  }
}
