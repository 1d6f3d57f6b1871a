/**
 * Java's 32-bit `int`: its range, the wrap-around of `+`, and the decimal
 * syntax that `Integer.parseInt` accepts (ASCII digits only).
 */
module JavaInts {
  import opened Wrappers
  import Q = Rationals

  const MinInt: int := -0x8000_0000
  const MaxInt: int := 0x7fff_ffff
  const Modulus: int := 0x1_0000_0000

  type Int32 = x: int | MinInt <= x <= MaxInt

  /** The two's-complement value of x: Java's result for an int expression whose exact value is x. */
  function Wrap(x: int): (r: Int32)
    ensures (x - r) % Modulus == 0
    ensures MinInt <= x <= MaxInt ==> r == x
  {
    var m := (x - MinInt) % Modulus;
    assert x - MinInt == (x - MinInt) / Modulus * Modulus + m;
    m + MinInt
  }

  /** Values that agree modulo 2^32 wrap to the same int. */
  lemma {:induction false} WrapCongruent(x: int, y: int)
    requires (x - y) % Modulus == 0
    ensures Wrap(x) == Wrap(y)
  {
    var rx, ry := Wrap(x), Wrap(y);
    var k := (x - y) / Modulus;
    assert x - y == k * Modulus;
    var kx := (x - rx) / Modulus;
    var ky := (y - ry) / Modulus;
    assert x - rx == kx * Modulus;
    assert y - ry == ky * Modulus;
    assert rx - ry == (k - kx + ky) * Modulus;
    Q.MulSigns(k - kx + ky, Modulus);
  }

  /** Wrapping after every addition is wrapping the exact sum once. */
  lemma {:induction false} WrapAdd(a: int, b: int)
    ensures Wrap(Wrap(a) + b) == Wrap(a + b)
  {
    var w := Wrap(a);
    var k := (a - w) / Modulus;
    assert a - w == k * Modulus;
    assert (w + b) - (a + b) == -k * Modulus;
    WrapCongruent(w + b, a + b);
  }

  // ---------------------------------------------------------------------
  // Decimal syntax

  predicate IsDigit(c: char)
  {
    '0' <= c <= '9'
  }

  predicate AllDigits(s: string)
  {
    forall i :: 0 <= i < |s| ==> IsDigit(s[i])
  }

  /** The value of a string of decimal digits, most significant first. */
  function DigitsValue(s: string): (v: nat)
    requires AllDigits(s)
    decreases |s|
  {
    if s == [] then 0
    else DigitsValue(s[..|s| - 1]) * 10 + (s[|s| - 1] as int - '0' as int)
  }

  /** The decimal digits of n, without leading zeros ("0" for zero). */
  function Digits(n: nat): (s: string)
    ensures |s| > 0 && AllDigits(s)
    decreases n
  {
    var last := [('0' as int + n % 10) as char];
    if n < 10 then last else Digits(n / 10) + last
  }

  /** Integer.toString for an int. */
  function Format(n: Int32): (s: string)
    ensures |s| > 0
  {
    if n < 0 then "-" + Digits(0 - n as int) else Digits(n)
  }

  /**
   * Integer.parseInt: an optional sign, then at least one digit, with a value
   * in the int range; None stands for its NumberFormatException.
   */
  function ParseInt(s: string): (r: Option<Int32>)
    ensures r.Some? ==> |s| > 0
    ensures r.Some? && s[0] != '-' ==> r.value >= 0
    ensures r.Some? && s[0] == '-' ==> r.value <= 0
  {
    if |s| == 0 then None
    else
      var negative := s[0] == '-';
      var digits := if s[0] == '-' || s[0] == '+' then s[1..] else s;
      if |digits| == 0 || !AllDigits(digits) then None
      else
        var v: int := if negative then 0 - DigitsValue(digits) as int else DigitsValue(digits);
        if MinInt <= v <= MaxInt then Some(v) else None
  }

  lemma {:induction false} DigitsValueOfDigits(n: nat)
    ensures DigitsValue(Digits(n)) == n
    decreases n
  {
    var s := Digits(n);
    if n >= 10 {
      DigitsValueOfDigits(n / 10);
      assert s[..|s| - 1] == Digits(n / 10);
    }
  }

  /** parseInt reads back every int that toString writes. */
  lemma {:induction false} ParseFormat(n: Int32)
    ensures ParseInt(Format(n)) == Some(n)
  {
    if n < 0 {
      DigitsValueOfDigits(0 - n as int);
      assert Format(n)[1..] == Digits(0 - n as int);
    } else {
      DigitsValueOfDigits(n);
      assert Format(n)[0] != '-' && Format(n)[0] != '+';
    }
  }

  /** A token with a character that is neither a sign nor a digit is refused. */
  lemma {:induction false} ParseIntRefusesLetters(s: string, k: nat)
    requires 0 < k < |s| && !IsDigit(s[k])
    ensures ParseInt(s) == None
  {
    if s[0] == '-' || s[0] == '+' {
      assert s[1..][k - 1] == s[k];
    }
  }
}
