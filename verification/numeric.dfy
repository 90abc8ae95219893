/**
 * The numeric primitives the two detection scripts lean on, stated on exact reals:
 * Python's `round` (half to even), `round(x, n)`, `int(x)` on a real (truncation
 * toward zero) and `str(n)` on an integer.
 */
module Numeric {

  /** Python's `round(x)`: the nearest integer, ties going to the even neighbour. */
  function RoundHalfEven(x: real): (r: int)
    ensures x - 0.5 <= r as real <= x + 0.5
    ensures r as real - x == 0.5 || x - r as real == 0.5 ==> r % 2 == 0
  {
    var f := x.Floor;
    var d := x - f as real;
    if d < 0.5 then f
    else if d > 0.5 then f + 1
    else if f % 2 == 0 then f
    else f + 1
  }

  /** The two properties in RoundHalfEven's contract determine its result. */
  lemma RoundHalfEvenUnique(x: real, k: int)
    requires x - 0.5 <= k as real <= x + 0.5
    requires k as real - x == 0.5 || x - k as real == 0.5 ==> k % 2 == 0
    ensures k == RoundHalfEven(x)
  {
    var r := RoundHalfEven(x);
    if k != r {
      assert false;
    }
  }

  /** An integer is its own rounding. */
  lemma RoundHalfEvenOfInt(k: int)
    ensures RoundHalfEven(k as real) == k
  {
    RoundHalfEvenUnique(k as real, k);
  }

  /** Rounding never reverses the order of two values. */
  lemma {:induction false} RoundHalfEvenMonotonic(x: real, y: real)
    requires x <= y
    ensures RoundHalfEven(x) <= RoundHalfEven(y)
  {
    var rx, ry := RoundHalfEven(x), RoundHalfEven(y);
    if rx > ry {
      assert false;
    }
  }

  /**
   * Python's `round(x, digits)` on the exact value, written with `scale` standing for
   * 10^digits (100 for two decimals, 1000 for three): `x` rounded half to even to a
   * multiple of 1/scale. The result lies on the 1/scale grid, at the half-to-even
   * rounding of `x * scale`, and so within half of 1/scale of `x`.
   */
  function RoundDecimals(x: real, scale: nat): (r: real)
    requires scale >= 1
    ensures r * scale as real == RoundHalfEven(x * scale as real) as real
    ensures x - 0.5 / scale as real <= r <= x + 0.5 / scale as real
  {
    RoundDecimalsBounds(x, scale);
    MultiplyBack(RoundHalfEven(x * scale as real) as real, scale as real);
    RoundHalfEven(x * scale as real) as real / scale as real
  }

  lemma RoundDecimalsBounds(x: real, scale: nat)
    requires scale >= 1
    ensures var p := scale as real;
      var r := RoundHalfEven(x * p) as real / p;
      x - 0.5 / p <= r <= x + 0.5 / p
  {
    var p := scale as real;
    var k := RoundHalfEven(x * p) as real;
    DivideBounds(x * p - 0.5, k, x * p + 0.5, p);
    assert (x * p - 0.5) / p == x - 0.5 / p;
    assert (x * p + 0.5) / p == x + 0.5 / p;
  }

  lemma DivideBounds(lo: real, v: real, hi: real, p: real)
    requires p >= 1.0
    requires lo <= v <= hi
    ensures lo / p <= v / p <= hi / p
  {
  }

  lemma RoundDecimalsUnfold(x: real, scale: nat)
    requires scale >= 1
    ensures RoundDecimals(x, scale) == RoundHalfEven(x * scale as real) as real / scale as real
  {
  }

  /** Rounding an already rounded value to the same place changes nothing. */
  lemma RoundDecimalsIdempotent(x: real, scale: nat)
    requires scale >= 1
    ensures RoundDecimals(RoundDecimals(x, scale), scale) == RoundDecimals(x, scale)
  {
    var k := RoundHalfEven(x * scale as real);
    RoundDecimalsUnfold(x, scale);
    var r := RoundDecimals(x, scale);
    MultiplyBack(k as real, scale as real);
    assert r * scale as real == k as real;
    RoundHalfEvenOfInt(k);
    RoundDecimalsUnfold(r, scale);
  }

  lemma MultiplyMonotonic(x: real, y: real, p: real)
    requires p >= 1.0 && x <= y
    ensures x * p <= y * p
  {
  }

  lemma MultiplyBack(v: real, p: real)
    requires p >= 1.0
    ensures (v / p) * p == v
  {
  }

  /** Rounding to a decimal place never reverses the order of two values. */
  lemma RoundDecimalsMonotonic(x: real, y: real, scale: nat)
    requires scale >= 1
    ensures x <= y ==> RoundDecimals(x, scale) <= RoundDecimals(y, scale)
  {
    if x <= y {
      MultiplyMonotonic(x, y, scale as real);
      RoundHalfEvenMonotonic(x * scale as real, y * scale as real);
      var kx, ky := RoundHalfEven(x * scale as real) as real, RoundHalfEven(y * scale as real) as real;
      DivideBounds(kx, kx, ky, scale as real);
      RoundDecimalsUnfold(x, scale);
      RoundDecimalsUnfold(y, scale);
    }
  }

  /** A whole number needs no rounding at any decimal place. */
  lemma RoundDecimalsOfInt(k: int, scale: nat)
    requires scale >= 1
    ensures RoundDecimals(k as real, scale) == k as real
  {
    assert (k as real) * (scale as real) == (k * scale) as real;
    RoundHalfEvenOfInt(k * scale);
  }

  /**
   * Python's `int(x)` on a real: truncation toward zero. For negative non-integral
   * inputs this is one more than the floor.
   */
  function Trunc(x: real): (r: int)
    ensures 0.0 <= x ==> r as real <= x < r as real + 1.0
    ensures x < 0.0 ==> r as real - 1.0 < x <= r as real
  {
    if x >= 0.0 then x.Floor else -((-x).Floor)
  }

  function DigitChar(d: nat): char
    requires d < 10
  {
    "0123456789"[d]
  }

  predicate IsDigits(s: string)
  {
    forall i :: 0 <= i < |s| ==> '0' <= s[i] <= '9'
  }

  /** Python's `str(n)` for a natural number: its decimal digits, most significant first. */
  function NatToString(n: nat): string
  {
    if n < 10 then [DigitChar(n)] else NatToString(n / 10) + [DigitChar(n % 10)]
  }

  /** `str(n)` is a non-empty string of decimal digits. */
  lemma {:induction false} NatToStringDigits(n: nat)
    ensures |NatToString(n)| >= 1 && IsDigits(NatToString(n))
  {
    if n >= 10 {
      NatToStringDigits(n / 10);
      var s := NatToString(n);
      assert s == NatToString(n / 10) + [DigitChar(n % 10)];
      forall i | 0 <= i < |s| ensures '0' <= s[i] <= '9' {
        if i < |s| - 1 {
          assert s[i] == NatToString(n / 10)[i];
        }
      }
    }
  }

  /** The number a string of decimal digits denotes. */
  function DigitsValue(s: string): int
  {
    if s == [] then 0 else DigitsValue(s[..|s| - 1]) * 10 + (s[|s| - 1] as int - '0' as int)
  }

  /** Reading the digits of `str(n)` back gives `n`. */
  lemma {:induction false} NatToStringRoundTrip(n: nat)
    ensures DigitsValue(NatToString(n)) == n
  {
    var s := NatToString(n);
    if n < 10 {
      assert s[..|s| - 1] == [];
    } else {
      NatToStringRoundTrip(n / 10);
      assert s[..|s| - 1] == NatToString(n / 10);
    }
  }

  /** Python's `str(i)` for an integer: a minus sign before the digits of a negative one. */
  function IntToString(i: int): string
  {
    if i < 0 then "-" + NatToString(-i) else NatToString(i)
  }

  /** `str(i)` is non-empty and starts with a minus sign exactly when `i` is negative. */
  lemma IntToStringSign(i: int)
    ensures |IntToString(i)| >= 1
    ensures i < 0 <==> IntToString(i)[0] == '-'
  {
    if i >= 0 {
      NatToStringDigits(i);
    }
  }

  /** Different naturals have different decimal renderings. */
  lemma NatToStringInjective(m: nat, n: nat)
    requires NatToString(m) == NatToString(n)
    ensures m == n
  {
    NatToStringRoundTrip(m);
    NatToStringRoundTrip(n);
  }

  /** After its minus sign, `str(i)` of a negative `i` is `str(-i)`. */
  lemma NegativeDigits(i: int)
    requires i < 0
    ensures IntToString(i)[1..] == NatToString(-i)
  {
  }

  /** Different integers have different decimal renderings. */
  lemma IntToStringInjective(i: int, j: int)
    requires IntToString(i) == IntToString(j)
    ensures i == j
  {
    IntToStringSign(i);
    IntToStringSign(j);
    if i < 0 && j < 0 {
      NegativeDigits(i);
      NegativeDigits(j);
      NatToStringInjective(-i, -j);
    } else if 0 <= i && 0 <= j {
      NatToStringInjective(i, j);
    }
  }
}
