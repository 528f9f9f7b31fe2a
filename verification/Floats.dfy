/** What the 64 bits of a score mean: sign, exponent and fraction of IEEE 754 binary64,
    and the number they stand for. Scores are ordered as these numbers. */
module Floats {
  import opened Core

  const TWO_52: nat := 0x10_0000_0000_0000
  const TWO_63: nat := 0x8000_0000_0000_0000

  function IsNegative(f: Float64): bool {
    f >= TWO_63
  }

  function Exponent(f: Float64): nat {
    f / TWO_52 % 2048
  }

  function Fraction(f: Float64): nat {
    f % TWO_52
  }

  predicate IsNaN(f: Float64) {
    Exponent(f) == 2047 && Fraction(f) != 0
  }

  function Pow2(n: nat): (p: nat)
    ensures p >= 1
  {
    if n == 0 then 1 else 2 * Pow2(n - 1)
  }

  /** The absolute value in units of the smallest positive float, 2 to the -1074. */
  function Size(exponent: nat, fraction: nat): nat {
    if exponent == 0 then fraction else (TWO_52 + fraction) * Pow2(exponent - 1)
  }

  /** The number in those units; an infinity is beyond all finite ones. */
  function Units(f: Float64): int {
    if IsNegative(f) then 0 - Size(Exponent(f), Fraction(f)) else Size(Exponent(f), Fraction(f))
  }

  /** x < y as PostgreSQL and Redis compare them: as numbers, NaN above all. */
  predicate Less(x: Float64, y: Float64) {
    !IsNaN(x) && (IsNaN(y) || Units(x) < Units(y))
  }

  // ------------------------------------------------------------------- the proof

  lemma {:induction false} Pow2Grows(a: nat, b: nat)
    requires a <= b
    ensures Pow2(a) <= Pow2(b)
  {
    if a < b {
      Pow2Grows(a, b - 1);
    }
  }

  lemma Scaled(a: nat, b: nat, p: nat)
    requires p >= 1
    ensures a < b ==> a * p < b * p
    ensures a <= b ==> a * p <= b * p
  {
  }

  lemma SizeGrows(e: nat, x: nat, e': nat, y: nat)
    requires x < TWO_52 && y < TWO_52 && (e < e' || (e == e' && x < y))
    ensures Size(e, x) < Size(e', y)
  {
    if e == e' {
      if e > 0 {
        Scaled(TWO_52 + x, TWO_52 + y, Pow2(e - 1));
      }
    } else {
      Pow2Grows(e, e' - 1);
      Scaled(TWO_52, TWO_52 + y, Pow2(e' - 1));
      ScaledUp(TWO_52, Pow2(e), Pow2(e' - 1));
      if e > 0 {
        Scaled(TWO_52 + x, 2 * TWO_52, Pow2(e - 1));
      }
    }
  }

  lemma ScaledUp(k: nat, a: nat, b: nat)
    requires a <= b
    ensures k * a <= k * b
  {
  }

  /** Magnitudes are ordered by exponent, then fraction. */
  lemma MagnitudeParts(f: Float64)
    ensures Magnitude(f) == Exponent(f) * TWO_52 + Fraction(f) && Exponent(f) < 2048
    ensures IsNegative(f) <==> f >= SIGN_BIT
  {
    var m := Magnitude(f);
    assert m < 2048 * TWO_52;
    assert f == m || f == m + 2048 * TWO_52;
    assert f / TWO_52 == m / TWO_52 || f / TWO_52 == m / TWO_52 + 2048;
    assert f % TWO_52 == m % TWO_52;
  }

  lemma PartsOrder(f: Float64, g: Float64)
    ensures Magnitude(f) < Magnitude(g)
            <==> Exponent(f) < Exponent(g) || (Exponent(f) == Exponent(g) && Fraction(f) < Fraction(g))
  {
    MagnitudeParts(f);
    MagnitudeParts(g);
  }

  lemma SizeOrder(f: Float64, g: Float64)
    ensures Magnitude(f) < Magnitude(g) <==> Size(Exponent(f), Fraction(f)) < Size(Exponent(g), Fraction(g))
  {
    PartsOrder(f, g);
    PartsOrder(g, f);
    hide Size, Magnitude, Exponent;
    if Magnitude(f) < Magnitude(g) {
      SizeGrows(Exponent(f), Fraction(f), Exponent(g), Fraction(g));
    } else if Magnitude(g) < Magnitude(f) {
      SizeGrows(Exponent(g), Fraction(g), Exponent(f), Fraction(f));
    }
  }

  lemma NaNIs(f: Float64)
    ensures IsNaN(f) <==> Magnitude(f) > INFINITY_BITS
    ensures IsFinite(f) <==> Exponent(f) < 2047
  {
    MagnitudeParts(f);
  }

  lemma ZeroIs(f: Float64)
    ensures Magnitude(f) == 0 <==> Size(Exponent(f), Fraction(f)) == 0
  {
    SizeOrder(0, f);
    assert Magnitude(0) == 0 && Size(Exponent(0), Fraction(0)) == 0;
  }

  /** Order keys are ordered as the numbers. */
  lemma OrderIsNumeric(x: Float64, y: Float64)
    ensures OrderKey(x) < OrderKey(y) <==> Less(x, y)
  {
    NaNIs(x);
    NaNIs(y);
    SizeOrder(x, y);
    SizeOrder(y, x);
    ZeroIs(x);
    ZeroIs(y);
    MagnitudeParts(x);
    MagnitudeParts(y);
    hide Size, Exponent, Fraction, IsNaN, IsFinite;
  }

  /** Equal keys are equal numbers: both zeros, one number, or NaN. */
  lemma TiesAreEqual(x: Float64, y: Float64)
    ensures OrderKey(x) == OrderKey(y) <==> !Less(x, y) && !Less(y, x)
  {
    OrderIsNumeric(x, y);
    OrderIsNumeric(y, x);
    hide OrderKey, Less;
  }
}
