/** Exact comparison of a duration ratio against the decimal constants of the
    Morse timing bands.

    The decoder divides one duration by another in double precision and compares
    the quotient with 1.5, 2.0, 2.5, 3.9, 6.0 and 7.9. Here a ratio is kept as the
    pair (numerator, denominator) and every comparison is done by
    cross-multiplication over the integers, which is exact. */
module Ratios {

  type pos = n: int | n > 0 witness 1

  /** The quotient num / den of two durations. */
  datatype Ratio = Ratio(num: nat, den: pos)

  function Min(a: int, b: int): int { if a <= b then a else b }
  function Max(a: int, b: int): int { if a <= b then b else a }

  /** The quotient as a real number, the value the source compares. */
  function Value(r: Ratio): real
  {
    r.num as real / r.den as real
  }

  /** r <= 1.5: one unit (a dot, or the gap inside a letter). */
  predicate UnitBand(r: Ratio)
  {
    2 * r.num <= 3 * r.den
  }

  /** 2.5 <= r <= 3.9: three units (a dash, or the gap between letters). */
  predicate ThreeUnitBand(r: Ratio)
  {
    5 * r.den <= 2 * r.num && 10 * r.num <= 39 * r.den
  }

  /** 6.0 <= r <= 7.9: seven units (the gap between words). */
  predicate SevenUnitBand(r: Ratio)
  {
    6 * r.den <= r.num && 10 * r.num <= 79 * r.den
  }

  /** r >= 2: the two durations are clearly different units. */
  predicate AtLeastDouble(r: Ratio)
  {
    2 * r.den <= r.num
  }

  /** 2.0 <= r < 2.5: a seven-unit to three-unit relation. */
  predicate SevenToThreeBand(r: Ratio)
  {
    2 * r.den <= r.num && 2 * r.num < 5 * r.den
  }

  /** num / den <= p / q, for a positive q, holds exactly when num * q <= p * den. */
  lemma QuotientAtMost(r: Ratio, p: int, q: pos)
    ensures Value(r) <= p as real / q as real <==> r.num * q <= p * r.den
  {
    var x := Value(r);
    assert x * r.den as real == r.num as real;
    var c := p as real / q as real;
    assert c * q as real == p as real;
    if x <= c {
      assert x * r.den as real <= c * r.den as real;
      assert r.num as real * q as real <= c * r.den as real * q as real;
    }
    if r.num * q <= p * r.den {
      assert r.num as real * q as real <= p as real * r.den as real;
      assert x * q as real * r.den as real <= c * q as real * r.den as real;
    }
  }

  /** p / q <= num / den, for a positive q, holds exactly when p * den <= num * q. */
  lemma QuotientAtLeast(r: Ratio, p: int, q: pos)
    ensures p as real / q as real <= Value(r) <==> p * r.den <= r.num * q
  {
    var x := Value(r);
    assert x * r.den as real == r.num as real;
    var c := p as real / q as real;
    assert c * q as real == p as real;
    if c <= x {
      assert c * r.den as real <= x * r.den as real;
      assert c * r.den as real * q as real <= r.num as real * q as real;
    }
    if p * r.den <= r.num * q {
      assert p as real * r.den as real <= r.num as real * q as real;
      assert c * q as real * r.den as real <= x * q as real * r.den as real;
    }
  }

  /** Each integer band is the real-valued comparison of `__calcMorseCodeText` and `__findDotLength`, exactly. */
  lemma BandsMatchRealComparisons(r: Ratio)
    ensures UnitBand(r) <==> Value(r) <= 1.5
    ensures ThreeUnitBand(r) <==> 2.5 <= Value(r) && Value(r) <= 3.9
    ensures SevenUnitBand(r) <==> 6.0 <= Value(r) && Value(r) <= 7.9
    ensures AtLeastDouble(r) <==> 2.0 <= Value(r)
    ensures SevenToThreeBand(r) <==> 2.0 <= Value(r) && Value(r) < 2.5
  {
    QuotientAtMost(r, 3, 2);
    QuotientAtLeast(r, 5, 2);
    QuotientAtMost(r, 39, 10);
    QuotientAtLeast(r, 6, 1);
    QuotientAtMost(r, 79, 10);
    QuotientAtLeast(r, 2, 1);
    QuotientAtMost(r, 5, 2);
    QuotientAtLeast(r, 5, 2);
    assert 3 as real / 2 as real == 1.5;
    assert 5 as real / 2 as real == 2.5;
    assert 39 as real / 10 as real == 3.9;
    assert 6 as real / 1 as real == 6.0;
    assert 79 as real / 10 as real == 7.9;
    assert 2 as real / 1 as real == 2.0;
    if Value(r) < 2.5 {
      assert !(5 * r.den <= 2 * r.num);
    }
    if 2 * r.num < 5 * r.den {
      assert !(Value(r) >= 2.5);
    }
  }
}
