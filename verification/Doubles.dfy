/**
 * What the 64 bits of a double mean (IEEE 754-2019, section 3.4, binary64): a sign, an exponent of
 * 11 bits and a fraction of 52. Every finite double is a whole multiple of 2^-1074, the smallest
 * positive one, and is given here as that multiple.
 */
module Doubles {
  import opened GoTypes

  const FRACTION: nat := 0x10_0000_0000_0000        // 2^52
  const INFINITY: nat := 0x7FF0_0000_0000_0000      // the exponent's bits all ones, the fraction zero

  predicate IsNegative(bits: uint64) {
    bits >= TWO_TO_THE_63
  }

  /** The bits without the sign. */
  function Unsigned(bits: uint64): (r: uint64) {
    bits % TWO_TO_THE_63
  }

  predicate IsNaN(bits: uint64) {
    Unsigned(bits) > INFINITY
  }

  predicate IsFinite(bits: uint64) {
    Unsigned(bits) < INFINITY
  }

  function Pow2(n: nat): (p: nat)
    ensures p >= 1
  {
    if n == 0 then 1 else 2 * Pow2(n - 1)
  }

  /**
   * The magnitude in units of 2^-1074: the fraction alone below the first exponent, with an implicit
   * leading 1 from there on.
   */
  function Magnitude(u: nat): nat {
    var exponent, fraction := u / FRACTION, u % FRACTION;
    if exponent == 0 then fraction else (FRACTION + fraction) * Pow2(exponent - 1)
  }

  function Value(bits: uint64): int
    requires IsFinite(bits)
  {
    if IsNegative(bits) then 0 - Magnitude(Unsigned(bits)) else Magnitude(Unsigned(bits))
  }

  /** The unit: 1.0 is this many times 2^-1074. */
  ghost function One(): nat {
    Pow2(1074)
  }

  /** A number, and not outside [0, 100]. */
  ghost predicate InRange(bits: uint64) {
    IsFinite(bits) && 0 <= Value(bits) <= 100 * One()
  }

  lemma {:induction false} PowPlus(m: nat, n: nat)
    ensures Pow2(m + n) == Pow2(m) * Pow2(n)
  {
    if m > 0 {
      PowPlus(m - 1, n);
    }
  }

  /** Magnitudes are ordered as the bits are. */
  lemma {:induction false} MagnitudeMonotone(u: nat, v: nat)
    requires u < v
    ensures Magnitude(u) < Magnitude(v)
    decreases v
  {
    MagnitudeStep(v - 1);
    if u < v - 1 {
      MagnitudeMonotone(u, v - 1);
    }
  }

  /** The next bit pattern is the next larger double, across a change of exponent too. */
  lemma MagnitudeStep(u: nat)
    ensures Magnitude(u) < Magnitude(u + 1)
  {
    var e, f := u / FRACTION, u % FRACTION;
    if f + 1 < FRACTION {
      assert (u + 1) / FRACTION == e && (u + 1) % FRACTION == f + 1;
      if e > 0 {
        assert (FRACTION + f + 1) * Pow2(e - 1) == (FRACTION + f) * Pow2(e - 1) + Pow2(e - 1);
      }
    } else {
      assert (u + 1) / FRACTION == e + 1 && (u + 1) % FRACTION == 0;
      if e > 0 {
        assert Pow2(e) == 2 * Pow2(e - 1);
        assert FRACTION * (2 * Pow2(e - 1)) == (FRACTION + f) * Pow2(e - 1) + Pow2(e - 1);
      }
    }
  }

  /** 0x4059000000000000 is 100.0. */
  lemma Hundred()
    ensures Magnitude(0x4059_0000_0000_0000) == 100 * One()
  {
    hide Pow2;
    var u := 0x4059_0000_0000_0000;
    assert u / FRACTION == 1029 && u % FRACTION == 9 * 0x1_0000_0000_0000;
    SmallPowers();
    PowPlus(48, 1028);
    PowPlus(2, 1074);
    assert Magnitude(u) == 25 * (Pow2(48) * Pow2(1028));
  }

  /** 0x3FF0000000000000 is 1.0, 0xBFF8000000000000 is -1.5, and 1 is the smallest positive double. */
  lemma UnitValues()
    ensures Value(0x3FF0_0000_0000_0000) == One() && 2 * Value(0xBFF8_0000_0000_0000) == -3 * One() && Value(1) == 1
  {
    hide Pow2;
    SmallPowers();
    EightMore(48);
    PowPlus(48, 1026);
    PowPlus(4, 1022);
    assert Pow2(4) == 16 by { PowPlus(2, 2); }
    assert 0x3FF0_0000_0000_0000 / FRACTION == 1023 && 0x3FF0_0000_0000_0000 % FRACTION == 0;
    assert 0x3FF8_0000_0000_0000 / FRACTION == 1023 && 2 * (0x3FF8_0000_0000_0000 % FRACTION) == FRACTION;
    assert FRACTION * Pow2(1022) == 0x1_0000_0000_0000 * (16 * Pow2(1022));
  }

  lemma EightMore(n: nat)
    ensures Pow2(n + 8) == 0x100 * Pow2(n)
  {
    assert Pow2(n + 4) == 16 * Pow2(n) by { assert Pow2(n + 2) == 4 * Pow2(n); }
    assert Pow2(n + 6) == 4 * Pow2(n + 4);
  }

  lemma SmallPowers()
    ensures Pow2(2) == 4 && Pow2(48) == 0x1_0000_0000_0000
  {
    assert Pow2(0) == 1 && Pow2(2) == 4;
    hide Pow2;
    EightMore(0);
    EightMore(8);
    EightMore(16);
    EightMore(24);
    EightMore(32);
    EightMore(40);
  }

  /** The bit comparisons `< 0` and `> 100` say of every finite double what they should. */
  lemma Comparisons(bits: uint64)
    requires IsFinite(bits)
    ensures Value(bits) < 0 <==> TWO_TO_THE_63 < bits
    ensures Value(bits) > 100 * One() <==> 0x4059_0000_0000_0000 < bits < TWO_TO_THE_63
    ensures Value(bits) == 0 <==> bits == 0 || bits == TWO_TO_THE_63
  {
    hide Pow2;
    var u := Unsigned(bits);
    Hundred();
    assert Magnitude(0) == 0;
    if u > 0 {
      MagnitudeMonotone(0, u);
    }
    if u < 0x4059_0000_0000_0000 {
      MagnitudeMonotone(u, 0x4059_0000_0000_0000);
    } else if u > 0x4059_0000_0000_0000 {
      MagnitudeMonotone(0x4059_0000_0000_0000, u);
    }
  }
}
