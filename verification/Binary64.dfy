/** Binary64 numbers as exact reals, and which bit patterns pass the deadline test. */
module Binary64 {

  const EXPONENT_UNIT: nat := 0x10_0000_0000_0000
  const SIGN_UNIT: nat := 0x8000_0000_0000_0000

  /** A 64-bit pattern. */
  type Bits = n: nat | n <= 0xFFFF_FFFF_FFFF_FFFF

  function PowerOfTwo(e: int): real
    decreases if e < 0 then -e else e
  {
    if e == 0 then 1.0 else if e > 0 then 2.0 * PowerOfTwo(e - 1) else PowerOfTwo(e + 1) / 2.0
  }

  /** A number is finite unless every exponent bit is set. */
  predicate IsFinite(bits: Bits) {
    bits / EXPONENT_UNIT % 0x800 != 0x7FF
  }

  /** The magnitude of a finite number, from its exponent and fraction. */
  function Magnitude(exponent: nat, fraction: nat): real {
    if exponent == 0 then fraction as real * PowerOfTwo(-1074)
    else (fraction + EXPONENT_UNIT) as real * PowerOfTwo(exponent - 1075)
  }

  /** The number that a finite pattern stands for. */
  function DoubleValue(bits: Bits): real {
    var magnitude := Magnitude(bits / EXPONENT_UNIT % 0x800, bits % EXPONENT_UNIT);
    if bits / SIGN_UNIT % 2 == 1 then -magnitude else magnitude
  }

  /** A deadline the scheduler could have written: `-1.0`, or a time of at most twelve decimal digits. */
  predicate PlausibleDeadline(bits: Bits) {
    IsFinite(bits) && (DoubleValue(bits) == -1.0 || 0.0 <= DoubleValue(bits) < 1.0e12)
  }

  // ----- Powers of two -----

  lemma {:induction false} Doubles(e: int)
    ensures PowerOfTwo(e + 1) == 2.0 * PowerOfTwo(e)
  {
  }

  lemma {:induction false} IsPositive(e: int)
    ensures PowerOfTwo(e) > 0.0
    decreases if e < 0 then -e else e
  {
    if e > 0 {
      IsPositive(e - 1);
    } else if e < 0 {
      IsPositive(e + 1);
    }
  }

  lemma {:induction false} Grows(a: int, b: int)
    requires a <= b
    ensures PowerOfTwo(a) <= PowerOfTwo(b)
    decreases b - a
  {
    if a < b {
      Doubles(a);
      IsPositive(a);
      Grows(a + 1, b);
    }
  }

  lemma Octuples(e: int)
    ensures PowerOfTwo(e + 4) == 16.0 * PowerOfTwo(e)
  {
    Doubles(e);
    Doubles(e + 1);
    Doubles(e + 2);
    Doubles(e + 3);
  }

  /** The powers that the constants of the test need. */
  lemma SmallPowers()
    ensures 8192.0 * PowerOfTwo(-13) == 1.0
    ensures EXPONENT_UNIT as real * PowerOfTwo(-52) == 1.0
  {
    Octuples(-4);
    Octuples(-8);
    Octuples(-12);
    Doubles(-13);
    assert 4096.0 * PowerOfTwo(-12) == 1.0;
    Octuples(-16);
    Octuples(-20);
    Octuples(-24);
    Octuples(-28);
    Octuples(-32);
    Octuples(-36);
    Octuples(-40);
    Octuples(-44);
    Octuples(-48);
    Octuples(-52);
  }

  // ----- Patterns are ordered as their magnitudes -----

  lemma FractionBelowNext(exponent: nat, fraction: nat)
    requires fraction < EXPONENT_UNIT
    ensures 0.0 <= Magnitude(exponent, fraction) < Magnitude(exponent + 1, 0)
  {
    IsPositive(-1074);
    IsPositive(exponent - 1075);
    Doubles(exponent - 1075);
    if exponent == 0 {
      Scale(fraction as real, EXPONENT_UNIT as real, PowerOfTwo(-1074));
    } else {
      var unit, power := EXPONENT_UNIT as real, PowerOfTwo(exponent - 1075);
      var significand, double := (fraction + EXPONENT_UNIT) as real, 2.0 * unit;
      Scale(significand, double, power);
      Regroup(unit, power);
      assert Magnitude(exponent, fraction) == significand * power;
      assert Magnitude(exponent + 1, 0) == unit * (2.0 * power) by {
        assert PowerOfTwo(exponent + 1 - 1075) == 2.0 * power;
      }
    }
  }

  lemma Regroup(x: real, y: real)
    ensures x * (2.0 * y) == 2.0 * x * y
  {
  }

  lemma Product(x: real, y: real)
    requires x >= 0.0 && y > 0.0
    ensures x * y >= 0.0 && (x > 0.0 ==> x * y > 0.0)
  {
  }

  lemma Distributes(x: real, y: real, factor: real)
    ensures (x - y) * factor == x * factor - y * factor
  {
  }

  lemma Scale(a: real, b: real, factor: real)
    requires 0.0 <= a < b && factor > 0.0
    ensures 0.0 <= a * factor < b * factor
  {
    Product(a, factor);
    Product(b - a, factor);
    Distributes(b, a, factor);
  }

  lemma SameExponent(exponent: nat, f: nat, g: nat)
    requires f < g
    ensures Magnitude(exponent, f) < Magnitude(exponent, g)
  {
    IsPositive(-1074);
    IsPositive(exponent - 1075);
    if exponent == 0 {
      Scale(f as real, g as real, PowerOfTwo(-1074));
    } else {
      Scale((f + EXPONENT_UNIT) as real, (g + EXPONENT_UNIT) as real, PowerOfTwo(exponent - 1075));
    }
  }

  lemma {:induction false} Starts(d: nat, e: nat)
    requires 1 <= d <= e
    ensures Magnitude(d, 0) <= Magnitude(e, 0)
    decreases e - d
  {
    if d < e {
      FractionBelowNext(d, 0);
      Starts(d + 1, e);
    }
  }

  /** A larger exponent, or the same with a larger fraction, makes a larger magnitude. */
  lemma MagnitudeGrows(d: nat, f: nat, e: nat, g: nat)
    requires f < EXPONENT_UNIT && g < EXPONENT_UNIT
    requires d < e || (d == e && f < g)
    ensures Magnitude(d, f) < Magnitude(e, g)
  {
    if d == e {
      SameExponent(d, f, g);
    } else {
      FractionBelowNext(d, f);
      Starts(d + 1, e);
      if g > 0 {
        SameExponent(e, 0, g);
      }
    }
  }

  /** The magnitudes of the constants of the test. */
  lemma Landmarks()
    ensures Magnitude(0, 0) == 0.0
    ensures Magnitude(0x3FF, 0) == 1.0
    ensures Magnitude(0x426, 0xD_1A94_A200_0000) == 1.0e12
  {
    SmallPowers();
  }

  /** A pattern is its sign, exponent and fraction side by side. */
  lemma Parts(bits: Bits)
    ensures var sign, exponent, fraction := bits / SIGN_UNIT % 2, bits / EXPONENT_UNIT % 0x800, bits % EXPONENT_UNIT;
            bits == sign * SIGN_UNIT + exponent * EXPONENT_UNIT + fraction && bits / SIGN_UNIT < 2
  {
    var top := bits / EXPONENT_UNIT;
    assert bits == top * EXPONENT_UNIT + bits % EXPONENT_UNIT;
    assert top == top / 0x800 * 0x800 + top % 0x800;
    assert bits / SIGN_UNIT == top / 0x800;
  }

  /** Against a landmark, magnitudes compare as exponents and fractions side by side do. */
  lemma Compares(d: nat, f: nat, e: nat, g: nat)
    requires f < EXPONENT_UNIT && g < EXPONENT_UNIT
    ensures Magnitude(d, f) < Magnitude(e, g) <==> d * EXPONENT_UNIT + f < e * EXPONENT_UNIT + g
    ensures Magnitude(d, f) == Magnitude(e, g) <==> d * EXPONENT_UNIT + f == e * EXPONENT_UNIT + g
  {
    if d < e || (d == e && f < g) {
      MagnitudeGrows(d, f, e, g);
    } else if e < d || (e == d && g < f) {
      MagnitudeGrows(e, g, d, f);
    }
  }

  /**
   The deadline test on the raw bits: exactly `-1.0`, negative zero, and the patterns below that of `1.0e12` pass, so
   that no pattern with all exponent bits set does.
   */
  lemma PlausibleBits(bits: Bits)
    ensures PlausibleDeadline(bits)
       <==> bits == 0xBFF0_0000_0000_0000 || bits == 0x8000_0000_0000_0000 || bits < 0x426D_1A94_A200_0000
  {
    hide Magnitude, PowerOfTwo;
    var exponent, fraction := bits / EXPONENT_UNIT % 0x800, bits % EXPONENT_UNIT;
    Parts(bits);
    Landmarks();
    Compares(exponent, fraction, 0, 0);
    Compares(exponent, fraction, 0x3FF, 0);
    Compares(exponent, fraction, 0x426, 0xD_1A94_A200_0000);
  }
}
