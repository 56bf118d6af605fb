/**
 The largest finite value of a small float type, computed directly as the bits of a double.
 Values are integers in units of 2^-1074, the least positive double (section 3.4 of IEEE
 754-2019); every value of a format with at most 11 exponent and 52 mantissa bits is one.
 */
module ScalarMax {
  import opened Wrappers
  import opened Bits
  import opened ScalarTypes

  // ----- what codes mean -----

  /** A code with `width` mantissa bits, in units of the format's own least subnormal. */
  function Scaled(width: nat, e: nat, m: nat): nat {
    if e == 0 then m else (Pow2(width) + m) * Pow2(e - 1)
  }

  /** The double with the given bits, sign bit excluded; its least subnormal is the unit. */
  function DoubleValue(bits: nat): nat {
    Scaled(52, Shr(bits, 52), Mask(bits, 52))
  }

  function ExponentBias(t: ScalarType): nat
    requires t.exponent >= 1
  {
    Pow2(t.exponent - 1) - 1
  }

  /** Formats whose values a double can hold. */
  predicate Representable(t: ScalarType) {
    1 <= t.exponent <= 11 && t.mantissa <= 52 && (t.nanRepr.Ieee754? || t.exponent < 11)
  }

  lemma Powers()
    ensures Pow2(9) == 512 && Pow2(10) == 1024 && Pow2(11) == 2048
  {
    assert Pow2(3) == 8;
    Pow2Adds(3, 6);
    Pow2Adds(3, 7);
    Pow2Adds(3, 8);
    assert Pow2(6) == 64;
  }

  lemma BiasBound(t: ScalarType)
    requires 1 <= t.exponent <= 11
    ensures ExponentBias(t) <= 1023 && (t.exponent < 11 ==> ExponentBias(t) <= 511)
  {
    hide Pow2;
    Powers();
    Pow2Grows(t.exponent - 1, if t.exponent < 11 then 9 else 10);
  }

  /** The value of the code with exponent field `e` and mantissa field `m`. */
  function CodeValue(t: ScalarType, e: nat, m: nat): nat
    requires Representable(t)
  {
    BiasBound(t);
    Shl(Scaled(t.mantissa, e, m), 1075 - ExponentBias(t) - t.mantissa)
  }

  /** The non-negative codes that stand for finite numbers, by the format's NaN convention. */
  predicate IsFinite(t: ScalarType, e: nat, m: nat) {
    && e < Pow2(t.exponent) && m < Pow2(t.mantissa)
    && match t.nanRepr
       case NoNan => true
       case Ieee754 => e != Pow2(t.exponent) - 1
       case ExtdRangeMaxMin => e != Pow2(t.exponent) - 1 || m != Pow2(t.mantissa) - 1
  }

  ghost predicate IsLargest(t: ScalarType, v: nat)
    requires Representable(t)
  {
    && (exists e, m :: IsFinite(t, e, m) && CodeValue(t, e, m) == v)
    && (forall e, m :: IsFinite(t, e, m) ==> CodeValue(t, e, m) <= v)
  }

  // ----- what is computed -----

  function MaxMantissa(t: ScalarType): int {
    Pow2(t.mantissa) - 1 - if t.nanRepr.ExtdRangeMaxMin? then 1 else 0
  }

  function MaxExponent(t: ScalarType): int {
    Pow2(t.exponent) - 2 + if t.nanRepr.Ieee754? then 0 else 1
  }

  /** max_exponent_double */
  function DoubleExponent(t: ScalarType): int
    requires t.exponent >= 1
  {
    MaxExponent(t) - ExponentBias(t) + 1023
  }

  /**
   _floating_point_max_int, with the struct.pack that follows it: `None` is a failed assertion,
   or the struct error for the negative number that a mantissa of 0 bits leads to.
   */
  function FloatingPointMax(t: ScalarType): Option<nat>
    requires t.exponent >= 1
  {
    if !Representable(t) || MaxMantissa(t) < 0 then None
    else
      DoubleExponentRange(t);
      Some(Or(Shl(MaxMantissa(t), 52 - t.mantissa), Shl(DoubleExponent(t), 52)))
  }

  /** The exponent is one of a normal, finite double. */
  lemma DoubleExponentRange(t: ScalarType)
    requires Representable(t)
    ensures 1 <= DoubleExponent(t) <= 2046
    ensures MaxExponent(t) >= 0
    ensures MaxExponent(t) == 0 <==> t.exponent == 1 && t.nanRepr.Ieee754?
  {
    BiasBound(t);
    TopExponent(t);
    assert Pow2(t.exponent) == 2 * Pow2(t.exponent - 1);
  }

  lemma TopExponent(t: ScalarType)
    requires t.exponent >= 1
    ensures MaxExponent(t) >= 0
    ensures MaxExponent(t) == 0 <==> t.exponent == 1 && t.nanRepr.Ieee754?
  {
    if t.exponent >= 2 { Pow2Grows(2, t.exponent); }
  }

  // ----- the top code is the largest -----

  /** Codes are ordered like their values. */
  lemma LargerExponent(width: nat, e: nat, m: nat, e': nat, m': nat)
    requires e < e' && m < Pow2(width)
    ensures Scaled(width, e, m) < Scaled(width, e', m')
  {
    var p := Pow2(width);
    Pow2Grows(e, e' - 1);
    assert Scaled(width, e, m) < p * Pow2(e) by {
      if e > 0 {
        TimesLess(p + m, 2 * p, Pow2(e - 1));
        assert p * (2 * Pow2(e - 1)) == 2 * p * Pow2(e - 1);
      }
    }
    TimesMono(p, p + m', Pow2(e), Pow2(e' - 1));
  }

  lemma TimesLess(a: nat, b: nat, c: nat)
    requires a < b && c > 0
    ensures a * c < b * c
  {
  }

  lemma TimesMono(a: nat, b: nat, c: nat, d: nat)
    requires a <= b && c <= d
    ensures a * c <= b * d
  {
  }

  lemma TopCodeIsLargest(t: ScalarType, e: nat, m: nat)
    requires t.exponent >= 1 && MaxMantissa(t) >= 0 && IsFinite(t, e, m)
    ensures MaxExponent(t) >= 0 && Scaled(t.mantissa, e, m) <= Scaled(t.mantissa, MaxExponent(t), MaxMantissa(t))
  {
    hide Pow2;
    TopExponent(t);
    var e', m' := MaxExponent(t), MaxMantissa(t);
    if e < e' {
      LargerExponent(t.mantissa, e, m, e', m');
    } else {
      assert e == e' && m <= m';
      if e > 0 { TimesMono(Pow2(t.mantissa) + m, Pow2(t.mantissa) + m', Pow2(e - 1), Pow2(e - 1)); }
    }
  }

  // ----- the computed double -----

  /** The bits decode to (2^m + max_mantissa) * 2^(52 - m) * 2^(D - 1). */
  lemma DecodesTo(t: ScalarType)
    requires Representable(t) && MaxMantissa(t) >= 0
    ensures FloatingPointMax(t).Some? && DoubleExponent(t) >= 1
    ensures DoubleValue(FloatingPointMax(t).value) ==
      Shl(Pow2(t.mantissa) + MaxMantissa(t), 52 - t.mantissa + DoubleExponent(t) - 1)
  {
    hide Pow2, Or, Shl;
    DoubleExponentRange(t);
    var k, d := 52 - t.mantissa, DoubleExponent(t);
    var low := Shl(MaxMantissa(t), k);
    ShlAdds(Pow2(t.mantissa), MaxMantissa(t), k, 52);
    OrDisjoint(d, 52, low);
    SplitHighLow(d, 52, low);
    ShlTwice(Pow2(t.mantissa) + MaxMantissa(t), k, d - 1);
    ScaledIsShl(52, d, low);
  }

  lemma ScaledIsShl(width: nat, e: nat, m: nat)
    requires e >= 1
    ensures Scaled(width, e, m) == Shl(Pow2(width) + m, e - 1)
  {
  }

  /** Shifting a full significand up to `n` bits shifts its leading bit and its mantissa. */
  lemma ShlAdds(lead: nat, m: int, k: nat, n: nat)
    requires k <= n && lead == Pow2(n - k) && 0 <= m < lead
    ensures Shl(lead + m, k) == Pow2(n) + Shl(m, k)
    ensures Shl(m, k) < Pow2(n)
  {
    Pow2Adds(n - k, k);
    TimesLess(m, lead, Pow2(k));
    assert (lead + m) * Pow2(k) == lead * Pow2(k) + m * Pow2(k);
  }

  /** The value of the format's own top code. */
  lemma TopCodeValue(t: ScalarType)
    requires Representable(t) && MaxMantissa(t) >= 0 && MaxExponent(t) >= 1
    ensures CodeValue(t, MaxExponent(t), MaxMantissa(t)) ==
      Shl(Pow2(t.mantissa) + MaxMantissa(t), MaxExponent(t) - 1 + 1075 - ExponentBias(t) - t.mantissa)
  {
    hide Pow2, Shl;
    BiasBound(t);
    ScaledIsShl(t.mantissa, MaxExponent(t), MaxMantissa(t));
    ShlTwice(Pow2(t.mantissa) + MaxMantissa(t), MaxExponent(t) - 1, 1075 - ExponentBias(t) - t.mantissa);
  }

  /** With one exponent bit and IEEE NaNs there are only subnormals, and the result lies above them all. */
  lemma OnlySubnormals(t: ScalarType)
    requires Representable(t) && MaxMantissa(t) >= 0 && MaxExponent(t) == 0
    ensures CodeValue(t, 0, MaxMantissa(t)) <
      Shl(Pow2(t.mantissa) + MaxMantissa(t), 52 - t.mantissa + DoubleExponent(t) - 1)
  {
    hide Shl;
    DoubleExponentRange(t);
    assert ExponentBias(t) == 0 && DoubleExponent(t) == 1023;
    var x, k := MaxMantissa(t), 1074 - t.mantissa;
    assert CodeValue(t, 0, x) == Shl(x, k + 1);
    ShlLess(x, Pow2(t.mantissa) + x, k);
  }

  lemma ShlLess(x: nat, y: nat, k: nat)
    requires 2 * x < y
    ensures Shl(x, k + 1) < Shl(y, k)
  {
    TimesLess(2 * x, y, Pow2(k));
    assert x * (2 * Pow2(k)) == 2 * x * Pow2(k);
  }

  /**
   Whenever a maximum is computed it is the largest finite value of the format, unless the
   format has one exponent bit and IEEE NaNs.
   */
  lemma MaxIsLargestIff(t: ScalarType)
    requires t.exponent >= 1
    ensures FloatingPointMax(t).None? <==>
      || t.exponent > 11 || t.mantissa > 52 || (t.exponent == 11 && !t.nanRepr.Ieee754?)
      || (t.mantissa == 0 && t.nanRepr.ExtdRangeMaxMin?)
    ensures FloatingPointMax(t).Some? ==>
      (IsLargest(t, DoubleValue(FloatingPointMax(t).value)) <==> !(t.exponent == 1 && t.nanRepr.Ieee754?))
  {
    hide Shl, Or, CodeValue, DoubleValue, IsFinite, DoubleExponent;
    MantissaLeft(t);
    if FloatingPointMax(t).Some? {
      DoubleExponentRange(t);
      DecodesTo(t);
      var e', m' := MaxExponent(t), MaxMantissa(t);
      forall e, m | IsFinite(t, e, m) ensures CodeValue(t, e, m) <= CodeValue(t, e', m') {
        CodesAreBelowTop(t, e, m);
      }
      TopIsFinite(t);
      if e' == 0 { OnlySubnormals(t); } else { SameExponent(t); }
    }
  }

  /** In the excepted formats the result lies above every finite code. */
  lemma OneExponentBitOvershoots(t: ScalarType, e: nat, m: nat)
    requires t.exponent == 1 && t.nanRepr.Ieee754? && t.mantissa <= 52 && IsFinite(t, e, m)
    ensures FloatingPointMax(t).Some? && CodeValue(t, e, m) < DoubleValue(FloatingPointMax(t).value)
  {
    hide Shl, Or, CodeValue, DoubleValue, IsFinite, DoubleExponent;
    MantissaLeft(t);
    DoubleExponentRange(t);
    DecodesTo(t);
    OnlySubnormals(t);
    CodesAreBelowTop(t, e, m);
  }

  /** One of them: a sign, an exponent and two mantissa bits, whose largest value is 3 * 2^-1. */
  lemma ThreeHalvesOvershot()
    ensures var t := ScalarType(1, 2, true, 0, false, Ieee754);
      IsFinite(t, 0, 3) && FloatingPointMax(t).Some? && !IsLargest(t, DoubleValue(FloatingPointMax(t).value))
  {
    hide Shl, Or, CodeValue, DoubleValue, DoubleExponent, FloatingPointMax;
    var t := ScalarType(1, 2, true, 0, false, Ieee754);
    OneExponentBitOvershoots(t, 0, 3);
    MaxIsLargestIff(t);
  }

  lemma SameExponent(t: ScalarType)
    requires Representable(t) && MaxMantissa(t) >= 0 && MaxExponent(t) >= 1
    ensures FloatingPointMax(t).Some?
    ensures DoubleValue(FloatingPointMax(t).value) == CodeValue(t, MaxExponent(t), MaxMantissa(t))
  {
    hide Pow2, Shl, Or, CodeValue, DoubleValue, MaxExponent, MaxMantissa, ExponentBias;
    BiasBound(t);
    DecodesTo(t);
    TopCodeValue(t);
  }

  lemma CodesAreBelowTop(t: ScalarType, e: nat, m: nat)
    requires Representable(t) && MaxMantissa(t) >= 0 && IsFinite(t, e, m)
    ensures MaxExponent(t) >= 0 && CodeValue(t, e, m) <= CodeValue(t, MaxExponent(t), MaxMantissa(t))
  {
    hide Scaled, IsFinite, MaxExponent, MaxMantissa;
    TopCodeIsLargest(t, e, m);
    BiasBound(t);
    var p := Pow2(1075 - ExponentBias(t) - t.mantissa);
    TimesMono(Scaled(t.mantissa, e, m), Scaled(t.mantissa, MaxExponent(t), MaxMantissa(t)), p, p);
  }

  lemma TopIsFinite(t: ScalarType)
    requires t.exponent >= 1 && MaxMantissa(t) >= 0
    ensures MaxExponent(t) >= 0 && IsFinite(t, MaxExponent(t), MaxMantissa(t))
  {
    TopExponent(t);
  }

  lemma MantissaLeft(t: ScalarType)
    ensures MaxMantissa(t) < 0 <==> t.mantissa == 0 && t.nanRepr.ExtdRangeMaxMin?
  {
    if t.mantissa > 0 { Pow2Grows(1, t.mantissa); }
  }

  // ----- the smallest value -----

  /** A 64-bit double with its sign bit, in units of 2^-1074. */
  function SignedDoubleValue(bits: nat): int {
    WithSign(Shr(bits, 63), DoubleValue(Mask(bits, 63)))
  }

  function WithSign(sign: nat, magnitude: int): int {
    if sign % 2 == 1 then -magnitude else magnitude
  }

  /** _raw_min of a signed float type: the maximum with the sign bit or'ed in. */
  function FloatingPointMin(t: ScalarType): Option<nat>
    requires t.exponent >= 1
  {
    match FloatingPointMax(t)
    case None => None
    case Some(raw) => if t.signed then Some(Or(raw, Shl(1, 63))) else None
  }

  /** The minimum and the maximum are each other's negation. */
  lemma MinIsMinusMax(t: ScalarType)
    requires t.exponent >= 1 && t.signed
    ensures FloatingPointMin(t).Some? <==> FloatingPointMax(t).Some?
    ensures FloatingPointMin(t).Some? ==>
      SignedDoubleValue(FloatingPointMin(t).value) + DoubleValue(FloatingPointMax(t).value) == 0
  {
    hide Shl, Or, DoubleValue, MaxMantissa, Pow2, DoubleExponent;
    if FloatingPointMin(t).Some? {
      var raw := FloatingPointMax(t).value;
      RawFits(t);
      OrDisjoint(1, 63, raw);
      SplitHighLow(1, 63, raw);
    }
  }

  lemma RawFits(t: ScalarType)
    requires t.exponent >= 1 && FloatingPointMax(t).Some?
    ensures FloatingPointMax(t).value < Pow2(63)
  {
    hide Pow2, Or;
    DoubleExponentRange(t);
    var k, d := 52 - t.mantissa, DoubleExponent(t);
    var low := Shl(MaxMantissa(t), k);
    ShlAdds(Pow2(t.mantissa), MaxMantissa(t), k, 52);
    OrDisjoint(d, 52, low);
    Powers();
    Pow2Adds(52, 11);
    TopFits(d, 2048, Pow2(52), low);
  }
}
