/** The largest and smallest values of a scalar type, through the bit pattern of a double. */
module FloatLimits {
  import opened Bits
  import opened ScalarTypes

  // ----- what encodings mean

  /** x times two to the power k. */
  function Scaled(x: real, k: int): real
    decreases if k < 0 then -k else k
  {
    if k == 0 then x else if k > 0 then 2.0 * Scaled(x, k - 1) else Scaled(x, k + 1) / 2.0
  }

  /** Multiplication of reals, named so that proofs need not look into it. */
  function Product(x: real, y: real): real { x * y }

  lemma {:induction false} ScaledIsTimes(x: real, k: nat)
    ensures Scaled(x, k) == Product(x, Pow2(k) as real)
  {
    if k > 0 {
      ScaledIsTimes(x, k - 1);
      TwiceProduct(x, Pow2(k - 1) as real);
    }
  }

  lemma TwiceProduct(x: real, y: real)
    ensures Product(x, 2.0 * y) == 2.0 * Product(x, y)
  {
  }

  lemma {:induction false} ScaledAgain(x: real, k: int, n: nat)
    ensures Scaled(Scaled(x, k), n) == Scaled(x, k + n)
  {
    if n > 0 {
      ScaledAgain(x, k, n - 1);
      DoubleScaled(x, k + n - 1);
    }
  }

  lemma DoubleScaled(x: real, k: int)
    ensures 2.0 * Scaled(x, k) == Scaled(x, k + 1)
  {
  }

  /** What scaling means, without negative powers: x times two to the power up - down. */
  lemma ScaledBetween(x: real, up: nat, down: nat)
    ensures Scaled(x, up - down) * Pow2(down) as real == x * Pow2(up) as real
  {
    ScaledProduct(x, up, down);
  }

  lemma ScaledProduct(x: real, up: nat, down: nat)
    ensures Product(Scaled(x, up - down), Pow2(down) as real) == Product(x, Pow2(up) as real)
  {
    hide Scaled, Product;
    ScaledAgain(x, up - down, down);
    ScaledIsTimes(Scaled(x, up - down), down);
    ScaledIsTimes(x, up);
  }

  datatype Decoded = Finite(value: real) | Infinite | NotANumber

  function ExponentBias(exponentBits: nat): nat
    requires exponentBits >= 1
  {
    Pow2(exponentBits - 1) - 1
  }

  /** The magnitude of a finite code: subnormal when the exponent field is zero, else with a leading one. */
  function Magnitude(exponentBits: nat, mantissaBits: nat, e: nat, m: nat): real
    requires exponentBits >= 1
  {
    var bias := ExponentBias(exponentBits);
    if e == 0 then Scaled(m as real, 1 - bias - mantissaBits)
    else Scaled((Pow2(mantissaBits) + m) as real, e - bias - mantissaBits)
  }

  function Signed(negative: bool, magnitude: real): real { if negative then -magnitude else magnitude }

  /** The IEEE 754 value with these bits: sign, exponent, mantissa from the top. */
  function IeeeDecode(exponentBits: nat, mantissaBits: nat, bits: nat): Decoded
    requires exponentBits >= 1
  {
    var m, upper := LowBits(bits, mantissaBits), Shr(bits, mantissaBits);
    var e, negative := LowBits(upper, exponentBits), Shr(upper, exponentBits) % 2 == 1;
    if e == Pow2(exponentBits) - 1 then (if m == 0 then Infinite else NotANumber)
    else Finite(Signed(negative, Magnitude(exponentBits, mantissaBits, e, m)))
  }

  /** A double, as struct.unpack reads it. */
  function Double(bits: nat): Decoded { IeeeDecode(11, 52, bits) }

  /** What both constructor functions demand of a floating type. */
  predicate FloatType(t: ScalarType) { t.exponent >= 1 && t.mantissa >= 1 }

  predicate IsCode(t: ScalarType, e: nat, m: nat) { e < Pow2(t.exponent) && m < Pow2(t.mantissa) }

  /** What a code of the type stands for, as the NaN rules are documented. IEEE 754 types have infinities;
      beside the other rules no code is documented for one, whatever the type says about finite values. */
  function Decode(t: ScalarType, negative: bool, e: nat, m: nat): Decoded
    requires t.exponent >= 1 && IsCode(t, e, m)
  {
    var topE, topM := e == Pow2(t.exponent) - 1, m == Pow2(t.mantissa) - 1;
    match t.nanRepr
    case IEEE_754 => if !topE then FiniteCode(t, negative, e, m) else if m == 0 then Infinite else NotANumber
    case EXTD_RANGE_MAX_MIN => if topE && topM then NotANumber else FiniteCode(t, negative, e, m)
    case NONE => FiniteCode(t, negative, e, m)
  }

  function FiniteCode(t: ScalarType, negative: bool, e: nat, m: nat): Decoded
    requires t.exponent >= 1
  {
    Finite(Signed(negative, Magnitude(t.exponent, t.mantissa, e, m)))
  }

  /** The size of the value of a code, in plain multiplication. */
  lemma MagnitudeMeans(exponentBits: nat, mantissaBits: nat, e: nat, m: nat)
    requires exponentBits >= 1
    ensures Magnitude(exponentBits, mantissaBits, e, m) * Pow2(Pow2(exponentBits - 1) - 1 + mantissaBits) as real
      == if e == 0 then m as real * 2.0 else (Pow2(mantissaBits) + m) as real * Pow2(e) as real
  {
    MagnitudeProduct(exponentBits, mantissaBits, e, m);
  }

  lemma MagnitudeProduct(exponentBits: nat, mantissaBits: nat, e: nat, m: nat)
    requires exponentBits >= 1
    ensures var scale := Pow2(Pow2(exponentBits - 1) - 1 + mantissaBits);
      Product(Magnitude(exponentBits, mantissaBits, e, m), scale as real) ==
        if e == 0 then Product(m as real, 2.0)
        else Product((Pow2(mantissaBits) + m) as real, Pow2(e) as real)
  {
    assert Pow2(1) == 2 * Pow2(0) == 2;
    hide Scaled, Product, Pow2;
    var down := ExponentBias(exponentBits) + mantissaBits;
    if e == 0 {
      ScaledProduct(m as real, 1, down);
    } else {
      ScaledProduct((Pow2(mantissaBits) + m) as real, e, down);
    }
  }

  /** What every code of a type stands for, in plain terms: the codes without a finite value. */
  lemma DecodeMeans(t: ScalarType, negative: bool, e: nat, m: nat)
    requires t.exponent >= 1 && IsCode(t, e, m)
    ensures t.nanRepr == IEEE_754 && e + 1 == Pow2(t.exponent) && m == 0 ==> Decode(t, negative, e, m) == Infinite
    ensures t.nanRepr == IEEE_754 && e + 1 == Pow2(t.exponent) && m > 0 ==> Decode(t, negative, e, m) == NotANumber
    ensures t.nanRepr == EXTD_RANGE_MAX_MIN && e + 1 == Pow2(t.exponent) && m + 1 == Pow2(t.mantissa) ==>
      Decode(t, negative, e, m) == NotANumber
    ensures Decode(t, negative, e, m).Finite? <==>
      && (t.nanRepr == IEEE_754 ==> e + 1 < Pow2(t.exponent))
      && (t.nanRepr == EXTD_RANGE_MAX_MIN ==> e + 1 < Pow2(t.exponent) || m + 1 < Pow2(t.mantissa))
  {
  }

  /** And the codes with one: twice the mantissa for a subnormal, else one with a leading one, over the scale. */
  lemma DecodedValue(t: ScalarType, e: nat, m: nat)
    requires t.exponent >= 1 && IsCode(t, e, m) && Decode(t, false, e, m).Finite?
    ensures Decode(t, false, e, m).value * Pow2(Pow2(t.exponent - 1) - 1 + t.mantissa) as real
      == if e == 0 then m as real * 2.0 else (Pow2(t.mantissa) + m) as real * Pow2(e) as real
    ensures Decode(t, true, e, m) == Finite(-Decode(t, false, e, m).value)
  {
    hide Magnitude, Scaled, Pow2;
    MagnitudeMeans(t.exponent, t.mantissa, e, m);
    assert Decode(t, false, e, m).value == Magnitude(t.exponent, t.mantissa, e, m);
  }

  /** v is a value of the type, and no finite value of the type is larger. */
  ghost predicate IsLargest(t: ScalarType, v: real)
    requires t.exponent >= 1
  {
    && (exists s, e, m :: IsCode(t, e, m) && Decode(t, s, e, m) == Finite(v))
    && (forall s, e, m :: IsCode(t, e, m) && Decode(t, s, e, m).Finite? ==> Decode(t, s, e, m).value <= v)
  }

  ghost predicate IsSmallest(t: ScalarType, v: real)
    requires t.exponent >= 1
  {
    && (exists s, e, m :: IsCode(t, e, m) && Decode(t, s, e, m) == Finite(v))
    && (forall s, e, m :: IsCode(t, e, m) && Decode(t, s, e, m).Finite? ==> v <= Decode(t, s, e, m).value)
  }

  // ----- the computed bit pattern

  function MaxMantissa(t: ScalarType): nat
    requires FloatType(t)
  {
    assert Pow2(t.mantissa) == 2 * Pow2(t.mantissa - 1);
    Pow2(t.mantissa) - 1 - if t.nanRepr.EXTD_RANGE_MAX_MIN? then 1 else 0
  }

  function MaxExponent(t: ScalarType): (e: nat)
    requires FloatType(t)
    ensures ExponentBias(t.exponent) <= e <= 2 * ExponentBias(t.exponent) + 1
  {
    assert Pow2(t.exponent) == 2 * Pow2(t.exponent - 1);
    Pow2(t.exponent) - 2 + if t.nanRepr.IEEE_754? then 0 else 1
  }

  /** A wider IEEE format can represent the largest value. */
  predicate CanHold(t: ScalarType, exponentBits: nat, mantissaBits: nat) {
    && t.mantissa <= mantissaBits && t.exponent <= exponentBits
    && (!t.nanRepr.IEEE_754? ==> t.exponent < exponentBits)
  }

  function WideExponent(t: ScalarType, exponentBits: nat): nat
    requires FloatType(t) && exponentBits >= 1
  {
    MaxExponent(t) - ExponentBias(t.exponent) + ExponentBias(exponentBits)
  }

  /** The largest code of t, with its fields moved to where a wider format has them. */
  function WideBits(t: ScalarType, exponentBits: nat, mantissaBits: nat): nat
    requires FloatType(t) && CanHold(t, exponentBits, mantissaBits)
  {
    Shl(MaxMantissa(t), mantissaBits - t.mantissa) + Shl(WideExponent(t, exponentBits), mantissaBits)
  }

  /** The assertions of the computation: what a double can represent. */
  predicate DoubleCanHold(t: ScalarType) { CanHold(t, 11, 52) }

  function MaxBits(t: ScalarType): nat
    requires FloatType(t) && DoubleCanHold(t)
  {
    WideBits(t, 11, 52)
  }

  method FloatingPointMaxInt(t: ScalarType) returns (r: Result<nat>)
    requires FloatType(t)
    ensures r == if DoubleCanHold(t) then Ok(MaxBits(t)) else AssertionError
  {
    if !(t.mantissa <= 52 && t.exponent <= 11) {
      return AssertionError;
    }
    hide BitOr, Pow2, MaxBits, WideBits;
    Ones(t);
    var maxMantissa := Shl(1, t.mantissa) - 1;
    if t.nanRepr == EXTD_RANGE_MAX_MIN {
      maxMantissa := maxMantissa - 1;
    }
    var maxExponent := Shl(1, t.exponent) - 2;
    if t.nanRepr == EXTD_RANGE_MAX_MIN || t.nanRepr == NONE {
      if !(t.exponent < 11) {
        return AssertionError;
      }
      maxExponent := maxExponent + 1;
    }
    var exponentBias := Shl(1, t.exponent - 1) - 1;
    var exponentBiasDouble := Shl(1, 10) - 1;
    var maxExponentDouble := maxExponent - exponentBias + exponentBiasDouble;
    PatternIsMaxBits(t, maxMantissa, maxExponentDouble);
    return Ok(BitOr(Shl(maxMantissa, 52 - t.mantissa), Shl(maxExponentDouble, 52)));
  }

  /** The shifted ones of the computation, in terms of the type. */
  lemma Ones(t: ScalarType)
    requires FloatType(t)
    ensures MaxMantissa(t) == Shl(1, t.mantissa) - 1 - if t.nanRepr.EXTD_RANGE_MAX_MIN? then 1 else 0
    ensures MaxExponent(t) == Shl(1, t.exponent) - 2 + if t.nanRepr.IEEE_754? then 0 else 1
    ensures Shl(1, t.exponent - 1) >= 1 && ExponentBias(t.exponent) == Shl(1, t.exponent - 1) - 1
    ensures Shl(1, 10) >= 1 && ExponentBias(11) == Shl(1, 10) - 1
  {
    OnesBelow(t.mantissa);
    OnesBelow(t.exponent);
    OnesBelow(t.exponent - 1);
    OnesBelow(10);
  }

  lemma PatternIsMaxBits(t: ScalarType, maxMantissa: nat, maxExponentDouble: nat)
    requires FloatType(t) && DoubleCanHold(t)
    requires maxMantissa == MaxMantissa(t) && maxExponentDouble == WideExponent(t, 11)
    ensures BitOr(Shl(maxMantissa, 52 - t.mantissa), Shl(maxExponentDouble, 52)) == MaxBits(t)
  {
    FieldsDoNotOverlap(maxMantissa, t.mantissa, maxExponentDouble, 52);
  }

  lemma FieldsDoNotOverlap(m: nat, bits: nat, e: nat, wide: nat)
    requires bits <= wide && m < Pow2(bits)
    ensures BitOr(Shl(m, wide - bits), Shl(e, wide)) == Shl(m, wide - bits) + Shl(e, wide)
  {
    ShlBound(m, bits, wide - bits);
    OrOfFields(Shl(m, wide - bits), e, wide);
  }

  lemma OnesBelow(n: nat)
    ensures Shl(1, n) == Pow2(n) && (n >= 1 ==> Pow2(n) == 2 * Pow2(n - 1))
    ensures n == 10 ==> Pow2(n) == 1024
  {
    ShlPow2(0, n);
  }

  // ----- reading the pattern back

  lemma {:induction false} ScaledShl(x: nat, n: nat, k: int)
    ensures Scaled(Shl(x, n) as real, k) == Scaled(x as real, k + n)
    decreases n
  {
    if n > 0 {
      ScaledShl(x, n - 1, k + 1);
      ScaledTwice(Shl(x, n - 1) as real, k);
    }
  }

  lemma {:induction false} ScaledTwice(x: real, k: int)
    ensures Scaled(2.0 * x, k) == Scaled(x, k + 1)
    decreases if k < 0 then -k else k
  {
    if k > 0 {
      ScaledTwice(x, k - 1);
    } else if k < 0 {
      ScaledTwice(x, k + 1);
    }
  }

  lemma {:induction false} ScaledMonotone(x: real, y: real, k: int)
    ensures x < y ==> Scaled(x, k) < Scaled(y, k)
    ensures x == 0.0 ==> Scaled(x, k) == 0.0
    decreases if k < 0 then -k else k
  {
    if k > 0 {
      ScaledMonotone(x, y, k - 1);
    } else if k < 0 {
      ScaledMonotone(x, y, k + 1);
    }
  }

  /** A magnitude counted in the smallest steps of the format. */
  function Steps(mantissaBits: nat, e: nat, m: nat): nat {
    if e == 0 then m else Shl(Pow2(mantissaBits) + m, e - 1)
  }

  lemma MagnitudeInSteps(exponentBits: nat, mantissaBits: nat, e: nat, m: nat)
    requires exponentBits >= 1
    ensures Magnitude(exponentBits, mantissaBits, e, m) ==
      Scaled(Steps(mantissaBits, e, m) as real, 1 - ExponentBias(exponentBits) - mantissaBits)
  {
    if e > 0 {
      ScaledShl(Pow2(mantissaBits) + m, e - 1, 1 - ExponentBias(exponentBits) - mantissaBits);
    }
  }

  lemma TwiceAsMuch(n: nat)
    ensures Pow2(n + 1) == 2 * Pow2(n)
  {
  }

  /** Codes are ordered first by exponent, then by mantissa; subnormals lie below all others. */
  lemma StepsOrder(mantissaBits: nat, e: nat, m: nat, e': nat, m': nat)
    requires m < Pow2(mantissaBits) && 1 <= e'
    requires e < e' || (e == e' && m <= m')
    ensures Steps(mantissaBits, e, m) <= Steps(mantissaBits, e', m')
  {
    hide Shl, Pow2;
    var p := Pow2(mantissaBits);
    if e == e' {
      ShlAdd(p + m, m' - m, e - 1);
    } else {
      ShlAdd(p, m', e' - 1);
      ShlPow2(mantissaBits, e' - 1);
      Pow2Grows(mantissaBits + e, mantissaBits + (e' - 1));
      if e == 0 {
        Pow2Grows(mantissaBits, mantissaBits + (e' - 1));
      } else {
        TwiceAsMuch(mantissaBits);
        ShlBound(p + m, mantissaBits + 1, e - 1);
      }
    }
  }

  function LargestMagnitude(t: ScalarType): real
    requires FloatType(t)
  {
    Scaled((Pow2(t.mantissa) + MaxMantissa(t)) as real, MaxExponent(t) - ExponentBias(t.exponent) - t.mantissa)
  }

  /** The exponent field of the wider format is that of a normal number. */
  lemma WideExponentIsNormal(t: ScalarType, exponentBits: nat)
    requires FloatType(t) && t.exponent <= exponentBits && (!t.nanRepr.IEEE_754? ==> t.exponent < exponentBits)
    ensures ExponentBias(exponentBits) <= WideExponent(t, exponentBits) < Pow2(exponentBits) - 1
    ensures WideExponent(t, exponentBits) >= 1 || (t.exponent == exponentBits == 1)
  {
    OnesBelow(t.exponent);
    OnesBelow(exponentBits);
    Pow2Grows(t.exponent - 1, exponentBits - 1);
    if !t.nanRepr.IEEE_754? {
      OnesBelow(exponentBits - 1);
      Pow2Grows(t.exponent - 1, exponentBits - 2);
    } else if exponentBits >= 2 {
      OnesBelow(exponentBits - 1);
    }
  }

  lemma IeeeFields(exponentBits: nat, mantissaBits: nat, m: nat, e: nat, negative: bool)
    requires exponentBits >= 1 && m < Pow2(mantissaBits) && e < Pow2(exponentBits) - 1
    ensures IeeeDecode(exponentBits, mantissaBits,
                       m + Shl(e, mantissaBits) + if negative then Shl(1, exponentBits + mantissaBits) else 0)
      == Finite(Signed(negative, Magnitude(exponentBits, mantissaBits, e, m)))
  {
    var s := if negative then 1 else 0;
    ShlAdd(e, Shl(s, exponentBits), mantissaBits);
    ShlShl(s, exponentBits, mantissaBits);
    if !negative { ShlIsTimes(0, exponentBits + mantissaBits); }
    CutJoined(m, e + Shl(s, exponentBits), mantissaBits);
    CutJoined(e, s, exponentBits);
  }

  /** A double, field by field: 52 bits of mantissa, 11 of exponent, and the sign on top. */
  lemma DoubleMeans(m: nat, e: nat, negative: bool)
    requires m < 0x10_0000_0000_0000 && e <= 2047
    ensures var bits := m + 0x10_0000_0000_0000 * e + if negative then 0x8000_0000_0000_0000 else 0;
      Double(bits) == if e < 2047 then Finite(if negative then -Magnitude(11, 52, e, m) else Magnitude(11, 52, e, m))
                      else if m == 0 then Infinite else NotANumber
  {
    DoublePowers();
    hide Pow2, Scaled, Magnitude, Shl, Shr, LowBits;
    var s := if negative then 1 else 0;
    ShlIsTimes(e, 52);
    ShlPow2(0, 63);
    ShlPow2(0, 11);
    ShlIsTimes(0, 11);
    ShlIsTimes(0, 63);
    ShlAdd(e, Shl(s, 11), 52);
    ShlShl(s, 11, 52);
    CutJoined(m, e + Shl(s, 11), 52);
    CutJoined(e, s, 11);
  }

  lemma SmallPowers()
    ensures Pow2(0) == 1 && Pow2(1) == 2 && Pow2(11) == 0x800 && Pow2(13) == 0x2000
  {
  }

  lemma DoublePowers()
    ensures Pow2(0) == 1 && Pow2(11) == 0x800
    ensures Pow2(52) == 0x10_0000_0000_0000 && Pow2(63) == 0x8000_0000_0000_0000
  {
    SmallPowers();
    hide Pow2;
    Pow2Add(13, 13);
    Pow2Add(26, 26);
    Pow2Add(52, 11);
  }

  /** Shifting the mantissa to the width of a wider format keeps the magnitude. */
  lemma MagnitudeOfPattern(exponentBits: nat, mantissaBits: nat, bits: nat, m: nat, e: nat)
    requires exponentBits >= 1 && bits <= mantissaBits && e >= 1
    ensures Magnitude(exponentBits, mantissaBits, e, Shl(m, mantissaBits - bits)) ==
      Scaled((Pow2(bits) + m) as real, e - ExponentBias(exponentBits) - bits)
  {
    var n := mantissaBits - bits;
    ShlAdd(Pow2(bits), m, n);
    ShlPow2(bits, n);
    ScaledShl(Pow2(bits) + m, n, e - ExponentBias(exponentBits) - mantissaBits);
  }

  lemma MantissaFits(t: ScalarType)
    requires FloatType(t)
    ensures MaxMantissa(t) < Pow2(t.mantissa)
  {
  }

  /** Read back in the wider format, the pattern is the largest magnitude; with the sign bit, its negation. */
  lemma DecodeWideBits(t: ScalarType, exponentBits: nat, mantissaBits: nat, negative: bool)
    requires FloatType(t) && CanHold(t, exponentBits, mantissaBits) && exponentBits >= 2
    ensures
      var bits := WideBits(t, exponentBits, mantissaBits);
      var signBit := if negative then Shl(1, exponentBits + mantissaBits) else 0;
      IeeeDecode(exponentBits, mantissaBits, bits + signBit) == Finite(Signed(negative, LargestMagnitude(t)))
  {
    hide Shl, Pow2, IeeeDecode, Magnitude, Scaled, MaxMantissa, MaxExponent;
    var low, e := Shl(MaxMantissa(t), mantissaBits - t.mantissa), WideExponent(t, exponentBits);
    MantissaFits(t);
    WideExponentIsNormal(t, exponentBits);
    ShlBound(MaxMantissa(t), t.mantissa, mantissaBits - t.mantissa);
    IeeeFields(exponentBits, mantissaBits, low, e, negative);
    MagnitudeOfPattern(exponentBits, mantissaBits, t.mantissa, MaxMantissa(t), e);
  }

  /** Setting the sign bit of the pattern negates its value. */
  lemma SignBitNegates(t: ScalarType, exponentBits: nat, mantissaBits: nat)
    requires FloatType(t) && CanHold(t, exponentBits, mantissaBits) && exponentBits >= 2
    ensures
      var bits := WideBits(t, exponentBits, mantissaBits);
      IeeeDecode(exponentBits, mantissaBits, BitOr(bits, Shl(1, exponentBits + mantissaBits)))
        == Finite(-LargestMagnitude(t))
  {
    hide Shl, Pow2, IeeeDecode, BitOr, MaxMantissa, MaxExponent;
    DecodeWideBits(t, exponentBits, mantissaBits, true);
    MantissaFits(t);
    WideExponentIsNormal(t, exponentBits);
    ShlBound(MaxMantissa(t), t.mantissa, mantissaBits - t.mantissa);
    var low := Shl(MaxMantissa(t), mantissaBits - t.mantissa);
    JoinedBound(low, WideExponent(t, exponentBits), mantissaBits, exponentBits);
    OrOfFields(WideBits(t, exponentBits, mantissaBits), 1, exponentBits + mantissaBits);
  }

  // ----- largest and smallest

  lemma NoLargerCode(t: ScalarType, s: bool, e: nat, m: nat)
    requires FloatType(t) && IsCode(t, e, m) && Decode(t, s, e, m).Finite?
    requires MaxExponent(t) >= 1
    ensures Decode(t, s, e, m).value <= LargestMagnitude(t)
  {
    var k := 1 - ExponentBias(t.exponent) - t.mantissa;
    MagnitudeInSteps(t.exponent, t.mantissa, e, m);
    MagnitudeInSteps(t.exponent, t.mantissa, MaxExponent(t), MaxMantissa(t));
    StepsOrder(t.mantissa, e, m, MaxExponent(t), MaxMantissa(t));
    var a, b := Steps(t.mantissa, e, m) as real, Steps(t.mantissa, MaxExponent(t), MaxMantissa(t)) as real;
    ScaledMonotone(a, b, k);
    ScaledMonotone(0.0, a, k);
    ScaledMonotone(0.0, b, k);
  }

  /** The exception: an IEEE type with a one-bit exponent has only subnormal finite codes, and the
      pattern, which always has a leading one, lies above all of them. */
  lemma OneBitExponent(t: ScalarType, s: bool, e: nat, m: nat)
    requires FloatType(t) && t.nanRepr.IEEE_754? && t.exponent == 1
    requires IsCode(t, e, m) && Decode(t, s, e, m).Finite?
    ensures Decode(t, s, e, m).value < LargestMagnitude(t)
  {
    hide Scaled;
    assert e == 0 && MaxExponent(t) == 0 && ExponentBias(1) == 0;
    HalfStep(m, Pow2(t.mantissa) + MaxMantissa(t), 0 - t.mantissa);
  }

  lemma HalfStep(x: nat, y: nat, k: int)
    requires 2 * x < y
    ensures 0.0 <= Scaled(x as real, k + 1) < Scaled(y as real, k)
  {
    hide Scaled;
    ScaledTwice(x as real, k);
    ScaledMonotone(2.0 * x as real, y as real, k);
    ScaledMonotone(0.0, 2.0 * x as real, k);
  }

  lemma LargestIsCode(t: ScalarType)
    requires FloatType(t) && !(t.nanRepr.IEEE_754? && t.exponent == 1)
    ensures MaxExponent(t) >= 1 && IsCode(t, MaxExponent(t), MaxMantissa(t))
    ensures Decode(t, false, MaxExponent(t), MaxMantissa(t)) == Finite(LargestMagnitude(t))
  {
    OnesBelow(t.exponent);
    OnesBelow(t.mantissa);
    if t.exponent >= 2 { OnesBelow(t.exponent - 1); }
  }

  /** The pattern is exactly the largest finite value, attained and not exceeded by any finite code,
      if and only if the type is not an IEEE type with a one-bit exponent. (No constructor function makes an
      IEEE type without infinities.) */
  lemma MaxIsLargest(t: ScalarType)
    requires t.exponent >= 1 && t.mantissa >= 1 && !(t.nanRepr == IEEE_754 && t.finiteValuesOnly)
    requires t.mantissa <= 52 && t.exponent <= 11 && (t.nanRepr != IEEE_754 ==> t.exponent < 11)
    ensures Double(MaxBits(t)) == Finite(LargestMagnitude(t))
    ensures IsLargest(t, LargestMagnitude(t)) <==> !(t.nanRepr.IEEE_754? && t.exponent == 1)
  {
    hide Decode, Double, MaxBits, LargestMagnitude, IsCode;
    DoubleOfMaxBits(t);
    if t.nanRepr.IEEE_754? && t.exponent == 1 {
      forall s, e, m | IsCode(t, e, m) && Decode(t, s, e, m).Finite?
        ensures Decode(t, s, e, m).value < LargestMagnitude(t)
      {
        OneBitExponent(t, s, e, m);
      }
    } else {
      LargestIsCode(t);
      forall s, e, m | IsCode(t, e, m) && Decode(t, s, e, m).Finite?
        ensures Decode(t, s, e, m).value <= LargestMagnitude(t)
      {
        NoLargerCode(t, s, e, m);
      }
    }
  }

  lemma Mirror(t: ScalarType, v: real)
    requires t.exponent >= 1
    ensures IsSmallest(t, -v) <==> IsLargest(t, v)
  {
    forall s, e, m | IsCode(t, e, m)
      ensures Decode(t, s, e, m).Finite? <==> Decode(t, !s, e, m).Finite?
      ensures Decode(t, s, e, m).Finite? ==> Decode(t, !s, e, m).value == -Decode(t, s, e, m).value
    {
    }
    if IsLargest(t, v) {
      var s, e, m :| IsCode(t, e, m) && Decode(t, s, e, m) == Finite(v);
      assert Decode(t, !s, e, m) == Finite(-v);
      forall s, e, m | IsCode(t, e, m) && Decode(t, s, e, m).Finite?
        ensures -v <= Decode(t, s, e, m).value
      {
        assert Decode(t, !s, e, m).value <= v;
      }
    }
    if IsSmallest(t, -v) {
      var s, e, m :| IsCode(t, e, m) && Decode(t, s, e, m) == Finite(-v);
      assert Decode(t, !s, e, m) == Finite(v);
      forall s, e, m | IsCode(t, e, m) && Decode(t, s, e, m).Finite?
        ensures Decode(t, s, e, m).value <= v
      {
        assert -v <= Decode(t, !s, e, m).value;
      }
    }
  }

  /** What min() gives a signed type before the bias is exactly its smallest finite value, with the same exception. */
  lemma MinIsSmallest(t: ScalarType)
    requires t.exponent >= 1 && t.mantissa >= 1 && t.signed && !(t.nanRepr == IEEE_754 && t.finiteValuesOnly)
    requires t.mantissa <= 52 && t.exponent <= 11 && (t.nanRepr != IEEE_754 ==> t.exponent < 11)
    ensures Double(BitOr(MaxBits(t), Shl(1, 63))) == Finite(-LargestMagnitude(t))
    ensures IsSmallest(t, -LargestMagnitude(t)) <==> !(t.nanRepr.IEEE_754? && t.exponent == 1)
  {
    hide Double, MaxBits, BitOr, Shl, LargestMagnitude, IsSmallest, IsLargest;
    DoubleOfMaxBits(t);
    MaxIsLargest(t);
    Mirror(t, LargestMagnitude(t));
  }

  /** The fields of the largest code. */
  lemma MaxFieldsMean(t: ScalarType)
    requires FloatType(t)
    ensures MaxMantissa(t) == Pow2(t.mantissa) - if t.nanRepr == EXTD_RANGE_MAX_MIN then 2 else 1
    ensures MaxExponent(t) == Pow2(t.exponent) - if t.nanRepr == IEEE_754 then 2 else 1
    ensures ExponentBias(t.exponent) == Pow2(t.exponent - 1) - 1
  {
  }

  /** The largest magnitude in plain multiplication. */
  lemma LargestMeans(t: ScalarType)
    requires FloatType(t)
    ensures LargestMagnitude(t) * Pow2(ExponentBias(t.exponent) + t.mantissa) as real
      == (Pow2(t.mantissa) + MaxMantissa(t)) as real * Pow2(MaxExponent(t)) as real
  {
    hide Product, LargestMagnitude, Pow2, MaxMantissa, MaxExponent, ExponentBias;
    LargestProduct(t);
    UnfoldProducts(LargestMagnitude(t), Pow2(ExponentBias(t.exponent) + t.mantissa) as real,
                   (Pow2(t.mantissa) + MaxMantissa(t)) as real, Pow2(MaxExponent(t)) as real);
  }

  /** A known limit: float8_e4m3fn ends at 448. */
  lemma LimitOfFloat8(t: ScalarType)
    requires t.exponent == 4 && t.mantissa == 3 && t.nanRepr == EXTD_RANGE_MAX_MIN
    ensures LargestMagnitude(t) == 448.0
  {
    LargestMeans(t);
    MaxFieldsMean(t);
    assert Pow2(3) == 8 && Pow2(4) == 16 && Pow2(10) == 1024 && Pow2(15) == 32768;
  }

  lemma UnfoldProducts(a: real, b: real, c: real, d: real)
    requires Product(a, b) == Product(c, d)
    ensures a * b == c * d
  {
  }

  lemma LargestProduct(t: ScalarType)
    requires FloatType(t)
    ensures
      Product(LargestMagnitude(t), Pow2(ExponentBias(t.exponent) + t.mantissa) as real)
        == Product((Pow2(t.mantissa) + MaxMantissa(t)) as real, Pow2(MaxExponent(t)) as real)
  {
    hide Scaled, Product, Pow2;
    var down := ExponentBias(t.exponent) + t.mantissa;
    ScaledProduct((Pow2(t.mantissa) + MaxMantissa(t)) as real, MaxExponent(t), down);
  }

  // ----- integer types

  predicate IntegerType(t: ScalarType) { t.exponent == 0 }

  /** The value of a stored integer code, in two's complement if the type is signed, less the bias. */
  function IntValue(t: ScalarType, code: nat): int {
    (if t.signed && code >= Pow2(t.mantissa) then code - Pow2(t.SizeBits()) else code) - t.bias
  }

  /** Two's complement in plain terms, with the bias taken off. */
  lemma IntValueMeans(t: ScalarType, code: nat)
    requires IntegerType(t)
    ensures !t.signed || code < Pow2(t.mantissa) ==> IntValue(t, code) + t.bias == code
    ensures t.signed && code >= Pow2(t.mantissa) ==> IntValue(t, code) + t.bias == code - 2 * Pow2(t.mantissa)
  {
    OnesBelow(t.mantissa + 1);
  }

  /** max(): the raw maximum less the bias. */
  method Max(t: ScalarType) returns (r: Result<real>)
    requires t.exponent > 0 ==> t.mantissa > 0
    ensures t.exponent > 0 ==>
      r == if DoubleCanHold(t) then Ok(LargestMagnitude(t) - t.bias as real) else AssertionError
    ensures t.exponent > 0 ==> (r.Ok? <==>
      t.mantissa <= 52 && t.exponent <= 11 && (t.nanRepr != IEEE_754 ==> t.exponent < 11))
    ensures t.exponent == 0 ==>
      if t.mantissa + (if t.signed then 1 else 0) < 64 || (t.mantissa == 63 && t.signed)
      then r == Ok((Pow2(t.mantissa) - 1 - t.bias) as real) else r == AssertionError
  {
    hide LargestMagnitude;
    if t.IsFloatingPoint() {
      r := FloatingPointMax(t);
      return if r.Ok? then Ok(r.value - t.bias as real) else r;
    } else {
      if !(t.SizeBits() < 64 || (t.SizeBits() == 64 && t.signed)) {
        return AssertionError;
      }
      LargestInt(t);
      var top := Shl(1, t.mantissa) - 1;
      return Ok((top - t.bias) as real);
    }
  }

  method FloatingPointMax(t: ScalarType) returns (r: Result<real>)
    requires FloatType(t)
    ensures r == if DoubleCanHold(t) then Ok(LargestMagnitude(t)) else AssertionError
  {
    hide Double, MaxBits, LargestMagnitude;
    var raw := FloatingPointMaxInt(t);
    if raw.AssertionError? {
      return AssertionError;
    }
    DoubleOfMaxBits(t);
    return Ok(Double(raw.value).value);
  }

  lemma DoubleOfMaxBits(t: ScalarType)
    requires FloatType(t) && DoubleCanHold(t)
    ensures Double(MaxBits(t)) == Finite(LargestMagnitude(t))
    ensures Double(BitOr(MaxBits(t), Shl(1, 63))) == Finite(-LargestMagnitude(t))
  {
    DecodeWideBits(t, 11, 52, false);
    SignBitNegates(t, 11, 52);
  }

  /** min(): the raw minimum less the bias. */
  method Min(t: ScalarType) returns (r: Result<real>)
    requires t.exponent > 0 ==> t.mantissa > 0
    ensures t.exponent > 0 ==>
      r == if t.signed && DoubleCanHold(t) then Ok(-LargestMagnitude(t) - t.bias as real) else AssertionError
    ensures t.exponent > 0 ==> (r.Ok? <==>
      t.signed && t.mantissa <= 52 && t.exponent <= 11 && (t.nanRepr != IEEE_754 ==> t.exponent < 11))
    ensures t.exponent == 0 ==>
      if !t.signed || t.mantissa <= 63
      then r == Ok(((if t.signed then -(Pow2(t.mantissa) as int) else 0) - t.bias) as real) else r == AssertionError
  {
    hide LargestMagnitude;
    if t.IsFloatingPoint() {
      r := FloatingPointMin(t);
      return if r.Ok? then Ok(r.value - t.bias as real) else r;
    } else {
      if !(!t.signed || t.SizeBits() <= 64) {
        return AssertionError;
      }
      SmallestInt(t);
      if t.signed {
        var low := 0 - Shl(1, t.SizeBits() - 1);
        return Ok((low - t.bias) as real);
      } else {
        return Ok((0 - t.bias) as real);
      }
    }
  }

  method FloatingPointMin(t: ScalarType) returns (r: Result<real>)
    requires FloatType(t)
    ensures r == if t.signed && DoubleCanHold(t) then Ok(-LargestMagnitude(t)) else AssertionError
  {
    hide Double, MaxBits, LargestMagnitude, BitOr, Shl;
    if !t.signed {
      return AssertionError;
    }
    var signBit := Shl(1, 63);
    var raw := FloatingPointMaxInt(t);
    if raw.AssertionError? {
      return AssertionError;
    }
    DoubleOfMaxBits(t);
    return Ok(Double(BitOr(raw.value, signBit)).value);
  }

  /** The raw maximum of an integer type is the value of a code, and no code has a larger one. */
  lemma LargestInt(t: ScalarType)
    requires IntegerType(t)
    ensures Shl(1, t.mantissa) == Pow2(t.mantissa) <= Pow2(t.mantissa + if t.signed then 1 else 0)
    ensures IntValue(t, Pow2(t.mantissa) - 1) == Pow2(t.mantissa) - 1 - t.bias
    ensures forall c: nat :: c < Pow2(t.mantissa + if t.signed then 1 else 0) ==>
      IntValue(t, c) <= Pow2(t.mantissa) - 1 - t.bias
  {
    OnesBelow(t.mantissa);
    OnesBelow(t.mantissa + 1);
  }

  /** And the raw minimum is the value of a code, and no code has a smaller one. */
  lemma SmallestInt(t: ScalarType)
    requires IntegerType(t)
    ensures t.signed ==> t.SizeBits() == t.mantissa + 1 && Shl(1, t.mantissa) == Pow2(t.mantissa)
    ensures t.signed ==> Pow2(t.mantissa) < Pow2(t.mantissa + 1)
    ensures IntValue(t, if t.signed then Pow2(t.mantissa) else 0)
      == (if t.signed then -(Pow2(t.mantissa) as int) else 0) - t.bias
    ensures forall c: nat :: c < Pow2(t.mantissa + if t.signed then 1 else 0) ==>
      IntValue(t, c) >= (if t.signed then -(Pow2(t.mantissa) as int) else 0) - t.bias
  {
    OnesBelow(t.mantissa);
    OnesBelow(t.mantissa + 1);
  }
}
