/**
 The largest and smallest value of a small floating-point format, built as the bit pattern of a double
 (section 3.4 of IEEE 754-2019). Values are exact real numbers.
 */
module ScalarRange {
  import opened Arithmetic
  import opened Wrappers
  import opened Bits
  import opened ScalarIds

  /** Two to an integer power. */
  function Two(k: int): (r: real)
    ensures r > 0.0
    decreases if k < 0 then -k else k
  {
    if k == 0 then 1.0 else if k > 0 then 2.0 * Two(k - 1) else Two(k + 1) / 2.0
  }

  lemma TwoNext(k: int)
    ensures Two(k + 1) == 2.0 * Two(k)
  {
  }

  lemma {:induction false} TwoAdd(a: int, b: nat)
    ensures Two(a + b) == Two(a) * Two(b)
  {
    hide Two;
    if b > 0 {
      TwoAdd(a, b - 1);
      TwoNext(a + b - 1);
      TwoNext(b - 1);
      Twice(Two(a), Two(b - 1));
    } else {
      TwoZero();
    }
  }

  lemma TwoZero()
    ensures Two(0) == 1.0
  {
  }

  lemma Twice(x: real, y: real)
    ensures x * (2.0 * y) == 2.0 * (x * y)
  {
  }

  lemma {:induction false} TwoIsP(k: nat)
    ensures Two(k) == P(k) as real
  {
    if k > 0 { TwoIsP(k - 1); }
  }

  lemma {:induction false} TwoMonotone(a: int, b: int)
    requires a <= b
    ensures Two(a) <= Two(b)
    decreases b - a
  {
    if a < b {
      TwoMonotone(a, b - 1);
      TwoNext(b - 1);
    }
  }

  // ---- What the bits of a format mean ----

  datatype Format = Format(e: nat, m: nat, nan: NanRepr)

  const DOUBLE: Format := Format(11, 52, Ieee754)

  function ExponentBias(e: nat): int
    requires e >= 1
  {
    P(e - 1) - 1
  }

  /** The value of an unsigned pattern: subnormal below the first exponent, normal from there on. */
  function Value(f: Format, exp: nat, man: nat): real
    requires f.e >= 1
  {
    if exp == 0 then man as real * Two(1 - ExponentBias(f.e) - f.m)
    else (P(f.m) + man) as real * Two(exp - ExponentBias(f.e) - f.m)
  }

  function Scaled(n: int, k: int): real { n as real * Two(k) }

  /** The value the top fields would have as a normal number. */
  function Top(f: Format): real
    requires f.e >= 1
  {
    Scaled(P(f.m) + MaxMantissa(f), MaxExponent(f) - ExponentBias(f.e) - f.m)
  }

  /** Patterns that stand for a finite number in this format. */
  ghost predicate Finite(f: Format, exp: nat, man: nat) {
    && exp < P(f.e) && man < P(f.m)
    && match f.nan
       case NoNan => true
       case Ieee754 => exp != P(f.e) - 1
       case ExtendedRange => exp != P(f.e) - 1 || man != P(f.m) - 1
  }

  /** `v` is a finite value of the format and no finite value exceeds it. */
  ghost predicate Greatest(f: Format, v: real)
    requires f.e >= 1
  {
    && (exists exp: nat, man: nat :: Finite(f, exp, man) && Value(f, exp, man) == v)
    && (forall exp: nat, man: nat :: Finite(f, exp, man) ==> Value(f, exp, man) <= v)
  }

  /** Reading 64 bits as a double; infinities and NaNs are no number. */
  function Decode(bits: nat): Option<real> {
    var exp, man := (bits / P(52)) % P(11), bits % P(52);
    if exp == P(11) - 1 then None
    else
      var v := Value(DOUBLE, exp, man);
      Some(if bits / P(63) % 2 == 1 then -v else v)
  }

  // ---- The pattern the code builds ----

  function MaxMantissa(f: Format): int { P(f.m) - 1 - if f.nan.ExtendedRange? then 1 else 0 }

  function MaxExponent(f: Format): int { P(f.e) - 2 + if f.nan.Ieee754? then 0 else 1 }

  /** The asserted limits of the computation. */
  predicate Representable(f: Format) { f.m <= 52 && f.e <= 11 && (f.nan.Ieee754? || f.e < 11) }

  function DoubleExponent(f: Format): int
    requires f.e >= 1
  {
    MaxExponent(f) - ExponentBias(f.e) + P(10) - 1
  }

  /** `None` where the code raises: a failed assertion, or a negative number that cannot be packed. */
  function MaxBits(f: Format): Option<nat>
    requires f.e >= 1
  {
    if !Representable(f) || MaxMantissa(f) < 0 || DoubleExponent(f) < 0 then None
    else Some(Or(Shl(MaxMantissa(f), 52 - f.m), Shl(DoubleExponent(f), 52)))
  }

  function MinBits(f: Format, signed: bool): Option<nat>
    requires f.e >= 1
  {
    if !signed then None
    else match MaxBits(f) case None => None case Some(b) => Some(Or(b, Shl(1, 63)))
  }

  lemma RealMulLe(a: real, b: real, s: real, t: real)
    requires 0.0 <= a <= b && 0.0 < s <= t
    ensures a * s <= b * t
  {
    assert a * s <= a * t;
    assert a * t <= b * t;
  }

  lemma Regroup2(p: real, t: real)
    ensures 2.0 * p * t == p * (2.0 * t)
  {
  }

  /** The top exponent with the top mantissa is the greatest finite value. */
  lemma TopIsGreatest(f: Format)
    requires f.e >= 1 && MaxMantissa(f) >= 0 && MaxExponent(f) >= 1
    ensures Greatest(f, Top(f))
  {
    hide P, Two, ExponentBias;
    var top, man := MaxExponent(f), MaxMantissa(f);
    assert Value(f, top, man) == Top(f);
    assert Finite(f, top, man);
    forall x: nat, y: nat | Finite(f, x, y) ensures Value(f, x, y) <= Value(f, top, man) {
      hide Value;
      if x == top { SameExponent(f, top, y, man); } else { LowerExponent(f, x, y, top, man); }
    }
  }

  lemma SameExponent(f: Format, x: nat, y: nat, man: nat)
    requires f.e >= 1 && x >= 1 && y <= man
    ensures Value(f, x, y) <= Value(f, x, man)
  {
    hide P, Two, ExponentBias;
    var t := Two(x - ExponentBias(f.e) - f.m);
    RealMulLe((P(f.m) + y) as real, (P(f.m) + man) as real, t, t);
  }

  /** A value of a lower exponent stays below the first value of the next one. */
  lemma LowerExponent(f: Format, x: nat, y: nat, top: nat, man: nat)
    requires f.e >= 1 && x < top && y < P(f.m)
    ensures Value(f, x, y) <= Value(f, top, man)
  {
    hide P, Two, ExponentBias;
    var k, t := x - ExponentBias(f.e) - f.m, top - ExponentBias(f.e) - f.m;
    var p := P(f.m) as real;
    TwoNext(k);
    TwoMonotone(k + 1, t);
    RealMulLe(p, (P(f.m) + man) as real, Two(k + 1), Two(t));
    if x == 0 {
      RealMulLe(y as real, p, Two(k + 1), Two(k + 1));
    } else {
      RealMulLe((P(f.m) + y) as real, 2.0 * p, Two(k), Two(k));
      Regroup2(p, Two(k));
    }
  }

  // ---- The pattern means the same in the format and as a double ----

  /** Widening the mantissa and moving the exponent keeps the scaled significand. */
  lemma Widen(f: Format, exp: nat, man: nat, exp2: nat)
    requires f.e >= 1 && exp2 >= 1 && f.m <= 52
    requires exp2 == exp - ExponentBias(f.e) + ExponentBias(11)
    ensures Value(DOUBLE, exp2, Shl(man, 52 - f.m)) == Scaled(P(f.m) + man, exp - ExponentBias(f.e) - f.m)
  {
    hide P, Two, ExponentBias;
    var w := 52 - f.m;
    var k := exp - ExponentBias(f.e) - 52;
    PAdd(f.m, w);
    TwoIsP(w);
    TwoAdd(k, w);
    Spread(P(f.m), man, P(w), Two(k));
  }

  lemma Spread(p: nat, man: nat, w: nat, t: real)
    ensures (p * w + man * w) as real * t == (p + man) as real * (t * w as real)
  {
    assert p * w + man * w == (p + man) * w;
    assert ((p + man) * w) as real == (p + man) as real * w as real;
  }

  function Word(sign: nat, exp: nat, man: nat): nat { man + Shl(exp, 52) + Shl(sign, 63) }

  /** A double's sign, exponent and mantissa are read back from their bit ranges. */
  lemma DecodeWord(sign: nat, exp: nat, man: nat)
    requires man < P(52) && exp < P(11) - 1 && sign <= 1
    ensures var v := Value(DOUBLE, exp, man);
            Decode(Word(sign, exp, man)) == Some(if sign == 1 then -v else v)
  {
    hide P, Value;
    PAdd(52, 11);
    var low := man + Shl(exp, 52);
    Below(man, exp, P(52), P(11));
    SplitAt(low, sign, P(63));
    Regroup3(man, exp, sign, P(52), P(11));
    SplitAt(man, exp + sign * P(11), P(52));
    SplitAt(exp, sign, P(11));
  }

  lemma Regroup3(man: nat, exp: nat, sign: nat, p: nat, q: nat)
    ensures man + exp * p + sign * (p * q) == man + (exp + sign * q) * p
  {
    assert sign * (p * q) == sign * q * p;
  }

  lemma SmallPowers()
    ensures P(0) == 1 && P(1) == 2 && P(9) == 512 && P(10) == 1024 && P(11) == 2048
  {
    assert P(5) == 32;
    assert P(10) == 1024;
  }

  /** The exponent of the built double is in range. */
  lemma ExponentInRange(f: Format)
    requires f.e >= 1 && Representable(f)
    ensures MaxExponent(f) >= 0
    ensures 1 <= DoubleExponent(f) < P(11) - 1
    ensures MaxExponent(f) >= 1 <==> f.e >= 2 || !f.nan.Ieee754?
  {
    SmallPowers();
    assert P(f.e) == 2 * P(f.e - 1);
    if f.e >= 2 { PMonotone(1, f.e - 1); }
    PMonotone(f.e - 1, if f.nan.Ieee754? then 10 else 9);
  }

  lemma MantissaBelow(man: nat, m: nat)
    requires man < P(m) && m <= 52
    ensures Shl(man, 52 - m) < P(52)
  {
    hide P;
    PAdd(m, 52 - m);
    Below(0, man, P(52 - m), P(m));
  }

  /** The two bit ranges of the pattern do not overlap, and neither does the sign. */
  lemma BitsAreWord(exp: nat, man: nat)
    requires man < P(52) && exp < P(11)
    ensures Or(man, Shl(exp, 52)) == Word(0, exp, man)
    ensures Or(Word(0, exp, man), Shl(1, 63)) == Word(1, exp, man)
  {
    hide P, Or;
    OrIsSum(man, exp, 52);
    PAdd(52, 11);
    Below(man, exp, P(52), P(11));
    OrIsSum(man + Shl(exp, 52), 1, 63);
  }

  /** What the pattern decodes to, whether or not that is a value of the format. */
  lemma MaxDecodes(f: Format)
    requires f.e >= 1 && Representable(f) && MaxMantissa(f) >= 0
    ensures MaxExponent(f) >= 0 && MaxBits(f).Some? && MinBits(f, true).Some?
    ensures Decode(MaxBits(f).value) == Some(Top(f)) && Decode(MinBits(f, true).value) == Some(-Top(f))
  {
    hide P, Two, Decode, Value, Or, Shl, Word, Scaled;
    ExponentInRange(f);
    assert ExponentBias(11) == P(10) - 1;
    assert MaxMantissa(f) < P(f.m);
    hide ExponentBias, MaxExponent, MaxMantissa;
    var exp, man := DoubleExponent(f), Shl(MaxMantissa(f), 52 - f.m);
    MantissaBelow(MaxMantissa(f), f.m);
    BitsAreWord(exp, man);
    Widen(f, MaxExponent(f), MaxMantissa(f), exp);
    DecodeWord(0, exp, man);
    DecodeWord(1, exp, man);
  }

  /** The pattern the code calls the maximum is the greatest finite value of the format. */
  ghost predicate MaxRight(f: Format)
    requires f.e >= 1
  {
    MaxBits(f).Some? && Decode(MaxBits(f).value).Some? && Greatest(f, Decode(MaxBits(f).value).value)
  }

  /**
   For every format within the asserted limits, the maximum is right if and only if the extended-range
   encoding has a mantissa bit and the IEEE encoding has at least two exponent bits.
   */
  lemma MaxRightIff(f: Format)
    requires f.e >= 1 && f.m <= 52 && f.e <= 11 && (f.nan.Ieee754? || f.e < 11)
    ensures MaxRight(f) <==> (f.m >= 1 || !f.nan.ExtendedRange?) && (f.e >= 2 || !f.nan.Ieee754?)
  {
    MantissaSign(f);
    if MaxMantissa(f) >= 0 {
      hide P, Two, Decode, MaxBits, MinBits, MaxMantissa, Greatest, Top, MaxExponent, DoubleExponent, Representable;
      MaxDecodes(f);
      ExponentInRange(f);
      if MaxExponent(f) >= 1 {
        TopIsGreatest(f);
      } else {
        OneExponentBit(f);
      }
    }
  }

  /**
   Building the maximum raises if and only if the mantissa or the exponent is wider than that of a double, the exponent is
   as wide without the IEEE encoding, or the extended-range encoding has no mantissa bit.
   */
  lemma MaxRaisesIff(f: Format)
    requires f.e >= 1
    ensures MaxBits(f).None? <==>
            f.m > 52 || f.e > 11 || (f.e == 11 && !f.nan.Ieee754?) || (f.m == 0 && f.nan.ExtendedRange?)
  {
    hide P, Or, Shl, MaxMantissa, DoubleExponent;
    MantissaSign(f);
    if Representable(f) { ExponentInRange(f); }
  }

  /** The 8-bit exponent-only format that the repository defines has no maximum: building it raises. */
  lemma ExponentOnlyRaises()
    ensures MaxBits(Format(8, 0, ExtendedRange)) == None
  {
    SmallPowers();
  }

  lemma MantissaSign(f: Format)
    ensures MaxMantissa(f) >= 0 <==> f.m >= 1 || !f.nan.ExtendedRange?
  {
    SmallPowers();
    if f.m >= 1 { PMonotone(1, f.m); }
  }

  /** With one exponent bit the IEEE encoding has only subnormal values, all below the decoded one. */
  lemma OneExponentBit(f: Format)
    requires f.e == 1 && f.nan.Ieee754?
    ensures !Greatest(f, Top(f))
  {
    hide *;
    forall x: nat, y: nat | Finite(f, x, y) ensures Value(f, x, y) < Top(f) {
      OneBitBelow(f, x, y);
    }
    AboveAll(f, Top(f));
  }

  lemma AboveAll(f: Format, v: real)
    requires f.e >= 1 && forall x: nat, y: nat :: Finite(f, x, y) ==> Value(f, x, y) < v
    ensures !Greatest(f, v)
  {
    hide Finite, Value;
  }

  lemma OneBitBelow(f: Format, x: nat, y: nat)
    requires f.e == 1 && f.nan.Ieee754? && Finite(f, x, y)
    ensures Value(f, x, y) < Top(f)
  {
    hide *;
    OneBitTop(f);
    OneBitValue(f, x, y);
    Subnormal(y, P(f.m), f.m);
  }

  lemma OneBitTop(f: Format)
    requires f.e == 1 && f.nan.Ieee754?
    ensures Top(f) == Scaled(P(f.m) + P(f.m) - 1, 0 - f.m)
  {
    SmallPowers();
    hide Two, Scaled;
  }

  lemma OneBitValue(f: Format, x: nat, y: nat)
    requires f.e == 1 && f.nan.Ieee754? && Finite(f, x, y)
    ensures y < P(f.m) && Value(f, x, y) == y as real * Two(1 - f.m)
  {
    SmallPowers();
    hide Two;
  }

  lemma Subnormal(y: nat, p: nat, m: nat)
    requires y < p
    ensures y as real * Two(1 - m) < Scaled(p + p - 1, 0 - m)
  {
    var t := Two(0 - m);
    assert Two(1 - m) == 2.0 * t;
    hide Two;
    Regroup2(y as real, t);
    MulLt(2.0 * y as real, (p + p - 1) as real, t);
  }

  lemma MulLt(a: real, b: real, t: real)
    requires a < b && t > 0.0
    ensures a * t < b * t
  {
  }

  /** The minimum, which signed formats have, is the exact negation of the maximum: only the sign bit differs. */
  lemma MinIsNegation(f: Format, signed: bool)
    requires f.e >= 1
    ensures MinBits(f, signed).Some? <==> signed && MaxBits(f).Some?
    ensures MinBits(f, signed).Some? ==>
              && Decode(MaxBits(f).value).Some?
              && Decode(MinBits(f, signed).value) == Some(-Decode(MaxBits(f).value).value)
  {
    hide P, Decode, Or, Shl;
    if MaxBits(f).Some? { MaxDecodes(f); }
  }
}
