/** Conversion of 128-bit integers to doubles and back. */
module FloatConversion {
  import opened Arithmetic
  import opened Doubles

  /** The compiler's count of leading zeros of a nonzero 64-bit word. */
  function Clz64(x: nat): int
    requires 0 < x < WORD64
  {
    64 - Bits(x)
  }

  /** Counts in the high word, or in the low one if that is zero. */
  method Clz128(a: nat) returns (n: int)
    requires 0 < a < WORD128
    ensures n == 128 - Bits(a)
  {
    var high, low := a / WORD64, a % WORD64;
    if high == 0 {
      return Clz64(low) + 64;
    } else {
      HighBits(a);
      return Clz64(high);
    }
  }

  lemma HighBits(a: nat)
    requires a >= WORD64
    ensures Bits(a) == 64 + Bits(a / WORD64)
  {
    var h := a / WORD64;
    BitsBound(h);
    Powers();
    hide Pow2, Bits;
    var n := Bits(h);
    Pow2Add(n, 64);
    Pow2Add(n - 1, 64);
    Scale(Pow2(n - 1), h, WORD64);
    Scale(h + 1, Pow2(n), WORD64);
    BitsUnique(a, n + 64);
  }

  // ----- Rounding -----

  /** The number of units nearest to a, or the even one of two. */
  function Rounded(a: nat, unit: nat): nat
    requires unit > 0
  {
    RoundEven(a / unit, a % unit, unit)
  }

  /** How the last two digits of a number cut to 55 digits stand for everything below the 53rd. */
  predicate Folds(b: nat, a: nat, unit: nat)
    requires unit > 0
  {
    && b / 4 == a / unit
    && (b % 4 == 0 <==> a % unit == 0)
    && (b % 4 < 2 <==> 2 * (a % unit) < unit)
    && (b % 4 == 2 <==> 2 * (a % unit) == unit)
  }

  lemma Spread(cut: nat, top: nat)
    ensures cut * top == (4 * cut) * (top / 4) + cut * (top % 4)
    ensures top % 4 == 0 ==> cut * (top % 4) == 0
    ensures top % 4 == 1 ==> cut * (top % 4) == cut
    ensures top % 4 == 2 ==> cut * (top % 4) == 2 * cut
    ensures top % 4 == 3 ==> cut * (top % 4) == 3 * cut
  {
    var q, p := top / 4, top % 4;
    assert top == 4 * q + p;
    Distribute(cut, 4 * q, p);
    Regroup(cut, 4, q);
  }

  /** Cutting off all but two of the excess digits and or-ing the rest into the last. */
  lemma Cut(a: nat, cut: nat, unit: nat)
    requires cut > 0 && unit == 4 * cut
    ensures var top := a / cut;
      Folds(if a % cut != 0 && top % 2 == 0 then top + 1 else top, a, unit)
  {
    var top, low := a / cut, a % cut;
    var q, r := top / 4, cut * (top % 4) + low;
    Spread(cut, top);
    assert a == cut * top + low;
    assert a == unit * q + r && r < unit;
    DivModUnique(a, unit, q, r);
  }

  lemma FoldsShort(a: nat)
    ensures Folds(2 * a, a, 2) && Folds(a, a, 4)
  {
  }

  /** Or the last kept digit into the sticky one, add one, drop two: that rounds to even. */
  lemma FoldsRound(b: nat, a: nat, unit: nat)
    requires unit > 0 && Folds(b, a, unit)
    ensures ((if b / 4 % 2 == 1 && b % 2 == 0 then b + 1 else b) + 1) / 4 == Rounded(a, unit)
  {
    var q, r := a / unit, a % unit;
    assert b == 4 * q + b % 4;
  }

  /** Brings a number to 55 digits and a sticky one. */
  method Fold(a: nat, sd: nat) returns (b: nat)
    requires a > 0 && sd == Bits(a) > 53
    ensures Folds(b, a, Pow2(sd - 53))
  {
    Units(sd);
    hide Pow2, Bits, Folds;
    FoldsShort(a);
    if sd == 54 {
      b := 2 * a;
    } else if sd == 55 {
      b := a;
    } else {
      b := Sticky(a, Pow2(sd - 55));
    }
  }

  method Sticky(a: nat, cut: nat) returns (b: nat)
    requires cut > 0
    ensures Folds(b, a, 4 * cut)
  {
    Cut(a, cut, 4 * cut);
    hide Folds;
    b := a / cut;
    if a % cut != 0 && b % 2 == 0 { b := b + 1; }
  }

  /** The digits kept after rounding. */
  method Round(a: nat, sd: nat) returns (q: nat)
    requires a > 0 && sd == Bits(a) > 53
    ensures q == Rounded(a, Pow2(sd - 53))
  {
    var b := Fold(a, sd);
    hide Pow2, Bits, Folds, Rounded;
    FoldsRound(b, a, Pow2(sd - 53));
    if b / 4 % 2 == 1 && b % 2 == 0 { b := b + 1; }
    b := b + 1;
    q := b / 4;
  }

  lemma Units(sd: nat)
    requires sd > 53
    ensures sd == 54 ==> Pow2(sd - 53) == 2
    ensures sd == 55 ==> Pow2(sd - 53) == 4
    ensures sd > 55 ==> Pow2(sd - 53) == 4 * Pow2(sd - 55)
  {
  }

  /** A number between two multiples has its quotient between their factors. */
  lemma QuotientBounds(a: nat, unit: nat, low: nat, high: nat)
    requires unit > 0 && low * unit <= a < high * unit
    ensures low <= a / unit < high
    ensures a == a / unit * unit + a % unit
  {
    var q, r := a / unit, a % unit;
    assert a == unit * q + r;
    if q < low { Scale(q + 1, low, unit); Distribute(unit, q, 1); }
    if q >= high { Scale(high, q, unit); }
  }

  /** The kept digits of a number with more than 53 of them fill 53 places. */
  lemma Quotient(a: nat, sd: nat)
    requires a > 0 && sd == Bits(a) > 53
    ensures HIDDEN <= a / Pow2(sd - 53) < CARRY
    ensures a == a / Pow2(sd - 53) * Pow2(sd - 53) + a % Pow2(sd - 53)
    ensures HIDDEN <= Rounded(a, Pow2(sd - 53)) <= CARRY
  {
    BitsBound(a);
    Powers();
    hide Pow2, Bits;
    Pow2Add(52, sd - 53);
    Pow2Add(53, sd - 53);
    QuotientBounds(a, Pow2(sd - 53), HIDDEN, CARRY);
  }

  lemma ScaleBounds(a: nat, low: nat, high: nat, p: nat)
    requires low <= a < high && p > 0
    ensures low * p <= a * p < high * p
  {
    Scale(low, a, p);
    Scale(a + 1, high, p);
    Distribute(p, a, 1);
  }

  /** Shifting a short number up to 53 digits. */
  lemma ShiftedUp(a: nat, sd: nat)
    requires a > 0 && sd == Bits(a) <= 53
    ensures HIDDEN <= a * Pow2(53 - sd) < CARRY
  {
    BitsBound(a);
    hide Pow2, Bits;
    var low, high, p := Pow2(sd - 1), Pow2(sd), Pow2(53 - sd);
    ScaleBounds(a, low, high, p);
    assert low * p == HIDDEN && high * p == CARRY by {
      Powers();
      Pow2Add(sd - 1, 53 - sd);
      Pow2Add(sd, 53 - sd);
    }
  }

  lemma ShiftedValue(a: nat, sd: nat)
    requires sd <= 53
    ensures a * Pow2(53 - sd) * Pow2(sd + 1021) == a * One()
  {
    hide Pow2;
    Pow2Add(53 - sd, sd + 1021);
    Regroup(a, Pow2(53 - sd), Pow2(sd + 1021));
  }

  // ----- Nearest -----

  /** An integer the double represents exactly. */
  lemma ExactIsNearest(rep: nat, a: nat)
    requires Finite(rep) && Value(rep) == a * One()
    ensures IsNearest(rep, a)
  {
  }

  lemma RoundedIsNearest(rep: nat, a: nat, sd: nat)
    requires a > 0 && sd == Bits(a) > 53 && Finite(rep)
    requires var unit := Pow2(sd - 53); var q' := Rounded(a, unit);
      Value(rep) == q' * Pow2(sd + 1021) && (q' % 2 == 0 ==> Fraction(rep) % 2 == 0)
    ensures IsNearest(rep, a)
  {
    hide Pow2, Bits, Magnitude, RoundEven, Exponent, Fraction;
    var unit := Pow2(sd - 53);
    var q, r := a / unit, a % unit;
    Quotient(a, sd);
    Pow2Add(sd - 53, 1074);
    forall other: nat | Finite(other) ensures NoFarther(rep, other, a) {
      NoDoubleBetween(other, q, sd + 1021);
      if Value(other) < 0 { Scale(0, q, unit * One()); }
      RoundEvenNearest(q, r, unit, One(), Value(other));
    }
  }

  /** floatuntidf: the nearest double to an unsigned 128-bit integer. */
  method FromUnsigned(a: nat) returns (rep: nat)
    requires a < WORD128
    ensures rep < SIGN && IsNearest(rep, a)
    ensures a > 0 ==> Encodes(rep, a)
    ensures a == 0 ==> rep == 0
  {
    if a == 0 {
      ZeroIsNearest();
      return 0;
    }
    var lead := Clz128(a);
    var sd: nat := 128 - lead;
    SmallEnough(a);
    var e := sd - 1;
    var m;
    if sd > 53 {
      m := Round(a, sd);
      Quotient(a, sd);
      if m == CARRY {
        m := m / 2;
        e := e + 1;
      }
    } else {
      ShiftedUp(a, sd);
      m := a * Pow2(53 - sd);
    }
    rep := Encoded(e, m);
    EncodedParts(e, m);
    EncodesIsNearest(rep, a);
  }

  lemma SmallEnough(a: nat)
    requires 0 < a < WORD128
    ensures 0 < Bits(a) <= 128
  {
    Powers();
    BitsBound(a);
    if Bits(a) > 128 { Pow2Grows(128, Bits(a) - 1); }
  }

  lemma ZeroIsNearest()
    ensures IsNearest(0, 0)
  {
    assert Finite(0) && Value(0) == 0;
    ExactIsNearest(0, 0);
  }

  /** The pattern the conversion produces: the 53 leading digits, rounded, with the exponent that goes with them. */
  ghost predicate Encodes(rep: nat, a: nat)
    requires a > 0
  {
    var sd := Bits(a);
    if sd <= 53 then rep == Encoded(sd - 1, a * Pow2(53 - sd))
    else
      var unit := Pow2(sd - 53);
      var q := Rounded(a, unit);
      rep == if q == CARRY then Encoded(sd, HIDDEN) else Encoded(sd - 1, q)
  }

  lemma EncodesIsNearest(rep: nat, a: nat)
    requires 0 < a < WORD128 && Encodes(rep, a)
    ensures IsNearest(rep, a)
  {
    SmallEnough(a);
    hide IsNearest;
    if Bits(a) <= 53 { ShortIsNearest(rep, a, Bits(a)); } else { LongIsNearest(rep, a, Bits(a)); }
  }

  lemma ShortIsNearest(rep: nat, a: nat, sd: nat)
    requires 0 < a && 0 < sd == Bits(a) <= 53 && rep == Encoded(sd - 1, a * Pow2(53 - sd))
    ensures IsNearest(rep, a)
  {
    hide Bits, Pow2, Encoded, Exponent, Fraction, Finite, Value, IsNearest, One;
    ShiftedUp(a, sd);
    ShiftedValue(a, sd);
    EncodedParts(sd - 1, a * Pow2(53 - sd));
    ExactIsNearest(rep, a);
  }

  lemma LongIsNearest(rep: nat, a: nat, sd: nat)
    requires 0 < a && 53 < sd == Bits(a) <= 128
    requires var q := Rounded(a, Pow2(sd - 53)); rep == if q == CARRY then Encoded(sd, HIDDEN) else Encoded(sd - 1, q)
    ensures IsNearest(rep, a)
  {
    Quotient(a, sd);
    hide Bits, Pow2, Encoded, Exponent, Finite, Value, IsNearest, Rounded;
    RoundedParts(rep, Rounded(a, Pow2(sd - 53)), sd);
    RoundedIsNearest(rep, a, sd);
  }

  lemma RoundedParts(rep: nat, q: nat, sd: nat)
    requires 53 < sd <= 128 && HIDDEN <= q <= CARRY
    requires rep == if q == CARRY then Encoded(sd, HIDDEN) else Encoded(sd - 1, q)
    ensures rep < SIGN && Finite(rep) && Value(rep) == q * Pow2(sd + 1021)
    ensures q % 2 == 0 ==> Fraction(rep) % 2 == 0
  {
    hide Encoded, Exponent, Finite, Value;
    if q == CARRY { EncodedParts(sd, HIDDEN); } else { EncodedParts(sd - 1, q); }
  }

  // ----- Signed -----

  function Mirror(rep: nat): nat
    requires rep < WORD64
  {
    if Negative(rep) then rep - SIGN else rep + SIGN
  }

  lemma MirrorParts(rep: nat)
    requires rep < WORD64
    ensures Mirror(rep) < WORD64 && Exponent(Mirror(rep)) == Exponent(rep) && Fraction(Mirror(rep)) == Fraction(rep)
    ensures Value(Mirror(rep)) == -Value(rep)
  {
    hide Pow2;
    assert Exponent(Mirror(rep)) == Exponent(rep) && Fraction(Mirror(rep)) == Fraction(rep);
  }

  lemma MirrorIsNearest(rep: nat, a: int)
    requires rep < WORD64 && IsNearest(rep, a)
    ensures IsNearest(Mirror(rep), -a)
  {
    MirrorParts(rep);
    hide Value, Mirror, Exponent, Fraction, One;
    assert (-a) * One() == -(a * One());
    forall other: nat | Finite(other) ensures NoFarther(Mirror(rep), other, -a) {
      MirrorParts(other);
      assert NoFarther(rep, Mirror(other), a);
    }
  }

  /** floattidf: the nearest double to a signed 128-bit integer. */
  method FromSigned(a: int) returns (rep: nat)
    requires -WORD128 / 2 <= a < WORD128 / 2
    ensures IsNearest(rep, a) && (Negative(rep) <==> a < 0)
  {
    var magnitude := if a < 0 then -a else a;
    rep := FromUnsigned(magnitude);
    if a < 0 {
      MirrorIsNearest(rep, magnitude);
      rep := rep + SIGN;
    }
  }

  // ----- Back to integers -----

  /** fixunsdfti: what is negative or below one gives zero, what is too large the largest integer. */
  function ToUnsigned(rep: nat): int {
    var e := Exponent(rep) - BIAS;
    var significand := Fraction(rep) + HIDDEN;
    if Negative(rep) || e < 0 then 0
    else if e >= 128 then WORD128 - 1
    else if e < 52 then significand / Pow2(52 - e)
    else significand * Pow2(e - 52)
  }

  /** A double in range is cut down to the integer below it. */
  lemma Truncates(rep: nat)
    requires rep < WORD64 && !Negative(rep) && Exponent(rep) < BIAS + 128
    ensures ToUnsigned(rep) * One() <= Value(rep) < (ToUnsigned(rep) + 1) * One()
  {
    hide Exponent, Fraction, Pow2;
    var e := Exponent(rep) - BIAS;
    if e < 0 { BelowOne(rep); } else { TruncatesAboveOne(rep, e); }
  }

  lemma TruncatesAboveOne(rep: nat, e: nat)
    requires !Negative(rep) && Exponent(rep) == e + BIAS && e < 128
    ensures ToUnsigned(rep) * One() <= Magnitude(rep) < (ToUnsigned(rep) + 1) * One()
  {
    hide Exponent, Fraction, Pow2, Negative;
    var sig := Significand(rep);
    if e < 52 {
      Pow2Add(52 - e, e + 1022);
      Floor(sig, Pow2(52 - e), Pow2(e + 1022));
    } else {
      Pow2Add(e - 52, 1074);
      Regroup(sig, Pow2(e - 52), One());
      Distribute(One(), sig * Pow2(e - 52), 1);
    }
  }

  lemma BelowOne(rep: nat)
    requires rep < WORD64 && Exponent(rep) < BIAS
    ensures Magnitude(rep) < One()
  {
    SignificandBound(rep);
    Powers();
    hide Exponent, Fraction, Pow2;
    Pow2Grows(Shift(rep), 1021);
    Pow2Add(53, 1021);
    Scale(Significand(rep) + 1, CARRY, Pow2(Shift(rep)));
    Distribute(Pow2(Shift(rep)), Significand(rep), 1);
    Scale(Pow2(Shift(rep)), Pow2(1021), CARRY);
  }

  lemma Floor(sig: nat, p: nat, u: nat)
    requires p > 0 && u > 0
    ensures (sig / p) * (p * u) <= sig * u < (sig / p + 1) * (p * u)
  {
    var q, r := sig / p, sig % p;
    assert sig == p * q + r;
    ScaleBounds(sig, q * p, (q + 1) * p, u);
    Regroup(q, p, u);
    Regroup(q + 1, p, u);
  }

  /** The integer a conversion rounds to. */
  ghost function Nearest(a: nat): nat {
    if Bits(a) <= 53 then a else Rounded(a, Pow2(Bits(a) - 53)) * Pow2(Bits(a) - 53)
  }

  lemma EncodesValue(rep: nat, a: nat)
    requires 0 < a < WORD128 && Encodes(rep, a)
    ensures rep < SIGN && Finite(rep) && Value(rep) == Nearest(a) * One()
    ensures Exponent(rep) >= BIAS + 128 <==> Nearest(a) >= WORD128
  {
    SmallEnough(a);
    var sd := Bits(a);
    if sd <= 53 {
      ShiftedUp(a, sd);
      hide Bits, Pow2, Exponent, Fraction, Finite, Value, One;
      ShiftedValue(a, sd);
      EncodedParts(sd - 1, a * Pow2(53 - sd));
    } else {
      LongValue(rep, a, sd);
    }
  }

  lemma LongValue(rep: nat, a: nat, sd: nat)
    requires 0 < a < WORD128 && 53 < sd == Bits(a) <= 128 && Encodes(rep, a)
    ensures rep < SIGN && Finite(rep) && Value(rep) == Nearest(a) * One()
    ensures Exponent(rep) >= BIAS + 128 <==> Nearest(a) >= WORD128
  {
    Quotient(a, sd);
    hide Bits, Pow2, Exponent, Fraction, Finite, Value, Rounded;
    var q, unit := Rounded(a, Pow2(sd - 53)), Pow2(sd - 53);
    RoundedParts(rep, q, sd);
    Pow2Add(sd - 53, 1074);
    Regroup(q, unit, One());
    if q == CARRY { EncodedParts(sd, HIDDEN); } else { EncodedParts(sd - 1, q); }
    Overflow(q, sd);
  }

  lemma Overflow(q: nat, sd: nat)
    requires HIDDEN <= q <= CARRY && 53 < sd <= 128
    ensures q * Pow2(sd - 53) >= WORD128 <==> q == CARRY && sd == 128
  {
    Powers();
    hide Pow2;
    var unit := Pow2(sd - 53);
    Pow2Add(53, sd - 53);
    Scale(q, CARRY, unit);
    if sd < 128 {
      Pow2Grows(sd, 127);
      Pow2Add(1, 127);
      SmallPowers();
    } else if q < CARRY {
      Scale(q + 1, CARRY, unit);
      Distribute(unit, q, 1);
    }
  }

  /** Converting there and back rounds to the nearest double, cut off at the largest integer. */
  lemma ThereAndBack(rep: nat, a: nat)
    requires 0 < a < WORD128 && Encodes(rep, a)
    ensures ToUnsigned(rep) == if Nearest(a) < WORD128 then Nearest(a) else WORD128 - 1
  {
    EncodesValue(rep, a);
    hide Encodes, Nearest, Bits, Value, Fraction, Exponent, Pow2, ToUnsigned;
    if Nearest(a) < WORD128 {
      Truncates(rep);
      SameMultiple(ToUnsigned(rep), Nearest(a), One());
    } else {
      Saturates(rep);
    }
  }

  lemma Saturates(rep: nat)
    requires !Negative(rep) && Exponent(rep) >= BIAS + 128
    ensures ToUnsigned(rep) == WORD128 - 1
  {
    hide Exponent, Fraction, Pow2;
  }

  lemma SameMultiple(m: int, n: nat, one: nat)
    requires one > 0 && m * one <= n * one < (m + 1) * one
    ensures m == n
  {
    if n < m { MulAtLeast(one, m - n); Distribute(one, m, n); }
    if n > m + 1 { MulAtLeast(one, n - (m + 1)); Distribute(one, n, m + 1); }
  }

  /** At most 53 significant digits. */
  predicate Short(a: nat) {
    Bits(a) <= 53 || a % Pow2(Bits(a) - 53) == 0
  }

  /** An integer survives the way there and back exactly when it has 53 significant digits, or is the largest one. */
  lemma ThereAndBackExact(rep: nat, a: nat)
    requires 0 < a < WORD128 && Encodes(rep, a)
    ensures ToUnsigned(rep) == a <==> Short(a) || a == WORD128 - 1
  {
    ThereAndBack(rep, a);
    hide Encodes, ToUnsigned;
    SmallEnough(a);
    if Bits(a) > 53 {
      var sd := Bits(a);
      Quotient(a, sd);
      RoundedExact(a, Pow2(sd - 53));
      if a == WORD128 - 1 { LargestRoundsUp(); }
    }
  }

  lemma RoundedExact(a: nat, unit: nat)
    requires unit > 0 && a == a / unit * unit + a % unit
    ensures Rounded(a, unit) * unit == a <==> a % unit == 0
  {
    var q, r := a / unit, a % unit;
    Distribute(unit, q, 1);
  }

  lemma LargestRoundsUp()
    ensures Bits(WORD128 - 1) == 128 && Nearest(WORD128 - 1) == WORD128
  {
    Powers();
    var a, unit := WORD128 - 1, Pow2(75);
    assert Pow2(127) <= a by { hide Pow2; Pow2Add(1, 127); SmallPowers(); }
    BitsUnique(a, 128);
    hide Pow2, Bits;
    Pow2Add(53, 75);
    DivModUnique(a, unit, CARRY - 1, unit - 1);
    BigUnit();
  }

  lemma BigUnit()
    ensures Pow2(75) > 1
  {
    Pow2Grows(1, 75);
  }
}
