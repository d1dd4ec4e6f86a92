/**
 * Doubles as 64-bit patterns. Values are counted in units of the smallest positive double, 2^-1074, so that every
 * finite double is an integer number of them.
 */
module Doubles {

  const HIDDEN := 0x10_0000_0000_0000      // 2^52
  const CARRY := 0x20_0000_0000_0000       // 2^53
  const SIGN := 0x8000_0000_0000_0000
  const WORD64 := 0x1_0000_0000_0000_0000
  const WORD128 := 0x1_0000_0000_0000_0000_0000_0000_0000_0000
  const BIAS := 1023

  function Pow2(n: nat): (p: nat)
    ensures p >= 1
  {
    if n == 0 then 1 else 2 * Pow2(n - 1)
  }

  /** How many binary digits a number has. */
  function Bits(a: nat): nat {
    if a == 0 then 0 else 1 + Bits(a / 2)
  }

  function Exponent(rep: nat): nat { rep / HIDDEN % 2048 }

  function Fraction(rep: nat): nat { rep % HIDDEN }

  predicate Negative(rep: nat) { rep >= SIGN }

  predicate Finite(rep: nat) { rep < WORD64 && Exponent(rep) < 2047 }

  function Significand(rep: nat): nat {
    if Exponent(rep) == 0 then Fraction(rep) else HIDDEN + Fraction(rep)
  }

  function Shift(rep: nat): nat {
    if Exponent(rep) == 0 then 0 else Exponent(rep) - 1
  }

  /** The magnitude of a finite double, in units of 2^-1074. */
  function Magnitude(rep: nat): nat { Significand(rep) * Pow2(Shift(rep)) }

  function Value(rep: nat): int { if Negative(rep) then 0 - Magnitude(rep) else Magnitude(rep) }

  /** One, in those units. */
  function One(): nat { Pow2(1074) }

  function Distance(x: int, y: int): nat { if x < y then y - x else x - y }

  /** No finite double is nearer to the integer, and if another one is as near, this one's last digit is zero. */
  ghost predicate IsNearest(rep: nat, a: int) {
    && Finite(rep)
    && forall other: nat :: Finite(other) ==> NoFarther(rep, other, a)
  }

  ghost predicate NoFarther(rep: nat, other: nat, a: int) {
    && Distance(Value(rep), a * One()) <= Distance(Value(other), a * One())
    && (Distance(Value(rep), a * One()) == Distance(Value(other), a * One()) && Value(rep) != Value(other)
        ==> Fraction(rep) % 2 == 0)
  }

  // ----- Powers and digits -----

  lemma {:induction false} Pow2Add(m: nat, n: nat)
    ensures Pow2(m + n) == Pow2(m) * Pow2(n)
  {
    if m > 0 {
      Pow2Add(m - 1, n);
      Regroup(2, Pow2(m - 1), Pow2(n));
    }
  }

  lemma Pow2Grows(m: nat, n: nat)
    requires m <= n
    ensures Pow2(m) <= Pow2(n)
  {
    Pow2Add(n - m, m);
    Scale(1, Pow2(n - m), Pow2(m));
  }

  lemma Scale(a: nat, b: nat, c: nat)
    requires a <= b
    ensures a * c <= b * c
  {
  }

  lemma {:induction false} BitsBound(a: nat)
    requires a > 0
    ensures Bits(a) > 0 && Pow2(Bits(a) - 1) <= a < Pow2(Bits(a))
  {
    if a > 1 { BitsBound(a / 2); }
  }

  lemma {:induction false} BitsUnique(a: nat, n: nat)
    requires n > 0 && Pow2(n - 1) <= a < Pow2(n)
    ensures Bits(a) == n
  {
    BitsBound(a);
    if Bits(a) < n { Pow2Grows(Bits(a), n - 1); }
    if n < Bits(a) { Pow2Grows(n, Bits(a) - 1); }
  }

  lemma SmallPowers()
    ensures Pow2(1) == 2 && Pow2(11) == 2048 && Pow2(13) == 8192
  {
  }

  lemma Powers()
    ensures Pow2(52) == HIDDEN && Pow2(53) == CARRY && Pow2(64) == WORD64 && Pow2(128) == WORD128
  {
    SmallPowers();
    hide Pow2;
    Pow2Add(13, 13);
    Pow2Add(26, 26);
    Pow2Add(1, 52);
    Pow2Add(11, 53);
    Pow2Add(64, 64);
  }

  // ----- Encoding -----

  function Encoded(e: nat, m: nat): nat { (e + BIAS) * HIDDEN + m % HIDDEN }

  lemma EncodedParts(e: nat, m: nat)
    requires e <= 128 && HIDDEN <= m < CARRY
    ensures var rep := Encoded(e, m);
      && rep < SIGN && Finite(rep) && Exponent(rep) == e + BIAS && Fraction(rep) == m - HIDDEN
      && Value(rep) == m * Pow2(e + 1022)
  {
    var rep := Encoded(e, m);
    assert m % HIDDEN == m - HIDDEN;
    assert rep / HIDDEN == e + BIAS && rep % HIDDEN == m - HIDDEN;
  }

  // ----- Nearness -----

  /** Between two neighbouring multiples of a large enough power of two there is no double. */
  lemma NoDoubleBetween(other: nat, q: nat, n: nat)
    requires Finite(other) && q >= HIDDEN && n > 0
    ensures Magnitude(other) <= q * Pow2(n) || Magnitude(other) >= (q + 1) * Pow2(n)
  {
    hide Pow2, Exponent, Fraction;
    var m, k, t := Significand(other), Shift(other), Pow2(n);
    assert m < CARRY by { SignificandBound(other); }
    if k >= n {
      Pow2Add(k - n, n);
      var j := m * Pow2(k - n);
      Regroup(m, Pow2(k - n), t);
      if j <= q { Scale(j, q, t); } else { Scale(q + 1, j, t); }
    } else {
      Pow2Grows(k + 1, n);
      Pow2Add(1, k);
      SmallPowers();
      Scale(m, CARRY, Pow2(k));
      Scale(HIDDEN, q, t);
    }
  }

  lemma SignificandBound(rep: nat)
    ensures Significand(rep) < CARRY
  {
  }

  lemma Regroup(a: int, b: int, c: int)
    ensures a * (b * c) == (a * b) * c
  {
  }

  /** Which of two neighbours a number is rounded to: the nearer one, or the even one in the middle. */
  function RoundEven(q: nat, r: nat, unit: nat): (q': nat)
    ensures q' == q || q' == q + 1
  {
    if 2 * r < unit || (2 * r == unit && q % 2 == 0) then q else q + 1
  }

  /** Rounding to the even neighbour is nearest among everything that is not strictly between the neighbours. */
  lemma RoundEvenNearest(q: nat, r: nat, unit: nat, one: nat, x: int)
    requires r < unit && one > 0
    requires x <= q * (unit * one) || x >= (q + 1) * (unit * one)
    ensures var y := RoundEven(q, r, unit) * (unit * one); var a := (q * unit + r) * one;
      && Distance(y, a) <= Distance(x, a)
      && (Distance(y, a) == Distance(x, a) && x != y ==> RoundEven(q, r, unit) % 2 == 0)
  {
    var t, low, d := unit * one, q * (unit * one), r * one;
    assert (q * unit + r) * one == low + d by {
      Regroup(q, unit, one);
      assert (q * unit + r) * one == q * unit * one + r * one;
    }
    assert (q + 1) * t == low + t;
    Compare(r, unit, one);
    var q' := RoundEven(q, r, unit);
    assert q' * t == if q' == q then low else low + t;
  }

  lemma Compare(r: nat, unit: nat, one: nat)
    requires r < unit && one > 0
    ensures r * one < unit * one
    ensures 2 * r < unit ==> 2 * (r * one) < unit * one
    ensures 2 * r == unit ==> 2 * (r * one) == unit * one
    ensures 2 * r > unit ==> 2 * (r * one) > unit * one
  {
    assert unit * one == r * one + (unit - r) * one;
    assert unit * one == (2 * r) * one + (unit - 2 * r) * one;
    assert (2 * r) * one == 2 * (r * one);
    if 2 * r < unit { Scale(1, unit - 2 * r, one); }
    if 2 * r > unit { Scale(1, 2 * r - unit, one); assert (2 * r - unit) * one == (2 * r) * one - unit * one; }
    Scale(1, unit - r, one);
  }
}
