/** Doubles, as the real numbers they stand for, and what `strtod` makes of a number. */
module Doubles {
  import opened Floats

  /** Significands are below this, two to the 53. */
  const DOUBLE_LIMIT: nat := 0x20_0000_0000_0000

  /** Magnitudes are counted in units of two to the minus `DOUBLE_SCALE`, the least positive double. */
  const DOUBLE_SCALE: nat := 1074

  /** Magnitudes are below two to this many, in units. */
  const DOUBLE_TOP: nat := 2098

  /** Normal doubles are at least two to this many, in units. */
  const NORMAL: nat := 52

  function Magnitude(x: real): (a: real)
    ensures a >= 0.0
  {
    if x < 0.0 then -x else x
  }

  function Signed(negative: bool, a: real): real
  {
    if negative then -a else a
  }

  function Unit(): (u: real)
    ensures u >= 1.0
  {
    Pow2(DOUBLE_SCALE) as real
  }

  function InUnits(a: real): (q: real)
    requires a >= 0.0
    ensures q >= 0.0
  {
    Positive(a, Unit());
    a * Unit()
  }

  lemma Positive(a: real, u: real)
    requires a >= 0.0 && u >= 1.0
    ensures a * u >= 0.0 && a / u >= 0.0
  {}

  /** The magnitude of the nearest double, in units. */
  function NearestUnits(a: real): nat
    requires a >= 0.0
  {
    Nearest(InUnits(a), DOUBLE_LIMIT)
  }

  /** The number `m` units are. */
  function FromUnits(m: nat): (a: real)
    ensures a >= 0.0
  {
    Positive(m as real, Unit());
    m as real / Unit()
  }

  function NearestDouble(x: real): real
  {
    Signed(x < 0.0, FromUnits(NearestUnits(Magnitude(x))))
  }

  /** A finite double. */
  predicate IsDouble(x: real)
  {
    var q := InUnits(Magnitude(x));
    q == q.Floor as real && Fits(q.Floor, DOUBLE_LIMIT) && q.Floor < Pow2(DOUBLE_TOP)
  }

  type Double = x: real | IsDouble(x) witness (ZeroIsDouble(); 0.0)

  lemma ZeroIsDouble()
    ensures IsDouble(0.0)
  {
    hide Pow2;
    assert InUnits(0.0) == 0.0;
  }

  lemma UnitsBack(m: nat)
    ensures InUnits(FromUnits(m)) == m as real
  {}

  lemma FromUnitsOf(a: real)
    requires a >= 0.0 && InUnits(a) == InUnits(a).Floor as real
    ensures FromUnits(InUnits(a).Floor) == a
  {}

  /** The nearest double is a double, unless it is too large. */
  lemma NearestIsDouble(x: real)
    ensures InUnits(Magnitude(NearestDouble(x))) == NearestUnits(Magnitude(x)) as real
    ensures IsDouble(NearestDouble(x)) <==> NearestUnits(Magnitude(x)) < Pow2(DOUBLE_TOP)
    ensures x >= 0.0 ==> NearestDouble(x) >= 0.0
    ensures x < 0.0 ==> NearestDouble(x) <= 0.0
  {
    hide Pow2, NearestUnits, InUnits, FromUnits, Fits;
    var m := NearestUnits(Magnitude(x));
    UnitsBack(m);
    UnitsFit(Magnitude(x));
  }

  lemma UnitsFit(a: real)
    requires a >= 0.0
    ensures Fits(NearestUnits(a), DOUBLE_LIMIT)
  {
    hide Nearest, InUnits, Fits;
    NearestFits(InUnits(a), DOUBLE_LIMIT);
  }

  /** A double is the nearest double to itself. */
  lemma DoubleStays(x: Double)
    ensures NearestUnits(Magnitude(x)) as real == InUnits(Magnitude(x))
    ensures NearestDouble(x) == x
  {
    hide Pow2, InUnits, FromUnits, Fits, Nearest;
    assert IsDouble(x);
    var q := InUnits(Magnitude(x));
    NearestExactIff(q.Floor, DOUBLE_LIMIT);
    FromUnitsOf(Magnitude(x));
  }

  // ---------------------------------------------------------------- whole numbers

  lemma WholeUnits(n: nat)
    ensures InUnits(n as real) == (n * Pow2(DOUBLE_SCALE)) as real
  {
    hide Pow2;
  }

  /** A whole number is a double exactly when it fits, and is not too large. */
  lemma WholeIsDoubleIff(n: nat)
    ensures IsDouble(n as real) <==> Fits(n, DOUBLE_LIMIT) && n * Pow2(DOUBLE_SCALE) < Pow2(DOUBLE_TOP)
  {
    hide Pow2, Fits, InUnits;
    WholeUnits(n);
    FitsScaled(n, DOUBLE_SCALE, DOUBLE_LIMIT);
    FloorOfWhole(n * Pow2(DOUBLE_SCALE));
  }

  lemma FloorOfWhole(n: nat)
    ensures (n as real).Floor == n
  {}

  lemma {:induction false} PowAtMost(a: nat, b: nat)
    requires a <= b
    ensures Pow2(a) <= Pow2(b)
  {
    if a < b {
      PowMonotone(a, b);
    }
  }

  /** Nothing below 2^1024 is too large. */
  lemma WholeInRange(n: nat, e: nat)
    requires n <= Pow2(e) && e < DOUBLE_TOP - DOUBLE_SCALE
    ensures n * Pow2(DOUBLE_SCALE) < Pow2(DOUBLE_TOP)
  {
    hide Pow2;
    PowSum(e, DOUBLE_SCALE);
    PowMonotone(e + DOUBLE_SCALE, DOUBLE_TOP);
    TimesAtMost(n, Pow2(e), Pow2(DOUBLE_SCALE));
  }

  lemma TimesAtMost(a: nat, b: nat, p: nat)
    requires a <= b
    ensures a * p <= b * p
  {}

  lemma LimitIsPower()
    ensures DOUBLE_LIMIT == Pow2(53)
  {
    assert Pow2(5) == 32;
    assert Pow2(3) == 8;
    hide Pow2;
    PowSum(5, 5);
    PowSum(10, 10);
    PowSum(20, 20);
    PowSum(40, 10);
    PowSum(50, 3);
  }

  predicate Whole(a: real)
  {
    a == a.Floor as real
  }

  /** A double of 2^53 or more is whole. */
  lemma LargeIsWhole(x: Double)
    requires Magnitude(x) >= DOUBLE_LIMIT as real
    ensures Whole(Magnitude(x))
  {
    hide Pow2, Fits, Nearest;
    DoubleStays(x);
    var a := Magnitude(x);
    var q := InUnits(a);
    TimesAtMostReal(DOUBLE_LIMIT as real, a, Unit());
    NearestMultiple(q, DOUBLE_SCALE, DOUBLE_LIMIT);
    var n: nat :| Nearest(q, DOUBLE_LIMIT) == n * Pow2(DOUBLE_SCALE);
    MultipleIsWhole(a, n);
  }

  lemma TimesAtMostReal(a: real, b: real, p: real)
    requires a <= b && p >= 0.0
    ensures a * p <= b * p
  {}

  /** A whole multiple of the number one is, in units. */
  lemma MultipleIsWhole(a: real, n: nat)
    requires a >= 0.0 && InUnits(a) == (n * Pow2(DOUBLE_SCALE)) as real
    ensures a == n as real
  {
    hide InUnits, Unit;
    WholeUnits(n);
    UnitOrder(a, n as real);
    UnitOrder(n as real, a);
  }

  /** The order of the magnitudes is that of their numbers of units. */
  lemma UnitOrder(a: real, b: real)
    requires a >= 0.0 && b >= 0.0
    ensures InUnits(a) <= InUnits(b) <==> a <= b
  {
    hide Unit;
    if a <= b {
      TimesAtMostReal(a, b, Unit());
    } else {
      TimesAtMostReal(b, a, Unit());
      Apart(a, b, Unit());
    }
  }

  lemma Apart(a: real, b: real, p: real)
    requires a > b && p > 0.0
    ensures a * p != b * p
  {}

  lemma UnitsMinus(a: real, b: real)
    requires 0.0 <= b <= a
    ensures InUnits(a - b) == InUnits(a) - InUnits(b)
  {
    hide Unit;
    Spread(a, b, Unit());
  }

  lemma Spread(a: real, b: real, p: real)
    ensures (a - b) * p == a * p - b * p
  {}

  // ---------------------------------------------------------------- reading a number

  /** `strtod` reports ERANGE: the number is too large, or it is not a double and too small for a normal
      one. */
  predicate OutOfRange(x: real)
  {
    var a := Magnitude(x);
    || NearestUnits(a) >= Pow2(DOUBLE_TOP)
    || (!Whole(InUnits(a)) && InUnits(a) < Pow2(NORMAL) as real - 0.25)
  }

  /** `strtod` on a number in range. */
  function ToDouble(x: real): Double
    requires !OutOfRange(x)
  {
    NearestIsDouble(x);
    NearestDouble(x)
  }

  lemma DoubleInRange(x: Double)
    ensures !OutOfRange(x) && ToDouble(x) == x
  {
    hide Pow2, Fits, Nearest, NearestUnits, InUnits;
    DoubleStays(x);
    assert IsDouble(x);
    FloorOfWhole(NearestUnits(Magnitude(x)));
  }

  /** Rounding keeps the order. */
  lemma UnitsMonotone(a: real, b: real)
    requires 0.0 <= a <= b
    ensures NearestUnits(a) <= NearestUnits(b)
  {
    hide Nearest, InUnits;
    UnitOrder(a, b);
    NearestMonotone(InUnits(a), InUnits(b), DOUBLE_LIMIT);
  }

  /** Nothing up to 2^53 is too large. */
  lemma SmallInRange(a: real)
    requires 0.0 <= a <= DOUBLE_LIMIT as real
    ensures NearestUnits(a) < Pow2(DOUBLE_TOP)
  {
    LimitFits();
    hide Pow2, Fits, NearestUnits;
    UnitsMonotone(a, DOUBLE_LIMIT as real);
    LimitIsPower();
    WholeInRange(DOUBLE_LIMIT, 53);
    WholeIsDoubleIff(DOUBLE_LIMIT);
    DoubleStays(DOUBLE_LIMIT as real);
    WholeUnits(DOUBLE_LIMIT);
  }

  /** A whole number up to 2^e is in range. */
  lemma WholeNotOut(n: nat, e: nat)
    requires n <= Pow2(e) && e < DOUBLE_TOP - DOUBLE_SCALE
    ensures !OutOfRange(n as real)
  {
    hide Pow2, Fits, NearestUnits, InUnits;
    WholeUnits(n);
    FloorOfWhole(n * Pow2(DOUBLE_SCALE));
    PowerUnits(e);
    UnitsMonotone(n as real, Pow2(e) as real);
  }

  lemma PowerUnits(e: nat)
    requires e < DOUBLE_TOP - DOUBLE_SCALE
    ensures NearestUnits(Pow2(e) as real) < Pow2(DOUBLE_TOP)
  {
    assert Fits(1, DOUBLE_LIMIT);
    hide Pow2, Fits, NearestUnits, InUnits;
    FitsScaled(1, e, DOUBLE_LIMIT);
    WholeInRange(Pow2(e), e);
    WholeIsDoubleIff(Pow2(e));
    DoubleStays(Pow2(e) as real);
    WholeUnits(Pow2(e));
  }

  /** A whole number is made a whole double, and stays as it is if it fits. */
  lemma WholeToDouble(n: nat)
    requires !OutOfRange(n as real)
    ensures Whole(ToDouble(n as real)) && ToDouble(n as real) >= 0.0
    ensures Fits(n, DOUBLE_LIMIT) ==> ToDouble(n as real) == n as real
  {
    FitsBelow(n);
    hide Pow2, Fits, NearestUnits, InUnits, OutOfRange;
    var d := ToDouble(n as real);
    NearestIsDouble(n as real);
    if Fits(n, DOUBLE_LIMIT) {
      FittingInRange(n);
    } else {
      UnitsMonotone(DOUBLE_LIMIT as real, n as real);
      LimitUnits();
      assert InUnits(DOUBLE_LIMIT as real) <= InUnits(d);
      UnitOrder(DOUBLE_LIMIT as real, d);
      LargeIsWhole(d);
    }
  }

  lemma FitsBelow(n: nat)
    ensures n < DOUBLE_LIMIT ==> Fits(n, DOUBLE_LIMIT)
  {}

  lemma FittingInRange(n: nat)
    requires Fits(n, DOUBLE_LIMIT) && !OutOfRange(n as real)
    ensures ToDouble(n as real) == n as real
  {
    hide Pow2, Fits, NearestUnits, InUnits;
    FitsScaled(n, DOUBLE_SCALE, DOUBLE_LIMIT);
    WholeUnits(n);
    NearestOfFit(n * Pow2(DOUBLE_SCALE), n as real);
    WholeIsDoubleIff(n);
    DoubleInRange(n as real);
  }

  lemma NearestOfFit(m: nat, a: real)
    requires a >= 0.0 && Fits(m, DOUBLE_LIMIT) && InUnits(a) == m as real
    ensures NearestUnits(a) == m
  {
    hide Fits, InUnits, Nearest;
    NearestExactIff(m, DOUBLE_LIMIT);
  }

  lemma LimitUnits()
    ensures NearestUnits(DOUBLE_LIMIT as real) as real == InUnits(DOUBLE_LIMIT as real)
  {
    LimitFits();
    hide Pow2, Fits, NearestUnits, InUnits;
    FitsScaled(DOUBLE_LIMIT, DOUBLE_SCALE, DOUBLE_LIMIT);
    WholeUnits(DOUBLE_LIMIT);
    NearestOfFit(DOUBLE_LIMIT * Pow2(DOUBLE_SCALE), DOUBLE_LIMIT as real);
  }

  /** The integer a double is cut to fits. */
  lemma CutFits(x: Double)
    requires x >= 0.0
    ensures Fits(x.Floor, DOUBLE_LIMIT)
  {
    FitsBelow(x.Floor);
    hide Pow2, Fits, NearestUnits, InUnits;
    if x >= DOUBLE_LIMIT as real {
      LargeIsWhole(x);
      WholeIsDoubleIff(x.Floor);
    }
  }

  lemma LimitFits()
    ensures Fits(DOUBLE_LIMIT, DOUBLE_LIMIT)
  {
    assert Fits(DOUBLE_LIMIT / 2, DOUBLE_LIMIT);
  }
}
