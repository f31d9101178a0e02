/** What a number of a JSON value is after it was printed and read again. */
module JsonNumbers {
  import opened Decimals
  import opened Floats
  import opened Doubles
  import opened JsonText

  /** A magnitude rounded to six decimals. */
  function Sixth(a: real): (r: real)
    requires a >= 0.0
    ensures r >= 0.0
  {
    Millionths(a) as real / 1000000.0
  }

  lemma RoundedMagnitude(x: real)
    ensures Magnitude(Rounded(x)) == Sixth(Magnitude(x))
  {
    hide Millionths;
  }

  lemma SixthOfWhole(a: real)
    requires a >= 0.0 && Whole(a)
    ensures Sixth(a) == a
  {
    RoundWhole(a.Floor * 1000000);
    hide RoundEven;
    assert a * 1000000.0 == (a.Floor * 1000000) as real;
  }

  lemma SixthAtMost(a: real, n: nat)
    requires 0.0 <= a <= n as real
    ensures Sixth(a) <= n as real
  {
    RoundWhole(n * 1000000);
    RoundMonotone(a * 1000000.0, (n * 1000000) as real);
    hide RoundEven;
  }

  // ---------------------------------------------------------------- no printed number is out of range

  lemma Million()
    ensures Pow2(20) == 1048576
  {
    assert Pow2(10) == 1024;
    hide Pow2;
    PowSum(10, 10);
  }

  lemma MillionthLarge()
    ensures Unit() >= 1000000.0 * Pow2(NORMAL) as real
  {
    hide Pow2;
    Million();
    PowSum(20, 1054);
    PowAtMost(NORMAL, 1054);
    TimesAtMost(1000000, Pow2(20), Pow2(1054));
    assert Pow2(DOUBLE_SCALE) >= 1000000 * Pow2(NORMAL);
  }

  lemma SixthNormal(k: nat)
    requires k > 0
    ensures InUnits(k as real / 1000000.0) >= Pow2(NORMAL) as real
  {
    hide Pow2;
    MillionthLarge();
    TimesAtMostReal(0.000001, k as real / 1000000.0, Unit());
  }

  lemma SixthNotTiny(a: real)
    requires a >= 0.0
    ensures Whole(InUnits(Sixth(a))) || InUnits(Sixth(a)) >= Pow2(NORMAL) as real
  {
    hide Pow2;
    if Millionths(a) == 0 {
      assert InUnits(0.0) == 0.0;
    } else {
      SixthNormal(Millionths(a));
    }
  }

  lemma RoundedInRange(x: Double)
    ensures !OutOfRange(Rounded(x))
  {
    hide Pow2, NearestUnits, InUnits, Rounded, Sixth, Whole;
    var a := Magnitude(x);
    RoundedMagnitude(x);
    SixthNotTiny(a);
    if a >= DOUBLE_LIMIT as real {
      LargeIsWhole(x);
      SixthOfWhole(a);
      DoubleInRange(x);
    } else {
      SixthAtMost(a, DOUBLE_LIMIT);
      SmallInRange(Sixth(a));
    }
  }

  /** The double that is read from what is printed for `x`. */
  function Reread(x: Double): Double
  {
    RoundedInRange(x);
    ToDouble(Rounded(x))
  }

  // ---------------------------------------------------------------- which doubles come back

  /** The nearest integer is nearer than any other. */
  lemma RoundBest(q: real, k: nat)
    requires q >= 0.0
    ensures Distance(RoundEven(q) as real, q) <= Distance(k as real, q)
    ensures Distance(k as real, q) < 0.5 ==> RoundEven(q) == k
  {}

  /** A magnitude of `k` millionths. */
  function SixDecimals(k: nat): (a: real)
    ensures a >= 0.0
  {
    k as real / 1000000.0
  }

  /** Rounding to six decimals gets at least as near as any number of six decimals, and back to it if that
      is near enough. */
  lemma SixthBest(a: real, k: nat)
    requires a >= 0.0
    ensures Distance(Sixth(a), a) <= Distance(SixDecimals(k), a)
    ensures Distance(SixDecimals(k), a) < 0.0000005 ==> Sixth(a) == SixDecimals(k)
  {
    RoundBest(a * 1000000.0, k);
    hide RoundEven;
    ScaledDistance(Sixth(a), a);
    ScaledDistance(SixDecimals(k), a);
  }

  lemma ScaledDistance(a: real, b: real)
    ensures Distance(a * 1000000.0, b * 1000000.0) == 1000000.0 * Distance(a, b)
  {}

  lemma UnitDistance(a: real, b: real)
    requires a >= 0.0 && b >= 0.0
    ensures Distance(InUnits(a), InUnits(b)) == InUnits(Distance(a, b))
  {
    hide InUnits;
    UnitOrder(a, b);
    UnitOrder(b, a);
    if a < b {
      UnitsMinus(b, a);
    } else {
      UnitsMinus(a, b);
    }
  }

  /** The distance of a number from the double it is rounded to. */
  lemma ErrorOf(a: real, d: real)
    requires a >= 0.0 && d >= 0.0 && InUnits(a) == NearestUnits(d) as real
    ensures Distance(a, d) < 0.0000005 || Distance(a, d) * DOUBLE_LIMIT as real <= d
  {
    hide Pow2, Nearest, InUnits, SmallError;
    NearestError(InUnits(d), DOUBLE_LIMIT);
    UnitDistance(a, d);
    UnscaledError(Distance(a, d), d);
  }

  lemma UnitLarge()
    ensures Unit() >= 2000000.0
  {
    MillionthLarge();
    PowAtMost(1, NORMAL);
    assert Pow2(1) == 2;
    hide Pow2;
  }

  lemma UnscaledError(e: real, d: real)
    requires e >= 0.0 && d >= 0.0 && SmallError(InUnits(e), InUnits(d), DOUBLE_LIMIT as real)
    ensures e < 0.0000005 || e * DOUBLE_LIMIT as real <= d
  {
    hide InUnits, Unit;
    if InUnits(e) <= 0.5 {
      TinyError(e);
    } else {
      UnitsTimes(e, DOUBLE_LIMIT as real);
      UnitOrder(e * DOUBLE_LIMIT as real, d);
    }
  }

  lemma TinyError(e: real)
    requires e >= 0.0 && InUnits(e) <= 0.5
    ensures e < 0.0000005
  {
    hide InUnits, Unit;
    if e >= 0.0000005 {
      UnitOrder(0.0000005, e);
      HalfMillionth();
    }
  }

  lemma HalfMillionth()
    ensures InUnits(0.0000005) >= 1.0
  {
    hide Unit;
    UnitLarge();
  }

  lemma UnitsTimes(e: real, limit: real)
    requires e >= 0.0 && limit >= 0.0
    ensures e * limit >= 0.0 && InUnits(e * limit) == InUnits(e) * limit
  {
    hide Unit;
    Regroup(e, limit, Unit());
  }

  lemma Regroup(a: real, b: real, c: real)
    requires a >= 0.0 && b >= 0.0
    ensures a * b >= 0.0 && (a * b) * c == (a * c) * b
  {}

  /** Below 2^32 the nearest double of a number of six decimals is so near that it is rounded back. */
  lemma SmallBack(k: nat, a: real)
    requires a >= 0.0 && InUnits(a) == NearestUnits(SixDecimals(k)) as real
    requires SixDecimals(k) <= 4294967296.0
    ensures Sixth(a) == SixDecimals(k)
  {
    hide Pow2, NearestUnits, InUnits, Sixth, SixDecimals;
    ErrorOf(a, SixDecimals(k));
    SixthBest(a, k);
  }

  /** Above, what it is rounded to is as near, and so has the same nearest double. */
  lemma LargeBack(k: nat, a: real)
    requires a >= 0.0 && InUnits(a) == NearestUnits(SixDecimals(k)) as real
    requires SixDecimals(k) > 4294967296.0
    ensures NearestUnits(Sixth(a)) == NearestUnits(SixDecimals(k))
  {
    hide Pow2, Nearest, InUnits, Sixth, SixDecimals, AtPower;
    var d := SixDecimals(k);
    ErrorOf(a, d);
    SixthBest(a, k);
    SixthBest(a, 0);
    NearerInUnits(a, Sixth(a), d);
    NearestNearer(InUnits(d), InUnits(Sixth(a)), DOUBLE_LIMIT);
    if AtPower(NearestUnits(d), DOUBLE_LIMIT) {
      PowerIsWhole(a, NearestUnits(d));
      SixthOfWhole(a);
      UnitsFit(d);
      NearestExactIff(NearestUnits(d), DOUBLE_LIMIT);
    }
  }

  lemma NearerInUnits(a: real, r: real, d: real)
    requires a >= 0.0 && r >= 0.0 && 0.0 <= d <= 2.0 * r && Distance(r, a) <= Distance(d, a)
    ensures Distance(InUnits(r), InUnits(a)) <= Distance(InUnits(d), InUnits(a))
    ensures InUnits(d) <= 2.0 * InUnits(r)
  {
    hide InUnits, Distance;
    UnitDistance(r, a);
    UnitDistance(d, a);
    UnitOrder(Distance(r, a), Distance(d, a));
    UnitOrder(d, 2.0 * r);
    UnitsTimes(r, 2.0);
  }

  lemma OneInUnits()
    ensures InUnits(1.0) == Pow2(DOUBLE_SCALE) as real
  {
    hide Pow2;
  }

  lemma PowerIsWhole(a: real, m: nat)
    requires a >= 1.0 && InUnits(a) == m as real && AtPower(m, DOUBLE_LIMIT)
    ensures Whole(a)
  {
    hide Pow2, AtPower, InUnits;
    LimitIsPower();
    OneInUnits();
    UnitOrder(1.0, a);
    PowerMultiple(m, 53, DOUBLE_SCALE);
    var n: nat :| m == n * Pow2(DOUBLE_SCALE);
    MultipleIsWhole(a, n);
  }

  /** The double nearest to a number of six decimals is rounded to a number with the same nearest double. */
  lemma SixDecimalsBack(k: nat, a: real)
    requires a >= 0.0 && InUnits(a) == NearestUnits(SixDecimals(k)) as real
    ensures NearestUnits(Sixth(a)) == NearestUnits(SixDecimals(k))
  {
    hide NearestUnits, InUnits, Sixth, SixDecimals;
    if SixDecimals(k) <= 4294967296.0 {
      SmallBack(k, a);
    } else {
      LargeBack(k, a);
    }
  }

  lemma RereadUnits(x: Double)
    ensures InUnits(Magnitude(Reread(x))) == NearestUnits(Sixth(Magnitude(x))) as real
    ensures x >= 0.0 ==> Reread(x) >= 0.0
    ensures x <= 0.0 ==> Reread(x) <= 0.0
  {
    hide Pow2, NearestUnits, InUnits, Sixth, OutOfRange;
    RoundedInRange(x);
    RoundedMagnitude(x);
    NearestIsDouble(Rounded(x));
    RoundedSign(x);
    NearestOfZero();
  }

  lemma RoundedSign(x: real)
    ensures x >= 0.0 ==> Rounded(x) >= 0.0
    ensures x < 0.0 ==> Rounded(x) <= 0.0
    ensures x == 0.0 ==> Rounded(x) == 0.0
  {}

  lemma NearestOfZero()
    ensures NearestDouble(0.0) == 0.0
  {
    hide NearestUnits, Pow2;
    ZeroIsDouble();
    DoubleStays(0.0);
  }

  lemma SameUnits(x: real, y: real)
    requires InUnits(Magnitude(x)) == InUnits(Magnitude(y))
    requires x >= 0.0 ==> y >= 0.0
    requires x <= 0.0 ==> y <= 0.0
    ensures x == y
  {
    hide InUnits;
    UnitOrder(Magnitude(x), Magnitude(y));
    UnitOrder(Magnitude(y), Magnitude(x));
  }

  /** `x` is the double nearest to a number of `k` millionths. */
  predicate NearestTo(x: Double, k: nat)
  {
    InUnits(Magnitude(x)) == NearestUnits(SixDecimals(k)) as real
  }

  /** Exactly the doubles that are nearest to some number of six decimals are read as they were printed. */
  lemma RereadIff(x: Double)
    ensures Reread(x) == x <==> exists k: nat :: NearestTo(x, k)
  {
    hide NearestUnits, InUnits, Reread;
    RereadUnits(x);
    if Reread(x) == x {
      assert NearestTo(x, Millionths(Magnitude(x)));
    }
    if k: nat :| NearestTo(x, k) {
      SixDecimalsBack(k, Magnitude(x));
      SameUnits(x, Reread(x));
    }
  }

  /** Printing and reading a second time changes nothing. */
  lemma RereadTwice(x: Double)
    ensures Reread(Reread(x)) == Reread(x)
  {
    hide NearestUnits, InUnits, Reread;
    RereadUnits(x);
    assert NearestTo(Reread(x), Millionths(Magnitude(x)));
    RereadIff(Reread(x));
  }

  /** Whole doubles are read as they were printed. */
  lemma WholeReread(x: Double)
    requires Whole(Magnitude(x))
    ensures Reread(x) == x
  {
    hide NearestUnits, InUnits, Reread, Whole, Sixth;
    RereadUnits(x);
    SixthOfWhole(Magnitude(x));
    DoubleStays(x);
    SameUnits(x, Reread(x));
  }
}
