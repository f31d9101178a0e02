/** The four bytes of a `float`, and the `int` its difference with another is converted to. */
module FloatValues {
  import opened Bytes
  import opened Options
  import opened Floats
  import opened Tuples

  /** Significands are below this. */
  const FLOAT_LIMIT: nat := 0x100_0000

  /** Values are counted in units of two to the minus `FLOAT_SCALE`, the least positive float. */
  const FLOAT_SCALE: nat := 149

  /** Neither an infinity nor no number. */
  predicate Finite(bits: Data)
  {
    Decode(bits) / 0x80_0000 % 0x100 != 0xFF
  }

  /** The value of a finite float, in units. */
  function Units(bits: Data): int
  {
    var w := Decode(bits);
    var e, m := w / 0x80_0000 % 0x100, w % 0x80_0000;
    var a := if e == 0 then m else (0x80_0000 + m) * Pow2(e - 1);
    if w >= 0x8000_0000 then -a else a
  }

  function Magnitude(n: int): (m: nat)
  {
    if n < 0 then -n else n
  }

  /** The magnitude of the rounded difference of two finite floats, in units. */
  function Gap(a: Data, b: Data): nat
  {
    Nearest(Magnitude(Units(a) - Units(b)) as real, FLOAT_LIMIT)
  }

  /** The rounded difference of two finite floats, cut to an integer. */
  function Cut(a: Data, b: Data): int
  {
    var whole := Gap(a, b) / Pow2(FLOAT_SCALE);
    if Units(a) < Units(b) then -whole else whole
  }

  /** `int res = f - g`: None where the conversion has no result. */
  function Difference(a: Data, b: Data): Option<int>
  {
    if Finite(a) && Finite(b) && IsInt32(Cut(a, b)) then Some(Cut(a, b)) else None
  }

  /** The rounded difference is at least one. */
  predicate Apart(a: Data, b: Data)
  {
    Gap(a, b) >= Pow2(FLOAT_SCALE)
  }

  lemma Quotient(n: nat, p: nat)
    requires p > 0
    ensures n / p > 0 <==> n >= p
  {
    assert n == n / p * p + n % p;
    if n / p > 0 {
      Grows(n / p, p);
    }
  }

  /** The sign of the difference is the order of the floats exactly when they are equal or apart. */
  lemma CutSign(a: Data, b: Data)
    ensures Cut(a, b) > 0 <==> Units(a) > Units(b) && Apart(a, b)
    ensures Cut(a, b) < 0 <==> Units(a) < Units(b) && Apart(a, b)
    ensures Units(a) == Units(b) ==> Cut(a, b) == 0
  {
    hide Pow2, Nearest, Units;
    Quotient(Gap(a, b), Pow2(FLOAT_SCALE));
    if Units(a) == Units(b) {
      NearestExactIff(0, FLOAT_LIMIT);
    }
  }

  // ---------------------------------------------------------------- one comparison out of range

  const THREE_BILLION: Data := [0x5E, 0xD0, 0x32, 0x4F]
  const ZERO: Data := [0, 0, 0, 0]

  lemma ThreeBillionUnits()
    ensures Finite(THREE_BILLION) && Finite(ZERO)
    ensures Units(THREE_BILLION) == 11718750 * Pow2(157) && Units(ZERO) == 0
  {
    hide Pow2;
    assert Decode(THREE_BILLION[3..]) == 0x4F;
    assert Decode(THREE_BILLION[2..]) == 0x4F32;
    assert Decode(THREE_BILLION[1..]) == 0x4F32D0;
    assert Decode(THREE_BILLION) == 0x4F32D05E;
    assert Decode(ZERO) == 0;
  }

  lemma ThreeBillionGap()
    ensures Gap(THREE_BILLION, ZERO) == 11718750 * Pow2(157)
  {
    hide Pow2, Units, Nearest;
    ThreeBillionUnits();
    RoundedToItself(11718750, 157);
  }

  lemma RoundedToItself(m: nat, j: nat)
    requires m < FLOAT_LIMIT
    ensures Nearest((m * Pow2(j)) as real, FLOAT_LIMIT) == m * Pow2(j)
  {
    hide Pow2, Nearest;
    FitsScaled(m, j, FLOAT_LIMIT);
    NearestExactIff(m * Pow2(j), FLOAT_LIMIT);
  }

  lemma ThreeBillion()
    ensures 11718750 * Pow2(157) == 3000000000 * Pow2(149)
  {
    assert Pow2(8) == 256;
    hide Pow2;
    PowSum(8, 149);
  }

  /** The difference of 3000000000 and 0 is no `int`. */
  lemma NoDifference()
    ensures Finite(THREE_BILLION) && Finite(ZERO) && Apart(THREE_BILLION, ZERO)
    ensures Difference(THREE_BILLION, ZERO) == None
  {
    ThreeBillionUnits();
    ThreeBillionGap();
    ThreeBillion();
    hide Pow2, Units, Finite, Gap;
    ExactQuotient(3000000000, Pow2(149));
  }

  lemma ExactQuotient(n: nat, p: nat)
    requires p > 0 && n > 0
    ensures n * p / p == n && n * p >= p
  {
    Grows(n, p);
    var q := n * p / p;
    Remainder(n * p, p, n, 0);
    assert n * p == q * p;
    Distribute(n, q, p);
    if n > q {
      Grows(n - q, p);
    } else if q > n {
      Distribute(q, n, p);
      Grows(q - n, p);
    }
  }
}
