/** Binary floating point: rounding to numbers whose significand is below a limit, ties to even. */
module Floats {

  // ---------------------------------------------------------------- rounding

  /** The nearest integer, of two equally near the even one. */
  function RoundEven(q: real): (m: nat)
    requires q >= 0.0
    ensures m as real - q <= 0.5 && q - m as real <= 0.5
  {
    var f := q.Floor;
    var rest := q - f as real;
    if rest < 0.5 || (rest == 0.5 && f % 2 == 0) then f else f + 1
  }

  /** The nearest number that is an integer below `limit` times a power of two. */
  function Nearest(q: real, limit: nat): (m: nat)
    requires q >= 0.0 && limit > 0
    decreases q.Floor
  {
    if q < limit as real then RoundEven(q) else 2 * Nearest(q / 2.0, limit)
  }

  /** `m` is an integer below `limit` times a power of two. */
  predicate Fits(m: nat, limit: nat)
    requires limit > 0
    decreases m
  {
    m < limit || (m % 2 == 0 && Fits(m / 2, limit))
  }

  function Pow2(k: nat): (p: nat)
    ensures p > 0
  {
    if k == 0 then 1 else 2 * Pow2(k - 1)
  }

  lemma RoundWhole(m: nat)
    ensures RoundEven(m as real) == m
  {}

  lemma RoundMonotone(q: real, r: real)
    requires 0.0 <= q <= r
    ensures RoundEven(q) <= RoundEven(r)
  {}

  /** Of two numbers the one nearer to `RoundEven(q)` is rounded to it as well. */
  lemma RoundNearer(q: real, r: real)
    requires q >= 0.0 && r >= 0.0
    requires Distance(r, RoundEven(q) as real) <= Distance(q, RoundEven(q) as real)
    ensures RoundEven(r) == RoundEven(q)
  {}

  function Distance(a: real, b: real): (d: real)
    ensures d >= 0.0
  {
    if a < b then b - a else a - b
  }

  lemma {:induction false} NearestFits(q: real, limit: nat)
    requires q >= 0.0 && limit > 1 && limit % 2 == 0
    ensures Fits(Nearest(q, limit), limit)
    decreases q.Floor
  {
    if q < limit as real {
      assert limit % 2 == 0 && Fits(limit / 2, limit);
    } else {
      NearestFits(q / 2.0, limit);
    }
  }

  /** Exactly the numbers that fit are rounded to themselves. */
  lemma {:induction false} NearestExactIff(m: nat, limit: nat)
    requires limit > 0
    ensures Nearest(m as real, limit) == m <==> Fits(m, limit)
    decreases m
  {
    if m < limit {
      RoundWhole(m);
    } else if m % 2 == 0 {
      NearestExactIff(m / 2, limit);
      assert m as real / 2.0 == (m / 2) as real;
    }
  }

  lemma {:induction false} NearestAbove(q: real, limit: nat)
    requires limit > 1 && limit % 2 == 0 && q >= (limit / 2) as real
    ensures Nearest(q, limit) >= limit / 2
    ensures q >= limit as real ==> Nearest(q, limit) >= limit
    decreases q.Floor
  {
    hide RoundEven;
    if q >= limit as real {
      NearestAbove(q / 2.0, limit);
    }
  }

  lemma {:induction false} NearestMonotone(q: real, r: real, limit: nat)
    requires 0.0 <= q <= r && limit > 1 && limit % 2 == 0
    ensures Nearest(q, limit) <= Nearest(r, limit)
    decreases r.Floor
  {
    if r < limit as real {
      RoundMonotone(q, r);
    } else if q < limit as real {
      NearestAbove(r, limit);
    } else {
      NearestMonotone(q / 2.0, r / 2.0, limit);
    }
  }

  /** The error `d` of rounding `q` is at most half a unit, or one part in `limit`. */
  predicate SmallError(d: real, q: real, limit: real)
  {
    d <= 0.5 || d * limit <= q
  }

  lemma {:induction false} NearestError(q: real, limit: nat)
    requires q >= 0.0 && limit > 1
    ensures SmallError(Distance(Nearest(q, limit) as real, q), q, limit as real)
    decreases q.Floor
  {
    hide RoundEven, SmallError;
    if q >= limit as real {
      NearestError(q / 2.0, limit);
      var d := Distance(Nearest(q / 2.0, limit) as real, q / 2.0);
      ErrorTwice(d, q / 2.0, limit as real);
      assert Distance(Nearest(q, limit) as real, q) == 2.0 * d;
    } else {
      ErrorHalf(Distance(Nearest(q, limit) as real, q), q, limit as real);
    }
  }

  lemma ErrorHalf(d: real, q: real, limit: real)
    requires d <= 0.5
    ensures SmallError(d, q, limit)
  {}

  lemma ErrorTwice(d: real, q: real, limit: real)
    requires 0.0 <= d && 0.0 < limit <= 2.0 * q && SmallError(d, q, limit)
    ensures SmallError(2.0 * d, 2.0 * q, limit)
  {
    if d <= 0.5 {
      assert d * limit <= 0.5 * limit;
    }
  }

  /** `m` is `limit` times a power of two. */
  predicate AtPower(m: nat, limit: nat)
    requires limit > 0
    decreases m
  {
    m == limit || (m > 0 && m % 2 == 0 && AtPower(m / 2, limit))
  }

  lemma PowerTwice(m: nat, limit: nat)
    requires limit > 0 && m > 0
    ensures AtPower(m, limit) ==> AtPower(2 * m, limit)
    ensures AtPower(limit, limit)
  {}

  /** Of two numbers the one nearer to what the other is rounded to is rounded to that as well, unless the
      two lie on either side of a power of two, where the spacing changes. */
  lemma {:induction false} NearestNearer(q: real, r: real, limit: nat)
    requires 0.0 <= q <= 2.0 * r && limit > 1 && limit % 2 == 0
    requires Distance(r, Nearest(q, limit) as real) <= Distance(q, Nearest(q, limit) as real)
    ensures Nearest(r, limit) == Nearest(q, limit) || AtPower(Nearest(q, limit), limit)
    decreases q.Floor
  {
    hide RoundEven, AtPower;
    PowerTwice(limit, limit);
    if q < limit as real && r < limit as real {
      RoundNearer(q, r);
    } else if q >= limit as real && r >= limit as real {
      NearestAbove(q / 2.0, limit);
      PowerTwice(Nearest(q / 2.0, limit), limit);
      NearestNearer(q / 2.0, r / 2.0, limit);
    } else if q < limit as real {
      assert RoundEven(q) == limit;
    } else {
      BelowAbove(q, r, limit);
    }
  }

  lemma BelowAbove(q: real, r: real, limit: nat)
    requires limit % 2 == 0 && r < limit as real <= q <= 2.0 * r
    requires Distance(r, Nearest(q, limit) as real) <= Distance(q, Nearest(q, limit) as real)
    ensures Nearest(q, limit) == limit
  {
    hide RoundEven;
    assert Nearest(q, limit) == 2 * RoundEven(q / 2.0);
  }

  /** Above `limit` times a power of two only multiples of that power are left. */
  lemma {:induction false} NearestMultiple(q: real, j: nat, limit: nat)
    requires limit > 1 && limit % 2 == 0 && q >= limit as real * Pow2(j) as real
    ensures exists n: nat :: Nearest(q, limit) == n * Pow2(j)
    decreases j
  {
    if j == 0 {
      assert Nearest(q, limit) == Nearest(q, limit) * Pow2(0);
    } else {
      HalfBound(q, limit as real, Pow2(j - 1) as real);
      NearestMultiple(q / 2.0, j - 1, limit);
      var n: nat :| Nearest(q / 2.0, limit) == n * Pow2(j - 1);
      TimesTwice(n, Pow2(j - 1));
      assert Nearest(q, limit) == n * Pow2(j);
    }
  }

  lemma TimesTwice(n: nat, p: nat)
    ensures n * (2 * p) == 2 * (n * p)
  {}

  lemma HalfBound(q: real, x: real, p: real)
    requires x >= 0.0 && p >= 1.0 && q >= x * (2.0 * p)
    ensures q / 2.0 >= x * p && q >= x
  {
    AtLeastOnce(x, p);
  }

  lemma AtLeastOnce(x: real, p: real)
    requires x >= 0.0 && p >= 1.0
    ensures x * p >= x
  {}

  lemma {:induction false} FitsScaled(m: nat, j: nat, limit: nat)
    requires limit > 0
    ensures Fits(m * Pow2(j), limit) <==> Fits(m, limit)
    decreases j
  {
    if j > 0 {
      FitsScaled(m, j - 1, limit);
      assert m * Pow2(j) == 2 * (m * Pow2(j - 1));
    }
  }

  lemma PowSum(a: nat, b: nat)
    ensures Pow2(a + b) == Pow2(a) * Pow2(b)
  {
    if a > 0 {
      PowSum(a - 1, b);
      assert Pow2(a + b) == 2 * (Pow2(a - 1) * Pow2(b));
    }
  }

  lemma {:induction false} PowMonotone(a: nat, b: nat)
    requires a < b
    ensures Pow2(a) < Pow2(b)
  {
    if a + 1 < b {
      PowMonotone(a, b - 1);
    }
  }

  lemma {:induction false} PowerIs(m: nat, i: nat)
    requires AtPower(m, Pow2(i))
    ensures exists e: nat :: m == Pow2(e)
    decreases m
  {
    if m != Pow2(i) {
      PowerIs(m / 2, i);
      var e: nat :| m / 2 == Pow2(e);
      assert m == Pow2(e + 1);
    }
  }

  /** A power of two is a multiple of every smaller one. */
  lemma PowerMultiple(m: nat, i: nat, j: nat)
    requires AtPower(m, Pow2(i)) && m >= Pow2(j)
    ensures exists n: nat :: m == n * Pow2(j)
  {
    hide Pow2, AtPower;
    PowerIs(m, i);
    var e: nat :| m == Pow2(e);
    if e < j {
      PowMonotone(e, j);
    } else {
      PowSum(e - j, j);
    }
  }
}
