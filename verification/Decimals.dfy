/** Decimal digits in a text. */
module Decimals {
  /** The character under the cursor; the text is followed by a NUL. */
  function At(t: string): char
  {
    if t == "" then '\0' else t[0]
  }

  /** The text `n` characters on. */
  function From(t: string, n: nat): (r: string)
    ensures n <= |t| ==> |r| == |t| - n
    ensures n > |t| ==> r == ""
  {
    if n <= |t| then t[n..] else ""
  }

  predicate IsDigit(c: char)
  {
    '0' <= c <= '9'
  }

  predicate AllDigits(s: string)
  {
    forall i :: 0 <= i < |s| ==> IsDigit(s[i])
  }

  function DigitValue(c: char): (d: nat)
    requires IsDigit(c)
    ensures d < 10
  {
    (c - '0') as nat
  }

  function Digit(d: nat): (c: char)
    requires d < 10
    ensures IsDigit(c) && DigitValue(c) == d
  {
    '0' + d as char
  }

  /** The number the digits denote. */
  function Decimal(s: string): nat
    requires AllDigits(s)
  {
    if s == "" then 0 else 10 * Decimal(s[..|s| - 1]) + DigitValue(s[|s| - 1])
  }

  function Pow10(k: nat): (p: nat)
    ensures p > 0
  {
    if k == 0 then 1 else 10 * Pow10(k - 1)
  }

  /** The value of digits after the point. */
  function Portion(fs: string): real
    requires AllDigits(fs)
  {
    Decimal(fs) as real / Pow10(|fs|) as real
  }

  /** The last digit after a point can be dropped exactly when it is 0. */
  lemma LastDigitIff(fs: string)
    requires fs != "" && AllDigits(fs)
    ensures Portion(fs[..|fs| - 1]) == Portion(fs) <==> fs[|fs| - 1] == '0'
  {
    var front, d := fs[..|fs| - 1], DigitValue(fs[|fs| - 1]);
    assert Decimal(fs) == 10 * Decimal(front) + d;
    OneDigitMore(Decimal(front) as real, d as real, Pow10(|front|) as real);
  }

  lemma OneDigitMore(n: real, d: real, p: real)
    requires p > 0.0
    ensures (10.0 * n + d) / (10.0 * p) == n / p <==> d == 0.0
  {
    assert n / p * p == n;
    var q := (10.0 * n + d) / (10.0 * p);
    assert q * (10.0 * p) == 10.0 * n + d;
    if q == n / p {
      assert q * (10.0 * p) == 10.0 * (q * p);
    }
  }

  /** The decimal digits of `n`, without leading zeros. */
  function Digits(n: nat): (s: string)
    ensures s != "" && AllDigits(s)
    ensures s[0] == '0' ==> s == "0"
    ensures Decimal(s) == n
  {
    if n < 10 then
      var s := [Digit(n)];
      assert s[..0] == "";
      s
    else
      var front := Digits(n / 10);
      var s := front + [Digit(n % 10)];
      assert s[..|s| - 1] == front;
      s
  }

  /** The last `k` digits of `n`, zeros included. */
  function Padded(n: nat, k: nat): (s: string)
    requires n < Pow10(k)
    ensures |s| == k && AllDigits(s)
    ensures Decimal(s) == n
    decreases k
  {
    if k == 0 then ""
    else
      var front := Padded(n / 10, k - 1);
      var s := front + [Digit(n % 10)];
      assert s[..|s| - 1] == front;
      s
  }

  /** The length of the digits at the cursor. */
  function Run(t: string): (n: nat)
    ensures n <= |t|
    ensures forall i :: 0 <= i < n ==> IsDigit(t[i])
    ensures n < |t| ==> !IsDigit(t[n])
  {
    if t != "" && IsDigit(t[0]) then
      var n := 1 + Run(t[1..]);
      assert forall i :: 0 < i < n ==> t[i] == t[1..][i - 1];
      n
    else 0
  }

  /** One digit more at `i`, or none. */
  lemma RunHere(t: string, i: nat)
    requires i <= |t|
    ensures i < |t| && IsDigit(t[i]) ==> Run(From(t, i)) == 1 + Run(From(t, i + 1))
    ensures i == |t| || !IsDigit(t[i]) ==> Run(From(t, i)) == 0
  {
    if i < |t| {
      assert From(t, i)[1..] == From(t, i + 1);
    }
  }

  lemma {:induction false} RunOf(ds: string, t: string)
    requires AllDigits(ds) && !IsDigit(At(t))
    ensures Run(ds + t) == |ds|
  {
    if ds == "" {
      assert ds + t == t;
    } else {
      assert (ds + t)[1..] == ds[1..] + t;
      RunOf(ds[1..], t);
    }
  }
}
