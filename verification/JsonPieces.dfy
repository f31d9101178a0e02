/** The pieces of printed JSON and what the parser makes of each: blanks, numbers, strings, keys. */
module JsonPieces {
  import opened Decimals
  import opened JsonText
  import opened JsonParser
  import opened Doubles
  import opened JsonNumbers

  // ---------------------------------------------------------------- blanks

  predicate AllBlank(s: string)
  {
    forall i :: 0 <= i < |s| ==> IsBlank(s[i])
  }

  predicate Blanks(l: Layout)
  {
    AllBlank(l.item) && AllBlank(l.nextItem) && AllBlank(l.open) && AllBlank(l.colon)
    && AllBlank(l.value) && AllBlank(l.nextMember) && AllBlank(l.close)
  }

  lemma {:induction false} SkipBlanks(b: string, t: string)
    requires AllBlank(b)
    ensures Skip(b + t) == Skip(t)
  {
    if b == "" {
      assert b + t == t;
    } else {
      assert (b + t)[1..] == b[1..] + t;
      SkipBlanks(b[1..], t);
    }
  }

  /** A structural character after blanks. */
  lemma SkipMark(b: string, c: char, rest: string)
    requires AllBlank(b) && !IsBlank(c)
    ensures Skip(b + ([c] + rest)) == [c] + rest && ([c] + rest)[1..] == rest
  {
    SkipBlanks(b, [c] + rest);
  }

  // ---------------------------------------------------------------- numbers

  /** No character that would continue a printed number. */
  predicate EndsNumber(t: string)
  {
    !IsDigit(At(t)) && !IsExponent(At(t))
  }

  lemma BlankEnds(b: string, t: string)
    requires AllBlank(b) && EndsNumber(t)
    ensures EndsNumber(b + t)
  {
    if b == "" {
      assert b + t == t;
    }
  }

  /** A point and digits. */
  lemma FractionPrinted(fs: string, rest: string)
    requires fs != "" && AllDigits(fs) && EndsNumber(rest)
    ensures SkipFraction("." + fs + rest) == Done((), rest)
    ensures FractionValue("." + fs + rest) == Portion(fs)
    ensures Run(("." + fs + rest)[1..]) == |fs| && ("." + fs + rest)[1..][|fs|..] == rest
  {
    hide Decimal, Run, Portion;
    assert ("." + fs + rest)[1..] == fs + rest;
    RunOf(fs, rest);
    assert (fs + rest)[..|fs|] == fs;
    assert (fs + rest)[|fs|..] == rest;
    assert At(fs + rest) == fs[0];
  }

  lemma MinusPrinted(sign: string, u: string)
    requires sign == "" || sign == "-"
    requires IsDigit(At(u))
    ensures SkipMinus(sign + u) == u
    ensures At(sign + u) == '-' <==> sign == "-"
  {
    assert sign == "" ==> sign + u == u;
  }

  /** The digits before the point, taken by the grammar and by `strtod`. */
  lemma WholePrinted(ds: string, t: string)
    requires ds != "" && AllDigits(ds) && !IsDigit(At(t))
    ensures Run(ds + t) == |ds| && (ds + t)[..|ds|] == ds && (ds + t)[|ds|..] == t
    ensures At(ds + t) == ds[0] && IsDigit(ds[0])
  {
    RunOf(ds, t);
  }

  /** A number as it is printed: sign, digits, point and more digits. */
  lemma SkipPrinted(sign: string, ds: string, fs: string, rest: string)
    requires sign == "" || sign == "-"
    requires ds != "" && AllDigits(ds) && (ds[0] == '0' ==> ds == "0")
    requires fs != "" && AllDigits(fs) && EndsNumber(rest)
    ensures SkipNumber(sign + (ds + ("." + fs + rest))) == Done((), rest)
  {
    hide Run, SkipFraction, SkipMinus, AllDigits;
    var t := "." + fs + rest;
    FractionPrinted(fs, rest);
    WholePrinted(ds, t);
    MinusPrinted(sign, ds + t);
  }

  lemma UnsignedPrinted(ds: string, fs: string, rest: string)
    requires ds != "" && AllDigits(ds)
    requires fs != "" && AllDigits(fs) && EndsNumber(rest)
    ensures UnsignedValue(ds + ("." + fs + rest)) ==
            Decimal(ds) as real + Portion(fs)
  {
    hide Run, FractionValue, AllDigits, Decimal, Scale, Portion;
    var t := "." + fs + rest;
    FractionPrinted(fs, rest);
    WholePrinted(ds, t);
    assert PastFraction(t) == rest;
    assert ExponentValue(rest) == 0;
    ScaleByNothing(Decimal(ds) as real + FractionValue(t));
  }

  lemma ValuePrinted(sign: string, ds: string, fs: string, rest: string)
    requires sign == "" || sign == "-"
    requires ds != "" && AllDigits(ds)
    requires fs != "" && AllDigits(fs) && EndsNumber(rest)
    ensures NumberValue(sign + (ds + ("." + fs + rest))) ==
            Signed(sign == "-", Decimal(ds) as real + Portion(fs))
  {
    hide SkipMinus, UnsignedValue, AllDigits, Decimal, Portion, Run;
    var t := "." + fs + rest;
    WholePrinted(ds, t);
    MinusPrinted(sign, ds + t);
    UnsignedPrinted(ds, fs, rest);
  }

  lemma ScaleByNothing(x: real)
    ensures Scale(x, 0) == x
  {}

  lemma SixDigits(n: nat)
    ensures (n / MILLION) as real + (n % MILLION) as real / 1000000.0 == n as real / 1000000.0
  {
    assert n == n / MILLION * 1000000 + n % MILLION;
    assert n as real == (n / MILLION) as real * 1000000.0 + (n % MILLION) as real;
  }

  lemma PrintedValue(x: real, rest: string)
    requires EndsNumber(rest)
    ensures SkipNumber(PrintNumber(x) + rest) == Done((), rest)
    ensures NumberValue(PrintNumber(x) + rest) == Rounded(x)
  {
    hide Decimal, NumberValue, SkipNumber, Digits, Padded, Millionths, Pow10;
    PlacesMillion();
    var n := Millionths(Magnitude(x));
    var sign := if x < 0.0 then "-" else "";
    var ds, fs := Digits(n / MILLION), Padded(n % MILLION, PLACES);
    assert PrintNumber(x) + rest == sign + (ds + ("." + fs + rest));
    SkipPrinted(sign, ds, fs, rest);
    ValuePrinted(sign, ds, fs, rest);
    SixDigits(n);
  }

  /** A printed number is read as the double nearest to the number of six decimals that was printed. */
  lemma NumberRoundTrip(x: Double, rest: string)
    requires EndsNumber(rest)
    ensures ParseNumber(PrintNumber(x) + rest) == Done(Number(Reread(x)), rest)
  {
    hide PrintNumber, SkipNumber, NumberValue, Rounded, OutOfRange, NearestDouble;
    PrintedValue(x, rest);
    RoundedInRange(x);
  }

  // ---------------------------------------------------------------- strings

  /** No quote, no NUL, and backslashes only in pairs. */
  predicate Plain(s: string)
  {
    if s == "" then true
    else if s[0] == '\\' then |s| > 1 && s[1] == '\\' && Plain(s[2..])
    else s[0] != '\"' && s[0] != '\0' && Plain(s[1..])
  }

  lemma {:induction false} StringBack(s: string, rest: string, sofar: string)
    requires Plain(s)
    ensures StringBody(s + ("\"" + rest), sofar) == Done(sofar + s, rest)
    decreases |s|
  {
    var t := s + ("\"" + rest);
    if s == "" {
      assert t[1..] == rest;
      assert sofar + s == sofar;
    } else if s[0] == '\\' {
      assert t[2..] == s[2..] + ("\"" + rest);
      assert sofar + s == sofar + "\\\\" + s[2..];
      StringBack(s[2..], rest, sofar + "\\\\");
    } else {
      assert t[1..] == s[1..] + ("\"" + rest);
      assert sofar + s == sofar + [s[0]] + s[1..];
      StringBack(s[1..], rest, sofar + [s[0]]);
    }
  }

  /** What the parser reads as a string is plain. */
  lemma {:induction false} BodyIsPlain(t: string, sofar: string)
    requires StringBody(t, sofar).Done?
    ensures Plain(StringBody(t, sofar).value[|sofar|..])
    decreases |t|
  {
    var s := StringBody(t, sofar).value[|sofar|..];
    if t[0] == '\"' {
      assert s == "";
    } else if t[0] == '\\' {
      BodyIsPlain(From(t, 2), sofar + "\\\\");
      assert s[..2] == "\\\\";
      assert s[2..] == StringBody(t, sofar).value[|sofar| + 2..];
    } else {
      BodyIsPlain(t[1..], sofar + [t[0]]);
      assert s[0] == t[0];
      assert s[1..] == StringBody(t, sofar).value[|sofar| + 1..];
    }
  }

  /** A string comes back from its quotes exactly when it is plain. */
  lemma StringRoundTripIff(s: string, rest: string)
    ensures ParseString(Quoted(s) + rest) == Done(s, rest) <==> Plain(s)
  {
    hide StringBody, Plain;
    var t := Quoted(s) + rest;
    assert From(t, 1) == s + ("\"" + rest);
    if Plain(s) {
      StringBack(s, rest, "");
      assert "" + s == s;
    }
    if ParseString(t) == Done(s, rest) {
      BodyIsPlain(From(t, 1), "");
      assert StringBody(From(t, 1), "").value[|""|..] == s;
    }
  }

  // ---------------------------------------------------------------- key order

  lemma {:induction false} LessAsymmetric(a: string, b: string)
    requires Less(a, b)
    ensures !Less(b, a) && a != b
  {
    if a != "" && a[0] == b[0] {
      LessAsymmetric(a[1..], b[1..]);
    }
  }

  lemma {:induction false} LessTransitive(a: string, b: string, c: string)
    requires Less(a, b) && Less(b, c)
    ensures Less(a, c)
  {
    if a != "" && a[0] == b[0] && b[0] == c[0] {
      LessTransitive(a[1..], b[1..], c[1..]);
    }
  }

  lemma {:induction false} LessTotal(a: string, b: string)
    ensures Less(a, b) || Less(b, a) || a == b
  {
    if a != "" && b != "" && a[0] == b[0] {
      LessTotal(a[1..], b[1..]);
      assert a == [a[0]] + a[1..] && b == [b[0]] + b[1..];
    }
  }

  function Keys(members: seq<Member>): seq<string>
  {
    seq(|members|, i requires 0 <= i < |members| => members[i].key)
  }

  predicate Ascending(keys: seq<string>)
  {
    forall i, j :: 0 <= i < j < |keys| ==> Less(keys[i], keys[j])
  }

  /** A key above all others goes to the end. */
  lemma {:induction false} EmplaceLast(members: seq<Member>, m: Member)
    requires forall i :: 0 <= i < |members| ==> Less(members[i].key, m.key)
    ensures Emplace(members, m) == members + [m]
  {
    hide Less;
    if members != [] {
      LessAsymmetric(members[0].key, m.key);
      EmplaceLast(members[1..], m);
    }
  }

  /** Every member of the result was there, or is the new one. */
  lemma {:induction false} EmplaceFrom(members: seq<Member>, m: Member)
    ensures forall i :: 0 <= i < |Emplace(members, m)| ==>
              Emplace(members, m)[i] == m || Emplace(members, m)[i] in members
  {
    hide Less;
    if members != [] {
      EmplaceFrom(members[1..], m);
    }
  }

  lemma {:induction false} EmplaceAscending(members: seq<Member>, m: Member)
    requires Ascending(Keys(members))
    ensures Ascending(Keys(Emplace(members, m)))
  {
    hide Less;
    if members != [] {
      var first, tail := members[0], members[1..];
      assert forall i :: 0 <= i < |tail| ==> Keys(members)[i + 1] == Keys(tail)[i];
      assert Ascending(Keys(tail));
      forall x | x in tail
        ensures Less(first.key, x.key)
      {
        var i :| 0 <= i < |tail| && tail[i] == x;
        assert Less(Keys(members)[0], Keys(members)[i + 1]);
      }
      if Less(m.key, first.key) {
        forall x | x in tail
          ensures Less(m.key, x.key)
        {
          LessTransitive(m.key, first.key, x.key);
        }
        PutFirst(m, members);
      } else if m.key != first.key {
        LessTotal(m.key, first.key);
        EmplaceAscending(tail, m);
        EmplaceFrom(tail, m);
        PutFirst(first, Emplace(tail, m));
      }
    }
  }

  lemma PutFirst(first: Member, members: seq<Member>)
    requires Ascending(Keys(members))
    requires forall x :: x in members ==> Less(first.key, x.key)
    ensures Ascending(Keys([first] + members))
  {
    hide Less;
    var keys := Keys([first] + members);
    forall i, j | 0 <= i < j < |keys|
      ensures Less(keys[i], keys[j])
    {
      assert keys[j] == Keys(members)[j - 1] && members[j - 1] in members;
      if i > 0 {
        assert keys[i] == Keys(members)[i - 1];
      }
    }
  }
}
