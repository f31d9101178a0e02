/** The SQL lexer, moving a cursor over its input. */
module SqlLexers {
  import opened Decimals
  import opened Options
  import opened SqlLexer
  import SqlSyntax

  lemma WordRunHere(t: string, i: nat)
    requires i <= |t|
    ensures i < |t| && IsWordChar(t[i]) ==> WordRun(From(t, i)) == 1 + WordRun(From(t, i + 1))
    ensures i == |t| || !IsWordChar(t[i]) ==> WordRun(From(t, i)) == 0
  {
    if i < |t| {
      assert From(t, i)[1..] == From(t, i + 1);
    }
  }

  lemma QuoteRunHere(t: string, i: nat)
    requires i <= |t|
    ensures i < |t| && t[i] != '\'' ==> QuoteRun(From(t, i)) == 1 + QuoteRun(From(t, i + 1))
    ensures i == |t| || t[i] == '\'' ==> QuoteRun(From(t, i)) == 0
  {
    if i < |t| {
      assert From(t, i)[1..] == From(t, i + 1);
    }
  }

  lemma ToLongStep(a: int, d: int)
    ensures ToLong(10 * ToLong(a) + d) == ToLong(10 * a + d)
  {
    var m := 0x1_0000_0000_0000_0000;
    var q := a / m;
    assert a == q * m + a % m;
    var e := if a % m < 0x8000_0000_0000_0000 then q else q + 1;
    assert ToLong(a) == a - e * m;
    assert 10 * ToLong(a) + d == 10 * a + d - 10 * e * m;
    ModShift(10 * a + d, 10 * e);
  }

  predicate DigitsAt(t: string, begin: nat, end: nat)
  {
    begin <= end <= |t| && AllDigits(t[begin..end])
  }

  /** The value of the digits from `begin` to `end` as a `long`. */
  function LongAt(t: string, begin: nat, end: nat): int
    requires DigitsAt(t, begin, end)
  {
    ToLong(Decimal(t[begin..end]))
  }

  lemma LongStart(t: string, begin: nat)
    requires begin <= |t|
    ensures DigitsAt(t, begin, begin) && LongAt(t, begin, begin) == 0
  {
    assert t[begin..begin] == "";
  }

  lemma LongHere(t: string, begin: nat, end: nat)
    requires DigitsAt(t, begin, end) && end < |t| && IsDigit(t[end])
    ensures DigitsAt(t, begin, end + 1)
    ensures LongAt(t, begin, end + 1) == ToLong(DigitValue(t[end]) + LongAt(t, begin, end) * 10)
  {
    hide ToLong;
    var s := t[begin..end + 1];
    assert s[..|s| - 1] == t[begin..end];
    ToLongStep(Decimal(t[begin..end]), DigitValue(t[end]));
  }

  lemma ModShift(x: int, k: int)
    ensures (x - k * 0x1_0000_0000_0000_0000) % 0x1_0000_0000_0000_0000 == x % 0x1_0000_0000_0000_0000
  {}

  lemma HereStep(t: string, u: string)
    requires u == SkipSpaces(t)
    ensures LexNext(t) == if u == "" then Step(false, BAD, "") else LexHere(u)
    ensures u != "" ==> LexHere(u) == LexNext(u)
  {
    hide LexHere;
  }

  lemma MarkStep(t: string)
    requires t != "" && t[0] != ' '
    ensures LexNext(t) == LexHere(t)
  {
    hide LexHere;
  }

  lemma MinusStep(t: string)
    requires t != "" && t[0] == '-'
    ensures LexNext(t) ==
            if IsDigit(At(t[1..])) then LexNumber(t[1..], true).(ok := true)
            else Step(true, Lexeme(MINUS_T, Nothing), t[1..])
  {
    MarkStep(t);
    hide LexNumber, LexWord, LexString, LexNext;
  }

  /** The sign changes the content only. */
  lemma NegativeNumber(t: string)
    requires t != "" && IsDigit(t[0])
    ensures var s, n := LexNumber(t, false), LexNumber(t, true);
            && n.lexeme.token == s.lexeme.token && n.rest == s.rest
            && (s.lexeme.token == BAD_EXPR ==> s.lexeme == n.lexeme == BAD)
            && (s.lexeme.token == INTEGER_T ==>
                  s.lexeme.content.Long? && n.lexeme.content == Long(ToLong(-s.lexeme.content.n)))
            && (s.lexeme.token == FLOAT_T ==>
                  s.lexeme.content.Float? && n.lexeme.content == Float(true, s.lexeme.content.digits))
            && s.lexeme.token in {BAD_EXPR, INTEGER_T, FLOAT_T}
  {
    hide Run, Decimal, ToLong;
  }

  lemma IntegerFrom(t: string, p: nat, end: nat)
    requires p < |t| && IsDigit(t[p]) && DigitsAt(t, p, end) && end - p == Run(From(t, p))
    requires end == |t| || t[end] != '.'
    ensures LexNumber(From(t, p), false) ==
            Step(true, Lexeme(INTEGER_T, Long(LongAt(t, p, end))), From(t, end))
  {
    hide Run, ToLong, Decimal;
    var u := From(t, p);
    assert u[..end - p] == t[p..end];
    assert u[end - p..] == From(t, end);
  }

  lemma Cut(t: string, p: nat, q: nat)
    requires p <= q <= |t|
    ensures |From(t, p)| == |t| - p
    ensures From(t, p)[..q - p] == t[p..q] && From(t, p)[q - p..] == From(t, q)
  {}

  lemma HeadOf(t: string, p: nat)
    requires p < |t|
    ensures From(t, p) != "" && From(t, p)[0] == t[p] && At(From(t, p)) == t[p]
  {}

  lemma FloatIs(u: string, n: nat, m: nat)
    requires u != "" && IsDigit(u[0]) && n == Run(u) && At(u[n..]) == '.' && m == Run(u[n + 1..])
    ensures LexNumber(u, false) ==
            if m == 0 then Step(false, BAD, u[n + 1..])
            else Step(true, Lexeme(FLOAT_T, Float(false, u[..n + m])), u[n + 1 + m..])
  {
    hide Run, ToLong, Decimal, AllDigits;
  }

  lemma FloatFrom(t: string, p: nat, point: nat, end: nat)
    requires p <= point < end <= |t| && IsDigit(t[p]) && point - p == Run(From(t, p)) && t[point] == '.'
    requires end - point - 1 == Run(From(t, point + 1))
    ensures LexNumber(From(t, p), false) ==
            if end == point + 1 then Step(false, BAD, From(t, end))
            else Step(true, Lexeme(FLOAT_T, Float(false, t[p..end - 1])), From(t, end))
  {
    hide Run, LexNumber, IsDigit, From, At;
    HeadOf(t, p);
    HeadOf(t, point);
    Cut(t, p, point);
    Cut(t, p, point + 1);
    Cut(t, p, end - 1);
    Cut(t, p, end);
    FloatIs(From(t, p), point - p, end - point - 1);
  }

  lemma WordFrom(t: string, p: nat, end: nat)
    requires p < |t| && IsLetter(t[p]) && p <= end <= |t| && end - p == WordRun(From(t, p))
    ensures LexWord(From(t, p)) ==
            Step(true, if Keyword(Upper(t[p..end])).Some? then Lexeme(Keyword(Upper(t[p..end])).value, Nothing)
                       else Lexeme(ID_T, Text(t[p..end])), From(t, end))
  {
    hide WordRun, Keyword, Upper;
    assert From(t, p)[..end - p] == t[p..end];
    assert From(t, p)[end - p..] == From(t, end);
  }

  lemma StringParts(t: string, p: nat, end: nat)
    requires p < end <= |t|
    ensures From(t, p) != "" && From(t, p)[0] == t[p] && From(t, p)[1..] == From(t, p + 1)
    ensures From(t, p + 1)[..end - p - 1] == t[p + 1..end]
  {
    HeadOf(t, p);
    Cut(t, p, p + 1);
    Cut(t, p + 1, end);
    hide From;
  }

  lemma FromTwice(t: string, p: nat, end: nat)
    requires p < end <= |t|
    ensures From(From(t, p), end - p + 1) == From(t, end + 1)
  {}

  lemma StringFrom(t: string, p: nat, end: nat)
    requires p < |t| && t[p] == '\'' && p < end <= |t| && end - p - 1 == QuoteRun(From(t, p + 1))
    ensures LexString(From(t, p)) ==
            if end == p + 1 then Step(false, BAD, From(t, p))
            else Step(true, Lexeme(STRING_T, Text(t[p + 1..end])), From(t, end + 1))
  {
    hide QuoteRun, From;
    StringParts(t, p, end);
    FromTwice(t, p, end);
  }

  class Lexer {
    const input: string
    var p: nat
    var cur: Content

    constructor (text: string)
      ensures input == text && p == 0
    {
      input := text;
      p := 0;
      cur := Nothing;
    }

    function Rest(): string
      reads this
    {
      From(input, p)
    }

    /** The character at `i`, the input being followed by a NUL. */
    function Char(i: nat): (c: char)
      requires i <= |input|
      ensures c == At(From(input, i))
    {
      if i < |input| then input[i] else '\0'
    }

    /** The lexer made this step from text `t`, having kept `was`. */
    ghost predicate Stepped(ok: bool, token: Token, t: string, was: Content)
      reads this
    {
      var s := LexNext(t);
      && ok == s.ok && token == s.lexeme.token && Rest() == s.rest
      && cur == if s.lexeme.content == Nothing then was else s.lexeme.content
    }

    method SkipBlank()
      modifies this`p
      ensures Rest() == SkipSpaces(old(Rest())) && (p <= |input| || p == old(p))
    {
      while p < |input| && input[p] == ' '
        invariant SkipSpaces(Rest()) == SkipSpaces(old(Rest()))
        invariant p <= |input| || p == old(p)
      {
        assert Rest()[1..] == From(input, p + 1);
        p := p + 1;
      }
    }

    /** Past the digits at `begin`. */
    method PastDigits(begin: nat) returns (end: nat)
      requires begin <= |input|
      ensures begin <= end <= |input| && end - begin == Run(From(input, begin))
    {
      hide Run;
      end := begin;
      RunHere(input, end);
      while IsDigit(Char(end))
        invariant begin <= end <= |input|
        invariant Run(From(input, begin)) == end - begin + Run(From(input, end))
        invariant IsDigit(Char(end)) || Run(From(input, end)) == 0
        decreases |input| - end
      {
        end := end + 1;
        RunHere(input, end - 1);
        RunHere(input, end);
      }
    }

    /** Past the digits at `begin`, and their value. */
    method ReadDigits(begin: nat) returns (end: nat, num: int)
      requires begin <= |input|
      ensures begin <= end <= |input| && end - begin == Run(From(input, begin))
      ensures DigitsAt(input, begin, end) && num == LongAt(input, begin, end)
    {
      hide Run, DigitsAt, LongAt, ToLong, From;
      end, num := begin, 0;
      LongStart(input, begin);
      RunHere(input, end);
      while IsDigit(Char(end))
        invariant begin <= end <= |input|
        invariant Run(From(input, begin)) == end - begin + Run(From(input, end))
        invariant DigitsAt(input, begin, end) && num == LongAt(input, begin, end)
        invariant IsDigit(Char(end)) || Run(From(input, end)) == 0
        decreases |input| - end
      {
        assert Char(end) == input[end];
        LongHere(input, begin, end);
        num := ToLong(DigitValue(input[end]) + num * 10);
        end := end + 1;
        RunHere(input, end - 1);
        RunHere(input, end);
      }
    }

    /** Of the digits before the point and after it, `stof` is given all but the last. */
    method ParseNum() returns (token: Token)
      requires p < |input| && IsDigit(input[p])
      modifies this`p, this`cur
      ensures p <= |input|
      ensures var s := LexNumber(old(Rest()), false);
              && token == s.lexeme.token && Rest() == s.rest
              && cur == if s.lexeme.content == Nothing then old(cur) else s.lexeme.content
    {
      hide Run, LexNumber, LongAt, From, At;
      var end, num := ReadDigits(p);
      if end < |input| && input[end] == '.' {
        var oldEnd := end;
        end := end + 1;
        end := PastDigits(end);
        FloatFrom(input, p, oldEnd, end);
        if oldEnd == end - 1 {
          p := end;
          return BAD_EXPR;
        }
        cur := Float(false, input[p..end - 1]);
        p := end;
        return FLOAT_T;
      }
      IntegerFrom(input, p, end);
      p := end;
      cur := Long(num);
      token := INTEGER_T;
    }

    method PastWord(begin: nat) returns (end: nat)
      requires begin <= |input|
      ensures begin <= end <= |input| && end - begin == WordRun(From(input, begin))
    {
      hide WordRun;
      end := begin;
      WordRunHere(input, end);
      while IsWordChar(Char(end))
        invariant begin <= end <= |input|
        invariant WordRun(From(input, begin)) == end - begin + WordRun(From(input, end))
        invariant IsWordChar(Char(end)) || WordRun(From(input, end)) == 0
        decreases |input| - end
      {
        end := end + 1;
        WordRunHere(input, end - 1);
        WordRunHere(input, end);
      }
    }

    method NextWord() returns (token: Token)
      requires p < |input| && IsLetter(input[p])
      modifies this`p, this`cur
      ensures p <= |input|
      ensures var s := LexWord(old(Rest()));
              && token == s.lexeme.token && Rest() == s.rest
              && cur == if s.lexeme.content == Nothing then old(cur) else s.lexeme.content
    {
      hide WordRun, Keyword, Upper, LexWord, From;
      var end := PastWord(p);
      WordFrom(input, p, end);
      var id := input[p..end];
      var known := Keyword(Upper(id));
      token := if known.Some? then known.value else ID_T;
      if token == ID_T {
        cur := Text(id);
      }
      p := end;
    }

    method PastQuoted(begin: nat) returns (end: nat)
      requires begin <= |input|
      ensures begin <= end <= |input| && end - begin == QuoteRun(From(input, begin))
    {
      hide QuoteRun;
      end := begin;
      QuoteRunHere(input, end);
      while end < |input| && input[end] != '\''
        invariant begin <= end <= |input|
        invariant QuoteRun(From(input, begin)) == end - begin + QuoteRun(From(input, end))
        invariant (end < |input| && input[end] != '\'') || QuoteRun(From(input, end)) == 0
      {
        end := end + 1;
        QuoteRunHere(input, end - 1);
        QuoteRunHere(input, end);
      }
    }

    method NextString() returns (ok: bool)
      requires p < |input| && input[p] == '\''
      modifies this`p, this`cur
      ensures var s := LexString(old(Rest()));
              && ok == s.ok && Rest() == s.rest
              && cur == if s.lexeme.content == Nothing then old(cur) else s.lexeme.content
    {
      hide QuoteRun, LexString, From;
      var end := PastQuoted(p + 1);
      StringFrom(input, p, end);
      if end == p + 1 {
        return false;
      }
      cur := Text(input[p + 1..end]);
      p := end + 1;
      ok := true;
    }

    /** One character, or two, that make up a token. */
    method Advance(n: nat)
      requires 0 < n <= |input| - p
      modifies this`p
      ensures p <= |input| && Rest() == old(Rest())[n..]
    {
      p := p + n;
    }

    /** The digits after a minus. */
    method NextNegative() returns (token: Token)
      requires p < |input| && IsDigit(input[p])
      modifies this`p, this`cur
      ensures p <= |input|
      ensures var s := LexNumber(old(Rest()), true);
              && token == s.lexeme.token && Rest() == s.rest
              && cur == if s.lexeme.content == Nothing then old(cur) else s.lexeme.content
    {
      hide ToLong, LexNumber;
      NegativeNumber(Rest());
      token := ParseNum();
      if token == INTEGER_T {
        cur := Long(ToLong(-cur.n));
      } else if token == FLOAT_T {
        cur := Float(true, cur.digits);
      }
    }

    /** A minus, or a negative number. */
    method NextMinus() returns (token: Token)
      requires p < |input| && input[p] == '-'
      modifies this`p, this`cur
      ensures Stepped(true, token, old(Rest()), old(cur))
    {
      hide LexNumber, LexNext;
      ghost var t := Rest();
      MinusStep(t);
      assert t[1..] == From(input, p + 1);
      if p + 1 < |input| && IsDigit(input[p + 1]) {
        p := p + 1;
        token := NextNegative();
        return;
      }
      Advance(1);
      token := MINUS_T;
    }

    method NextSmaller() returns (token: Token)
      requires p < |input| && input[p] == '<'
      modifies this`p
      ensures Stepped(true, token, old(Rest()), cur)
    {
      hide LexNext, LexNumber, LexWord, LexString;
      MarkStep(Rest());
      assert Rest()[1..] == From(input, p + 1);
      if p + 1 < |input| && input[p + 1] == '>' {
        Advance(2);
        return NOT_EQ_T;
      }
      Advance(1);
      token := SMALLER_T;
    }

    method NextMark() returns (ok: bool, token: Token)
      requires p < |input| && !IsLetter(input[p]) && !IsDigit(input[p])
      requires input[p] != '\'' && input[p] != ' '
      modifies this`p, this`cur
      ensures Stepped(ok, token, old(Rest()), old(cur))
    {
      hide LexNumber, LexWord, LexString, LexNext;
      MarkStep(Rest());
      var ch := input[p];
      ok := true;
      match ch
      case '-' => token := NextMinus();
      case '<' => token := NextSmaller();
      case '+' => token := PLUS_T; Advance(1);
      case '=' => token := ASSIGN_T; Advance(1);
      case '>' => token := GREATER_T; Advance(1);
      case ',' => token := COMMAS_T; Advance(1);
      case '*' => token := STAR_T; Advance(1);
      case '.' => token := DOT_T; Advance(1);
      case ';' => token := COLON_T; Advance(1);
      case '(' => token := LBRACE_T; Advance(1);
      case ')' => token := RBRACE_T; Advance(1);
      case _ => ok, token := false, BAD_EXPR;
    }

    /** The position before the blanks is given back too. */
    method InternalNext() returns (ok: bool, token: Token, lastP: nat)
      modifies this`p, this`cur
      ensures Stepped(ok, token, old(Rest()), old(cur)) && lastP == old(p)
    {
      hide LexWord, LexNumber, LexString, SkipSpaces;
      lastP := p;
      ghost var t := Rest();
      SkipBlank();
      HereStep(t, Rest());
      if p >= |input| {
        return false, BAD_EXPR, lastP;
      }
      var ch := input[p];
      if IsLetter(ch) {
        token := NextWord();
        return true, token, lastP;
      } else if ch == '0' && p + 1 < |input| && IsDigit(input[p + 1]) {
        return false, BAD_EXPR, lastP;
      } else if IsDigit(ch) {
        token := ParseNum();
        return token != BAD_EXPR, token, lastP;
      } else if ch == '\'' {
        ok := NextString();
        return ok, if ok then STRING_T else BAD_EXPR, lastP;
      }
      ok, token := NextMark();
    }

    method Next() returns (ok: bool, token: Token)
      modifies this`p, this`cur
      ensures Stepped(ok, token, old(Rest()), old(cur))
    {
      var lastP: nat;
      ok, token, lastP := InternalNext();
    }

    /** `Take` of this token succeeded on the text `t`, the lexer having kept `was`. */
    ghost predicate Took(token: Token, t: string, was: Content)
      requires token != BAD_EXPR
      reads this
    {
      var s := SqlSyntax.Take(t, token);
      s.Ok? && Rest() == s.rest && cur == if s.value == Nothing then was else s.value
    }

    /** When another token comes, the cursor stays where it is. */
    method NextIf(t: Token) returns (ok: bool, token: Token)
      requires t != BAD_EXPR
      modifies this`p, this`cur
      ensures token == LexNext(old(Rest())).lexeme.token
      ensures ok == SqlSyntax.Take(old(Rest()), t).Ok?
      ensures ok ==> Took(t, old(Rest()), old(cur))
      ensures !ok ==> p == old(p)
    {
      hide LexNext;
      var lastP: nat;
      ok, token, lastP := InternalNext();
      ok := token == t;
      if !ok {
        p := lastP;
      }
    }

    /** The cursor stays where it is; what the token carries is kept. */
    method Peek() returns (ok: bool, token: Token)
      modifies this`p, this`cur
      ensures p == old(p)
      ensures var s := LexNext(Rest());
              && ok == s.ok && token == s.lexeme.token
              && cur == if s.lexeme.content == Nothing then old(cur) else s.lexeme.content
    {
      hide LexNext;
      var lastP: nat;
      ok, token, lastP := InternalNext();
      p := lastP;
    }
  }
}
