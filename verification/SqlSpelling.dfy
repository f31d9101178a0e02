/** Writing lexemes as text: lexing the text gives the lexemes back. */
module SqlSpelling {
  import opened Decimals
  import opened Options
  import opened SqlLexer

  // ---------------------------------------------------------------- one lexeme

  /** A name the lexer takes as one: not a keyword in any mixture of cases. */
  predicate IsName(s: string)
  {
    && s != "" && IsLetter(s[0])
    && (forall i :: 0 <= i < |s| ==> IsWordChar(s[i]))
    && Keyword(Upper(s)).None?
  }

  /** What can stand between quotes. */
  predicate IsQuotable(s: string)
  {
    s != "" && forall i :: 0 <= i < |s| ==> s[i] != '\''
  }

  predicate IsLong(n: int)
  {
    -0x8000_0000_0000_0000 <= n < 0x8000_0000_0000_0000
  }

  /** The lexemes that can be written. A float cannot: its last digit would be lost. */
  predicate Spellable(l: Lexeme)
  {
    match l.token
    case ID_T => l.content.Text? && IsName(l.content.s)
    case STRING_T => l.content.Text? && IsQuotable(l.content.s)
    case INTEGER_T => l.content.Long? && IsLong(l.content.n)
    case FLOAT_T => false
    case BAD_EXPR => false
    case _ => l.content.Nothing?
  }

  function SpellLong(n: int): string
  {
    if n < 0 then "-" + Digits(-n) else Digits(n)
  }

  function SpellContent(c: Content): string
  {
    match c
    case Text(s) => s
    case Long(n) => SpellLong(n)
    case _ => ""
  }

  function Spell(l: Lexeme): string
  {
    match l.token
    case SELECT_T => "SELECT"
    case INSERT_T => "INSERT"
    case CREATE_T => "CREATE"
    case DELETE_T => "DELETE"
    case UPDATE_T => "UPDATE"
    case DROP_T => "DROP"
    case FROM_T => "FROM"
    case WHERE_T => "WHERE"
    case INTO_T => "INTO"
    case VALUES_T => "VALUES"
    case TABLE_T => "TABLE"
    case ID_T => SpellContent(l.content)
    case PLUS_T => "+"
    case MINUS_T => "-"
    case FLOAT_T => SpellContent(l.content)
    case INTEGER_T => SpellContent(l.content)
    case STRING_T => "'" + SpellContent(l.content) + "'"
    case COLON_T => ";"
    case DOT_T => "."
    case COMMAS_T => ","
    case STAR_T => "*"
    case ASSIGN_T => "="
    case NOT_EQ_T => "<>"
    case GREATER_T => ">"
    case SMALLER_T => "<"
    case LBRACE_T => "("
    case RBRACE_T => ")"
    case IN_T => "IN"
    case IS_T => "IS"
    case NOT_T => "NOT"
    case NULL_T => "NULL"
    case NULLABLE_T => "NULLABLE"
    case S_CHAR_T => "CHAR"
    case S_VARCHAR_T => "VARCHAR"
    case S_INT_T => "INT"
    case S_FLOAT_T => "FLOAT"
    case BAD_EXPR => ""
  }

  /** The end of the text, or a space. */
  predicate AtGap(t: string)
  {
    t == "" || t[0] == ' '
  }

  lemma {:induction false} WordRunOf(s: string, rest: string)
    requires forall i :: 0 <= i < |s| ==> IsWordChar(s[i])
    requires AtGap(rest)
    ensures WordRun(s + rest) == |s|
  {
    if s == "" {
      assert s + rest == rest;
    } else {
      assert (s + rest)[1..] == s[1..] + rest;
      WordRunOf(s[1..], rest);
    }
  }

  /** A word, which the table makes a keyword or leaves a name. */
  lemma WordBack(s: string, rest: string)
    requires s != "" && IsLetter(s[0])
    requires forall i :: 0 <= i < |s| ==> IsWordChar(s[i])
    requires AtGap(rest)
    ensures LexNext(s + rest) ==
            Step(true, if Keyword(Upper(s)).Some? then Lexeme(Keyword(Upper(s)).value, Nothing)
                       else Lexeme(ID_T, Text(s)), rest)
  {
    hide Keyword, Upper, WordRun;
    WordRunOf(s, rest);
    assert (s + rest)[..|s|] == s && (s + rest)[|s|..] == rest;
    assert SkipSpaces(s + rest) == s + rest;
  }

  predicate IsCapital(c: char)
  {
    'A' <= c <= 'Z'
  }

  /** A keyword written in capitals. */
  lemma KeywordBack(s: string, token: Token, rest: string)
    requires s != "" && forall i :: 0 <= i < |s| ==> IsCapital(s[i])
    requires Keyword(s) == Some(token) && AtGap(rest)
    ensures LexNext(s + rest) == Step(true, Lexeme(token, Nothing), rest)
  {
    hide Keyword, LexNext;
    assert Upper(s) == s;
    WordBack(s, rest);
  }

  lemma NoSpaces(t: string)
    requires t != "" && t[0] != ' '
    ensures LexNext(t) == LexHere(t)
  {
    hide LexHere;
  }

  lemma MarkBack(l: Lexeme, rest: string)
    requires Spellable(l) && |Spell(l)| == 1 && AtGap(rest)
    requires l.token !in {ID_T, INTEGER_T, STRING_T}
    ensures LexNext(Spell(l) + rest) == Step(true, l, rest)
  {
    hide LexNext, LexNumber, LexWord, LexString;
    var t := Spell(l) + rest;
    NoSpaces(t);
    assert t[1..] == rest;
  }

  lemma NotEqualBack(rest: string)
    ensures LexNext("<>" + rest) == Step(true, Lexeme(NOT_EQ_T, Nothing), rest)
  {
    hide LexNext, LexNumber, LexWord, LexString;
    var t := "<>" + rest;
    NoSpaces(t);
    assert t[2..] == rest;
    assert t[1..][0] == '>';
  }

  lemma DigitsBack(n: nat, negative: bool, rest: string)
    requires AtGap(rest)
    ensures LexNumber(Digits(n) + rest, negative) ==
            Step(true, Lexeme(INTEGER_T, Long(if negative then ToLong(-ToLong(n)) else ToLong(n))), rest)
  {
    hide Run, Decimal, Digits, ToLong;
    var s := Digits(n);
    RunOf(s, rest);
    assert (s + rest)[..|s|] == s && (s + rest)[|s|..] == rest;
  }

  lemma NegativeBack(n: nat, rest: string)
    requires 0 < n <= 0x8000_0000_0000_0000 && AtGap(rest)
    ensures LexNext("-" + Digits(n) + rest) == Step(true, Lexeme(INTEGER_T, Long(0 - n)), rest)
  {
    hide Digits, LexNumber, LexNext;
    var t := "-" + Digits(n) + rest;
    NoSpaces(t);
    DigitsBack(n, true, rest);
    assert t[1..] == Digits(n) + rest;
    assert IsDigit(Digits(n)[0]);
  }

  lemma PositiveBack(n: nat, rest: string)
    requires n < 0x8000_0000_0000_0000 && AtGap(rest)
    ensures LexNext(Digits(n) + rest) == Step(true, Lexeme(INTEGER_T, Long(n)), rest)
  {
    hide Digits, LexNumber, LexNext;
    var t := Digits(n) + rest;
    assert IsDigit(Digits(n)[0]);
    NoSpaces(t);
    DigitsBack(n, false, rest);
    assert Digits(n)[0] == '0' ==> t[1..] == rest;
  }

  lemma LongBack(n: int, rest: string)
    requires IsLong(n) && AtGap(rest)
    ensures LexNext(SpellLong(n) + rest) == Step(true, Lexeme(INTEGER_T, Long(n)), rest)
  {
    hide LexNext, Digits;
    if n < 0 {
      NegativeBack(-n, rest);
    } else {
      PositiveBack(n, rest);
    }
  }

  lemma {:induction false} QuoteRunOf(s: string, rest: string)
    requires forall i :: 0 <= i < |s| ==> s[i] != '\''
    ensures QuoteRun(s + ("'" + rest)) == |s|
  {
    if s == "" {
      assert s + ("'" + rest) == "'" + rest;
    } else {
      assert (s + ("'" + rest))[1..] == s[1..] + ("'" + rest);
      QuoteRunOf(s[1..], rest);
    }
  }

  lemma StringBack(s: string, rest: string)
    requires IsQuotable(s)
    ensures LexNext("'" + s + "'" + rest) == Step(true, Lexeme(STRING_T, Text(s)), rest)
  {
    hide QuoteRun, LexNext, LexNumber, LexWord;
    var t := "'" + s + "'" + rest;
    QuoteRunOf(s, rest);
    assert t[1..] == s + ("'" + rest);
    assert t[1..][..|s|] == s;
    assert t[|s| + 2..] == rest;
    NoSpaces(t);
  }

  predicate IsKeyword(l: Lexeme)
  {
    Spellable(l) && l.token !in {ID_T, INTEGER_T, STRING_T, NOT_EQ_T} && |Spell(l)| > 1
  }

  /** The keyword of a token that has one. */
  lemma KeywordOf(l: Lexeme)
    requires IsKeyword(l)
    ensures Keyword(Spell(l)) == Some(l.token)
  {
    hide Fits;
  }

  lemma KeywordCapitals(l: Lexeme)
    requires IsKeyword(l)
    ensures forall i :: 0 <= i < |Spell(l)| ==> IsCapital(Spell(l)[i])
  {
    hide Fits, Keyword;
  }

  /** A lexeme comes back from its text when a space or the end follows. */
  lemma SpellBack(l: Lexeme, rest: string)
    requires Spellable(l) && AtGap(rest)
    ensures LexNext(Spell(l) + rest) == Step(true, l, rest)
  {
    hide LexNext, Keyword, Upper, SpellLong;
    if l.token == ID_T {
      WordBack(l.content.s, rest);
    } else if l.token == STRING_T {
      StringBack(l.content.s, rest);
    } else if l.token == INTEGER_T {
      LongBack(l.content.n, rest);
    } else if l.token == NOT_EQ_T {
      NotEqualBack(rest);
    } else if |Spell(l)| == 1 {
      MarkBack(l, rest);
    } else {
      KeywordOf(l);
      KeywordCapitals(l);
      KeywordBack(Spell(l), l.token, rest);
    }
  }

  // ---------------------------------------------------------------- what the lexer can find

  /** Whatever the lexer finds, floats apart, can be written. */
  lemma FoundSpellable(t: string)
    requires LexNext(t).lexeme.token !in {BAD_EXPR, FLOAT_T}
    ensures Spellable(LexNext(t).lexeme)
  {
    hide WordRun, QuoteRun, Run, Keyword, Upper, Decimal, ToLong;
  }

  /** Exactly the spellable lexemes come back from their text. */
  lemma SpellIff(l: Lexeme, rest: string)
    requires l.token !in {BAD_EXPR, FLOAT_T} && AtGap(rest)
    ensures LexNext(Spell(l) + rest) == Step(true, l, rest) <==> Spellable(l)
  {
    hide LexNext, Spellable, Spell;
    if Spellable(l) {
      SpellBack(l, rest);
    }
    if LexNext(Spell(l) + rest) == Step(true, l, rest) {
      FoundSpellable(Spell(l) + rest);
    }
  }

  lemma FloatNumber(negative: bool, ds: string, fs: string, rest: string)
    requires ds != "" && AllDigits(ds) && fs != "" && AllDigits(fs) && AtGap(rest)
    ensures LexNumber(ds + ("." + (fs + rest)), negative) ==
            Step(true, Lexeme(FLOAT_T, Float(negative, ds + "." + fs[..|fs| - 1])), rest)
  {
    hide Run, Decimal, AllDigits, Fits;
    var t := ds + ("." + (fs + rest));
    RunOf(ds, "." + (fs + rest));
    assert t[|ds|..] == "." + (fs + rest);
    assert t[|ds| + 1..] == fs + rest;
    RunOf(fs, rest);
    assert t[..|ds| + |fs|] == ds + "." + fs[..|fs| - 1];
    assert t[|ds| + 1 + |fs|..] == rest;
  }

  /** The number that digits, a point and more digits denote. */
  function FloatText(ds: string, fs: string): real
    requires AllDigits(ds) && AllDigits(fs)
  {
    Decimal(ds) as real + Portion(fs)
  }

  /** A float literal of either sign reaches `std::stof` without its last digit; the number in the text is
      the same exactly when that digit is 0. */
  lemma FloatLosesDigitIff(negative: bool, ds: string, fs: string, rest: string)
    requires ds != "" && AllDigits(ds) && (!negative && ds[0] == '0' ==> ds == "0")
    requires fs != "" && AllDigits(fs) && AtGap(rest)
    ensures LexNext((if negative then "-" else "") + (ds + ("." + (fs + rest)))) ==
            Step(true, Lexeme(FLOAT_T, Float(negative, ds + "." + fs[..|fs| - 1])), rest)
    ensures FloatText(ds, fs[..|fs| - 1]) == FloatText(ds, fs) <==> fs[|fs| - 1] == '0'
  {
    hide LexNext, LexWord, LexString, LexNumber, Portion, Decimal;
    LastDigitIff(fs);
    var u := ds + ("." + (fs + rest));
    var t := (if negative then "-" else "") + u;
    assert IsDigit(ds[0]);
    NoSpaces(t);
    FloatNumber(negative, ds, fs, rest);
    if negative {
      assert t[1..] == u;
    } else {
      assert t == u;
      assert ds == "0" ==> t[1..] == "." + (fs + rest);
    }
  }

  // ---------------------------------------------------------------- many lexemes

  /** The text left after exactly these lexemes; None if others come. */
  function After(t: string, ls: seq<Lexeme>): Option<string>
    decreases |ls|
  {
    if ls == [] then Some(t)
    else
      var s := LexNext(t);
      if s.ok && s.lexeme == ls[0] then After(s.rest, ls[1..]) else None
  }

  /** Each lexeme followed by a space. */
  function SpellAll(ls: seq<Lexeme>): string
  {
    if ls == [] then "" else Spell(ls[0]) + (" " + SpellAll(ls[1..]))
  }

  predicate AllSpellable(ls: seq<Lexeme>)
  {
    forall i :: 0 <= i < |ls| ==> Spellable(ls[i])
  }

  lemma SpaceSkipped(t: string)
    ensures LexNext(" " + t) == LexNext(t)
  {
    hide LexHere;
    assert (" " + t)[1..] == t;
  }

  /** A list of lexemes comes back from its text. */
  lemma {:induction false} SpellAllBack(ls: seq<Lexeme>)
    requires AllSpellable(ls)
    ensures After(SpellAll(ls), ls).Some? && After(" " + SpellAll(ls), ls).Some?
  {
    hide LexNext, Spellable, Spell;
    if ls != [] {
      SpellBack(ls[0], " " + SpellAll(ls[1..]));
      SpellAllBack(ls[1..]);
      SpaceSkipped(SpellAll(ls));
    }
  }
}
