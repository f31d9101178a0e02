/** What the SQL lexer makes of a text. */
module SqlLexer {
  import opened Decimals
  import opened Options

  datatype Token =
    | SELECT_T | INSERT_T | CREATE_T | DELETE_T | UPDATE_T | DROP_T
    | FROM_T | WHERE_T | INTO_T | VALUES_T | TABLE_T | ID_T
    | PLUS_T | MINUS_T | FLOAT_T | INTEGER_T | STRING_T
    | COLON_T | DOT_T | COMMAS_T | STAR_T | ASSIGN_T | NOT_EQ_T | GREATER_T | SMALLER_T
    | LBRACE_T | RBRACE_T
    | IN_T | IS_T | NOT_T | NULL_T | NULLABLE_T
    | S_CHAR_T | S_VARCHAR_T | S_INT_T | S_FLOAT_T
    | BAD_EXPR

  /** What the lexer keeps of an identifier, a literal string or a number. A float is given by its sign
      and the digits handed to `std::stof`. */
  datatype Content =
    | Nothing
    | Text(s: string)
    | Long(n: int)
    | Float(negative: bool, digits: string)

  datatype Lexeme = Lexeme(token: Token, content: Content)

  /** The content is of the kind the token calls for. */
  predicate Fits(l: Lexeme)
  {
    match l.token
    case ID_T => l.content.Text?
    case STRING_T => l.content.Text?
    case INTEGER_T => l.content.Long?
    case FLOAT_T => l.content.Float?
    case _ => l.content.Nothing?
  }

  /** One step of the lexer: whether it reports success, what it found, and the text that is left. */
  datatype Step = Step(ok: bool, lexeme: Lexeme, rest: string)

  const BAD := Lexeme(BAD_EXPR, Nothing)

  /** A `long` in two's complement. */
  function ToLong(n: int): (r: int)
    ensures -0x8000_0000_0000_0000 <= r < 0x8000_0000_0000_0000
    ensures -0x8000_0000_0000_0000 <= n < 0x8000_0000_0000_0000 ==> r == n
  {
    var m := n % 0x1_0000_0000_0000_0000;
    if m < 0x8000_0000_0000_0000 then m else m - 0x1_0000_0000_0000_0000
  }

  predicate IsLetter(c: char)
  {
    'a' <= c <= 'z' || 'A' <= c <= 'Z' || c == '_'
  }

  predicate IsWordChar(c: char)
  {
    IsLetter(c) || IsDigit(c)
  }

  function UpperChar(c: char): char
  {
    if 'a' <= c <= 'z' then c - 'a' + 'A' else c
  }

  function Upper(s: string): string
  {
    seq(|s|, i requires 0 <= i < |s| => UpperChar(s[i]))
  }

  /** The keyword table; it has INFO beside INTO. */
  function Keyword(s: string): (t: Option<Token>)
    ensures t.Some? ==> t.value != BAD_EXPR && Fits(Lexeme(t.value, Nothing))
  {
    match s
    case "SELECT" => Some(SELECT_T)
    case "INSERT" => Some(INSERT_T)
    case "UPDATE" => Some(UPDATE_T)
    case "CREATE" => Some(CREATE_T)
    case "DELETE" => Some(DELETE_T)
    case "DROP" => Some(DROP_T)
    case "INTO" => Some(INTO_T)
    case "FROM" => Some(FROM_T)
    case "WHERE" => Some(WHERE_T)
    case "INFO" => Some(INTO_T)
    case "TABLE" => Some(TABLE_T)
    case "VALUES" => Some(VALUES_T)
    case "IN" => Some(IN_T)
    case "IS" => Some(IS_T)
    case "NOT" => Some(NOT_T)
    case "NULL" => Some(NULL_T)
    case "NULLABLE" => Some(NULLABLE_T)
    case "CHAR" => Some(S_CHAR_T)
    case "VARCHAR" => Some(S_VARCHAR_T)
    case "INT" => Some(S_INT_T)
    case "FLOAT" => Some(S_FLOAT_T)
    case _ => None
  }

  /** Only spaces are skipped. */
  function SkipSpaces(t: string): (r: string)
    ensures |r| <= |t| && At(r) != ' '
  {
    if t != "" && t[0] == ' ' then SkipSpaces(t[1..]) else t
  }

  /** The length of the word at the cursor. */
  function WordRun(t: string): (n: nat)
    ensures n <= |t|
    ensures forall i :: 0 <= i < n ==> IsWordChar(t[i])
    ensures n < |t| ==> !IsWordChar(t[n])
  {
    if t != "" && IsWordChar(t[0]) then
      var n := 1 + WordRun(t[1..]);
      assert forall i :: 0 < i < n ==> t[i] == t[1..][i - 1];
      n
    else 0
  }

  /** The length of a literal string's content: up to a quote or the end of the text. */
  function QuoteRun(t: string): (n: nat)
    ensures n <= |t|
    ensures forall i :: 0 <= i < n ==> t[i] != '\''
    ensures n < |t| ==> t[n] == '\''
  {
    if t != "" && t[0] != '\'' then
      var n := 1 + QuoteRun(t[1..]);
      assert forall i :: 0 < i < n ==> t[i] == t[1..][i - 1];
      n
    else 0
  }

  function LexWord(t: string): (r: Step)
    requires t != "" && IsLetter(t[0])
    ensures r.ok && |r.rest| < |t| && Fits(r.lexeme) && r.lexeme.token != BAD_EXPR
  {
    var n := WordRun(t);
    var k := Keyword(Upper(t[..n]));
    Step(true, if k.Some? then Lexeme(k.value, Nothing) else Lexeme(ID_T, Text(t[..n])), t[n..])
  }

  /** `parse_num`. The text of a float is taken one character short. */
  function LexNumber(t: string, negative: bool): (r: Step)
    requires t != "" && IsDigit(t[0])
    ensures |r.rest| < |t| && Fits(r.lexeme) && r.ok == (r.lexeme.token != BAD_EXPR)
  {
    var n := Run(t);
    if At(t[n..]) == '.' then
      var m := Run(t[n + 1..]);
      if m == 0 then Step(false, BAD, t[n + 1..])
      else Step(true, Lexeme(FLOAT_T, Float(negative, t[..n + m])), t[n + 1 + m..])
    else
      var v := ToLong(Decimal(t[..n]));
      Step(true, Lexeme(INTEGER_T, Long(if negative then ToLong(-v) else v)), t[n..])
  }

  /** A literal string; the closing quote may be missing. */
  function LexString(t: string): (r: Step)
    requires t != "" && t[0] == '\''
    ensures r.ok ==> |r.rest| < |t|
    ensures Fits(r.lexeme) && r.lexeme.token == if r.ok then STRING_T else BAD_EXPR
  {
    var n := QuoteRun(t[1..]);
    if n == 0 then Step(false, BAD, t)
    else Step(true, Lexeme(STRING_T, Text(t[1..][..n])), From(t, n + 2))
  }

  /** `n` characters, which make up this token. */
  function Mark(token: Token, t: string, n: nat): Step
    requires n <= |t|
  {
    Step(true, Lexeme(token, Nothing), t[n..])
  }

  /** `Lexer::internal_next` with the cursor on a character that is not a space. */
  function LexHere(t: string): (r: Step)
    requires t != ""
    ensures |r.rest| <= |t| && Fits(r.lexeme)
    ensures r.lexeme.token != BAD_EXPR ==> |r.rest| < |t| && r.ok
  {
    var c := t[0];
    if IsLetter(c) then LexWord(t)
    else if c == '0' && IsDigit(At(t[1..])) then Step(false, BAD, t)
    else if IsDigit(c) then LexNumber(t, false)
    else
      match c
      case '+' => Mark(PLUS_T, t, 1)
      case '-' =>
        if IsDigit(At(t[1..])) then LexNumber(t[1..], true).(ok := true) else Mark(MINUS_T, t, 1)
      case '=' => Mark(ASSIGN_T, t, 1)
      case '>' => Mark(GREATER_T, t, 1)
      case '<' => if At(t[1..]) == '>' then Mark(NOT_EQ_T, t, 2) else Mark(SMALLER_T, t, 1)
      case ',' => Mark(COMMAS_T, t, 1)
      case '*' => Mark(STAR_T, t, 1)
      case '.' => Mark(DOT_T, t, 1)
      case ';' => Mark(COLON_T, t, 1)
      case '(' => Mark(LBRACE_T, t, 1)
      case ')' => Mark(RBRACE_T, t, 1)
      case '\'' => LexString(t)
      case _ => Step(false, BAD, t)
  }

  /** `Lexer::internal_next`. Every lexeme found takes at least one character. */
  function LexNext(t: string): (r: Step)
    ensures |r.rest| <= |t| && Fits(r.lexeme)
    ensures r.lexeme.token != BAD_EXPR ==> |r.rest| < |t| && r.ok
  {
    var u := SkipSpaces(t);
    if u == "" then Step(false, BAD, u) else LexHere(u)
  }
}
