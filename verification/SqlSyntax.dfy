/** SQL statements, and what the parser makes of a text. Each function takes the text from the cursor
    on, and gives what it read with the text that is left. */
module SqlSyntax {
  import opened Decimals
  import opened SqlLexer
  import Expressions

  type CondOp = Expressions.CondOp

  /** The table is empty where none is written. */
  datatype RelAttr = RelAttr(table: string, attribute: string)

  datatype Value =
    | AttrValue(attr: RelAttr)
    | StringValue(s: string)
    | IntValue(n: int)
    | FloatValue(negative: bool, digits: string)
    | NullValue

  datatype Condition = Condition(left: Value, op: CondOp, right: Value)

  datatype SqlType = SqlInt | SqlFloat | SqlChar | SqlVarchar

  datatype ColAttr = ColAttr(name: string, colType: SqlType, size: nat)

  datatype Statement =
    | Select(attrs: seq<RelAttr>, tables: seq<string>, conds: seq<Condition>)
    | Insert(table: string, cols: seq<string>, values: seq<Value>)
    | CreateTable(table: string, colAttrs: seq<ColAttr>)
    | Delete(tables: seq<string>, conds: seq<Condition>)
    | Drop(table: string)

  /** Aborted: an assertion of the source fails. */
  datatype Outcome<+T> = Ok(value: T, rest: string) | SyntaxError | Aborted {
    function Failed<U>(): (r: Outcome<U>)
      requires !Ok?
      ensures !r.Ok? && (r.Aborted? <==> this.Aborted?)
    {
      if SyntaxError? then SyntaxError else Aborted
    }
  }

  const STAR := RelAttr("", "*")

  function TokenToOp(t: Token): CondOp
  {
    match t
    case NOT_EQ_T => Expressions.NOT_EQ
    case ASSIGN_T => Expressions.EQ
    case GREATER_T => Expressions.GREATER
    case SMALLER_T => Expressions.SMALLER
    case IN_T => Expressions.IN
    case IS_T => Expressions.IS
    case _ => Expressions.UNDEFINED
  }

  /** `next_if` */
  function Take(t: string, token: Token): (r: Outcome<Content>)
    requires token != BAD_EXPR
    ensures !r.Aborted?
    ensures r.Ok? ==> |r.rest| < |t|
    ensures r.Ok? && token == ID_T ==> r.value.Text?
    ensures r.Ok? && token == INTEGER_T ==> r.value.Long?
  {
    var s := LexNext(t);
    if s.lexeme.token == token then Ok(s.lexeme.content, s.rest) else SyntaxError
  }

  /** Two tokens, of which the second may carry something. */
  function TakeTwo(t: string, first: Token, second: Token): (r: Outcome<Content>)
    requires first != BAD_EXPR && second != BAD_EXPR
    ensures !r.Aborted?
    ensures r.Ok? ==> |r.rest| < |t|
    ensures r.Ok? && second == INTEGER_T ==> r.value.Long?
  {
    var start := Take(t, first);
    if start.Ok? then Take(start.rest, second) else SyntaxError
  }

  /** A name, or two with a dot; `first` is read already. */
  function ParseAttrAfter(t: string, first: string): (r: Outcome<RelAttr>)
    ensures r.Ok? ==> |r.rest| <= |t|
    ensures !r.Aborted?
  {
    var dot := Take(t, DOT_T);
    if !dot.Ok? then Ok(RelAttr("", first), t)
    else
      var second := Take(dot.rest, ID_T);
      if second.Ok? then Ok(RelAttr(first, second.value.s), second.rest) else SyntaxError
  }

  /** The select list, of which `sofar` is read. */
  function ParseAttrs(t: string, sofar: seq<RelAttr>): (r: Outcome<seq<RelAttr>>)
    ensures !r.Aborted?
    ensures r.Ok? ==> |r.rest| < |t|
    decreases |t|
  {
    var s := LexNext(t);
    if !s.ok then SyntaxError
    else if s.lexeme.token == STAR_T then (if sofar == [] then Ok([STAR], s.rest) else SyntaxError)
    else if s.lexeme.token != ID_T then SyntaxError
    else
      var a := ParseAttrAfter(s.rest, s.lexeme.content.s);
      if !a.Ok? then a.Failed()
      else
        var attrs := sofar + [a.value];
        var comma := Take(a.rest, COMMAS_T);
        if comma.Ok? then ParseAttrs(comma.rest, attrs) else Ok(attrs, a.rest)
  }

  /** One round of the loop over the select list. */
  lemma AttrsHere(t: string, sofar: seq<RelAttr>)
    ensures ParseAttrs(t, sofar) ==
            (var s := LexNext(t);
             if !s.ok then SyntaxError
             else if s.lexeme.token == STAR_T then (if sofar == [] then Ok([STAR], s.rest) else SyntaxError)
             else if s.lexeme.token != ID_T then SyntaxError
             else
               var a := ParseAttrAfter(s.rest, s.lexeme.content.s);
               if !a.Ok? then SyntaxError
               else
                 var comma := Take(a.rest, COMMAS_T);
                 if comma.Ok? then ParseAttrs(comma.rest, sofar + [a.value])
                 else Ok(sofar + [a.value], a.rest))
  {
    hide LexNext, ParseAttrAfter;
  }

  /** Names with commas between them: columns or tables. */
  function ParseNames(t: string, sofar: seq<string>): (r: Outcome<seq<string>>)
    ensures !r.Aborted?
    ensures r.Ok? ==> |r.rest| < |t|
    decreases |t|
  {
    var n := Take(t, ID_T);
    if !n.Ok? then SyntaxError
    else
      var names := sofar + [n.value.s];
      var comma := Take(n.rest, COMMAS_T);
      if comma.Ok? then ParseNames(comma.rest, names) else Ok(names, n.rest)
  }

  function ParseFrom(t: string): (r: Outcome<seq<string>>)
    ensures !r.Aborted?
    ensures r.Ok? ==> |r.rest| < |t|
  {
    var f := Take(t, FROM_T);
    if f.Ok? then ParseNames(f.rest, []) else SyntaxError
  }

  /** A value; any other token than those of a value aborts. */
  function ParseValue(t: string): (r: Outcome<Value>)
    ensures r.Ok? ==> |r.rest| < |t|
  {
    var s := LexNext(t);
    if !s.ok then SyntaxError
    else
      match s.lexeme.token
      case ID_T =>
        (var a := ParseAttrAfter(s.rest, s.lexeme.content.s);
         if a.Ok? then Ok(AttrValue(a.value), a.rest) else SyntaxError)
      case FLOAT_T => Ok(FloatValue(s.lexeme.content.negative, s.lexeme.content.digits), s.rest)
      case INTEGER_T => Ok(IntValue(s.lexeme.content.n), s.rest)
      case STRING_T => Ok(StringValue(s.lexeme.content.s), s.rest)
      case NULL_T => Ok(NullValue, s.rest)
      case _ => Aborted
  }

  function ParseCondition(t: string): (r: Outcome<Condition>)
    ensures r.Ok? ==> |r.rest| < |t|
  {
    var left := ParseValue(t);
    if !left.Ok? then left.Failed()
    else
      var s := LexNext(left.rest);
      if !s.ok || TokenToOp(s.lexeme.token) == Expressions.UNDEFINED then SyntaxError
      else
        var right := ParseValue(s.rest);
        if !right.Ok? then right.Failed()
        else Ok(Condition(left.value, TokenToOp(s.lexeme.token), right.value), right.rest)
  }

  function ParseConditions(t: string, sofar: seq<Condition>): (r: Outcome<seq<Condition>>)
    ensures r.Ok? ==> |r.rest| < |t|
    decreases |t|
  {
    var c := ParseCondition(t);
    if !c.Ok? then c.Failed()
    else
      var conds := sofar + [c.value];
      var comma := Take(c.rest, COMMAS_T);
      if comma.Ok? then ParseConditions(comma.rest, conds) else Ok(conds, c.rest)
  }

  /** A semicolon, which is taken, or WHERE and conditions, after which nothing is. */
  function ParseConds(t: string): Outcome<seq<Condition>>
  {
    var s := LexNext(t);
    if !s.ok then SyntaxError
    else if s.lexeme.token == WHERE_T then ParseConditions(s.rest, [])
    else if s.lexeme.token == COLON_T then Ok([], s.rest)
    else SyntaxError
  }

  /** The values of an INSERT, none of them a column's. */
  function ParseValues(t: string, sofar: seq<Value>): (r: Outcome<seq<Value>>)
    ensures r.Ok? ==> |r.rest| < |t|
    decreases |t|
  {
    var v := ParseValue(t);
    if !v.Ok? then v.Failed()
    else if v.value.AttrValue? then SyntaxError
    else
      var values := sofar + [v.value];
      var comma := Take(v.rest, COMMAS_T);
      if comma.Ok? then ParseValues(comma.rest, values) else Ok(values, v.rest)
  }

  /** The size in brackets, made a `size_t`. */
  function ParseSize(t: string): (r: Outcome<nat>)
    ensures !r.Aborted?
    ensures r.Ok? ==> |r.rest| < |t|
  {
    var n := TakeTwo(t, LBRACE_T, INTEGER_T);
    if !n.Ok? then SyntaxError
    else
      var close := Take(n.rest, RBRACE_T);
      if close.Ok? then Ok(n.value.n % 0x1_0000_0000_0000_0000, close.rest) else SyntaxError
  }

  /** The type of a column and its size, which is 0 for a type that has none. */
  function ParseDataType(t: string): (r: Outcome<(SqlType, nat)>)
    ensures !r.Aborted?
    ensures r.Ok? ==> |r.rest| < |t|
  {
    var s := LexNext(t);
    match s.lexeme.token
    case S_INT_T => Ok((SqlInt, 0), s.rest)
    case S_FLOAT_T => Ok((SqlFloat, 0), s.rest)
    case S_CHAR_T =>
      (var size := ParseSize(s.rest);
       if size.Ok? then Ok((SqlChar, size.value), size.rest) else SyntaxError)
    case S_VARCHAR_T =>
      (var size := ParseSize(s.rest);
       if size.Ok? then Ok((SqlVarchar, size.value), size.rest) else SyntaxError)
    case _ => SyntaxError
  }

  function ParseColAttr(t: string): (r: Outcome<ColAttr>)
    ensures !r.Aborted?
    ensures r.Ok? ==> |r.rest| < |t|
  {
    var name := Take(t, ID_T);
    if !name.Ok? then SyntaxError
    else
      var kind := ParseDataType(name.rest);
      if kind.Ok? then Ok(ColAttr(name.value.s, kind.value.0, kind.value.1), kind.rest) else SyntaxError
  }

  function ParseColAttrs(t: string, sofar: seq<ColAttr>): (r: Outcome<seq<ColAttr>>)
    ensures !r.Aborted?
    ensures r.Ok? ==> |r.rest| < |t|
    decreases |t|
  {
    var c := ParseColAttr(t);
    if !c.Ok? then SyntaxError
    else
      var cols := sofar + [c.value];
      var comma := Take(c.rest, COMMAS_T);
      if comma.Ok? then ParseColAttrs(comma.rest, cols) else Ok(cols, c.rest)
  }

  // ---------------------------------------------------------------- statements

  function ParseSelect(t: string): Outcome<Statement>
  {
    var start := Take(t, SELECT_T);
    if !start.Ok? then Aborted
    else
      var attrs := ParseAttrs(start.rest, []);
      if !attrs.Ok? then SyntaxError
      else
        var tables := ParseFrom(attrs.rest);
        if !tables.Ok? then SyntaxError
        else
          var conds := ParseConds(tables.rest);
          if !conds.Ok? then conds.Failed() else Ok(Select(attrs.value, tables.value, conds.value), conds.rest)
  }

  /** The columns an INSERT names, and the word VALUES. */
  function ParseInsertCols(t: string): (r: Outcome<seq<string>>)
    ensures !r.Aborted?
  {
    var s := LexNext(t);
    if s.lexeme.token == VALUES_T then Ok([], s.rest)
    else if s.lexeme.token != LBRACE_T then SyntaxError
    else
      var cols := ParseNames(s.rest, []);
      if !cols.Ok? then SyntaxError
      else
        var values := TakeTwo(cols.rest, RBRACE_T, VALUES_T);
        if values.Ok? then Ok(cols.value, values.rest) else SyntaxError
  }

  /** Two words and a table name: INSERT INTO or CREATE TABLE. */
  function ParseHead(t: string, first: Token, second: Token): (r: Outcome<string>)
    requires first != BAD_EXPR && second != BAD_EXPR
    ensures !r.Aborted?
  {
    var words := TakeTwo(t, first, second);
    if !words.Ok? then SyntaxError
    else
      var table := Take(words.rest, ID_T);
      if table.Ok? then Ok(table.value.s, table.rest) else SyntaxError
  }

  function ParseInsert(t: string): Outcome<Statement>
  {
    var table := ParseHead(t, INSERT_T, INTO_T);
    if !table.Ok? then SyntaxError
    else
      var cols := ParseInsertCols(table.rest);
      if !cols.Ok? then SyntaxError
      else
        var open := Take(cols.rest, LBRACE_T);
        if !open.Ok? then SyntaxError
        else
          var values := ParseValues(open.rest, []);
          if !values.Ok? then values.Failed()
          else
            var end := TakeTwo(values.rest, RBRACE_T, COLON_T);
            if end.Ok? then Ok(Insert(table.value, cols.value, values.value), end.rest) else SyntaxError
  }

  function ParseCreate(t: string): Outcome<Statement>
  {
    var table := ParseHead(t, CREATE_T, TABLE_T);
    if !table.Ok? then SyntaxError
    else
      var open := Take(table.rest, LBRACE_T);
      if !open.Ok? then SyntaxError
      else
        var cols := ParseColAttrs(open.rest, []);
        if !cols.Ok? then SyntaxError
        else
          var end := TakeTwo(cols.rest, RBRACE_T, COLON_T);
          if end.Ok? then Ok(CreateTable(table.value, cols.value), end.rest) else SyntaxError
  }

  /** The conditions of a DELETE and its semicolon; a star before FROM excludes WHERE. */
  function ParseDeleteEnd(t: string, star: bool, tables: seq<string>): Outcome<Statement>
  {
    if star && LexNext(t).lexeme.token == WHERE_T then SyntaxError
    else
      var conds := ParseConds(t);
      if !conds.Ok? then conds.Failed()
      else
        var colon := Take(conds.rest, COLON_T);
        if colon.Ok? then Ok(Delete(tables, conds.value), colon.rest) else SyntaxError
  }

  function ParseDelete(t: string): Outcome<Statement>
  {
    var start := Take(t, DELETE_T);
    if !start.Ok? then SyntaxError
    else
      var star := Take(start.rest, STAR_T);
      var tables := ParseFrom(if star.Ok? then star.rest else start.rest);
      if !tables.Ok? then SyntaxError else ParseDeleteEnd(tables.rest, star.Ok?, tables.value)
  }

  /** The statement a parser holds before it has read one. */
  const UNREAD := Select([], [], [])

  function ParseDropName(t: string): Outcome<Statement>
  {
    var n := LexNext(t);
    if !n.ok then SyntaxError
    else if n.lexeme.token != ID_T then Ok(UNREAD, n.rest)
    else
      var colon := Take(n.rest, COLON_T);
      if colon.Ok? then Ok(Drop(n.lexeme.content.s), colon.rest) else SyntaxError
  }

  /** A wrong token after DROP is taken for success: the code given back is the lexer's. */
  function ParseDrop(t: string): Outcome<Statement>
  {
    var start := Take(t, DROP_T);
    if !start.Ok? then SyntaxError
    else
      var s := LexNext(start.rest);
      if !s.ok then SyntaxError
      else if s.lexeme.token != TABLE_T then Ok(UNREAD, s.rest)
      else ParseDropName(s.rest)
  }

  /** `Parser::do_parse` */
  function Parse(t: string): Outcome<Statement>
  {
    match LexNext(t).lexeme.token
    case SELECT_T => ParseSelect(t)
    case CREATE_T => ParseCreate(t)
    case DELETE_T => ParseDelete(t)
    case INSERT_T => ParseInsert(t)
    case DROP_T => ParseDrop(t)
    case _ => SyntaxError
  }
}
