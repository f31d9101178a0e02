/** The lexemes of a statement, and parsing them: whatever spaces separate them in the text, the
    statement comes back. */
module SqlTokens {
  import opened Decimals
  import opened Options
  import opened SqlLexer
  import opened SqlSpelling
  import opened SqlSyntax
  import Expressions

  function Word(token: Token): Lexeme
  {
    Lexeme(token, Nothing)
  }

  function Name(s: string): Lexeme
  {
    Lexeme(ID_T, Text(s))
  }

  function AttrTokens(a: RelAttr): (r: seq<Lexeme>)
    ensures r != []
  {
    if a.table == "" then [Name(a.attribute)] else [Name(a.table), Word(DOT_T), Name(a.attribute)]
  }

  function AttrsTokens(attrs: seq<RelAttr>): seq<Lexeme>
  {
    if attrs == [] then []
    else if attrs == [STAR] then [Word(STAR_T)]
    else AttrTokens(attrs[0]) + if |attrs| == 1 then [] else [Word(COMMAS_T)] + AttrsTokens(attrs[1..])
  }

  function NamesTokens(names: seq<string>): seq<Lexeme>
  {
    if names == [] then []
    else [Name(names[0])] + if |names| == 1 then [] else [Word(COMMAS_T)] + NamesTokens(names[1..])
  }

  function ValueTokens(v: Value): (r: seq<Lexeme>)
    ensures r != []
  {
    match v
    case AttrValue(a) => AttrTokens(a)
    case StringValue(s) => [Lexeme(STRING_T, Text(s))]
    case IntValue(n) => [Lexeme(INTEGER_T, Long(n))]
    case FloatValue(negative, digits) => [Lexeme(FLOAT_T, Float(negative, digits))]
    case NullValue => [Word(NULL_T)]
  }

  function OpToken(op: CondOp): (t: Token)
    ensures t != BAD_EXPR ==> TokenToOp(t) == op
  {
    match op
    case NOT_EQ => NOT_EQ_T
    case EQ => ASSIGN_T
    case GREATER => GREATER_T
    case SMALLER => SMALLER_T
    case IS => IS_T
    case IN => IN_T
    case IS_NOT => BAD_EXPR
    case UNDEFINED => BAD_EXPR
  }

  function ConditionTokens(c: Condition): seq<Lexeme>
  {
    ValueTokens(c.left) + ([Word(OpToken(c.op))] + ValueTokens(c.right))
  }

  function ConditionsTokens(conds: seq<Condition>): seq<Lexeme>
  {
    if conds == [] then []
    else ConditionTokens(conds[0])
         + if |conds| == 1 then [] else [Word(COMMAS_T)] + ConditionsTokens(conds[1..])
  }

  function ValuesTokens(values: seq<Value>): seq<Lexeme>
  {
    if values == [] then []
    else ValueTokens(values[0])
         + if |values| == 1 then [] else [Word(COMMAS_T)] + ValuesTokens(values[1..])
  }

  function SizeTokens(size: nat): seq<Lexeme>
  {
    [Word(LBRACE_T), Lexeme(INTEGER_T, Long(ToLong(size))), Word(RBRACE_T)]
  }

  function TypeTokens(colType: SqlType, size: nat): seq<Lexeme>
  {
    match colType
    case SqlInt => [Word(S_INT_T)]
    case SqlFloat => [Word(S_FLOAT_T)]
    case SqlChar => [Word(S_CHAR_T)] + SizeTokens(size)
    case SqlVarchar => [Word(S_VARCHAR_T)] + SizeTokens(size)
  }

  function ColAttrTokens(c: ColAttr): seq<Lexeme>
  {
    [Name(c.name)] + TypeTokens(c.colType, c.size)
  }

  function ColAttrsTokens(cols: seq<ColAttr>): seq<Lexeme>
  {
    if cols == [] then []
    else ColAttrTokens(cols[0]) + if |cols| == 1 then [] else [Word(COMMAS_T)] + ColAttrsTokens(cols[1..])
  }

  /** The condition list and the semicolon. */
  function WhereTokens(conds: seq<Condition>): seq<Lexeme>
  {
    if conds == [] then [Word(COLON_T)] else [Word(WHERE_T)] + (ConditionsTokens(conds) + [Word(COLON_T)])
  }

  const CLOSING := [Word(RBRACE_T), Word(COLON_T)]

  function InsertColsTokens(cols: seq<string>): seq<Lexeme>
  {
    if cols == [] then [Word(VALUES_T)]
    else [Word(LBRACE_T)] + (NamesTokens(cols) + [Word(RBRACE_T), Word(VALUES_T)])
  }

  /** The statement as it is written. A DELETE without conditions needs a second semicolon. */
  function StatementTokens(s: Statement): seq<Lexeme>
  {
    match s
    case Select(attrs, tables, conds) =>
      [Word(SELECT_T)] + (AttrsTokens(attrs) + ([Word(FROM_T)] + (NamesTokens(tables) + WhereTokens(conds))))
    case Insert(table, cols, values) =>
      [Word(INSERT_T)] + ([Word(INTO_T)] + ([Name(table)] + (InsertColsTokens(cols)
      + ([Word(LBRACE_T)] + (ValuesTokens(values) + CLOSING)))))
    case CreateTable(table, cols) =>
      [Word(CREATE_T)] + ([Word(TABLE_T)] + ([Name(table)] + ([Word(LBRACE_T)]
      + (ColAttrsTokens(cols) + CLOSING))))
    case Delete(tables, conds) =>
      [Word(DELETE_T)] + ([Word(FROM_T)] + (NamesTokens(tables) + (WhereTokens(conds)
      + if conds == [] then [Word(COLON_T)] else [])))
    case Drop(table) => [Word(DROP_T)] + ([Word(TABLE_T)] + ([Name(table)] + [Word(COLON_T)]))
  }

  // ---------------------------------------------------------------- what can be written

  predicate GoodAttr(a: RelAttr)
  {
    IsName(a.attribute) && (a.table == "" || IsName(a.table))
  }

  predicate GoodAttrs(attrs: seq<RelAttr>)
  {
    attrs == [STAR] || (attrs != [] && forall i :: 0 <= i < |attrs| ==> GoodAttr(attrs[i]))
  }

  predicate GoodNames(names: seq<string>)
  {
    names != [] && forall i :: 0 <= i < |names| ==> IsName(names[i])
  }

  predicate GoodValue(v: Value)
  {
    match v
    case AttrValue(a) => GoodAttr(a)
    case StringValue(s) => IsQuotable(s)
    case IntValue(n) => IsLong(n)
    case FloatValue(_, _) => false
    case NullValue => true
  }

  predicate GoodCondition(c: Condition)
  {
    GoodValue(c.left) && GoodValue(c.right) && c.op != Expressions.UNDEFINED && c.op != Expressions.IS_NOT
  }

  predicate GoodConditions(conds: seq<Condition>)
  {
    forall i :: 0 <= i < |conds| ==> GoodCondition(conds[i])
  }

  predicate GoodValues(values: seq<Value>)
  {
    values != [] && forall i :: 0 <= i < |values| ==> GoodValue(values[i]) && !values[i].AttrValue?
  }

  /** Only CHAR and VARCHAR have a size, a `size_t`. */
  predicate FittingSize(c: ColAttr)
  {
    && c.size < 0x1_0000_0000_0000_0000
    && (c.colType == SqlInt || c.colType == SqlFloat ==> c.size == 0)
  }

  predicate GoodColAttr(c: ColAttr)
  {
    IsName(c.name) && FittingSize(c)
  }

  predicate GoodColAttrs(cols: seq<ColAttr>)
  {
    cols != [] && forall i :: 0 <= i < |cols| ==> GoodColAttr(cols[i])
  }

  /** The statements of the grammar. */
  predicate Good(s: Statement)
  {
    match s
    case Select(attrs, tables, conds) => GoodAttrs(attrs) && GoodNames(tables) && GoodConditions(conds)
    case Insert(table, cols, values) => IsName(table) && (cols == [] || GoodNames(cols)) && GoodValues(values)
    case CreateTable(table, cols) => IsName(table) && GoodColAttrs(cols)
    case Delete(tables, conds) => GoodNames(tables) && GoodConditions(conds)
    case Drop(table) => IsName(table)
  }

  // ---------------------------------------------------------------- parsing the lexemes

  /** The first of the lexemes, and the text after it. */
  lemma First(t: string, l: Lexeme, k: seq<Lexeme>)
    requires After(t, [l] + k).Some?
    ensures LexNext(t).ok && LexNext(t).lexeme == l && After(LexNext(t).rest, k) == After(t, [l] + k)
    ensures l.token != BAD_EXPR ==> Take(t, l.token) == Ok(l.content, LexNext(t).rest)
  {
    hide LexNext;
    assert ([l] + k)[1..] == k;
  }

  lemma FirstTwo(t: string, first: Token, l: Lexeme, k: seq<Lexeme>)
    requires first != BAD_EXPR && l.token != BAD_EXPR
    requires After(t, [Word(first)] + ([l] + k)).Some?
    ensures LexNext(t).lexeme.token == first
    ensures var r := TakeTwo(t, first, l.token);
            r.Ok? && r.value == l.content && After(r.rest, k) == After(t, [Word(first)] + ([l] + k))
  {
    hide LexNext, After, Take;
    First(t, Word(first), [l] + k);
    First(LexNext(t).rest, l, k);
  }

  /** The token that comes next. */
  predicate Next(k: seq<Lexeme>, token: Token)
  {
    k != [] && k[0].token == token
  }

  /** None of these tokens comes next. */
  predicate NextNot(k: seq<Lexeme>, tokens: set<Token>)
  {
    k != [] && k[0].token !in tokens
  }

  lemma NotTaken(t: string, k: seq<Lexeme>, token: Token)
    requires After(t, k).Some? && NextNot(k, {token}) && token != BAD_EXPR
    ensures Take(t, token) == SyntaxError
  {
    hide LexNext;
  }

  lemma AttrBack(t: string, a: RelAttr, k: seq<Lexeme>)
    requires After(t, AttrTokens(a) + k).Some? && NextNot(k, {DOT_T})
    ensures LexNext(t).ok && LexNext(t).lexeme.token == ID_T
    ensures var r := ParseAttrAfter(LexNext(t).rest, LexNext(t).lexeme.content.s);
            r.Ok? && r.value == a && After(r.rest, k).Some?
  {
    hide LexNext, After, NextNot, Take;
    if a.table == "" {
      First(t, Name(a.attribute), k);
      NotTaken(LexNext(t).rest, k, DOT_T);
    } else {
      var k1 := [Name(a.attribute)] + k;
      var k2 := [Word(DOT_T)] + k1;
      assert AttrTokens(a) + k == [Name(a.table)] + k2;
      First(t, Name(a.table), k2);
      First(LexNext(t).rest, Word(DOT_T), k1);
      First(LexNext(LexNext(t).rest).rest, Name(a.attribute), k);
    }
  }

  lemma ValueBack(t: string, v: Value, k: seq<Lexeme>)
    requires After(t, ValueTokens(v) + k).Some? && NextNot(k, {DOT_T})
    ensures ParseValue(t).Ok? && ParseValue(t).value == v && After(ParseValue(t).rest, k).Some?
  {
    hide LexNext, After, NextNot, ParseAttrAfter, AttrTokens;
    if v.AttrValue? {
      AttrBack(t, v.attr, k);
    } else {
      First(t, ValueTokens(v)[0], k);
    }
  }

  lemma ConditionBack(t: string, c: Condition, k: seq<Lexeme>)
    requires c.op != Expressions.UNDEFINED && c.op != Expressions.IS_NOT
    requires After(t, ConditionTokens(c) + k).Some? && NextNot(k, {DOT_T})
    ensures ParseCondition(t).Ok? && ParseCondition(t).value == c && After(ParseCondition(t).rest, k).Some?
  {
    hide LexNext, After, NextNot, ParseValue, ValueTokens;
    var k1 := ValueTokens(c.right) + k;
    var k2 := [Word(OpToken(c.op))] + k1;
    assert ConditionTokens(c) + k == ValueTokens(c.left) + k2;
    OpNotDot(c.op, k1);
    ValueBack(t, c.left, k2);
    First(ParseValue(t).rest, Word(OpToken(c.op)), k1);
    ValueBack(LexNext(ParseValue(t).rest).rest, c.right, k);
  }

  lemma OpNotDot(op: CondOp, k: seq<Lexeme>)
    ensures NextNot([Word(OpToken(op))] + k, {DOT_T})
  {}

  lemma CommaNext(k: seq<Lexeme>)
    ensures NextNot([Word(COMMAS_T)] + k, {DOT_T})
  {}

  lemma Fewer(k: seq<Lexeme>, some: set<Token>, all: set<Token>)
    requires NextNot(k, all) && some <= all
    ensures NextNot(k, some)
  {}

  lemma Group(a: seq<Lexeme>, c: Lexeme, b: seq<Lexeme>, k: seq<Lexeme>)
    ensures (a + ([c] + b)) + k == a + ([c] + (b + k))
  {}

  lemma NamesSplit(xs: seq<string>, k: seq<Lexeme>)
    requires xs != []
    ensures NamesTokens(xs) + k ==
            [Name(xs[0])] + if |xs| == 1 then k else [Word(COMMAS_T)] + (NamesTokens(xs[1..]) + k)
  {
    if |xs| > 1 {
      Group([Name(xs[0])], Word(COMMAS_T), NamesTokens(xs[1..]), k);
    } else {
      assert [Name(xs[0])] + [] == [Name(xs[0])];
    }
  }

  lemma ConditionsSplit(xs: seq<Condition>, k: seq<Lexeme>)
    requires xs != []
    ensures ConditionsTokens(xs) + k ==
            ConditionTokens(xs[0]) + if |xs| == 1 then k else [Word(COMMAS_T)] + (ConditionsTokens(xs[1..]) + k)
  {
    hide ConditionTokens;
    if |xs| > 1 {
      Group(ConditionTokens(xs[0]), Word(COMMAS_T), ConditionsTokens(xs[1..]), k);
    } else {
      assert ConditionTokens(xs[0]) + [] == ConditionTokens(xs[0]);
    }
  }

  lemma ValuesSplit(xs: seq<Value>, k: seq<Lexeme>)
    requires xs != []
    ensures ValuesTokens(xs) + k ==
            ValueTokens(xs[0]) + if |xs| == 1 then k else [Word(COMMAS_T)] + (ValuesTokens(xs[1..]) + k)
  {
    hide ValueTokens;
    if |xs| > 1 {
      Group(ValueTokens(xs[0]), Word(COMMAS_T), ValuesTokens(xs[1..]), k);
    } else {
      assert ValueTokens(xs[0]) + [] == ValueTokens(xs[0]);
    }
  }

  lemma ColAttrsSplit(xs: seq<ColAttr>, k: seq<Lexeme>)
    requires xs != []
    ensures ColAttrsTokens(xs) + k ==
            ColAttrTokens(xs[0]) + if |xs| == 1 then k else [Word(COMMAS_T)] + (ColAttrsTokens(xs[1..]) + k)
  {
    hide ColAttrTokens;
    if |xs| > 1 {
      Group(ColAttrTokens(xs[0]), Word(COMMAS_T), ColAttrsTokens(xs[1..]), k);
    } else {
      assert ColAttrTokens(xs[0]) + [] == ColAttrTokens(xs[0]);
    }
  }

  lemma AttrsSplit(xs: seq<RelAttr>, k: seq<Lexeme>)
    requires xs != [] && xs != [STAR]
    ensures AttrsTokens(xs) + k ==
            AttrTokens(xs[0]) + if |xs| == 1 then k else [Word(COMMAS_T)] + (AttrsTokens(xs[1..]) + k)
  {
    hide AttrTokens;
    if |xs| > 1 {
      Group(AttrTokens(xs[0]), Word(COMMAS_T), AttrsTokens(xs[1..]), k);
    } else {
      assert AttrTokens(xs[0]) + [] == AttrTokens(xs[0]);
    }
  }

  lemma {:induction false} NamesBack(t: string, xs: seq<string>, sofar: seq<string>, k: seq<Lexeme>)
    requires xs != [] && After(t, NamesTokens(xs) + k).Some? && NextNot(k, {COMMAS_T})
    ensures var r := ParseNames(t, sofar);
            r.Ok? && r.value == sofar + xs && After(r.rest, k) == After(t, NamesTokens(xs) + k)
    decreases |xs|
  {
    hide LexNext, After, NextNot, NamesTokens, Take;
    NamesSplit(xs, k);
    if |xs| == 1 {
      First(t, Name(xs[0]), k);
      NotTaken(LexNext(t).rest, k, COMMAS_T);
      assert sofar + [xs[0]] == sofar + xs;
    } else {
      var k1 := NamesTokens(xs[1..]) + k;
      var k2 := [Word(COMMAS_T)] + k1;
      First(t, Name(xs[0]), k2);
      First(LexNext(t).rest, Word(COMMAS_T), k1);
      NamesBack(LexNext(LexNext(t).rest).rest, xs[1..], sofar + [xs[0]], k);
      assert sofar + [xs[0]] + xs[1..] == sofar + xs;
    }
  }

  lemma {:induction false} ConditionsBack(t: string, xs: seq<Condition>, sofar: seq<Condition>, k: seq<Lexeme>)
    requires xs != [] && After(t, ConditionsTokens(xs) + k).Some? && NextNot(k, {DOT_T, COMMAS_T})
    requires forall i :: 0 <= i < |xs| ==> xs[i].op != Expressions.UNDEFINED && xs[i].op != Expressions.IS_NOT
    ensures var r := ParseConditions(t, sofar); r.Ok? && r.value == sofar + xs && After(r.rest, k).Some?
    decreases |xs|
  {
    hide LexNext, After, NextNot, ParseCondition, ConditionTokens, ConditionsTokens, Take;
    ConditionsSplit(xs, k);
    if |xs| == 1 {
      Fewer(k, {DOT_T}, {DOT_T, COMMAS_T});
      Fewer(k, {COMMAS_T}, {DOT_T, COMMAS_T});
      ConditionBack(t, xs[0], k);
      NotTaken(ParseCondition(t).rest, k, COMMAS_T);
      assert sofar + [xs[0]] == sofar + xs;
    } else {
      var k1 := ConditionsTokens(xs[1..]) + k;
      var k2 := [Word(COMMAS_T)] + k1;
      CommaNext(k1);
      ConditionBack(t, xs[0], k2);
      First(ParseCondition(t).rest, Word(COMMAS_T), k1);
      ConditionsBack(LexNext(ParseCondition(t).rest).rest, xs[1..], sofar + [xs[0]], k);
      assert sofar + [xs[0]] + xs[1..] == sofar + xs;
    }
  }

  lemma {:induction false} ValuesBack(t: string, xs: seq<Value>, sofar: seq<Value>, k: seq<Lexeme>)
    requires xs != [] && After(t, ValuesTokens(xs) + k).Some? && NextNot(k, {DOT_T, COMMAS_T})
    requires forall i :: 0 <= i < |xs| ==> !xs[i].AttrValue?
    ensures var r := ParseValues(t, sofar); r.Ok? && r.value == sofar + xs && After(r.rest, k).Some?
    decreases |xs|
  {
    hide LexNext, After, NextNot, ParseValue, ValueTokens, ValuesTokens, Take;
    ValuesSplit(xs, k);
    if |xs| == 1 {
      Fewer(k, {DOT_T}, {DOT_T, COMMAS_T});
      Fewer(k, {COMMAS_T}, {DOT_T, COMMAS_T});
      ValueBack(t, xs[0], k);
      NotTaken(ParseValue(t).rest, k, COMMAS_T);
      assert sofar + [xs[0]] == sofar + xs;
    } else {
      var k1 := ValuesTokens(xs[1..]) + k;
      var k2 := [Word(COMMAS_T)] + k1;
      CommaNext(k1);
      ValueBack(t, xs[0], k2);
      First(ParseValue(t).rest, Word(COMMAS_T), k1);
      ValuesBack(LexNext(ParseValue(t).rest).rest, xs[1..], sofar + [xs[0]], k);
      assert sofar + [xs[0]] + xs[1..] == sofar + xs;
    }
  }

  lemma SizeIsLong(size: nat)
    requires size < 0x1_0000_0000_0000_0000
    ensures ToLong(size) % 0x1_0000_0000_0000_0000 == size
  {}

  lemma SizeBack(t: string, size: nat, k: seq<Lexeme>)
    requires size < 0x1_0000_0000_0000_0000 && After(t, SizeTokens(size) + k).Some?
    ensures ParseSize(t).Ok? && ParseSize(t).value == size && After(ParseSize(t).rest, k).Some?
  {
    hide LexNext, After, Take, TakeTwo, ToLong;
    SizeIsLong(size);
    var n := Lexeme(INTEGER_T, Long(ToLong(size)));
    var k1 := [Word(RBRACE_T)] + k;
    assert SizeTokens(size) + k == [Word(LBRACE_T)] + ([n] + k1);
    FirstTwo(t, LBRACE_T, n, k1);
    First(TakeTwo(t, LBRACE_T, INTEGER_T).rest, Word(RBRACE_T), k);
  }

  lemma TypeBack(t: string, c: ColAttr, k: seq<Lexeme>)
    requires FittingSize(c)
    requires After(t, TypeTokens(c.colType, c.size) + k).Some?
    ensures var r := ParseDataType(t);
            r.Ok? && r.value == (c.colType, c.size) && After(r.rest, k).Some?
  {
    hide LexNext, After, ParseSize, SizeTokens, Take;
    match c.colType
    case SqlInt => First(t, Word(S_INT_T), k);
    case SqlFloat => First(t, Word(S_FLOAT_T), k);
    case SqlChar =>
      assert TypeTokens(c.colType, c.size) + k == [Word(S_CHAR_T)] + (SizeTokens(c.size) + k);
      First(t, Word(S_CHAR_T), SizeTokens(c.size) + k);
      SizeBack(LexNext(t).rest, c.size, k);
    case SqlVarchar =>
      assert TypeTokens(c.colType, c.size) + k == [Word(S_VARCHAR_T)] + (SizeTokens(c.size) + k);
      First(t, Word(S_VARCHAR_T), SizeTokens(c.size) + k);
      SizeBack(LexNext(t).rest, c.size, k);
  }

  lemma ColAttrBack(t: string, c: ColAttr, k: seq<Lexeme>)
    requires FittingSize(c)
    requires After(t, ColAttrTokens(c) + k).Some?
    ensures ParseColAttr(t).Ok? && ParseColAttr(t).value == c && After(ParseColAttr(t).rest, k).Some?
  {
    hide LexNext, After, ParseDataType, TypeTokens, Take;
    var tail := TypeTokens(c.colType, c.size) + k;
    assert ColAttrTokens(c) + k == [Name(c.name)] + tail;
    First(t, Name(c.name), tail);
    TypeBack(LexNext(t).rest, c, k);
  }

  lemma {:induction false} ColAttrsBack(t: string, xs: seq<ColAttr>, sofar: seq<ColAttr>, k: seq<Lexeme>)
    requires xs != [] && After(t, ColAttrsTokens(xs) + k).Some? && NextNot(k, {COMMAS_T})
    requires forall i :: 0 <= i < |xs| ==> FittingSize(xs[i])
    ensures var r := ParseColAttrs(t, sofar); r.Ok? && r.value == sofar + xs && After(r.rest, k).Some?
    decreases |xs|
  {
    hide LexNext, After, NextNot, ParseColAttr, ColAttrTokens, ColAttrsTokens, Take, FittingSize;
    ColAttrsSplit(xs, k);
    if |xs| == 1 {
      ColAttrBack(t, xs[0], k);
      NotTaken(ParseColAttr(t).rest, k, COMMAS_T);
      assert sofar + [xs[0]] == sofar + xs;
    } else {
      var k1 := ColAttrsTokens(xs[1..]) + k;
      var k2 := [Word(COMMAS_T)] + k1;
      ColAttrBack(t, xs[0], k2);
      First(ParseColAttr(t).rest, Word(COMMAS_T), k1);
      ColAttrsBack(LexNext(ParseColAttr(t).rest).rest, xs[1..], sofar + [xs[0]], k);
      assert sofar + [xs[0]] + xs[1..] == sofar + xs;
    }
  }

  lemma LastAttrBack(t: string, a: RelAttr, sofar: seq<RelAttr>, k: seq<Lexeme>)
    requires After(t, AttrTokens(a) + k).Some? && NextNot(k, {DOT_T, COMMAS_T})
    ensures var r := ParseAttrs(t, sofar); r.Ok? && r.value == sofar + [a] && After(r.rest, k).Some?
  {
    hide LexNext, After, NextNot, ParseAttrAfter, AttrTokens, Take, ParseAttrs;
    AttrsHere(t, sofar);
    Fewer(k, {DOT_T}, {DOT_T, COMMAS_T});
    Fewer(k, {COMMAS_T}, {DOT_T, COMMAS_T});
    AttrBack(t, a, k);
    NotTaken(ParseAttrAfter(LexNext(t).rest, LexNext(t).lexeme.content.s).rest, k, COMMAS_T);
  }

  /** An attribute and its comma: the text the loop goes on with. */
  lemma NextAttrBack(t: string, a: RelAttr, sofar: seq<RelAttr>, k: seq<Lexeme>) returns (r: string)
    requires After(t, AttrTokens(a) + ([Word(COMMAS_T)] + k)).Some?
    ensures After(r, k).Some? && ParseAttrs(t, sofar) == ParseAttrs(r, sofar + [a])
  {
    hide LexNext, After, NextNot, ParseAttrAfter, AttrTokens, Take, ParseAttrs;
    AttrsHere(t, sofar);
    CommaNext(k);
    AttrBack(t, a, [Word(COMMAS_T)] + k);
    var u := ParseAttrAfter(LexNext(t).rest, LexNext(t).lexeme.content.s).rest;
    First(u, Word(COMMAS_T), k);
    r := LexNext(u).rest;
  }

  lemma {:induction false} AttrsBack(t: string, xs: seq<RelAttr>, sofar: seq<RelAttr>, k: seq<Lexeme>)
    requires xs != [] && STAR !in xs
    requires After(t, AttrsTokens(xs) + k).Some? && NextNot(k, {DOT_T, COMMAS_T})
    ensures var r := ParseAttrs(t, sofar); r.Ok? && r.value == sofar + xs && After(r.rest, k).Some?
    decreases |xs|
  {
    hide After, NextNot, AttrTokens, AttrsTokens, ParseAttrs;
    assert xs != [STAR] by { assert xs[0] in xs; }
    AttrsSplit(xs, k);
    if |xs| == 1 {
      LastAttrBack(t, xs[0], sofar, k);
      assert sofar + [xs[0]] == sofar + xs;
    } else {
      var r := NextAttrBack(t, xs[0], sofar, AttrsTokens(xs[1..]) + k);
      AttrsBack(r, xs[1..], sofar + [xs[0]], k);
      assert sofar + [xs[0]] + xs[1..] == sofar + xs;
    }
  }

  lemma StarBack(t: string, k: seq<Lexeme>)
    requires After(t, AttrsTokens([STAR]) + k).Some?
    ensures var r := ParseAttrs(t, []); r.Ok? && r.value == [STAR] && After(r.rest, k).Some?
  {
    hide LexNext, After, ParseAttrAfter, AttrTokens;
    assert AttrsTokens([STAR]) == [Word(STAR_T)];
    First(t, Word(STAR_T), k);
  }
}
