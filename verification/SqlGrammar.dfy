/** What the SQL parser can give: the statements that can be written, and no others. */
module SqlGrammar {
  import opened Decimals
  import opened Options
  import opened SqlLexer
  import opened SqlSpelling
  import opened SqlSyntax
  import opened SqlTokens
  import opened SqlRoundTrip
  import Expressions

  predicate NoFloats(values: seq<Value>)
  {
    forall i :: 0 <= i < |values| ==> !values[i].FloatValue?
  }

  predicate NoFloatConditions(conds: seq<Condition>)
  {
    forall i :: 0 <= i < |conds| ==> !conds[i].left.FloatValue? && !conds[i].right.FloatValue?
  }

  predicate FloatFree(s: Statement)
  {
    match s
    case Select(_, _, conds) => NoFloatConditions(conds)
    case Insert(_, _, values) => NoFloats(values)
    case Delete(_, conds) => NoFloatConditions(conds)
    case _ => true
  }

  lemma NameFound(t: string)
    requires LexNext(t).lexeme.token == ID_T
    ensures IsName(LexNext(t).lexeme.content.s)
  {
    hide LexNext, IsName;
    FoundSpellable(t);
  }

  lemma AttrFound(t: string, first: string)
    requires IsName(first) && ParseAttrAfter(t, first).Ok?
    ensures GoodAttr(ParseAttrAfter(t, first).value)
  {
    hide LexNext, IsName;
    var dot := LexNext(t);
    if Take(t, DOT_T).Ok? {
      NameFound(dot.rest);
    }
  }

  lemma {:induction false} AttrsFound(t: string, sofar: seq<RelAttr>)
    requires forall i :: 0 <= i < |sofar| ==> GoodAttr(sofar[i])
    requires ParseAttrs(t, sofar).Ok?
    ensures GoodAttrs(ParseAttrs(t, sofar).value)
    decreases |t|
  {
    hide LexNext, IsName, ParseAttrAfter, GoodAttr;
    var s := LexNext(t);
    if s.lexeme.token == ID_T {
      NameFound(t);
      AttrFound(s.rest, s.lexeme.content.s);
      var a := ParseAttrAfter(s.rest, s.lexeme.content.s);
      var comma := Take(a.rest, COMMAS_T);
      if comma.Ok? {
        AttrsFound(comma.rest, sofar + [a.value]);
      }
    }
  }

  lemma {:induction false} NamesFound(t: string, sofar: seq<string>)
    requires forall i :: 0 <= i < |sofar| ==> IsName(sofar[i])
    requires ParseNames(t, sofar).Ok?
    ensures GoodNames(ParseNames(t, sofar).value)
    decreases |t|
  {
    hide LexNext, IsName;
    NameFound(t);
    var n := Take(t, ID_T);
    var comma := Take(n.rest, COMMAS_T);
    if comma.Ok? {
      NamesFound(comma.rest, sofar + [n.value.s]);
    }
  }

  lemma ValueFound(t: string)
    requires ParseValue(t).Ok? && !ParseValue(t).value.FloatValue?
    ensures GoodValue(ParseValue(t).value)
  {
    hide LexNext, IsName, IsQuotable, ParseAttrAfter, GoodAttr;
    FoundSpellable(t);
    var s := LexNext(t);
    if s.lexeme.token == ID_T {
      AttrFound(s.rest, s.lexeme.content.s);
    }
  }

  lemma ConditionFound(t: string)
    requires ParseCondition(t).Ok?
    requires !ParseCondition(t).value.left.FloatValue? && !ParseCondition(t).value.right.FloatValue?
    ensures GoodCondition(ParseCondition(t).value)
  {
    hide LexNext, ParseValue, GoodValue;
    ValueFound(t);
    ValueFound(LexNext(ParseValue(t).rest).rest);
  }

  /** The conditions read so far are the first of the result. */
  lemma {:induction false} ConditionsGrow(t: string, sofar: seq<Condition>)
    requires ParseConditions(t, sofar).Ok?
    ensures sofar < ParseConditions(t, sofar).value
    decreases |t|
  {
    hide LexNext, ParseCondition;
    var c := ParseCondition(t);
    var comma := Take(c.rest, COMMAS_T);
    if comma.Ok? {
      ConditionsGrow(comma.rest, sofar + [c.value]);
    }
  }

  lemma {:induction false} ConditionsFound(t: string, sofar: seq<Condition>)
    requires GoodConditions(sofar) && ParseConditions(t, sofar).Ok?
    requires NoFloatConditions(ParseConditions(t, sofar).value)
    ensures GoodConditions(ParseConditions(t, sofar).value)
    decreases |t|
  {
    hide LexNext, ParseCondition, GoodCondition, Take;
    var c := ParseCondition(t);
    var conds := sofar + [c.value];
    var comma := Take(c.rest, COMMAS_T);
    if comma.Ok? {
      ConditionsGrow(comma.rest, conds);
    }
    assert ParseConditions(t, sofar).value[|sofar|] == c.value;
    ConditionFound(t);
    if comma.Ok? {
      ConditionsFound(comma.rest, conds);
    }
  }

  lemma CondsFound(t: string)
    requires ParseConds(t).Ok? && NoFloatConditions(ParseConds(t).value)
    ensures GoodConditions(ParseConds(t).value)
  {
    hide LexNext, ParseConditions, GoodCondition;
    if LexNext(t).lexeme.token == WHERE_T {
      ConditionsFound(LexNext(t).rest, []);
    }
  }

  lemma {:induction false} ValuesGrow(t: string, sofar: seq<Value>)
    requires ParseValues(t, sofar).Ok?
    ensures sofar < ParseValues(t, sofar).value
    decreases |t|
  {
    hide LexNext, ParseValue;
    var v := ParseValue(t);
    var comma := Take(v.rest, COMMAS_T);
    if comma.Ok? {
      ValuesGrow(comma.rest, sofar + [v.value]);
    }
  }

  lemma {:induction false} ValuesFound(t: string, sofar: seq<Value>)
    requires forall i :: 0 <= i < |sofar| ==> GoodValue(sofar[i]) && !sofar[i].AttrValue?
    requires ParseValues(t, sofar).Ok? && NoFloats(ParseValues(t, sofar).value)
    ensures GoodValues(ParseValues(t, sofar).value)
    decreases |t|
  {
    hide LexNext, ParseValue, GoodValue, Take;
    var v := ParseValue(t);
    var values := sofar + [v.value];
    var comma := Take(v.rest, COMMAS_T);
    if comma.Ok? {
      ValuesGrow(comma.rest, values);
    }
    assert ParseValues(t, sofar).value[|sofar|] == v.value;
    ValueFound(t);
    if comma.Ok? {
      ValuesFound(comma.rest, values);
    }
  }

  lemma TypeFound(t: string)
    requires ParseDataType(t).Ok?
    ensures var kind := ParseDataType(t).value; FittingSize(ColAttr("", kind.0, kind.1))
  {
    hide LexNext, TakeTwo;
  }

  lemma ColAttrFound(t: string)
    requires ParseColAttr(t).Ok?
    ensures GoodColAttr(ParseColAttr(t).value)
  {
    hide LexNext, IsName, ParseDataType;
    NameFound(t);
    TypeFound(LexNext(t).rest);
  }

  lemma {:induction false} ColAttrsFound(t: string, sofar: seq<ColAttr>)
    requires forall i :: 0 <= i < |sofar| ==> GoodColAttr(sofar[i])
    requires ParseColAttrs(t, sofar).Ok?
    ensures GoodColAttrs(ParseColAttrs(t, sofar).value)
    decreases |t|
  {
    hide LexNext, GoodColAttr, ParseColAttr;
    ColAttrFound(t);
    var c := ParseColAttr(t);
    var comma := Take(c.rest, COMMAS_T);
    if comma.Ok? {
      ColAttrsFound(comma.rest, sofar + [c.value]);
    }
  }

  // ---------------------------------------------------------------- statements

  lemma FromFound(t: string)
    requires ParseFrom(t).Ok?
    ensures GoodNames(ParseFrom(t).value)
  {
    hide LexNext, ParseNames, GoodNames;
    NamesFound(LexNext(t).rest, []);
  }

  lemma SelectFound(t: string)
    requires ParseSelect(t).Ok? && FloatFree(ParseSelect(t).value)
    ensures Good(ParseSelect(t).value)
  {
    hide ParseAttrs, ParseFrom, ParseConds, Take, GoodAttrs, GoodNames, GoodConditions, NoFloatConditions;
    var start := Take(t, SELECT_T);
    var attrs := ParseAttrs(start.rest, []);
    var tables := ParseFrom(attrs.rest);
    AttrsFound(start.rest, []);
    FromFound(attrs.rest);
    CondsFound(tables.rest);
  }

  lemma InsertColsFound(t: string)
    requires ParseInsertCols(t).Ok?
    ensures ParseInsertCols(t).value == [] || GoodNames(ParseInsertCols(t).value)
  {
    hide LexNext, ParseNames, GoodNames;
    if LexNext(t).lexeme.token == LBRACE_T {
      NamesFound(LexNext(t).rest, []);
    }
  }

  lemma HeadFound(t: string, first: Token, second: Token)
    requires first != BAD_EXPR && second != BAD_EXPR && ParseHead(t, first, second).Ok?
    ensures IsName(ParseHead(t, first, second).value)
  {
    hide LexNext, IsName, TakeTwo;
    NameFound(TakeTwo(t, first, second).rest);
  }

  lemma InsertFound(t: string)
    requires ParseInsert(t).Ok? && FloatFree(ParseInsert(t).value)
    ensures Good(ParseInsert(t).value)
  {
    hide LexNext, ParseInsertCols, ParseValues, TakeTwo, IsName, GoodNames, GoodValues, NoFloats, ParseHead;
    HeadFound(t, INSERT_T, INTO_T);
    var t1 := ParseHead(t, INSERT_T, INTO_T).rest;
    InsertColsFound(t1);
    ValuesFound(LexNext(ParseInsertCols(t1).rest).rest, []);
  }

  lemma CreateFound(t: string)
    requires ParseCreate(t).Ok?
    ensures Good(ParseCreate(t).value)
  {
    hide LexNext, ParseColAttrs, TakeTwo, IsName, GoodColAttrs, ParseHead;
    HeadFound(t, CREATE_T, TABLE_T);
    ColAttrsFound(LexNext(ParseHead(t, CREATE_T, TABLE_T).rest).rest, []);
  }

  lemma DeleteFound(t: string)
    requires ParseDelete(t).Ok? && FloatFree(ParseDelete(t).value)
    ensures Good(ParseDelete(t).value)
  {
    hide LexNext, ParseFrom, ParseConds, Take, GoodNames, GoodConditions, NoFloatConditions;
    var start := Take(t, DELETE_T);
    var star := Take(start.rest, STAR_T);
    var u := if star.Ok? then star.rest else start.rest;
    FromFound(u);
    CondsFound(ParseFrom(u).rest);
  }

  lemma DropFound(t: string)
    requires ParseDrop(t).Ok? && ParseDrop(t).value != UNREAD
    ensures Good(ParseDrop(t).value)
  {
    hide LexNext, IsName;
    var s := LexNext(LexNext(t).rest);
    if s.lexeme.token == TABLE_T && LexNext(s.rest).lexeme.token == ID_T {
      NameFound(s.rest);
    }
  }

  /** Whatever is parsed without floats is a statement of the grammar, or the statement that an ill-formed
      DROP leaves. */
  lemma ParsedIsGood(t: string)
    requires Parse(t).Ok? && FloatFree(Parse(t).value)
    ensures Good(Parse(t).value) || Parse(t).value == UNREAD
  {
    hide LexNext, ParseSelect, ParseInsert, ParseCreate, ParseDelete, ParseDrop, Good, FloatFree;
    match LexNext(t).lexeme.token
    case SELECT_T => SelectFound(t);
    case CREATE_T => CreateFound(t);
    case DELETE_T => DeleteFound(t);
    case INSERT_T => InsertFound(t);
    case DROP_T => if Parse(t).value != UNREAD { DropFound(t); }
    case _ =>
  }

  /** A statement without floats comes back from its text exactly when the grammar has it. */
  lemma RenderIff(s: Statement)
    requires FloatFree(s) && s != UNREAD
    ensures (Parse(Render(s)).Ok? && Parse(Render(s)).value == s) <==> Good(s)
  {
    hide Parse, Render, Good, FloatFree;
    if Good(s) {
      RenderBack(s);
    }
    if Parse(Render(s)).Ok? && Parse(Render(s)).value == s {
      ParsedIsGood(Render(s));
    }
  }

  /** Parsing, writing and parsing again changes nothing. */
  lemma ParseRenderParse(t: string)
    requires Parse(t).Ok? && FloatFree(Parse(t).value) && Parse(t).value != UNREAD
    ensures var s := Parse(t).value; Parse(Render(s)).Ok? && Parse(Render(s)).value == s
  {
    hide Parse, Render, Good, FloatFree;
    ParsedIsGood(t);
    RenderBack(Parse(t).value);
  }

  // ---------------------------------------------------------------- statements the parser gets wrong

  /** The lexeme at the cursor, and what comes after it. */
  lemma StepOver(t: string, l: Lexeme, k: seq<Lexeme>)
    requires LexNext(t).ok && LexNext(t).lexeme == l
    ensures After(t, [l] + k) == After(LexNext(t).rest, k)
  {
    hide LexNext;
    assert ([l] + k)[1..] == k;
  }

  lemma StepTaken(t: string, token: Token, k: seq<Lexeme>)
    requires token != BAD_EXPR && Take(t, token).Ok?
    ensures After(t, [Lexeme(token, Take(t, token).value)] + k) == After(Take(t, token).rest, k)
    ensures token !in {ID_T, STRING_T, INTEGER_T, FLOAT_T} ==> Take(t, token).value == Nothing
    ensures token == ID_T ==> IsName(Take(t, token).value.s)
  {
    hide LexNext, After, IsName;
    StepOver(t, LexNext(t).lexeme, k);
    if token == ID_T {
      NameFound(t);
    }
  }

  /** A DELETE without conditions is accepted exactly when a second semicolon follows. */
  lemma PlainDeleteIff(t: string, tables: seq<string>)
    requires GoodNames(tables)
    requires After(t, PlainDelete(tables)).Some?
    ensures Parse(t).Ok? <==> Take(After(t, PlainDelete(tables)).value, COLON_T).Ok?
  {
    hide LexNext, After, ParseFrom, Take, NextNot, NamesTokens, GoodNames;
    var k2 := [Word(COLON_T)] + [];
    var k1 := [Word(FROM_T)] + (NamesTokens(tables) + k2);
    First(t, Word(DELETE_T), k1);
    var t1 := LexNext(t).rest;
    FromNext(NamesTokens(tables) + k2);
    NotTaken(t1, k1, STAR_T);
    WhereNext([], []);
    Fewer(k2, {COMMAS_T}, {COMMAS_T, DOT_T, STAR_T});
    FromBack(t1, tables, k2);
    First(ParseFrom(t1).rest, Word(COLON_T), []);
    AfterNone(LexNext(ParseFrom(t1).rest).rest);
  }

  function PlainDelete(tables: seq<string>): seq<Lexeme>
  {
    [Word(DELETE_T)] + ([Word(FROM_T)] + (NamesTokens(tables) + ([Word(COLON_T)] + [])))
  }

  lemma AfterNone(t: string)
    ensures After(t, []) == Some(t)
  {}

  /** The parser reports success without a statement exactly for DROP followed by a lexeme other than
      TABLE, or by TABLE and a lexeme other than a name. */
  lemma UnreadIff(t: string)
    ensures Parse(t).Ok? && Parse(t).value == UNREAD <==>
      var u := LexNext(LexNext(t).rest); var n := LexNext(u.rest);
      LexNext(t).lexeme.token == DROP_T && u.ok
      && (u.lexeme.token != TABLE_T || (n.ok && n.lexeme.token != ID_T))
  {
    hide LexNext, ParseAttrs, ParseFrom, ParseConds, ParseHead, ParseColAttrs, ParseInsertCols, ParseValues;
    if LexNext(t).lexeme.token == SELECT_T && ParseSelect(t).Ok? {
      ListNotEmpty(LexNext(t).rest, []);
    }
  }

  lemma {:induction false} ListNotEmpty(t: string, sofar: seq<RelAttr>)
    requires ParseAttrs(t, sofar).Ok?
    ensures ParseAttrs(t, sofar).value != []
    decreases |t|
  {
    hide LexNext, ParseAttrAfter, ParseAttrs, Take;
    AttrsHere(t, sofar);
    if LexNext(t).lexeme.token == ID_T {
      var a := ParseAttrAfter(LexNext(t).rest, LexNext(t).lexeme.content.s);
      var comma := Take(a.rest, COMMAS_T);
      if comma.Ok? {
        ListNotEmpty(comma.rest, sofar + [a.value]);
      }
    }
  }

  /** A DROP statement is what is parsed exactly when DROP, TABLE, its name and a semicolon come. */
  lemma DropIff(t: string, name: string)
    ensures Parse(t).Ok? && Parse(t).value == Drop(name) <==> After(t, DropTokens(name)).Some?
  {
    hide LexNext, After, DropTokens;
    hide ParseSelect, ParseCreate, ParseDelete, ParseInsert, ParseDrop;
    NotADrop(t, name);
    if After(t, DropTokens(name)).Some? {
      DropRead(t, name);
    } else if LexNext(t).lexeme.token == DROP_T && ParseDrop(t).Ok? && ParseDrop(t).value == Drop(name) {
      DropLexemes(t, name);
    }
  }

  lemma NotADrop(t: string, name: string)
    ensures ParseSelect(t).Ok? ==> ParseSelect(t).value != Drop(name)
    ensures ParseInsert(t).Ok? ==> ParseInsert(t).value != Drop(name)
    ensures ParseCreate(t).Ok? ==> ParseCreate(t).value != Drop(name)
    ensures ParseDelete(t).Ok? ==> ParseDelete(t).value != Drop(name)
  {
    hide LexNext, ParseAttrs, ParseFrom, ParseConds, ParseHead, ParseColAttrs, ParseInsertCols, ParseValues;
  }

  function DropTokens(name: string): seq<Lexeme>
  {
    [Word(DROP_T)] + ([Word(TABLE_T)] + ([Name(name)] + [Word(COLON_T)]))
  }

  lemma DropRead(t: string, name: string)
    requires After(t, DropTokens(name)).Some?
    ensures LexNext(t).lexeme.token == DROP_T && ParseDrop(t).Ok? && ParseDrop(t).value == Drop(name)
  {
    hide LexNext, After, IsName, ParseDrop, Take;
    var k2 := [Name(name)] + [Word(COLON_T)];
    First(t, Word(DROP_T), [Word(TABLE_T)] + k2);
    First(LexNext(t).rest, Word(TABLE_T), k2);
    var n := LexNext(LexNext(t).rest).rest;
    First(n, Name(name), [Word(COLON_T)]);
    NameFound(n);
    DropBack(t, Drop(name));
  }

  lemma DropLexemes(t: string, name: string)
    requires LexNext(t).lexeme.token == DROP_T && ParseDrop(t).Ok? && ParseDrop(t).value == Drop(name)
    ensures After(t, DropTokens(name)).Some?
  {
    hide LexNext, After, Take;
    var k2 := [Name(name)] + [Word(COLON_T)];
    var u := Take(t, DROP_T).rest;
    var n := LexNext(u).rest;
    StepTaken(t, DROP_T, [Word(TABLE_T)] + k2);
    StepOver(u, LexNext(u).lexeme, k2);
    StepOver(n, LexNext(n).lexeme, [Word(COLON_T)]);
    StepTaken(LexNext(n).rest, COLON_T, []);
    assert [Word(COLON_T)] + [] == [Word(COLON_T)];
    AfterNone(Take(LexNext(n).rest, COLON_T).rest);
  }

  /** A condition with two-word IS NOT aborts: NOT is taken for the value. */
  lemma IsNotAborts(t: string, v: Value)
    requires After(t, ValueTokens(v) + ([Word(IS_T)] + ([Word(NOT_T)] + []))).Some?
    ensures ParseCondition(t) == Aborted
  {
    hide LexNext, After, ValueTokens;
    var k1 := [Word(NOT_T)] + [];
    var k2 := [Word(IS_T)] + k1;
    OpNotDot(Expressions.IS, k1);
    ValueBack(t, v, k2);
    First(ParseValue(t).rest, Word(IS_T), k1);
    First(LexNext(ParseValue(t).rest).rest, Word(NOT_T), []);
  }
}
