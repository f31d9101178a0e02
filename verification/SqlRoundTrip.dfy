/** Statements written as SQL and parsed again. */
module SqlRoundTrip {
  import opened Decimals
  import opened Options
  import opened SqlLexer
  import opened SqlSpelling
  import opened SqlSyntax
  import opened SqlTokens
  import Expressions

  // ---------------------------------------------------------------- parsing a statement's lexemes

  lemma WhereBack(t: string, conds: seq<Condition>, k: seq<Lexeme>)
    requires GoodConditions(conds) && After(t, WhereTokens(conds) + k).Some?
    ensures ParseConds(t).Ok? && ParseConds(t).value == conds
    ensures After(ParseConds(t).rest, (if conds == [] then [] else [Word(COLON_T)]) + k).Some?
  {
    hide LexNext, After, ParseConditions, ConditionsTokens, GoodValue;
    if conds == [] {
      First(t, Word(COLON_T), k);
      assert [] + k == k;
    } else {
      var k1 := [Word(COLON_T)] + k;
      assert WhereTokens(conds) + k == [Word(WHERE_T)] + (ConditionsTokens(conds) + k1);
      First(t, Word(WHERE_T), ConditionsTokens(conds) + k1);
      ConditionsBack(LexNext(t).rest, conds, [], k1);
      assert [] + conds == conds;
    }
  }

  /** FROM, tables and the conditions after them. */
  lemma FromBack(t: string, tables: seq<string>, k: seq<Lexeme>)
    requires GoodNames(tables) && NextNot(k, {COMMAS_T})
    requires After(t, [Word(FROM_T)] + (NamesTokens(tables) + k)).Some?
    ensures ParseFrom(t).Ok? && ParseFrom(t).value == tables
    ensures After(ParseFrom(t).rest, k) == After(t, [Word(FROM_T)] + (NamesTokens(tables) + k))
  {
    hide LexNext, After, ParseNames, NamesTokens, NextNot, Take, IsName;
    First(t, Word(FROM_T), NamesTokens(tables) + k);
    NamesBack(LexNext(t).rest, tables, [], k);
    assert [] + tables == tables;
  }

  lemma WhereNext(conds: seq<Condition>, k: seq<Lexeme>)
    ensures NextNot(WhereTokens(conds) + k, {COMMAS_T, DOT_T, STAR_T})
    ensures Next(WhereTokens(conds) + k, if conds == [] then COLON_T else WHERE_T)
  {
    hide ConditionsTokens;
  }

  lemma StarIsNoName(a: RelAttr)
    requires GoodAttr(a)
    ensures a != STAR
  {
    hide Keyword, Upper;
    assert a.attribute[0] != '*';
  }

  lemma SelectListBack(t: string, attrs: seq<RelAttr>, k: seq<Lexeme>)
    requires GoodAttrs(attrs) && After(t, AttrsTokens(attrs) + k).Some? && NextNot(k, {DOT_T, COMMAS_T})
    ensures ParseAttrs(t, []).Ok? && ParseAttrs(t, []).value == attrs
    ensures After(ParseAttrs(t, []).rest, k).Some?
  {
    hide LexNext, After, ParseAttrs, AttrsTokens, NextNot, IsWordChar;
    if attrs == [STAR] {
      StarBack(t, k);
    } else {
      forall i | 0 <= i < |attrs|
        ensures attrs[i] != STAR
      {
        StarIsNoName(attrs[i]);
      }
      AttrsBack(t, attrs, [], k);
      assert [] + attrs == attrs;
    }
  }

  lemma SelectBack(t: string, s: Statement)
    requires s.Select? && Good(s) && After(t, StatementTokens(s)).Some?
    ensures LexNext(t).lexeme.token == SELECT_T && ParseSelect(t).Ok? && ParseSelect(t).value == s
  {
    hide LexNext, After, ParseAttrs, ParseFrom, ParseConds, Take, NextNot;
    hide AttrsTokens, NamesTokens, WhereTokens, GoodAttrs, GoodNames, GoodConditions;
    var k2 := WhereTokens(s.conds) + [];
    assert k2 == WhereTokens(s.conds);
    var k1 := [Word(FROM_T)] + (NamesTokens(s.tables) + k2);
    First(t, Word(SELECT_T), AttrsTokens(s.attrs) + k1);
    FromNext(NamesTokens(s.tables) + k2);
    SelectListBack(LexNext(t).rest, s.attrs, k1);
    WhereNext(s.conds, []);
    Fewer(k2, {COMMAS_T}, {COMMAS_T, DOT_T, STAR_T});
    FromBack(ParseAttrs(LexNext(t).rest, []).rest, s.tables, k2);
    WhereBack(ParseFrom(ParseAttrs(LexNext(t).rest, []).rest).rest, s.conds, []);
  }

  lemma FromNext(k: seq<Lexeme>)
    ensures NextNot([Word(FROM_T)] + k, {DOT_T, COMMAS_T})
    ensures NextNot([Word(FROM_T)] + k, {STAR_T})
  {}

  lemma EndBack(t: string)
    requires After(t, CLOSING).Some?
    ensures TakeTwo(t, RBRACE_T, COLON_T).Ok?
  {
    hide LexNext, After, TakeTwo;
    assert CLOSING == [Word(RBRACE_T)] + ([Word(COLON_T)] + []);
    FirstTwo(t, RBRACE_T, Word(COLON_T), []);
  }

  lemma ClosingNext()
    ensures NextNot(CLOSING, {DOT_T, COMMAS_T}) && NextNot(CLOSING, {COMMAS_T})
  {}

  lemma InsertColsBack(t: string, cols: seq<string>, k: seq<Lexeme>)
    requires cols == [] || GoodNames(cols)
    requires After(t, InsertColsTokens(cols) + k).Some?
    ensures ParseInsertCols(t).Ok? && ParseInsertCols(t).value == cols
    ensures After(ParseInsertCols(t).rest, k).Some?
  {
    hide LexNext, After, ParseNames, NamesTokens, NextNot, Take, TakeTwo, IsName;
    if cols == [] {
      First(t, Word(VALUES_T), k);
    } else {
      var k2 := [Word(VALUES_T)] + k;
      var k1 := [Word(RBRACE_T)] + k2;
      assert InsertColsTokens(cols) + k == [Word(LBRACE_T)] + (NamesTokens(cols) + k1);
      First(t, Word(LBRACE_T), NamesTokens(cols) + k1);
      BraceNext(k2);
      NamesBack(LexNext(t).rest, cols, [], k1);
      assert [] + cols == cols;
      FirstTwo(ParseNames(LexNext(t).rest, []).rest, RBRACE_T, Word(VALUES_T), k);
    }
  }

  lemma BraceNext(k: seq<Lexeme>)
    ensures NextNot([Word(RBRACE_T)] + k, {COMMAS_T})
  {}

  lemma HeadBack(t: string, first: Token, second: Token, table: string, k: seq<Lexeme>)
    requires first != BAD_EXPR && second != BAD_EXPR
    requires After(t, [Word(first)] + ([Word(second)] + ([Name(table)] + k))).Some?
    ensures LexNext(t).lexeme.token == first
    ensures var r := ParseHead(t, first, second); r.Ok? && r.value == table && After(r.rest, k).Some?
  {
    hide LexNext, After, Take, TakeTwo;
    FirstTwo(t, first, Word(second), [Name(table)] + k);
    First(TakeTwo(t, first, second).rest, Name(table), k);
  }

  lemma InsertBack(t: string, s: Statement)
    requires s.Insert? && Good(s) && After(t, StatementTokens(s)).Some?
    ensures LexNext(t).lexeme.token == INSERT_T && ParseInsert(t).Ok? && ParseInsert(t).value == s
  {
    hide LexNext, After, ParseInsertCols, ParseValues, TakeTwo, Take, NextNot, IsName, ParseHead;
    hide InsertColsTokens, ValuesTokens, GoodValue, GoodNames;
    var k2 := ValuesTokens(s.values) + CLOSING;
    var k1 := [Word(LBRACE_T)] + k2;
    HeadBack(t, INSERT_T, INTO_T, s.table, InsertColsTokens(s.cols) + k1);
    var t1 := ParseHead(t, INSERT_T, INTO_T).rest;
    InsertColsBack(t1, s.cols, k1);
    var t2 := ParseInsertCols(t1).rest;
    First(t2, Word(LBRACE_T), k2);
    ClosingNext();
    ValuesBack(LexNext(t2).rest, s.values, [], CLOSING);
    assert [] + s.values == s.values;
    EndBack(ParseValues(LexNext(t2).rest, []).rest);
  }

  lemma CreateBack(t: string, s: Statement)
    requires s.CreateTable? && Good(s) && After(t, StatementTokens(s)).Some?
    ensures LexNext(t).lexeme.token == CREATE_T && ParseCreate(t).Ok? && ParseCreate(t).value == s
  {
    hide LexNext, After, ParseColAttrs, TakeTwo, Take, NextNot, IsName, ColAttrsTokens, FittingSize, ParseHead;
    var k := ColAttrsTokens(s.colAttrs) + CLOSING;
    HeadBack(t, CREATE_T, TABLE_T, s.table, [Word(LBRACE_T)] + k);
    var t1 := ParseHead(t, CREATE_T, TABLE_T).rest;
    First(t1, Word(LBRACE_T), k);
    ClosingNext();
    ColAttrsBack(LexNext(t1).rest, s.colAttrs, [], CLOSING);
    assert [] + s.colAttrs == s.colAttrs;
    EndBack(ParseColAttrs(LexNext(t1).rest, []).rest);
  }

  lemma DeleteEndBack(t: string, tables: seq<string>, conds: seq<Condition>)
    requires GoodConditions(conds)
    requires After(t, WhereTokens(conds) + if conds == [] then [Word(COLON_T)] else []).Some?
    ensures var r := ParseDeleteEnd(t, false, tables); r.Ok? && r.value == Delete(tables, conds)
  {
    hide LexNext, After, ParseConds, Take, WhereTokens, GoodConditions;
    var k := if conds == [] then [Word(COLON_T)] else [];
    WhereBack(t, conds, k);
    assert (if conds == [] then [] else [Word(COLON_T)]) + k == [Word(COLON_T)] + [];
    First(ParseConds(t).rest, Word(COLON_T), []);
  }

  lemma DeleteBack(t: string, s: Statement)
    requires s.Delete? && Good(s) && After(t, StatementTokens(s)).Some?
    ensures LexNext(t).lexeme.token == DELETE_T && ParseDelete(t).Ok? && ParseDelete(t).value == s
  {
    hide LexNext, After, ParseFrom, ParseDeleteEnd, Take, NextNot;
    hide NamesTokens, WhereTokens, GoodNames, GoodConditions;
    var k3 := if s.conds == [] then [Word(COLON_T)] else [];
    var k2 := WhereTokens(s.conds) + k3;
    var k1 := [Word(FROM_T)] + (NamesTokens(s.tables) + k2);
    First(t, Word(DELETE_T), k1);
    var t1 := LexNext(t).rest;
    FromNext(NamesTokens(s.tables) + k2);
    NotTaken(t1, k1, STAR_T);
    WhereNext(s.conds, k3);
    Fewer(k2, {COMMAS_T}, {COMMAS_T, DOT_T, STAR_T});
    FromBack(t1, s.tables, k2);
    DeleteEndBack(ParseFrom(t1).rest, s.tables, s.conds);
  }

  lemma DropBack(t: string, s: Statement)
    requires s.Drop? && Good(s) && After(t, StatementTokens(s)).Some?
    ensures LexNext(t).lexeme.token == DROP_T && ParseDrop(t).Ok? && ParseDrop(t).value == s
  {
    hide LexNext, After, IsName;
    assert [Word(COLON_T)] == [Word(COLON_T)] + [];
    First(t, Word(DROP_T), [Word(TABLE_T)] + ([Name(s.table)] + [Word(COLON_T)]));
    var t1 := LexNext(t).rest;
    First(t1, Word(TABLE_T), [Name(s.table)] + [Word(COLON_T)]);
    var t2 := LexNext(t1).rest;
    First(t2, Name(s.table), [Word(COLON_T)]);
    First(LexNext(t2).rest, Word(COLON_T), []);
  }

  /** Any text that lexes to a statement's lexemes is parsed to that statement. */
  lemma StatementBack(t: string, s: Statement)
    requires Good(s) && After(t, StatementTokens(s)).Some?
    ensures Parse(t).Ok? && Parse(t).value == s
  {
    hide LexNext, After, StatementTokens, Good;
    hide ParseSelect, ParseInsert, ParseCreate, ParseDelete, ParseDrop;
    match s
    case Select(_, _, _) => SelectBack(t, s);
    case Insert(_, _, _) => InsertBack(t, s);
    case CreateTable(_, _) => CreateBack(t, s);
    case Delete(_, _) => DeleteBack(t, s);
    case Drop(_) => DropBack(t, s);
  }

  // ---------------------------------------------------------------- writing a statement

  function Render(s: Statement): string
  {
    SpellAll(StatementTokens(s))
  }

  lemma Both(a: seq<Lexeme>, b: seq<Lexeme>)
    requires AllSpellable(a) && AllSpellable(b)
    ensures AllSpellable(a + b)
  {
    hide Spellable;
  }

  lemma One(l: Lexeme)
    requires Spellable(l)
    ensures AllSpellable([l])
  {
    hide Spellable;
  }

  lemma WordSpellable(token: Token)
    requires token !in {ID_T, STRING_T, INTEGER_T, FLOAT_T, BAD_EXPR}
    ensures AllSpellable([Word(token)])
  {}

  lemma WordThen(token: Token, k: seq<Lexeme>)
    requires token !in {ID_T, STRING_T, INTEGER_T, FLOAT_T, BAD_EXPR} && AllSpellable(k)
    ensures AllSpellable([Word(token)] + k)
  {
    hide AllSpellable;
    WordSpellable(token);
    Both([Word(token)], k);
  }

  lemma NameThen(s: string, k: seq<Lexeme>)
    requires IsName(s) && AllSpellable(k)
    ensures AllSpellable([Name(s)]) && AllSpellable([Name(s)] + k)
  {
    hide AllSpellable, IsName;
    One(Name(s));
    Both([Name(s)], k);
  }

  lemma AttrSpellable(a: RelAttr)
    requires GoodAttr(a)
    ensures AllSpellable(AttrTokens(a))
  {
    hide AllSpellable, IsName;
    One(Name(a.attribute));
    if a.table != "" {
      WordThen(DOT_T, [Name(a.attribute)]);
      NameThen(a.table, [Word(DOT_T)] + [Name(a.attribute)]);
      assert AttrTokens(a) == [Name(a.table)] + ([Word(DOT_T)] + [Name(a.attribute)]);
    }
  }

  lemma {:induction false} AttrsSpellable(attrs: seq<RelAttr>)
    requires GoodAttrs(attrs)
    ensures AllSpellable(AttrsTokens(attrs))
  {
    hide AllSpellable, IsName, AttrTokens;
    if attrs == [STAR] {
      WordSpellable(STAR_T);
    } else {
      AttrSpellable(attrs[0]);
      if |attrs| > 1 {
        AttrsSpellable(attrs[1..]);
        WordThen(COMMAS_T, AttrsTokens(attrs[1..]));
        Both(AttrTokens(attrs[0]), [Word(COMMAS_T)] + AttrsTokens(attrs[1..]));
      } else {
        assert AttrTokens(attrs[0]) + [] == AttrTokens(attrs[0]);
      }
    }
  }

  lemma {:induction false} NamesSpellable(names: seq<string>)
    requires GoodNames(names)
    ensures AllSpellable(NamesTokens(names))
  {
    hide AllSpellable, IsName;
    if |names| > 1 {
      NamesSpellable(names[1..]);
      WordThen(COMMAS_T, NamesTokens(names[1..]));
      NameThen(names[0], [Word(COMMAS_T)] + NamesTokens(names[1..]));
    } else {
      One(Name(names[0]));
      assert [Name(names[0])] + [] == [Name(names[0])];
    }
  }

  lemma ValueSpellable(v: Value)
    requires GoodValue(v)
    ensures AllSpellable(ValueTokens(v))
  {
    hide IsName, AttrTokens, GoodAttr;
    if v.AttrValue? {
      AttrSpellable(v.attr);
    }
  }

  lemma ConditionSpellable(c: Condition)
    requires GoodCondition(c)
    ensures AllSpellable(ConditionTokens(c))
  {
    hide AllSpellable, ValueTokens, GoodValue;
    ValueSpellable(c.left);
    ValueSpellable(c.right);
    WordThen(OpToken(c.op), ValueTokens(c.right));
    Both(ValueTokens(c.left), [Word(OpToken(c.op))] + ValueTokens(c.right));
  }

  lemma {:induction false} ConditionsSpellable(conds: seq<Condition>)
    requires conds != [] && GoodConditions(conds)
    ensures AllSpellable(ConditionsTokens(conds))
  {
    hide AllSpellable, ConditionTokens, GoodCondition;
    ConditionSpellable(conds[0]);
    if |conds| > 1 {
      ConditionsSpellable(conds[1..]);
      WordThen(COMMAS_T, ConditionsTokens(conds[1..]));
      Both(ConditionTokens(conds[0]), [Word(COMMAS_T)] + ConditionsTokens(conds[1..]));
    } else {
      assert ConditionTokens(conds[0]) + [] == ConditionTokens(conds[0]);
    }
  }

  lemma {:induction false} ValuesSpellable(values: seq<Value>)
    requires GoodValues(values)
    ensures AllSpellable(ValuesTokens(values))
  {
    hide AllSpellable, ValueTokens, GoodValue;
    ValueSpellable(values[0]);
    if |values| > 1 {
      ValuesSpellable(values[1..]);
      WordThen(COMMAS_T, ValuesTokens(values[1..]));
      Both(ValueTokens(values[0]), [Word(COMMAS_T)] + ValuesTokens(values[1..]));
    } else {
      assert ValueTokens(values[0]) + [] == ValueTokens(values[0]);
    }
  }

  lemma TypeSpellable(colType: SqlType, size: nat)
    ensures AllSpellable(TypeTokens(colType, size))
  {
    hide ToLong;
  }

  lemma ColAttrSpellable(c: ColAttr)
    requires GoodColAttr(c)
    ensures AllSpellable(ColAttrTokens(c))
  {
    hide AllSpellable, IsName, TypeTokens;
    TypeSpellable(c.colType, c.size);
    NameThen(c.name, TypeTokens(c.colType, c.size));
  }

  lemma {:induction false} ColAttrsSpellable(cols: seq<ColAttr>)
    requires GoodColAttrs(cols)
    ensures AllSpellable(ColAttrsTokens(cols))
  {
    hide AllSpellable, ColAttrTokens, GoodColAttr;
    ColAttrSpellable(cols[0]);
    if |cols| > 1 {
      ColAttrsSpellable(cols[1..]);
      WordThen(COMMAS_T, ColAttrsTokens(cols[1..]));
      Both(ColAttrTokens(cols[0]), [Word(COMMAS_T)] + ColAttrsTokens(cols[1..]));
    } else {
      assert ColAttrTokens(cols[0]) + [] == ColAttrTokens(cols[0]);
    }
  }

  lemma WhereSpellable(conds: seq<Condition>)
    requires GoodConditions(conds)
    ensures AllSpellable(WhereTokens(conds))
  {
    hide AllSpellable, ConditionsTokens, GoodConditions;
    WordSpellable(COLON_T);
    if conds != [] {
      ConditionsSpellable(conds);
      Both(ConditionsTokens(conds), [Word(COLON_T)]);
      WordThen(WHERE_T, ConditionsTokens(conds) + [Word(COLON_T)]);
    }
  }

  lemma ClosingSpellable()
    ensures AllSpellable(CLOSING)
  {}

  lemma InsertColsSpellable(cols: seq<string>)
    requires cols == [] || GoodNames(cols)
    ensures AllSpellable(InsertColsTokens(cols))
  {
    hide AllSpellable, NamesTokens, GoodNames;
    WordSpellable(VALUES_T);
    if cols != [] {
      NamesSpellable(cols);
      WordThen(RBRACE_T, [Word(VALUES_T)]);
      assert [Word(RBRACE_T)] + [Word(VALUES_T)] == [Word(RBRACE_T), Word(VALUES_T)];
      Both(NamesTokens(cols), [Word(RBRACE_T), Word(VALUES_T)]);
      WordThen(LBRACE_T, NamesTokens(cols) + [Word(RBRACE_T), Word(VALUES_T)]);
    }
  }

  lemma SelectSpellable(s: Statement)
    requires s.Select? && Good(s)
    ensures AllSpellable(StatementTokens(s))
  {
    hide AllSpellable, NamesTokens, AttrsTokens, WhereTokens, GoodNames, GoodAttrs, GoodConditions;
    WhereSpellable(s.conds);
    NamesSpellable(s.tables);
    Both(NamesTokens(s.tables), WhereTokens(s.conds));
    WordThen(FROM_T, NamesTokens(s.tables) + WhereTokens(s.conds));
    AttrsSpellable(s.attrs);
    Both(AttrsTokens(s.attrs), [Word(FROM_T)] + (NamesTokens(s.tables) + WhereTokens(s.conds)));
    WordThen(SELECT_T,
             AttrsTokens(s.attrs) + ([Word(FROM_T)] + (NamesTokens(s.tables) + WhereTokens(s.conds))));
  }

  lemma InsertSpellable(s: Statement)
    requires s.Insert? && Good(s)
    ensures AllSpellable(StatementTokens(s))
  {
    hide AllSpellable, InsertColsTokens, ValuesTokens, GoodNames, GoodValues, IsName;
    ClosingSpellable();
    ValuesSpellable(s.values);
    var k1 := ValuesTokens(s.values) + CLOSING;
    Both(ValuesTokens(s.values), CLOSING);
    WordThen(LBRACE_T, k1);
    InsertColsSpellable(s.cols);
    var k2 := InsertColsTokens(s.cols) + ([Word(LBRACE_T)] + k1);
    Both(InsertColsTokens(s.cols), [Word(LBRACE_T)] + k1);
    NameThen(s.table, k2);
    WordThen(INTO_T, [Name(s.table)] + k2);
    WordThen(INSERT_T, [Word(INTO_T)] + ([Name(s.table)] + k2));
  }

  lemma CreateSpellable(s: Statement)
    requires s.CreateTable? && Good(s)
    ensures AllSpellable(StatementTokens(s))
  {
    hide AllSpellable, ColAttrsTokens, GoodColAttrs, IsName;
    ClosingSpellable();
    ColAttrsSpellable(s.colAttrs);
    var k := ColAttrsTokens(s.colAttrs) + CLOSING;
    Both(ColAttrsTokens(s.colAttrs), CLOSING);
    WordThen(LBRACE_T, k);
    NameThen(s.table, [Word(LBRACE_T)] + k);
    WordThen(TABLE_T, [Name(s.table)] + ([Word(LBRACE_T)] + k));
    WordThen(CREATE_T, [Word(TABLE_T)] + ([Name(s.table)] + ([Word(LBRACE_T)] + k)));
  }

  lemma DeleteSpellable(s: Statement)
    requires s.Delete? && Good(s)
    ensures AllSpellable(StatementTokens(s))
  {
    hide NamesTokens, WhereTokens, GoodNames, GoodConditions, Spellable;
    WhereSpellable(s.conds);
    WordSpellable(COLON_T);
    var k0 := if s.conds == [] then [Word(COLON_T)] else [];
    var k := WhereTokens(s.conds) + k0;
    Both(WhereTokens(s.conds), k0);
    NamesSpellable(s.tables);
    Both(NamesTokens(s.tables), k);
    hide AllSpellable;
    WordThen(FROM_T, NamesTokens(s.tables) + k);
    WordThen(DELETE_T, [Word(FROM_T)] + (NamesTokens(s.tables) + k));
  }

  lemma DropSpellable(s: Statement)
    requires s.Drop? && Good(s)
    ensures AllSpellable(StatementTokens(s))
  {
    hide AllSpellable, IsName;
    WordSpellable(COLON_T);
    NameThen(s.table, [Word(COLON_T)]);
    WordThen(TABLE_T, [Name(s.table)] + [Word(COLON_T)]);
    WordThen(DROP_T, [Word(TABLE_T)] + ([Name(s.table)] + [Word(COLON_T)]));
  }

  /** A statement of the grammar, written out, is parsed to itself. */
  lemma RenderBack(s: Statement)
    requires Good(s)
    ensures Parse(Render(s)).Ok? && Parse(Render(s)).value == s
  {
    hide Parse, After, SpellAll, StatementTokens, Good, AllSpellable;
    match s {
      case Select(_, _, _) => SelectSpellable(s);
      case Insert(_, _, _) => InsertSpellable(s);
      case CreateTable(_, _) => CreateSpellable(s);
      case Delete(_, _) => DeleteSpellable(s);
      case Drop(_) => DropSpellable(s);
    }
    SpellAllBack(StatementTokens(s));
    StatementBack(Render(s), s);
  }
}
