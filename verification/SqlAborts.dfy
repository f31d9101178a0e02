/** The texts on which the SQL parser runs into an assertion. */
module SqlAborts {
  import opened Decimals
  import opened Options
  import opened SqlLexer
  import opened SqlSpelling
  import opened SqlSyntax
  import opened SqlTokens
  import opened SqlRoundTrip
  import opened SqlGrammar
  import Expressions

  /** A value can start with this token. */
  predicate StartsValue(token: Token)
  {
    token in {ID_T, FLOAT_T, INTEGER_T, STRING_T, NULL_T}
  }

  /** The left side of a condition and its operator. */
  datatype Half = Half(left: Value, op: CondOp)

  /** The beginning of a statement, up to a place where a value is to come. */
  datatype Opening =
    | SelectWhere(attrs: seq<RelAttr>, tables: seq<string>, conds: seq<Condition>, half: Option<Half>)
    | DeleteWhere(tables: seq<string>, conds: seq<Condition>, half: Option<Half>)
    | InsertValues(table: string, cols: seq<string>, values: seq<Value>)

  predicate IsOperator(op: CondOp)
  {
    op != Expressions.UNDEFINED && op != Expressions.IS_NOT
  }

  predicate GoodOpening(o: Opening)
  {
    match o
    case SelectWhere(attrs, tables, conds, half) =>
      GoodAttrs(attrs) && GoodNames(tables) && OperatorsOf(conds) && (half.Some? ==> IsOperator(half.value.op))
    case DeleteWhere(tables, conds, half) =>
      GoodNames(tables) && OperatorsOf(conds) && (half.Some? ==> IsOperator(half.value.op))
    case InsertValues(table, cols, values) =>
      IsName(table) && (cols == [] || GoodNames(cols)) && NoAttrs(values)
  }

  predicate OperatorsOf(conds: seq<Condition>)
  {
    forall i :: 0 <= i < |conds| ==> IsOperator(conds[i].op)
  }

  predicate NoAttrs(values: seq<Value>)
  {
    forall i :: 0 <= i < |values| ==> !values[i].AttrValue?
  }

  function HalfTokens(half: Option<Half>): seq<Lexeme>
  {
    if half.None? then [] else ValueTokens(half.value.left) + [Word(OpToken(half.value.op))]
  }

  /** Conditions, each with a comma after it. */
  function ConditionsOpen(conds: seq<Condition>): seq<Lexeme>
  {
    if conds == [] then [] else ConditionTokens(conds[0]) + ([Word(COMMAS_T)] + ConditionsOpen(conds[1..]))
  }

  function ValuesOpen(values: seq<Value>): seq<Lexeme>
  {
    if values == [] then [] else ValueTokens(values[0]) + ([Word(COMMAS_T)] + ValuesOpen(values[1..]))
  }

  /** FROM, tables, WHERE, conditions and perhaps half a condition, then `l`. */
  function WhereOpen(tables: seq<string>, conds: seq<Condition>, half: Option<Half>, l: Lexeme): seq<Lexeme>
  {
    [Word(FROM_T)] + (NamesTokens(tables) + ([Word(WHERE_T)] + (ConditionsOpen(conds) + (HalfTokens(half) + [l]))))
  }

  /** The opening's lexemes and then `l`. */
  function OpeningTokens(o: Opening, l: Lexeme): seq<Lexeme>
  {
    match o
    case SelectWhere(attrs, tables, conds, half) =>
      [Word(SELECT_T)] + (AttrsTokens(attrs) + WhereOpen(tables, conds, half, l))
    case DeleteWhere(tables, conds, half) => [Word(DELETE_T)] + WhereOpen(tables, conds, half, l)
    case InsertValues(table, cols, values) =>
      [Word(INSERT_T)] + ([Word(INTO_T)] + ([Name(table)] + (InsertColsTokens(cols)
      + ([Word(LBRACE_T)] + (ValuesOpen(values) + [l])))))
  }

  /** The text begins with the opening, and goes on with a lexeme no value starts with. */
  predicate Offends(t: string, o: Opening, l: Lexeme)
  {
    GoodOpening(o) && !StartsValue(l.token) && After(t, OpeningTokens(o, l)).Some?
  }

  // ---------------------------------------------------------------- such a text aborts

  /** A value aborts exactly on a token none starts with. */
  lemma ValueAbortsIff(t: string)
    ensures ParseValue(t) == Aborted <==> LexNext(t).ok && !StartsValue(LexNext(t).lexeme.token)
  {
    hide LexNext, ParseAttrAfter;
  }

  lemma ValueStops(t: string, l: Lexeme)
    requires After(t, [l]).Some? && !StartsValue(l.token)
    ensures ParseValue(t) == Aborted
  {
    hide LexNext, After, ParseValue, StartsValue;
    assert [l] == [l] + [];
    First(t, l, []);
    ValueAbortsIff(t);
  }

  lemma ConditionStops(t: string, half: Option<Half>, l: Lexeme)
    requires half.Some? ==> IsOperator(half.value.op)
    requires After(t, HalfTokens(half) + [l]).Some? && !StartsValue(l.token)
    ensures ParseCondition(t) == Aborted
  {
    hide LexNext, After, ParseValue, StartsValue, ValueTokens;
    if half.None? {
      assert [] + [l] == [l];
      ValueStops(t, l);
    } else {
      var h := half.value;
      var k := [Word(OpToken(h.op))] + [l];
      assert HalfTokens(half) + [l] == ValueTokens(h.left) + k;
      OpNotDot(h.op, [l]);
      ValueBack(t, h.left, k);
      First(ParseValue(t).rest, Word(OpToken(h.op)), [l]);
      ValueStops(LexNext(ParseValue(t).rest).rest, l);
    }
  }

  lemma {:induction false} ConditionsStop(t: string, sofar: seq<Condition>, conds: seq<Condition>,
                                          half: Option<Half>, l: Lexeme)
    requires OperatorsOf(conds) && (half.Some? ==> IsOperator(half.value.op)) && !StartsValue(l.token)
    requires After(t, ConditionsOpen(conds) + (HalfTokens(half) + [l])).Some?
    ensures ParseConditions(t, sofar) == Aborted
    decreases |conds|
  {
    hide LexNext, After, ParseCondition, StartsValue, ConditionTokens, HalfTokens, NextNot;
    var end := HalfTokens(half) + [l];
    if conds == [] {
      assert [] + end == end;
      ConditionStops(t, half, l);
    } else {
      var k := ConditionsOpen(conds[1..]) + end;
      Group(ConditionTokens(conds[0]), Word(COMMAS_T), ConditionsOpen(conds[1..]), end);
      CommaNext(k);
      ConditionBack(t, conds[0], [Word(COMMAS_T)] + k);
      var u := ParseCondition(t).rest;
      First(u, Word(COMMAS_T), k);
      ConditionsStop(LexNext(u).rest, sofar + [conds[0]], conds[1..], half, l);
    }
  }

  lemma {:induction false} ValuesStop(t: string, sofar: seq<Value>, values: seq<Value>, l: Lexeme)
    requires NoAttrs(values) && !StartsValue(l.token) && After(t, ValuesOpen(values) + [l]).Some?
    ensures ParseValues(t, sofar) == Aborted
    decreases |values|
  {
    hide LexNext, After, ParseValue, StartsValue, ValueTokens, NextNot;
    if values == [] {
      assert [] + [l] == [l];
      ValueStops(t, l);
    } else {
      var k := ValuesOpen(values[1..]) + [l];
      Group(ValueTokens(values[0]), Word(COMMAS_T), ValuesOpen(values[1..]), [l]);
      CommaNext(k);
      ValueBack(t, values[0], [Word(COMMAS_T)] + k);
      var u := ParseValue(t).rest;
      First(u, Word(COMMAS_T), k);
      ValuesStop(LexNext(u).rest, sofar + [values[0]], values[1..], l);
    }
  }

  /** FROM, tables and WHERE are read, and the conditions abort. */
  lemma WhereStops(t: string, tables: seq<string>, conds: seq<Condition>, half: Option<Half>, l: Lexeme)
    requires GoodNames(tables) && OperatorsOf(conds) && (half.Some? ==> IsOperator(half.value.op))
    requires !StartsValue(l.token) && After(t, WhereOpen(tables, conds, half, l)).Some?
    ensures ParseFrom(t).Ok? && LexNext(ParseFrom(t).rest).lexeme.token == WHERE_T
    ensures ParseConds(ParseFrom(t).rest) == Aborted
  {
    hide LexNext, After, ParseFrom, ParseConditions, StartsValue, ConditionsOpen, HalfTokens, NextNot;
    hide NamesTokens, GoodNames;
    var k := ConditionsOpen(conds) + (HalfTokens(half) + [l]);
    WhereWord(k);
    FromBack(t, tables, [Word(WHERE_T)] + k);
    var u := ParseFrom(t).rest;
    First(u, Word(WHERE_T), k);
    ConditionsStop(LexNext(u).rest, [], conds, half, l);
  }

  lemma WhereWord(k: seq<Lexeme>)
    ensures NextNot([Word(WHERE_T)] + k, {COMMAS_T})
  {}

  lemma FromAfter(tables: seq<string>, conds: seq<Condition>, half: Option<Half>, l: Lexeme)
    ensures NextNot(WhereOpen(tables, conds, half, l), {DOT_T, COMMAS_T})
    ensures NextNot(WhereOpen(tables, conds, half, l), {STAR_T})
  {
    hide NamesTokens, ConditionsOpen, HalfTokens;
  }

  lemma SelectStops(t: string, o: Opening, l: Lexeme)
    requires o.SelectWhere? && Offends(t, o, l)
    ensures Parse(t) == Aborted
  {
    hide LexNext, After, ParseAttrs, ParseFrom, ParseConds, StartsValue, NextNot, WhereOpen, AttrsTokens;
    hide GoodAttrs, GoodNames, OperatorsOf;
    var k := WhereOpen(o.tables, o.conds, o.half, l);
    First(t, Word(SELECT_T), AttrsTokens(o.attrs) + k);
    FromAfter(o.tables, o.conds, o.half, l);
    SelectListBack(LexNext(t).rest, o.attrs, k);
    WhereStops(ParseAttrs(LexNext(t).rest, []).rest, o.tables, o.conds, o.half, l);
  }

  lemma DeleteStops(t: string, o: Opening, l: Lexeme)
    requires o.DeleteWhere? && Offends(t, o, l)
    ensures Parse(t) == Aborted
  {
    hide LexNext, After, ParseFrom, ParseConds, StartsValue, NextNot, WhereOpen, GoodNames, OperatorsOf;
    var k := WhereOpen(o.tables, o.conds, o.half, l);
    First(t, Word(DELETE_T), k);
    FromAfter(o.tables, o.conds, o.half, l);
    NotTaken(LexNext(t).rest, k, STAR_T);
    WhereStops(LexNext(t).rest, o.tables, o.conds, o.half, l);
  }

  lemma InsertStops(t: string, o: Opening, l: Lexeme)
    requires o.InsertValues? && Offends(t, o, l)
    ensures Parse(t) == Aborted
  {
    hide LexNext, After, ParseInsertCols, ParseValues, StartsValue, ParseHead, InsertColsTokens, ValuesOpen;
    hide GoodNames, NoAttrs, IsName, Take;
    var k2 := ValuesOpen(o.values) + [l];
    var k1 := [Word(LBRACE_T)] + k2;
    HeadBack(t, INSERT_T, INTO_T, o.table, InsertColsTokens(o.cols) + k1);
    var t1 := ParseHead(t, INSERT_T, INTO_T).rest;
    InsertColsBack(t1, o.cols, k1);
    var t2 := ParseInsertCols(t1).rest;
    First(t2, Word(LBRACE_T), k2);
    ValuesStop(LexNext(t2).rest, [], o.values, l);
  }

  // ---------------------------------------------------------------- and no other text does

  lemma NameNotEmpty(s: string)
    requires IsName(s)
    ensures s != ""
  {
    hide Keyword, Upper;
  }

  lemma AttrRead(t: string, k: seq<Lexeme>)
    requires LexNext(t).lexeme.token == ID_T
    requires ParseAttrAfter(LexNext(t).rest, LexNext(t).lexeme.content.s).Ok?
    ensures var r := ParseAttrAfter(LexNext(t).rest, LexNext(t).lexeme.content.s);
      After(t, AttrTokens(r.value) + k) == After(r.rest, k)
  {
    hide LexNext, After, IsName, Take;
    NameFound(t);
    var l := LexNext(t).lexeme;
    NameNotEmpty(l.content.s);
    var u := LexNext(t).rest;
    var dot := Take(u, DOT_T);
    if dot.Ok? {
      var second := Take(dot.rest, ID_T);
      var k1 := [Name(second.value.s)] + k;
      assert AttrTokens(RelAttr(l.content.s, second.value.s)) + k == [l] + ([Word(DOT_T)] + k1);
      StepOver(t, l, [Word(DOT_T)] + k1);
      StepTaken(u, DOT_T, k1);
      StepTaken(dot.rest, ID_T, k);
    } else {
      StepOver(t, l, k);
    }
  }

  lemma ValueRead(t: string, k: seq<Lexeme>)
    requires ParseValue(t).Ok?
    ensures After(t, ValueTokens(ParseValue(t).value) + k) == After(ParseValue(t).rest, k)
  {
    hide LexNext, After, ParseAttrAfter, AttrTokens;
    if LexNext(t).lexeme.token == ID_T {
      AttrRead(t, k);
    } else {
      StepOver(t, LexNext(t).lexeme, k);
    }
  }

  lemma OperatorRead(t: string, k: seq<Lexeme>)
    requires LexNext(t).ok && TokenToOp(LexNext(t).lexeme.token) != Expressions.UNDEFINED
    ensures var op := TokenToOp(LexNext(t).lexeme.token);
      IsOperator(op) && After(t, [Word(OpToken(op))] + k) == After(LexNext(t).rest, k)
  {
    hide LexNext, After;
    StepOver(t, LexNext(t).lexeme, k);
  }

  lemma ConditionRead(t: string, k: seq<Lexeme>)
    requires ParseCondition(t).Ok?
    ensures var c := ParseCondition(t).value;
      IsOperator(c.op) && After(t, ConditionTokens(c) + k) == After(ParseCondition(t).rest, k)
  {
    hide LexNext, After, ParseValue, ValueTokens, TokenToOp, OpToken, IsOperator;
    var c := ParseCondition(t).value;
    var k1 := ValueTokens(c.right) + k;
    var k2 := [Word(OpToken(c.op))] + k1;
    assert ConditionTokens(c) + k == ValueTokens(c.left) + k2;
    ValueRead(t, k2);
    var u := ParseValue(t).rest;
    OperatorRead(u, k1);
    ValueRead(LexNext(u).rest, k);
  }

  /** The lexeme at which a value aborts. */
  lemma ValueAbort(t: string)
    requires ParseValue(t) == Aborted
    ensures !StartsValue(LexNext(t).lexeme.token) && After(t, [LexNext(t).lexeme]).Some?
  {
    ValueAbortsIff(t);
    hide LexNext, ParseValue, StartsValue;
    assert [LexNext(t).lexeme] == [LexNext(t).lexeme] + [];
    StepOver(t, LexNext(t).lexeme, []);
  }

  lemma ConditionAbort(t: string) returns (half: Option<Half>, l: Lexeme)
    requires ParseCondition(t) == Aborted
    ensures half.Some? ==> IsOperator(half.value.op)
    ensures !StartsValue(l.token) && After(t, HalfTokens(half) + [l]).Some?
  {
    hide LexNext, After, ParseValue, ValueTokens, TokenToOp, OpToken, IsOperator, StartsValue;
    var left := ParseValue(t);
    if left.Aborted? {
      ValueAbort(t);
      half, l := None, LexNext(t).lexeme;
      assert [] + [l] == [l];
    } else {
      var s := LexNext(left.rest);
      var op := TokenToOp(s.lexeme.token);
      ValueAbort(s.rest);
      half, l := Some(Half(left.value, op)), LexNext(s.rest).lexeme;
      var k := [Word(OpToken(op))] + [l];
      assert HalfTokens(half) + [l] == ValueTokens(left.value) + k;
      ValueRead(t, k);
      OperatorRead(left.rest, [l]);
    }
  }

  lemma {:induction false} ConditionsAbort(t: string, sofar: seq<Condition>)
    returns (conds: seq<Condition>, half: Option<Half>, l: Lexeme)
    requires ParseConditions(t, sofar) == Aborted
    ensures OperatorsOf(conds) && (half.Some? ==> IsOperator(half.value.op)) && !StartsValue(l.token)
    ensures After(t, ConditionsOpen(conds) + (HalfTokens(half) + [l])).Some?
    decreases |t|
  {
    hide LexNext, After, ParseCondition, StartsValue, ConditionTokens, HalfTokens, IsOperator, Take;
    var c := ParseCondition(t);
    if c.Aborted? {
      half, l := ConditionAbort(t);
      conds := [];
      assert [] + (HalfTokens(half) + [l]) == HalfTokens(half) + [l];
    } else {
      var comma := Take(c.rest, COMMAS_T);
      var more;
      more, half, l := ConditionsAbort(comma.rest, sofar + [c.value]);
      conds := [c.value] + more;
      var end := HalfTokens(half) + [l];
      var k := ConditionsOpen(more) + end;
      assert conds[1..] == more;
      Group(ConditionTokens(c.value), Word(COMMAS_T), ConditionsOpen(more), end);
      ConditionRead(t, [Word(COMMAS_T)] + k);
      StepTaken(c.rest, COMMAS_T, k);
    }
  }

  lemma {:induction false} ValuesAbort(t: string, sofar: seq<Value>) returns (values: seq<Value>, l: Lexeme)
    requires ParseValues(t, sofar) == Aborted
    ensures NoAttrs(values) && !StartsValue(l.token) && After(t, ValuesOpen(values) + [l]).Some?
    decreases |t|
  {
    hide LexNext, After, ParseValue, StartsValue, ValueTokens, Take;
    var v := ParseValue(t);
    if v.Aborted? {
      ValueAbort(t);
      values, l := [], LexNext(t).lexeme;
      assert [] + [l] == [l];
    } else {
      var comma := Take(v.rest, COMMAS_T);
      var more;
      more, l := ValuesAbort(comma.rest, sofar + [v.value]);
      values := [v.value] + more;
      var k := ValuesOpen(more) + [l];
      assert values[1..] == more;
      Group(ValueTokens(v.value), Word(COMMAS_T), ValuesOpen(more), [l]);
      ValueRead(t, [Word(COMMAS_T)] + k);
      StepTaken(v.rest, COMMAS_T, k);
    }
  }

  // ---------------------------------------------------------------- what comes before

  lemma {:induction false} NamesRead(t: string, sofar: seq<string>, k: seq<Lexeme>) returns (xs: seq<string>)
    requires ParseNames(t, sofar).Ok?
    ensures ParseNames(t, sofar).value == sofar + xs && xs != []
    ensures After(t, NamesTokens(xs) + k) == After(ParseNames(t, sofar).rest, k)
    decreases |t|
  {
    hide LexNext, After, Take, NamesTokens;
    var n := Take(t, ID_T);
    var name := n.value.s;
    var comma := Take(n.rest, COMMAS_T);
    if comma.Ok? {
      var more := NamesRead(comma.rest, sofar + [name], k);
      xs := [name] + more;
      assert xs[1..] == more;
      NamesSplit(xs, k);
      StepTaken(t, ID_T, [Word(COMMAS_T)] + (NamesTokens(more) + k));
      StepTaken(n.rest, COMMAS_T, NamesTokens(more) + k);
    } else {
      xs := [name];
      NamesSplit(xs, k);
      StepTaken(t, ID_T, k);
    }
  }

  lemma {:induction false} AttrsRead(t: string, sofar: seq<RelAttr>, k: seq<Lexeme>) returns (xs: seq<RelAttr>)
    requires ParseAttrs(t, sofar).Ok? && LexNext(t).lexeme.token != STAR_T
    ensures ParseAttrs(t, sofar).value == sofar + xs && xs != []
    ensures forall i :: 0 <= i < |xs| ==> GoodAttr(xs[i])
    ensures After(t, AttrsTokens(xs) + k) == After(ParseAttrs(t, sofar).rest, k)
    decreases |t|
  {
    hide LexNext, After, Take, AttrsTokens, ParseAttrAfter, AttrTokens, ParseAttrs, GoodAttr, IsName;
    AttrsHere(t, sofar);
    NameFound(t);
    AttrFound(LexNext(t).rest, LexNext(t).lexeme.content.s);
    var a := ParseAttrAfter(LexNext(t).rest, LexNext(t).lexeme.content.s);
    var comma := Take(a.rest, COMMAS_T);
    if comma.Ok? {
      NoStarAfter(comma.rest, sofar + [a.value]);
      var more := AttrsRead(comma.rest, sofar + [a.value], k);
      xs := [a.value] + more;
      assert xs[1..] == more;
      AttrsSplit(xs, k);
      AttrRead(t, [Word(COMMAS_T)] + (AttrsTokens(more) + k));
      StepTaken(a.rest, COMMAS_T, AttrsTokens(more) + k);
    } else {
      xs := [a.value];
      StarIsNoName(a.value);
      AttrsSplit(xs, k);
      AttrRead(t, k);
    }
  }

  lemma NoStarAfter(t: string, sofar: seq<RelAttr>)
    requires sofar != [] && ParseAttrs(t, sofar).Ok?
    ensures LexNext(t).lexeme.token != STAR_T
  {
    hide LexNext, ParseAttrAfter;
  }

  lemma SelectListRead(t: string, k: seq<Lexeme>)
    requires ParseAttrs(t, []).Ok?
    ensures GoodAttrs(ParseAttrs(t, []).value)
    ensures After(t, AttrsTokens(ParseAttrs(t, []).value) + k) == After(ParseAttrs(t, []).rest, k)
  {
    hide LexNext, After, ParseAttrs, AttrsTokens, GoodAttr;
    AttrsHere(t, []);
    if LexNext(t).lexeme.token == STAR_T {
      StarTokens();
      StepOver(t, Word(STAR_T), k);
    } else {
      var xs := AttrsRead(t, [], k);
      assert [] + xs == xs;
    }
  }

  lemma StarTokens()
    ensures AttrsTokens([STAR]) == [Word(STAR_T)]
  {}

  lemma FromRead(t: string, k: seq<Lexeme>)
    requires ParseFrom(t).Ok?
    ensures GoodNames(ParseFrom(t).value)
    ensures After(t, [Word(FROM_T)] + (NamesTokens(ParseFrom(t).value) + k)) == After(ParseFrom(t).rest, k)
  {
    hide LexNext, After, ParseNames, NamesTokens, GoodNames, Take;
    FromFound(t);
    var u := Take(t, FROM_T).rest;
    var xs := NamesRead(u, [], k);
    assert [] + xs == xs;
    StepTaken(t, FROM_T, NamesTokens(xs) + k);
  }

  lemma HeadRead(t: string, first: Token, second: Token, k: seq<Lexeme>)
    requires {first, second} !! {BAD_EXPR, ID_T, STRING_T, INTEGER_T, FLOAT_T} && ParseHead(t, first, second).Ok?
    ensures IsName(ParseHead(t, first, second).value)
    ensures var r := ParseHead(t, first, second);
      After(t, [Word(first)] + ([Word(second)] + ([Name(r.value)] + k))) == After(r.rest, k)
  {
    hide LexNext, After, Take, IsName;
    var t1 := Take(t, first).rest;
    var t2 := Take(t1, second).rest;
    var k2 := [Name(ParseHead(t, first, second).value)] + k;
    StepTaken(t, first, [Word(second)] + k2);
    StepTaken(t1, second, k2);
    StepTaken(t2, ID_T, k);
  }

  lemma InsertColsRead(t: string, k: seq<Lexeme>)
    requires ParseInsertCols(t).Ok?
    ensures ParseInsertCols(t).value == [] || GoodNames(ParseInsertCols(t).value)
    ensures After(t, InsertColsTokens(ParseInsertCols(t).value) + k) == After(ParseInsertCols(t).rest, k)
  {
    hide LexNext, After, ParseNames, NamesTokens, GoodNames, Take;
    InsertColsFound(t);
    var u := LexNext(t).rest;
    if LexNext(t).lexeme.token == VALUES_T {
      StepOver(t, Word(VALUES_T), k);
    } else {
      var k2 := [Word(VALUES_T)] + k;
      var k1 := [Word(RBRACE_T)] + k2;
      var xs := NamesRead(u, [], k1);
      assert [] + xs == xs;
      assert InsertColsTokens(xs) + k == [Word(LBRACE_T)] + (NamesTokens(xs) + k1);
      StepOver(t, Word(LBRACE_T), NamesTokens(xs) + k1);
      var end := ParseNames(u, []).rest;
      StepTaken(end, RBRACE_T, k2);
      StepTaken(Take(end, RBRACE_T).rest, VALUES_T, k);
    }
  }

  // ---------------------------------------------------------------- where a statement aborts

  lemma WhereAbort(t: string) returns (conds: seq<Condition>, half: Option<Half>, l: Lexeme)
    requires ParseFrom(t).Ok? && ParseConds(ParseFrom(t).rest) == Aborted
    ensures GoodNames(ParseFrom(t).value) && OperatorsOf(conds) && (half.Some? ==> IsOperator(half.value.op))
    ensures !StartsValue(l.token) && After(t, WhereOpen(ParseFrom(t).value, conds, half, l)).Some?
  {
    hide LexNext, After, ParseFrom, ParseConditions, StartsValue, ConditionsOpen, HalfTokens, NamesTokens;
    hide GoodNames, IsOperator, OperatorsOf;
    var u := ParseFrom(t).rest;
    conds, half, l := ConditionsAbort(LexNext(u).rest, []);
    var k := ConditionsOpen(conds) + (HalfTokens(half) + [l]);
    StepOver(u, Word(WHERE_T), k);
    FromRead(t, [Word(WHERE_T)] + k);
  }

  lemma SelectAbort(t: string) returns (o: Opening, l: Lexeme)
    requires LexNext(t).lexeme.token == SELECT_T && ParseSelect(t) == Aborted
    ensures Offends(t, o, l)
  {
    hide LexNext, After, ParseAttrs, ParseFrom, ParseConds, StartsValue, WhereOpen, AttrsTokens;
    hide GoodAttrs, GoodNames, OperatorsOf, IsOperator;
    var u := LexNext(t).rest;
    var attrs := ParseAttrs(u, []);
    var conds, half, k;
    conds, half, l := WhereAbort(attrs.rest);
    o := SelectWhere(attrs.value, ParseFrom(attrs.rest).value, conds, half);
    k := WhereOpen(o.tables, conds, half, l);
    SelectListRead(u, k);
    StepOver(t, Word(SELECT_T), AttrsTokens(attrs.value) + k);
  }

  lemma DeleteAbort(t: string) returns (o: Opening, l: Lexeme)
    requires LexNext(t).lexeme.token == DELETE_T && ParseDelete(t) == Aborted
    ensures Offends(t, o, l)
  {
    hide LexNext, After, ParseFrom, StartsValue, WhereOpen, GoodNames, OperatorsOf, IsOperator;
    var u := LexNext(t).rest;
    StarredDelete(t);
    var conds, half;
    conds, half, l := WhereAbort(u);
    o := DeleteWhere(ParseFrom(u).value, conds, half);
    StepOver(t, Word(DELETE_T), WhereOpen(o.tables, conds, half, l));
  }

  /** A DELETE with a star reads no conditions. */
  lemma StarredDelete(t: string)
    requires LexNext(t).lexeme.token == DELETE_T && ParseDelete(t) == Aborted
    ensures !Take(LexNext(t).rest, STAR_T).Ok?
    ensures ParseFrom(LexNext(t).rest).Ok? && ParseConds(ParseFrom(LexNext(t).rest).rest) == Aborted
  {
    hide LexNext, ParseFrom, ParseConditions;
  }

  lemma InsertAbort(t: string) returns (o: Opening, l: Lexeme)
    requires ParseInsert(t) == Aborted
    ensures Offends(t, o, l)
  {
    hide LexNext, After, ParseInsertCols, ParseValues, StartsValue, ParseHead, InsertColsTokens, ValuesOpen;
    hide GoodNames, NoAttrs, IsName, Take;
    var head := ParseHead(t, INSERT_T, INTO_T);
    var cols := ParseInsertCols(head.rest);
    var u := Take(cols.rest, LBRACE_T).rest;
    var values;
    values, l := ValuesAbort(u, []);
    o := InsertValues(head.value, cols.value, values);
    var k2 := ValuesOpen(values) + [l];
    var k1 := [Word(LBRACE_T)] + k2;
    HeadRead(t, INSERT_T, INTO_T, InsertColsTokens(cols.value) + k1);
    InsertColsRead(head.rest, k1);
    StepTaken(cols.rest, LBRACE_T, k2);
  }

  lemma AbortFound(t: string) returns (o: Opening, l: Lexeme)
    requires Parse(t) == Aborted
    ensures Offends(t, o, l)
  {
    hide LexNext, ParseSelect, ParseInsert, ParseCreate, ParseDelete, ParseDrop, Offends;
    NeverAborts(t);
    match LexNext(t).lexeme.token
    case SELECT_T => o, l := SelectAbort(t);
    case DELETE_T => o, l := DeleteAbort(t);
    case INSERT_T => o, l := InsertAbort(t);
    case _ => assert false;
  }

  lemma NeverAborts(t: string)
    ensures ParseCreate(t) != Aborted && ParseDrop(t) != Aborted
  {
    hide LexNext, ParseColAttrs, ParseHead, TakeTwo;
  }

  /** The parser runs into an assertion on exactly the texts that begin as a SELECT, DELETE or INSERT up to
      a place for a value, and go on with a lexeme that no value starts with. */
  lemma AbortsIff(t: string)
    ensures Parse(t) == Aborted <==> exists o: Opening, l: Lexeme :: Offends(t, o, l)
  {
    hide Parse, Offends;
    if Parse(t) == Aborted {
      var o, l := AbortFound(t);
    }
    if o: Opening, l: Lexeme :| Offends(t, o, l) {
      OffendingAborts(t, o, l);
    }
  }

  lemma OffendingAborts(t: string, o: Opening, l: Lexeme)
    requires Offends(t, o, l)
    ensures Parse(t) == Aborted
  {
    hide Parse, Offends;
    match o
    case SelectWhere(_, _, _, _) => SelectStops(t, o, l);
    case DeleteWhere(_, _, _) => DeleteStops(t, o, l);
    case InsertValues(_, _, _) => InsertStops(t, o, l);
  }
}
