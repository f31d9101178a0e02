/** The SQL parser, driving the lexer. */
module SqlParsers {
  import opened Decimals
  import opened SqlLexer
  import opened SqlSyntax
  import opened SqlLexers
  import Expressions

  /** ABORTED stands for a failed assertion of the source. */
  datatype Rc = SUCCESS | SYNTAX_ERROR | ABORTED

  function Code<T>(o: Outcome<T>): Rc
  {
    match o
    case Ok(_, _) => SUCCESS
    case SyntaxError => SYNTAX_ERROR
    case Aborted => ABORTED
  }

  class Parser {
    const lexer: Lexer
    var query: Statement

    constructor (text: string)
      ensures fresh(lexer) && lexer.input == text && lexer.p == 0 && query == UNREAD
    {
      lexer := new Lexer(text);
      query := UNREAD;
    }

    function Rest(): string
      reads lexer
    {
      lexer.Rest()
    }

    /** The code and, on success, the value and the cursor are those of the specification. */
    ghost predicate Agrees<T>(rc: Rc, v: T, o: Outcome<T>)
      reads lexer
    {
      && rc == Code(o)
      && (rc == SUCCESS ==> o.Ok? && v == o.value && Rest() == o.rest)
    }

    /** Two calls of `next_if`. */
    method TakeTwo(first: Token, second: Token) returns (rc: Rc, content: Content)
      requires first != BAD_EXPR && second != BAD_EXPR
      modifies lexer
      ensures rc == Code(SqlSyntax.TakeTwo(old(Rest()), first, second))
      ensures var r := SqlSyntax.TakeTwo(old(Rest()), first, second);
              r.Ok? ==> Rest() == r.rest && (r.value != Nothing ==> content == r.value)
    {
      hide LexNext, Take, From;
      content := Nothing;
      var ok, tk := lexer.NextIf(first);
      if !ok {
        return SYNTAX_ERROR, content;
      }
      ok, tk := lexer.NextIf(second);
      content := lexer.cur;
      rc := if ok then SUCCESS else SYNTAX_ERROR;
    }

    /** After the first name of the select list's next attribute: a dot and the second, if a dot comes. */
    method ParseSecond(name: string) returns (rc: Rc, attr: RelAttr)
      modifies lexer
      ensures Agrees(rc, attr, ParseAttrAfter(old(Rest()), name))
    {
      hide LexNext;
      var ok, tk := lexer.Peek();
      if tk != DOT_T {
        return SUCCESS, RelAttr("", name);
      }
      ok, tk := lexer.Next();
      ok, tk := lexer.NextIf(ID_T);
      if !ok {
        return SYNTAX_ERROR, RelAttr(name, "");
      }
      attr := RelAttr(name, lexer.cur.s);
      rc := SUCCESS;
    }

    method ParseAttrs() returns (rc: Rc, attrs: seq<RelAttr>)
      modifies lexer
      ensures Agrees(rc, attrs, SqlSyntax.ParseAttrs(old(Rest()), []))
    {
      hide LexNext, SqlSyntax.ParseAttrs, ParseAttrAfter, Take;
      attrs := [];
      while true
        invariant SqlSyntax.ParseAttrs(Rest(), attrs) == SqlSyntax.ParseAttrs(old(Rest()), [])
        decreases |Rest()|
      {
        AttrsHere(Rest(), attrs);
        var ok, tk := lexer.Next();
        if !ok {
          return SYNTAX_ERROR, attrs;
        }
        if tk == STAR_T {
          if |attrs| > 0 {
            return SYNTAX_ERROR, attrs;
          }
          assert attrs + [STAR] == [STAR];
          return SUCCESS, attrs + [STAR];
        }
        if tk != ID_T {
          return SYNTAX_ERROR, attrs;
        }
        var name := lexer.cur.s;
        var attr: RelAttr;
        rc, attr := ParseSecond(name);
        if rc != SUCCESS {
          return SYNTAX_ERROR, attrs;
        }
        attrs := attrs + [attr];
        ok, tk := lexer.NextIf(COMMAS_T);
        if !ok {
          break;
        }
      }
      rc := SUCCESS;
    }

    /** The loop over columns or tables. */
    method ParseNames() returns (rc: Rc, names: seq<string>)
      modifies lexer
      ensures Agrees(rc, names, SqlSyntax.ParseNames(old(Rest()), []))
    {
      hide LexNext, SqlSyntax.ParseNames, Take;
      names := [];
      while true
        invariant SqlSyntax.ParseNames(Rest(), names) == SqlSyntax.ParseNames(old(Rest()), [])
        decreases |Rest()|
      {
        NamesHere(Rest(), names);
        var ok, tk := lexer.NextIf(ID_T);
        if !ok {
          return SYNTAX_ERROR, names;
        }
        names := names + [lexer.cur.s];
        ok, tk := lexer.NextIf(COMMAS_T);
        if !ok {
          break;
        }
      }
      rc := SUCCESS;
    }

    method ParseFrom() returns (rc: Rc, tables: seq<string>)
      modifies lexer
      ensures Agrees(rc, tables, SqlSyntax.ParseFrom(old(Rest())))
    {
      hide LexNext, SqlSyntax.ParseNames;
      var ok, tk := lexer.Next();
      if !ok || tk != FROM_T {
        return SYNTAX_ERROR, [];
      }
      rc, tables := ParseNames();
    }

    /** After the first name of a value. */
    method ParseValueAttr(name: string) returns (rc: Rc, attr: RelAttr)
      modifies lexer
      ensures Agrees(rc, attr, ParseAttrAfter(old(Rest()), name))
    {
      hide LexNext, Take;
      attr := RelAttr(name, "");
      var ok, tk := lexer.NextIf(DOT_T);
      if ok {
        ok, tk := lexer.NextIf(ID_T);
        if !ok {
          return SYNTAX_ERROR, attr;
        }
        attr := RelAttr(name, lexer.cur.s);
      } else {
        attr := RelAttr("", name);
      }
      rc := SUCCESS;
    }

    method ParseValue() returns (rc: Rc, v: Value)
      modifies lexer
      ensures Agrees(rc, v, SqlSyntax.ParseValue(old(Rest())))
    {
      hide LexNext, ParseAttrAfter;
      v := NullValue;
      var ok, tk := lexer.Next();
      if !ok {
        return SYNTAX_ERROR, v;
      }
      if tk == ID_T {
        var attr: RelAttr;
        rc, attr := ParseValueAttr(lexer.cur.s);
        return rc, AttrValue(attr);
      }
      match tk
      case FLOAT_T => return SUCCESS, FloatValue(lexer.cur.negative, lexer.cur.digits);
      case INTEGER_T => return SUCCESS, IntValue(lexer.cur.n);
      case STRING_T => return SUCCESS, StringValue(lexer.cur.s);
      case NULL_T => return SUCCESS, NullValue;
      case _ => return ABORTED, v;
    }

    method ParseCondition() returns (rc: Rc, c: Condition)
      modifies lexer
      ensures Agrees(rc, c, SqlSyntax.ParseCondition(old(Rest())))
    {
      hide LexNext, SqlSyntax.ParseValue;
      var left, right: Value;
      c := Condition(NullValue, Expressions.UNDEFINED, NullValue);
      rc, left := ParseValue();
      if rc != SUCCESS {
        return;
      }
      var ok, tk := lexer.Next();
      if !ok {
        return SYNTAX_ERROR, c;
      }
      var op := TokenToOp(tk);
      if op == Expressions.UNDEFINED {
        return SYNTAX_ERROR, c;
      }
      rc, right := ParseValue();
      c := Condition(left, op, right);
    }

    method ParseConds() returns (rc: Rc, conds: seq<Condition>)
      modifies lexer
      ensures Agrees(rc, conds, SqlSyntax.ParseConds(old(Rest())))
    {
      hide LexNext, SqlSyntax.ParseConditions, SqlSyntax.ParseCondition, Take;
      conds := [];
      var ok, tk := lexer.Next();
      if !ok {
        return SYNTAX_ERROR, conds;
      }
      if tk != WHERE_T {
        return if tk == COLON_T then SUCCESS else SYNTAX_ERROR, conds;
      }
      while true
        invariant Code(SqlSyntax.ParseConds(old(Rest()))) == Code(ParseConditions(Rest(), conds))
        invariant SqlSyntax.ParseConds(old(Rest())) == ParseConditions(Rest(), conds)
        decreases |Rest()|
      {
        ConditionsHere(Rest(), conds);
        var c: Condition;
        rc, c := ParseCondition();
        if rc != SUCCESS {
          return;
        }
        conds := conds + [c];
        ok, tk := lexer.NextIf(COMMAS_T);
        if !ok {
          break;
        }
      }
      rc := SUCCESS;
    }

    method ParseValues() returns (rc: Rc, values: seq<Value>)
      modifies lexer
      ensures Agrees(rc, values, SqlSyntax.ParseValues(old(Rest()), []))
    {
      hide LexNext, SqlSyntax.ParseValues, SqlSyntax.ParseValue, Take;
      values := [];
      while true
        invariant SqlSyntax.ParseValues(Rest(), values) == SqlSyntax.ParseValues(old(Rest()), [])
        decreases |Rest()|
      {
        ValuesHere(Rest(), values);
        var v: Value;
        rc, v := ParseValue();
        if rc != SUCCESS {
          return;
        }
        if v.AttrValue? {
          return SYNTAX_ERROR, values;
        }
        values := values + [v];
        var ok, tk := lexer.NextIf(COMMAS_T);
        if !ok {
          break;
        }
      }
      rc := SUCCESS;
    }

    /** The size in brackets, made a `size_t`. */
    method ParseSize() returns (rc: Rc, size: nat)
      modifies lexer
      ensures Agrees(rc, size, SqlSyntax.ParseSize(old(Rest())))
    {
      hide LexNext, Take, From, SqlSyntax.TakeTwo;
      size := 0;
      var content: Content;
      rc, content := TakeTwo(LBRACE_T, INTEGER_T);
      if rc != SUCCESS {
        return;
      }
      size := content.n % 0x1_0000_0000_0000_0000;
      var ok, tk := lexer.NextIf(RBRACE_T);
      rc := if ok then SUCCESS else SYNTAX_ERROR;
    }

    method ParseDataType() returns (rc: Rc, kind: (SqlType, nat))
      modifies lexer
      ensures Agrees(rc, kind, SqlSyntax.ParseDataType(old(Rest())))
    {
      hide LexNext, Take, SqlSyntax.ParseSize;
      kind := (SqlInt, 0);
      var size: nat;
      var ok, tk := lexer.Next();
      match tk
      case S_INT_T => return SUCCESS, kind;
      case S_FLOAT_T => return SUCCESS, (SqlFloat, 0);
      case S_CHAR_T =>
        rc, size := ParseSize();
        kind := (SqlChar, size);
      case S_VARCHAR_T =>
        rc, size := ParseSize();
        kind := (SqlVarchar, size);
      case _ => return SYNTAX_ERROR, kind;
    }

    method ParseColAttr() returns (rc: Rc, c: ColAttr)
      modifies lexer
      ensures Agrees(rc, c, SqlSyntax.ParseColAttr(old(Rest())))
    {
      hide LexNext, Take, SqlSyntax.ParseDataType;
      c := ColAttr("", SqlInt, 0);
      var ok, tk := lexer.NextIf(ID_T);
      if !ok {
        return SYNTAX_ERROR, c;
      }
      var name := lexer.cur.s;
      var kind: (SqlType, nat);
      rc, kind := ParseDataType();
      c := ColAttr(name, kind.0, kind.1);
    }

    method ParseColAttrs() returns (rc: Rc, cols: seq<ColAttr>)
      modifies lexer
      ensures Agrees(rc, cols, SqlSyntax.ParseColAttrs(old(Rest()), []))
    {
      hide LexNext, SqlSyntax.ParseColAttrs, SqlSyntax.ParseColAttr, Take;
      cols := [];
      while true
        invariant SqlSyntax.ParseColAttrs(Rest(), cols) == SqlSyntax.ParseColAttrs(old(Rest()), [])
        decreases |Rest()|
      {
        ColAttrsHere(Rest(), cols);
        var c: ColAttr;
        rc, c := ParseColAttr();
        if rc != SUCCESS {
          return SYNTAX_ERROR, cols;
        }
        cols := cols + [c];
        var ok, tk := lexer.NextIf(COMMAS_T);
        if !ok {
          break;
        }
      }
      rc := SUCCESS;
    }

    // -------------------------------------------------------------- statements

    method ParseSelect() returns (rc: Rc)
      requires LexNext(Rest()).lexeme.token == SELECT_T
      modifies this, lexer
      ensures rc == Code(SqlSyntax.ParseSelect(old(Rest())))
      ensures rc == SUCCESS ==> query == SqlSyntax.ParseSelect(old(Rest())).value
    {
      hide LexNext, SqlSyntax.ParseAttrs, SqlSyntax.ParseFrom, SqlSyntax.ParseConds;
      var ok, token := lexer.Next();
      query := UNREAD;
      var attrs: seq<RelAttr>;
      rc, attrs := ParseAttrs();
      query := Select(attrs, [], []);
      if rc != SUCCESS {
        return;
      }
      var tables: seq<string>;
      rc, tables := ParseFrom();
      query := Select(attrs, tables, []);
      if rc != SUCCESS {
        return;
      }
      var conds: seq<Condition>;
      rc, conds := ParseConds();
      query := Select(attrs, tables, conds);
    }

    method ParseInsertCols() returns (rc: Rc, cols: seq<string>)
      modifies lexer
      ensures Agrees(rc, cols, SqlSyntax.ParseInsertCols(old(Rest())))
    {
      hide LexNext, SqlSyntax.ParseNames, Take, From, SqlSyntax.TakeTwo;
      cols := [];
      var ok, tk := lexer.Next();
      if tk == VALUES_T {
        return SUCCESS, cols;
      } else if tk != LBRACE_T {
        return SYNTAX_ERROR, cols;
      }
      rc, cols := ParseNames();
      if rc != SUCCESS {
        return;
      }
      var content: Content;
      rc, content := TakeTwo(RBRACE_T, VALUES_T);
    }

    method ParseHead(first: Token, second: Token) returns (rc: Rc, table: string)
      requires first != BAD_EXPR && second != BAD_EXPR
      modifies lexer
      ensures Agrees(rc, table, SqlSyntax.ParseHead(old(Rest()), first, second))
    {
      hide LexNext, Take, From, SqlSyntax.TakeTwo;
      table := "";
      var content: Content;
      rc, content := TakeTwo(first, second);
      if rc != SUCCESS {
        return;
      }
      var ok, tk := lexer.NextIf(ID_T);
      if !ok {
        return SYNTAX_ERROR, table;
      }
      table := lexer.cur.s;
    }

    method ParseInsert() returns (rc: Rc)
      modifies this, lexer
      ensures rc == Code(SqlSyntax.ParseInsert(old(Rest())))
      ensures rc == SUCCESS ==> query == SqlSyntax.ParseInsert(old(Rest())).value
    {
      hide LexNext, Take, From, SqlSyntax.TakeTwo;
      hide SqlSyntax.ParseHead, SqlSyntax.ParseInsertCols, SqlSyntax.ParseValues;
      var table: string, cols: seq<string>, values: seq<Value>;
      rc, table := ParseHead(INSERT_T, INTO_T);
      if rc != SUCCESS {
        return;
      }
      rc, cols := ParseInsertCols();
      if rc != SUCCESS {
        return;
      }
      var ok, tk := lexer.NextIf(LBRACE_T);
      if !ok {
        return SYNTAX_ERROR;
      }
      rc, values := ParseValues();
      if rc != SUCCESS {
        return;
      }
      var content: Content;
      rc, content := TakeTwo(RBRACE_T, COLON_T);
      if rc == SUCCESS {
        query := Insert(table, cols, values);
      }
    }

    method ParseCreate() returns (rc: Rc)
      modifies this, lexer
      ensures rc == Code(SqlSyntax.ParseCreate(old(Rest())))
      ensures rc == SUCCESS ==> query == SqlSyntax.ParseCreate(old(Rest())).value
    {
      hide LexNext, Take, From, SqlSyntax.ParseHead, SqlSyntax.ParseColAttrs, SqlSyntax.TakeTwo;
      var table: string, cols: seq<ColAttr>;
      rc, table := ParseHead(CREATE_T, TABLE_T);
      if rc != SUCCESS {
        return;
      }
      var ok, tk := lexer.NextIf(LBRACE_T);
      if !ok {
        return SYNTAX_ERROR;
      }
      rc, cols := ParseColAttrs();
      if rc != SUCCESS {
        return;
      }
      var content: Content;
      rc, content := TakeTwo(RBRACE_T, COLON_T);
      if rc == SUCCESS {
        query := CreateTable(table, cols);
      }
    }

    method ParseDeleteEnd(star: bool, tables: seq<string>) returns (rc: Rc)
      modifies this, lexer
      ensures rc == Code(SqlSyntax.ParseDeleteEnd(old(Rest()), star, tables))
      ensures rc == SUCCESS ==> query == SqlSyntax.ParseDeleteEnd(old(Rest()), star, tables).value
    {
      hide LexNext, Take, From, SqlSyntax.ParseConds;
      var ok, tk := lexer.Peek();
      if tk == WHERE_T && star {
        return SYNTAX_ERROR;
      }
      var conds: seq<Condition>;
      rc, conds := ParseConds();
      if rc != SUCCESS {
        return;
      }
      ok, tk := lexer.NextIf(COLON_T);
      query := Delete(tables, conds);
      rc := if ok then SUCCESS else SYNTAX_ERROR;
    }

    method ParseDelete() returns (rc: Rc)
      modifies this, lexer
      ensures rc == Code(SqlSyntax.ParseDelete(old(Rest())))
      ensures rc == SUCCESS ==> query == SqlSyntax.ParseDelete(old(Rest())).value
    {
      hide LexNext, Take, From, SqlSyntax.ParseFrom, SqlSyntax.ParseDeleteEnd;
      var ok, tk := lexer.NextIf(DELETE_T);
      if !ok {
        return SYNTAX_ERROR;
      }
      var star, tkStar := lexer.NextIf(STAR_T);
      var tables: seq<string>;
      rc, tables := ParseFrom();
      if rc != SUCCESS {
        return;
      }
      rc := ParseDeleteEnd(star, tables);
    }

    method ParseDrop() returns (rc: Rc)
      requires query == UNREAD && LexNext(Rest()).lexeme.token == DROP_T
      modifies this, lexer
      ensures rc == Code(SqlSyntax.ParseDrop(old(Rest())))
      ensures rc == SUCCESS ==> query == SqlSyntax.ParseDrop(old(Rest())).value
    {
      hide LexNext, From;
      var ok, tk := lexer.Next();
      ok, tk := lexer.Next();
      if !ok || tk != TABLE_T {
        return if ok then SUCCESS else SYNTAX_ERROR;
      }
      ok, tk := lexer.Next();
      if !ok || tk != ID_T {
        return if ok then SUCCESS else SYNTAX_ERROR;
      }
      query := Drop(lexer.cur.s);
      ok, tk := lexer.Next();
      rc := if ok && tk == COLON_T then SUCCESS else SYNTAX_ERROR;
    }

    /** `do_parse` on a parser that has read nothing yet. */
    method DoParse() returns (rc: Rc)
      requires query == UNREAD
      modifies this, lexer
      ensures rc == Code(Parse(old(Rest())))
      ensures rc == SUCCESS ==> query == Parse(old(Rest())).value
    {
      hide LexNext, From, SqlSyntax.ParseSelect, SqlSyntax.ParseCreate, SqlSyntax.ParseDelete,
           SqlSyntax.ParseInsert, SqlSyntax.ParseDrop;
      var ok, tk := lexer.Peek();
      match tk
      case SELECT_T => rc := ParseSelect();
      case CREATE_T => rc := ParseCreate();
      case DELETE_T => rc := ParseDelete();
      case INSERT_T => rc := ParseInsert();
      case DROP_T => rc := ParseDrop();
      case _ => rc := SYNTAX_ERROR;
    }
  }

  lemma NamesHere(t: string, sofar: seq<string>)
    ensures SqlSyntax.ParseNames(t, sofar) ==
            (var n := Take(t, ID_T);
             if !n.Ok? then SyntaxError
             else
               var comma := Take(n.rest, COMMAS_T);
               if comma.Ok? then SqlSyntax.ParseNames(comma.rest, sofar + [n.value.s])
               else Ok(sofar + [n.value.s], n.rest))
  {
    hide LexNext;
  }

  lemma ConditionsHere(t: string, sofar: seq<Condition>)
    ensures ParseConditions(t, sofar) ==
            (var c := SqlSyntax.ParseCondition(t);
             if !c.Ok? then c.Failed()
             else
               var comma := Take(c.rest, COMMAS_T);
               if comma.Ok? then ParseConditions(comma.rest, sofar + [c.value])
               else Ok(sofar + [c.value], c.rest))
  {
    hide LexNext, SqlSyntax.ParseCondition;
  }

  lemma ValuesHere(t: string, sofar: seq<Value>)
    ensures SqlSyntax.ParseValues(t, sofar) ==
            (var v := SqlSyntax.ParseValue(t);
             if !v.Ok? then v.Failed()
             else if v.value.AttrValue? then SyntaxError
             else
               var comma := Take(v.rest, COMMAS_T);
               if comma.Ok? then SqlSyntax.ParseValues(comma.rest, sofar + [v.value])
               else Ok(sofar + [v.value], v.rest))
  {
    hide LexNext, SqlSyntax.ParseValue;
  }

  lemma ColAttrsHere(t: string, sofar: seq<ColAttr>)
    ensures SqlSyntax.ParseColAttrs(t, sofar) ==
            (var c := SqlSyntax.ParseColAttr(t);
             if !c.Ok? then SyntaxError
             else
               var comma := Take(c.rest, COMMAS_T);
               if comma.Ok? then SqlSyntax.ParseColAttrs(comma.rest, sofar + [c.value])
               else Ok(sofar + [c.value], c.rest))
  {
    hide LexNext, SqlSyntax.ParseColAttr;
  }
}
