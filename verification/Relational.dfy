/** Rows of values from a new file to the answer of a SELECT. */
module Relational {
  import opened Bytes
  import opened Options
  import opened Tuples
  import opened Expressions
  import opened Queries
  import opened PoolSpec
  import opened PoolProofs
  import opened HeapProofs
  import opened HeapRuns
  import opened ScanProofs

  /** A row of the table: a storable value of the right type for each column. */
  predicate IsRow(vals: seq<Value>, cols: seq<Column>)
  {
    && |vals| == |cols| && Typed(vals, cols)
    && forall i :: 0 <= i < |vals| ==> Storable(vals[i], cols[i])
  }

  predicate IsTable(table: seq<seq<Value>>, cols: seq<Column>)
  {
    SizesAreInts(cols) && forall k :: 0 <= k < |table| ==> IsRow(table[k], cols)
  }

  /** The bytes of the rows. */
  function Encoded(table: seq<seq<Value>>, cols: seq<Column>): (r: seq<Data>)
    requires forall k :: 0 <= k < |table| ==> |table[k]| <= |cols|
    ensures |r| == |table|
  {
    seq(|table|, k requires 0 <= k < |table| => EncodeRow(table[k], cols))
  }

  // ---------------------------------------------------------------- the answer on values

  function OperandOf(e: Operand, vals: seq<Value>): Option<Value>
  {
    match e
    case ColumnRef(i) => if i < |vals| then Some(vals[i]) else None
    case Constant(v) => Some(v)
  }

  /** The condition compares two values of one type, whose order `compare` tells. */
  predicate Comparing(c: Condition, vals: seq<Value>)
  {
    var l, r := OperandOf(c.left, vals), OperandOf(c.right, vals);
    l.Some? && r.Some? && Comparable(l.value, r.value) && InRange(l.value, r.value)
  }

  ghost predicate True(c: Condition, vals: seq<Value>)
  {
    Comparing(c, vals) && Holds(c.op, OperandOf(c.left, vals).value, OperandOf(c.right, vals).value)
  }

  ghost predicate AllTrue(conds: seq<Condition>, vals: seq<Value>)
  {
    forall i :: 0 <= i < |conds| ==> True(conds[i], vals)
  }

  function Picked(vals: seq<Value>, attrs: seq<nat>): (r: seq<Value>)
    requires forall j :: 0 <= j < |attrs| ==> attrs[j] < |vals|
    ensures |r| == |attrs|
  {
    seq(|attrs|, j requires 0 <= j < |attrs| => vals[attrs[j]])
  }

  /** The chosen columns of the rows on which all conditions hold, in order. */
  ghost function Answer(table: seq<seq<Value>>, conds: seq<Condition>, attrs: seq<nat>): (r: seq<seq<Value>>)
    requires forall k, j :: 0 <= k < |table| && 0 <= j < |attrs| ==> attrs[j] < |table[k]|
    ensures forall k :: 0 <= k < |r| ==> |r[k]| == |attrs|
  {
    if table == [] then []
    else (if AllTrue(conds, table[0]) then [Picked(table[0], attrs)] else []) + Answer(table[1..], conds, attrs)
  }

  /** The query can be asked of this table. */
  predicate Asks(table: seq<seq<Value>>, cols: seq<Column>, conds: seq<Condition>, attrs: seq<nat>)
  {
    && (forall j :: 0 <= j < |attrs| ==> attrs[j] < |cols|)
    && (forall k, i :: 0 <= k < |table| && 0 <= i < |conds| ==> Comparing(conds[i], table[k]))
  }

  // ---------------------------------------------------------------- one row

  lemma ValuesBack(vals: seq<Value>, cols: seq<Column>)
    requires SizesAreInts(cols) && IsRow(vals, cols)
    ensures forall i :: 0 <= i < |cols| ==> ValueAt(EncodeRow(vals, cols), cols, i) == Some(vals[i])
  {
    hide ValueAt, EncodeRow, Storable, TypeMatches;
    RowRoundTripIff(vals, cols);
  }

  lemma OperandBack(e: Operand, vals: seq<Value>, cols: seq<Column>)
    requires SizesAreInts(cols) && IsRow(vals, cols)
    ensures Evaluate(e, EncodeRow(vals, cols), cols) == OperandOf(e, vals)
  {
    hide ValueAt, EncodeRow, IsRow;
    RowLength(vals, cols);
    ValuesBack(vals, cols);
  }

  lemma RowLength(vals: seq<Value>, cols: seq<Column>)
    requires IsRow(vals, cols)
    ensures |vals| == |cols|
  {}

  lemma ConditionBack(c: Condition, vals: seq<Value>, cols: seq<Column>)
    requires SizesAreInts(cols) && IsRow(vals, cols) && Comparing(c, vals)
    ensures CanCompare(c, EncodeRow(vals, cols), cols)
    ensures InRange(Evaluate(c.left, EncodeRow(vals, cols), cols).value,
                    Evaluate(c.right, EncodeRow(vals, cols), cols).value)
    ensures Satisfies(EncodeRow(vals, cols), cols, c) <==> True(c, vals)
  {
    hide EncodeRow, IsRow, Evaluate, OperandOf, Comparable, Holds, InRange;
    OperandBack(c.left, vals, cols);
    OperandBack(c.right, vals, cols);
  }

  lemma RowBack(vals: seq<Value>, cols: seq<Column>, conds: seq<Condition>)
    requires SizesAreInts(cols) && IsRow(vals, cols)
    requires forall i :: 0 <= i < |conds| ==> Comparing(conds[i], vals)
    ensures CanFilter(EncodeRow(vals, cols), cols, conds)
    ensures ComparesInRange(EncodeRow(vals, cols), cols, conds)
    ensures Wanted(EncodeRow(vals, cols), cols, conds) <==> AllTrue(conds, vals)
  {
    hide EncodeRow, IsRow, Evaluate, OperandOf, Satisfies, True, InRange, Comparing, Comparable;
    RowLength(vals, cols);
    forall i | 0 <= i < |conds|
      ensures CanCompare(conds[i], EncodeRow(vals, cols), cols)
      ensures InRange(Evaluate(conds[i].left, EncodeRow(vals, cols), cols).value,
                      Evaluate(conds[i].right, EncodeRow(vals, cols), cols).value)
      ensures Satisfies(EncodeRow(vals, cols), cols, conds[i]) <==> True(conds[i], vals)
    {
      ConditionBack(conds[i], vals, cols);
    }
  }

  lemma PickedBack(vals: seq<Value>, cols: seq<Column>, attrs: seq<nat>)
    requires SizesAreInts(cols) && IsRow(vals, cols) && forall j :: 0 <= j < |attrs| ==> attrs[j] < |cols|
    ensures CanProject(EncodeRow(vals, cols), cols, attrs)
    ensures |vals| == |cols|
    ensures Project(EncodeRow(vals, cols), cols, attrs) == EncodeRow(Picked(vals, attrs), CopySchema(cols, attrs))
  {
    hide EncodeRow, ValueAt, IsRow;
    RowLength(vals, cols);
    ValuesBack(vals, cols);
    var row := EncodeRow(vals, cols);
    assert ProjectedValues(row, cols, attrs) == Picked(vals, attrs);
  }

  // ---------------------------------------------------------------- all rows

  lemma TableTail(table: seq<seq<Value>>, cols: seq<Column>, conds: seq<Condition>, attrs: seq<nat>)
    requires IsTable(table, cols) && Asks(table, cols, conds, attrs) && table != []
    ensures IsRow(table[0], cols) && IsTable(table[1..], cols) && Asks(table[1..], cols, conds, attrs)
    ensures forall i :: 0 <= i < |conds| ==> Comparing(conds[i], table[0])
    ensures forall j :: 0 <= j < |attrs| ==> attrs[j] < |cols|
  {
    hide IsRow, Comparing;
  }

  lemma TableRows(table: seq<seq<Value>>, cols: seq<Column>)
    requires IsTable(table, cols)
    ensures SizesAreInts(cols) && forall k :: 0 <= k < |table| ==> |table[k]| == |cols|
  {}

  lemma EncodedTail(table: seq<seq<Value>>, cols: seq<Column>)
    requires table != [] && forall k :: 0 <= k < |table| ==> |table[k]| <= |cols|
    ensures Encoded(table, cols) == [EncodeRow(table[0], cols)] + Encoded(table[1..], cols)
  {
    hide EncodeRow;
  }

  /** The rows can be filtered, each comparison telling the true order. */
  lemma {:induction false} TableFilters(table: seq<seq<Value>>, cols: seq<Column>, conds: seq<Condition>,
                                        attrs: seq<nat>)
    requires IsTable(table, cols) && Asks(table, cols, conds, attrs)
    ensures forall k :: 0 <= k < |table| ==> |table[k]| == |cols|
    ensures forall r :: r in Encoded(table, cols) ==>
      CanFilter(r, cols, conds) && ComparesInRange(r, cols, conds) && CanProject(r, cols, attrs)
    decreases |table|
  {
    hide EncodeRow, IsRow, IsTable, Asks, CanFilter, ComparesInRange, CanProject, Comparing, Encoded, Project;
    TableRows(table, cols);
    if table == [] {
      NoRows(cols);
    } else {
      TableTail(table, cols, conds, attrs);
      EncodedTail(table, cols);
      RowBack(table[0], cols, conds);
      PickedBack(table[0], cols, attrs);
      TableFilters(table[1..], cols, conds, attrs);
    }
  }

  lemma NoRows(cols: seq<Column>)
    ensures Encoded([], cols) == []
  {}

  lemma KeptHead(x: Data, rest: seq<Data>, cols: seq<Column>, conds: seq<Condition>)
    requires AllCanFilter([x] + rest, cols, conds)
    ensures CanFilter(x, cols, conds) && AllCanFilter(rest, cols, conds)
    ensures Kept([x] + rest, cols, conds) ==
      if Wanted(x, cols, conds) then [x] + Kept(rest, cols, conds) else Kept(rest, cols, conds)
  {
    hide CanFilter, Wanted;
    assert x in [x] + rest;
    assert ([x] + rest)[1..] == rest;
  }

  lemma ProjectHead(x: Data, rows: seq<Data>, cols: seq<Column>, attrs: seq<nat>)
    requires AllCanProject([x] + rows, cols, attrs)
    ensures CanProject(x, cols, attrs) && AllCanProject(rows, cols, attrs)
    ensures ProjectAll([x] + rows, cols, attrs) == [Project(x, cols, attrs)] + ProjectAll(rows, cols, attrs)
  {
    hide CanProject, Project;
    assert x in [x] + rows;
  }

  lemma AnswerHead(table: seq<seq<Value>>, conds: seq<Condition>, attrs: seq<nat>)
    requires table != []
    requires forall k, j :: 0 <= k < |table| && 0 <= j < |attrs| ==> attrs[j] < |table[k]|
    ensures forall k, j :: 0 <= k < |table[1..]| && 0 <= j < |attrs| ==> attrs[j] < |table[1..][k]|
    ensures Answer(table, conds, attrs) ==
      if AllTrue(conds, table[0]) then [Picked(table[0], attrs)] + Answer(table[1..], conds, attrs)
      else Answer(table[1..], conds, attrs)
  {
    hide AllTrue, Picked;
  }

  /** The rows kept, projected, are the encoded answer. */
  lemma {:induction false} KeptIsAnswer(table: seq<seq<Value>>, cols: seq<Column>, conds: seq<Condition>,
                                        attrs: seq<nat>)
    requires IsTable(table, cols) && Asks(table, cols, conds, attrs)
    requires forall k :: 0 <= k < |table| ==> |table[k]| == |cols|
    requires forall j :: 0 <= j < |attrs| ==> attrs[j] < |cols|
    requires AllCanFilter(Encoded(table, cols), cols, conds)
    requires AllCanProject(Kept(Encoded(table, cols), cols, conds), cols, attrs)
    ensures ProjectAll(Kept(Encoded(table, cols), cols, conds), cols, attrs) ==
            Encoded(Answer(table, conds, attrs), CopySchema(cols, attrs))
    decreases |table|
  {
    hide *;
    if table == [] {
      NoneKept(cols, conds, attrs);
    } else {
      var x, rest := EncodeRow(table[0], cols), Encoded(table[1..], cols);
      TableTail(table, cols, conds, attrs);
      TableRows(table, cols);
      EncodedTail(table, cols);
      RowBack(table[0], cols, conds);
      PickedBack(table[0], cols, attrs);
      KeptHead(x, rest, cols, conds);
      AnswerHead(table, conds, attrs);
      if Wanted(x, cols, conds) {
        ProjectHead(x, Kept(rest, cols, conds), cols, attrs);
        KeptIsAnswer(table[1..], cols, conds, attrs);
        var more := Answer(table[1..], conds, attrs);
        var answer := [Picked(table[0], attrs)] + more;
        assert answer[1..] == more;
        EncodedTail(answer, CopySchema(cols, attrs));
      } else {
        KeptIsAnswer(table[1..], cols, conds, attrs);
      }
    }
  }

  lemma NoneKept(cols: seq<Column>, conds: seq<Condition>, attrs: seq<nat>)
    requires forall j :: 0 <= j < |attrs| ==> attrs[j] < |cols|
    ensures Encoded([], cols) == [] && Encoded([], CopySchema(cols, attrs)) == []
    ensures AllCanFilter([], cols, conds) && Kept([], cols, conds) == []
    ensures AllCanProject([], cols, attrs) && ProjectAll([], cols, attrs) == [] && Answer([], conds, attrs) == []
  {}

  // ---------------------------------------------------------------- from a new file

  /** A SELECT on the encoded rows gives the encoded answer. */
  lemma SelectIsAnswer(table: seq<seq<Value>>, cols: seq<Column>, conds: seq<Condition>, attrs: seq<nat>)
    requires IsTable(table, cols) && Asks(table, cols, conds, attrs)
    ensures (forall k :: 0 <= k < |table| ==> |table[k]| == |cols|)
         && (forall j :: 0 <= j < |attrs| ==> attrs[j] < |cols|)
    ensures var rows := Encoded(table, cols);
      && AllCanFilter(rows, cols, conds) && AllCanProject(Selected(rows, cols, conds), cols, attrs)
      && Select(rows, cols, conds, attrs) == Encoded(Answer(table, conds, attrs), CopySchema(cols, attrs))
  {
    hide Encoded, EncodeRow, IsRow, CanFilter, ComparesInRange, CanProject, Comparing, Kept, Answer, Passes, Project;
    TableFilters(table, cols, conds, attrs);
    TableRows(table, cols);
    var rows := Encoded(table, cols);
    SelectMeaning(rows, cols, conds, attrs);
    KeptIsAnswer(table, cols, conds, attrs);
  }

  /** Insert the rows of a table, encoded, into a new file; whatever the pool size, a SELECT on what is then
      scanned gives, encoded, the chosen columns of exactly the rows on which all conditions hold. */
  lemma TableSelects(n: nat, table: seq<seq<Value>>, cols: seq<Column>, conds: seq<Condition>, attrs: seq<nat>)
    requires n > 0 && table != [] && IsTable(table, cols) && Asks(table, cols, conds, attrs)
    requires forall k :: 0 <= k < |table| ==> |table[k]| == |cols|
    requires CanInsertAll(NewHeap(n), Encoded(table, cols))
    requires InsertAll(NewHeap(n), Encoded(table, cols)).stored == Encoded(table, cols)
    ensures (forall j :: 0 <= j < |attrs| ==> attrs[j] < |cols|)
    ensures var s := InsertAll(NewHeap(n), Encoded(table, cols)).pool;
      && HeapOk(s) && s.disk.next > 1 && CanScanAll(s)
      && var rows := ScanAll(s).recs;
      && AllCanFilter(rows, cols, conds) && AllCanProject(Selected(rows, cols, conds), cols, attrs)
      && Select(rows, cols, conds, attrs) == Encoded(Answer(table, conds, attrs), CopySchema(cols, attrs))
  {
    hide *;
    SelectIsAnswer(table, cols, conds, attrs);
    InsertThenScan(n, Encoded(table, cols));
    FreeFrameScans(InsertAll(NewHeap(n), Encoded(table, cols)).pool);
  }
}
