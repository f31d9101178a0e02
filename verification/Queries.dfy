/** What a SELECT means on a list of rows. */
module Queries {
  import opened Bytes
  import opened Options
  import opened Tuples
  import opened Expressions

  /** Every condition of the WHERE clause can be evaluated on the row. */
  predicate CanFilter(row: Data, cols: seq<Column>, conds: seq<Condition>)
  {
    forall i :: 0 <= i < |conds| ==> CanCompare(conds[i], row, cols)
  }

  /** The filter executer lets the row through. */
  predicate Passes(row: Data, cols: seq<Column>, conds: seq<Condition>)
    requires CanFilter(row, cols, conds)
  {
    forall i :: 0 <= i < |conds| ==> EvaluateCondition(conds[i], row, cols) == 1
  }

  predicate AllCanFilter(rows: seq<Data>, cols: seq<Column>, conds: seq<Condition>)
  {
    forall r :: r in rows ==> CanFilter(r, cols, conds)
  }

  function Selected(rows: seq<Data>, cols: seq<Column>, conds: seq<Condition>): (r: seq<Data>)
    requires AllCanFilter(rows, cols, conds)
    ensures forall x :: x in r ==> x in rows
  {
    if rows == [] then []
    else (if Passes(rows[0], cols, conds) then [rows[0]] else []) + Selected(rows[1..], cols, conds)
  }

  /** All conditions hold of the row, each in its true order. */
  ghost predicate Wanted(row: Data, cols: seq<Column>, conds: seq<Condition>)
    requires CanFilter(row, cols, conds)
  {
    forall i :: 0 <= i < |conds| ==> Satisfies(row, cols, conds[i])
  }

  ghost function Kept(rows: seq<Data>, cols: seq<Column>, conds: seq<Condition>): seq<Data>
    requires AllCanFilter(rows, cols, conds)
  {
    if rows == [] then []
    else (if Wanted(rows[0], cols, conds) then [rows[0]] else []) + Kept(rows[1..], cols, conds)
  }

  /** No comparison of the query leaves the range in which `compare` tells the true order. */
  ghost predicate ComparesInRange(row: Data, cols: seq<Column>, conds: seq<Condition>)
    requires CanFilter(row, cols, conds)
  {
    forall i :: 0 <= i < |conds| ==>
      InRange(Evaluate(conds[i].left, row, cols).value, Evaluate(conds[i].right, row, cols).value)
  }

  lemma PassesIff(row: Data, cols: seq<Column>, conds: seq<Condition>)
    requires CanFilter(row, cols, conds) && ComparesInRange(row, cols, conds)
    ensures Passes(row, cols, conds) <==> Wanted(row, cols, conds)
  {
    hide Evaluate, Compare, Holds, Verdict, InRange;
    forall i | 0 <= i < |conds|
      ensures EvaluateCondition(conds[i], row, cols) == 1 <==> Satisfies(row, cols, conds[i])
    {
      VerdictWhenInRange(conds[i].op, Evaluate(conds[i].left, row, cols).value,
                         Evaluate(conds[i].right, row, cols).value);
    }
  }

  /** The rows that pass are the rows on which all conditions hold. */
  lemma {:induction false} SelectedIsKept(rows: seq<Data>, cols: seq<Column>, conds: seq<Condition>)
    requires AllCanFilter(rows, cols, conds)
    requires forall r :: r in rows ==> ComparesInRange(r, cols, conds)
    ensures Selected(rows, cols, conds) == Kept(rows, cols, conds)
  {
    hide CanFilter, ComparesInRange, Passes, Wanted;
    if rows != [] {
      PassesIff(rows[0], cols, conds);
      SelectedIsKept(rows[1..], cols, conds);
    }
  }

  // ---------------------------------------------------------------- projection

  predicate CanProject(row: Data, cols: seq<Column>, attrs: seq<nat>)
  {
    forall j :: 0 <= j < |attrs| ==> attrs[j] < |cols| && ValueAt(row, cols, attrs[j]).Some?
  }

  /** `Schema::copy_schema` */
  function CopySchema(cols: seq<Column>, attrs: seq<nat>): (r: seq<Column>)
    requires forall j :: 0 <= j < |attrs| ==> attrs[j] < |cols|
    ensures |r| == |attrs| && forall j :: 0 <= j < |r| ==> r[j] == cols[attrs[j]]
  {
    seq(|attrs|, j requires 0 <= j < |attrs| => cols[attrs[j]])
  }

  function ProjectedValues(row: Data, cols: seq<Column>, attrs: seq<nat>): (r: seq<Value>)
    requires CanProject(row, cols, attrs)
    ensures |r| == |attrs|
    ensures forall j :: 0 <= j < |r| ==> Some(r[j]) == ValueAt(row, cols, attrs[j])
  {
    seq(|attrs|, j requires 0 <= j < |attrs| => ValueAt(row, cols, attrs[j]).value)
  }

  /** Decode the chosen columns and encode them again under the output schema. */
  function Project(row: Data, cols: seq<Column>, attrs: seq<nat>): Data
    requires CanProject(row, cols, attrs)
  {
    EncodeRow(ProjectedValues(row, cols, attrs), CopySchema(cols, attrs))
  }

  /** A decoded value is always storable again under the column it came from. */
  lemma DecodedStorable(row: Data, pos: nat, c: Column)
    requires ReadValue(row, pos, c).Some? && c.size < 0x8000_0000
    ensures TypeMatches(ReadValue(row, pos, c).value, c) && Storable(ReadValue(row, pos, c).value, c)
  {
    StorableNarrow(c.size);
    hide Decode;
  }

  lemma ProjectionTyped(row: Data, cols: seq<Column>, attrs: seq<nat>)
    requires CanProject(row, cols, attrs) && SizesAreInts(cols)
    ensures var vals := ProjectedValues(row, cols, attrs); var out := CopySchema(cols, attrs);
      && Typed(vals, out) && SizesAreInts(out)
      && forall j :: 0 <= j < |vals| ==> Storable(vals[j], out[j])
  {
    hide ReadValue, TypeMatches, Storable, Start;
    var vals := ProjectedValues(row, cols, attrs);
    forall j | 0 <= j < |vals|
      ensures TypeMatches(vals[j], cols[attrs[j]]) && Storable(vals[j], cols[attrs[j]])
    {
      DecodedStorable(row, Start(row, cols, attrs[j]).value, cols[attrs[j]]);
    }
  }

  /** Each output row decodes, under the output schema, to the chosen columns of the input row. */
  lemma ProjectionDecodes(row: Data, cols: seq<Column>, attrs: seq<nat>, j: nat)
    requires CanProject(row, cols, attrs) && SizesAreInts(cols) && j < |attrs|
    ensures ValueAt(Project(row, cols, attrs), CopySchema(cols, attrs), j) == ValueAt(row, cols, attrs[j])
  {
    ProjectionTyped(row, cols, attrs);
    RowRoundTripIff(ProjectedValues(row, cols, attrs), CopySchema(cols, attrs));
    hide ValueAt, EncodeRow, Storable, TypeMatches;
  }

  predicate AllCanProject(rows: seq<Data>, cols: seq<Column>, attrs: seq<nat>)
  {
    forall r :: r in rows ==> CanProject(r, cols, attrs)
  }

  function ProjectAll(rows: seq<Data>, cols: seq<Column>, attrs: seq<nat>): (r: seq<Data>)
    requires AllCanProject(rows, cols, attrs)
    ensures |r| == |rows| && forall i :: 0 <= i < |r| ==> r[i] == Project(rows[i], cols, attrs)
  {
    seq(|rows|, i requires 0 <= i < |rows| => Project(rows[i], cols, attrs))
  }

  /** SELECT attrs FROM rows WHERE conds: filter, then project, in row order. */
  function Select(rows: seq<Data>, cols: seq<Column>, conds: seq<Condition>, attrs: seq<nat>): seq<Data>
    requires AllCanFilter(rows, cols, conds)
    requires AllCanProject(Selected(rows, cols, conds), cols, attrs)
  {
    ProjectAll(Selected(rows, cols, conds), cols, attrs)
  }

  /** Without a WHERE clause every row is selected. */
  lemma {:induction false} SelectedAll(rows: seq<Data>, cols: seq<Column>)
    ensures AllCanFilter(rows, cols, []) && Selected(rows, cols, []) == rows
  {
    if rows != [] {
      SelectedAll(rows[1..], cols);
    }
  }

  /** With every comparison in range, a SELECT returns, in row order, the projections of exactly those
      rows on which all conditions hold. */
  lemma SelectMeaning(rows: seq<Data>, cols: seq<Column>, conds: seq<Condition>, attrs: seq<nat>)
    requires AllCanFilter(rows, cols, conds)
    requires forall r :: r in rows ==> ComparesInRange(r, cols, conds)
    requires AllCanProject(Selected(rows, cols, conds), cols, attrs)
    ensures AllCanProject(Kept(rows, cols, conds), cols, attrs)
    ensures Select(rows, cols, conds, attrs) == ProjectAll(Kept(rows, cols, conds), cols, attrs)
  {
    SelectedIsKept(rows, cols, conds);
  }
}
