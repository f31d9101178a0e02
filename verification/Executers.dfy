/** The pull pipeline scan, filter, projection over a heap's scanner. Each executer's `rest` are the
    rows it has yet to return; `next` hands out the first of them or reports the end, when the scan is
    `Done`. */
module Executers {
  import opened Bytes
  import opened Options
  import opened SlottedPage
  import opened PoolSpec
  import opened BufferPools
  import opened HeapProofs
  import opened ScanSpec
  import opened ScanProofs
  import opened RecordScanners
  import opened Tuples
  import opened Expressions
  import opened Queries

  class SeqScanExecuter {
    const scanner: RecordScanner
    const cols: seq<Column>
    ghost const pins: seq<Pin>
    ghost const repr: set<object>
    ghost const whole: Scan
    ghost var rest: seq<Data>

    ghost predicate Valid()
      reads this, repr
    {
      && {this, scanner, scanner.rp} <= repr && scanner.pool.Repr() <= repr
      && scanner.Valid() && scanner.isOpen
      && Remaining(scanner.pool.View(), scanner.View(), pins, whole.(recs := rest))
    }

    /** The end was reported: pool and cursor are as the whole scan leaves them. */
    ghost predicate Done()
      reads this, repr
    {
      && {this, scanner, scanner.rp} <= repr && scanner.pool.Repr() <= repr
      && scanner.Valid() && scanner.pool.View() == whole.pool && scanner.View() == whole.cursor
    }

    /** Over a scanner that was just opened. */
    constructor (sc: RecordScanner, schema: seq<Column>, ghost others: seq<Pin>, ghost todo: Scan)
      requires sc.Valid() && sc.isOpen && Remaining(sc.pool.View(), sc.View(), others, todo)
      ensures Valid() && scanner == sc && cols == schema && rest == todo.recs && whole == todo
      ensures repr == {this, sc, sc.rp} + sc.pool.Repr()
    {
      hide Remaining;
      scanner, cols, pins, whole, rest := sc, schema, others, todo, todo.recs;
      repr := {this, sc, sc.rp} + sc.pool.Repr();
    }

    method Next() returns (tuple: Option<Data>)
      requires Valid()
      modifies repr
      ensures old(rest) == [] ==> tuple == None && Done()
      ensures old(rest) != [] ==> tuple == Some(old(rest)[0]) && rest == old(rest)[1..] && Valid()
    {
      hide Remaining, ScanSpec.Next, NextReady, BufferPool.Valid, BufferPool.View, RecordScanner.Valid;
      ghost var todo := whole.(recs := rest);
      NextYields(scanner.pool.View(), scanner.View(), pins, todo);
      var outcome := scanner.Next();
      if outcome.Got? {
        tuple := Some(outcome.rec);
        rest := rest[1..];
        assert whole.(recs := rest) == todo.(recs := todo.recs[1..]);
      } else {
        tuple := None;
      }
    }
  }

  /** A WHERE clause over a scan. */
  class FilterExecuter {
    const child: SeqScanExecuter
    const conds: seq<Condition>
    ghost var rest: seq<Data>

    ghost predicate Valid()
      reads this, child, child.repr
    {
      && this !in child.repr && child.Valid()
      && AllCanFilter(child.rest, child.cols, conds)
      && rest == Selected(child.rest, child.cols, conds)
    }

    constructor (c: SeqScanExecuter, where: seq<Condition>)
      requires c.Valid() && AllCanFilter(c.rest, c.cols, where)
      ensures Valid() && child == c && conds == where
    {
      hide Remaining, RecordScanner.Valid, BufferPool.Valid, BufferPool.View, BufferPool.Repr, CanFilter, Passes;
      child, conds := c, where;
      rest := Selected(c.rest, c.cols, where);
    }

    /** The next row that passes; rows that do not are pulled and dropped. */
    method Next() returns (tuple: Option<Data>)
      requires Valid()
      modifies this, child.repr
      ensures old(rest) == [] ==> tuple == None && child.Done()
      ensures old(rest) != [] ==> tuple == Some(old(rest)[0]) && rest == old(rest)[1..] && Valid()
    {
      hide SeqScanExecuter.Valid, SeqScanExecuter.Done, CanFilter, Passes;
      while true
        invariant Valid() && rest == old(rest)
        decreases |child.rest|
      {
        ghost var before := child.rest;
        tuple := child.Next();
        if tuple == None {
          return;
        }
        assert before == [tuple.value] + child.rest;
        assert tuple.value in before;
        var v := EvaluateOn(tuple.value);
        if v == 1 {
          rest := rest[1..];
          return;
        }
      }
    }

    method EvaluateOn(row: Data) returns (v: int)
      requires CanFilter(row, child.cols, conds)
      ensures v == 1 <==> Passes(row, child.cols, conds)
    {
      v := EvaluateFilter(conds, row, child.cols);
    }
  }

  /** SELECT of some columns over a filtered scan. */
  class ProjectionExecuter {
    const filter: FilterExecuter
    const attrs: seq<nat>
    ghost var rest: seq<Data>

    ghost predicate Valid()
      reads this, filter, filter.child, filter.child.repr
    {
      && this !in filter.child.repr && filter !in filter.child.repr && filter.Valid()
      && SizesAreInts(filter.child.cols)
      && AllCanProject(filter.rest, filter.child.cols, attrs)
      && rest == ProjectAll(filter.rest, filter.child.cols, attrs)
    }

    constructor (f: FilterExecuter, columns: seq<nat>)
      requires f.Valid() && f !in f.child.repr
      requires AllCanProject(f.rest, f.child.cols, columns) && SizesAreInts(f.child.cols)
      ensures Valid() && filter == f && attrs == columns
    {
      hide SeqScanExecuter.Valid, Selected, AllCanFilter, CanProject;
      filter, attrs := f, columns;
      rest := ProjectAll(f.rest, f.child.cols, columns);
    }

    /** Pull a row, decode the chosen columns, encode them under the output schema. */
    method Next() returns (tuple: Option<Data>)
      requires Valid()
      modifies this, filter, filter.child.repr
      ensures old(rest) == [] ==> tuple == None && filter.child.Done()
      ensures old(rest) != [] ==> tuple == Some(old(rest)[0]) && rest == old(rest)[1..] && Valid()
    {
      hide FilterExecuter.Valid, SeqScanExecuter.Done, CanProject, Project;
      ghost var rows := filter.rest;
      var child := filter.Next();
      if child == None {
        return None;
      }
      assert child.value in rows;
      var out := ProjectRow(child.value);
      tuple := Some(out);
      rest := ProjectAll(filter.rest, filter.child.cols, attrs);
    }

    method ProjectRow(row: Data) returns (out: Data)
      requires CanProject(row, filter.child.cols, attrs) && SizesAreInts(filter.child.cols)
      ensures out == Project(row, filter.child.cols, attrs)
    {
      var cols := filter.child.cols;
      ProjectionTyped(row, cols, attrs);
      hide ValueAt, EncodeRow, TypeMatches, Storable;
      var values: seq<Value> := [];
      var j := 0;
      while j < |attrs|
        invariant j <= |attrs| && values == ProjectedValues(row, cols, attrs)[..j]
      {
        var v := ReadColumn(row, cols, attrs[j]);
        values := values + [v.value];
        j := j + 1;
      }
      assert values == ProjectedValues(row, cols, attrs);
      out := CreateTuple(values, CopySchema(cols, attrs));
    }
  }

  /** The loop of `execute_sql`: pull until there is nothing more. What it collects are exactly the rows
      the query still had to return. */
  method ExecuteSelect(exec: ProjectionExecuter) returns (tuples: seq<Data>)
    requires exec.Valid()
    modifies exec, exec.filter, exec.filter.child.repr
    ensures tuples == old(exec.rest) && exec.filter.child.Done()
  {
    hide ProjectionExecuter.Valid, SeqScanExecuter.Done;
    tuples := [];
    ghost var all := exec.rest;
    var more := true;
    while more
      invariant more ==> exec.Valid() && tuples + exec.rest == all
      invariant !more ==> tuples == all && exec.filter.child.Done()
      decreases more, |exec.rest|
    {
      var t := exec.Next();
      if t == None {
        more := false;
      } else {
        tuples := tuples + [t.value];
      }
    }
  }
}
