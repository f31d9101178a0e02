/** A SELECT statement against a heap, from the scanner to the collected tuples. */
module Statements {
  import opened Bytes
  import opened Options
  import opened Disks
  import opened PoolSpec
  import opened PoolProofs
  import opened BufferPools
  import opened HeapProofs
  import opened ScanModel
  import opened ScanSpec
  import opened ScanProofs
  import opened FinishedScans
  import opened RecordScanners
  import opened TableHeaps
  import opened Tuples
  import opened Expressions
  import opened Queries
  import opened Executers

  /** The heap has a page to scan, and a frame can be found for every page. */
  ghost predicate CanScan(s: Pool)
  {
    HeapOk(s) && s.disk.next > 1 && CanScanAll(s)
  }

  /** The query can be evaluated on every one of these rows. */
  ghost predicate CanSelect(rows: seq<Data>, cols: seq<Column>, conds: seq<Condition>, attrs: seq<nat>)
  {
    && SizesAreInts(cols) && AllCanFilter(rows, cols, conds)
    && AllCanProject(Selected(rows, cols, conds), cols, attrs)
  }

  /** `bind_select` and the loop of `execute_sql`: open a scanner, stack filter and projection on it, pull
      until the end, and let the executers go, with the scanner's destructor. */
  method RunSelect(heap: TableHeap, cols: seq<Column>, conds: seq<Condition>, attrs: seq<nat>)
    returns (tuples: seq<Data>)
    requires heap.Valid() && CanScan(heap.pool.View())
    requires CanSelect(ScanAll(heap.pool.View()).recs, cols, conds, attrs)
    modifies heap.pool.Repr()
    ensures tuples == Select(ScanAll(old(heap.pool.View())).recs, cols, conds, attrs)
    ensures heap.Valid() && heap.pool.View() == AfterScan(old(heap.pool.View()))
  {
    ghost var s := heap.pool.View();
    var scanner;
    tuples, scanner := Execute(heap, cols, conds, attrs);
    AfterScanIs(s);
    scanner.Destroy();
  }

  /** The statement up to the destructors. */
  method Execute(heap: TableHeap, cols: seq<Column>, conds: seq<Condition>, attrs: seq<nat>)
    returns (tuples: seq<Data>, scanner: RecordScanner)
    requires heap.Valid() && CanScan(heap.pool.View())
    requires CanSelect(ScanAll(heap.pool.View()).recs, cols, conds, attrs)
    modifies heap.pool.Repr()
    ensures tuples == Select(ScanAll(old(heap.pool.View())).recs, cols, conds, attrs)
    ensures scanner.pool == heap.pool && scanner.Valid()
    ensures var all := ScanAll(old(heap.pool.View()));
      heap.pool.View() == all.pool && scanner.View() == all.cursor
  {
    hide *;
    CanScanIs(heap.pool.View());
    ghost var all := ScanAll(heap.pool.View());
    var exec := Plan(heap, cols, conds, attrs, all);
    tuples := ExecuteSelect(exec);
    scanner := exec.filter.child.scanner;
    DoneIs(exec.filter.child);
  }

  lemma CanScanIs(s: Pool)
    requires CanScan(s)
    ensures HeapOk(s) && s.disk.next > 1 && CanScanAll(s)
  {
    hide HeapOk;
  }

  lemma DoneIs(scan: SeqScanExecuter)
    requires scan.Done()
    ensures scan.scanner.Valid()
    ensures scan.scanner.pool.View() == scan.whole.pool && scan.scanner.View() == scan.whole.cursor
  {}

  method Plan(heap: TableHeap, cols: seq<Column>, conds: seq<Condition>, attrs: seq<nat>, ghost all: Scan)
    returns (exec: ProjectionExecuter)
    requires heap.Valid() && CanScan(heap.pool.View())
    requires all == ScanAll(heap.pool.View()) && CanSelect(all.recs, cols, conds, attrs)
    modifies heap.pool.Repr()
    ensures exec.Valid() && exec.rest == Select(all.recs, cols, conds, attrs)
    ensures fresh(exec) && fresh(exec.filter) && fresh(exec.filter.child.repr - heap.pool.Repr())
    ensures exec.filter.child.whole == all && exec.filter.child.scanner.pool == heap.pool
  {
    hide *;
    var scan := OpenScan(heap, cols, all);
    exec := Stack(scan, conds, attrs);
  }

  method Stack(scan: SeqScanExecuter, conds: seq<Condition>, attrs: seq<nat>) returns (exec: ProjectionExecuter)
    requires scan.Valid() && CanSelect(scan.rest, scan.cols, conds, attrs)
    ensures exec.Valid() && exec.rest == Select(scan.rest, scan.cols, conds, attrs)
    ensures fresh(exec) && fresh(exec.filter) && exec.filter.child == scan
  {
    hide SeqScanExecuter.Valid, AllCanFilter, Selected, CanProject, Project;
    var filter := new FilterExecuter(scan, conds);
    exec := new ProjectionExecuter(filter, attrs);
  }

  method OpenScan(heap: TableHeap, cols: seq<Column>, ghost all: Scan) returns (scan: SeqScanExecuter)
    requires heap.Valid() && CanScan(heap.pool.View()) && all == ScanAll(heap.pool.View())
    modifies heap.pool.Repr()
    ensures fresh(scan) && fresh(scan.repr - heap.pool.Repr())
    ensures scan.Valid() && scan.rest == all.recs && scan.cols == cols
    ensures scan.whole == all && scan.scanner.pool == heap.pool
  {
    hide *;
    ghost var s := heap.pool.View();
    ScanStart(s);
    var scanner := OpenScanner(heap.pool);
    scan := new SeqScanExecuter(scanner, cols, Pins(s), all);
  }

  lemma ScanStart(s: Pool)
    requires CanScan(s)
    ensures Shaped(s) && CanOpen(s, 1)
    ensures Remaining(ScanInit(s).pool, ScanInit(s).cursor, Pins(s), ScanAll(s))
  {
    hide ScanAll, HeapOk, CanOpen, ScanInit, Remaining, CanScanAll;
    OpenedRemaining(s);
  }

  method OpenScanner(pool: BufferPool) returns (scanner: RecordScanner)
    requires pool.Valid() && CanOpen(pool.View(), 1)
    modifies pool.Repr()
    ensures fresh(scanner) && fresh(scanner.rp) && scanner.pool == pool && scanner.Valid()
    ensures var o := ScanInit(old(pool.View())); pool.View() == o.pool && scanner.View() == o.cursor
  {
    hide *;
    scanner := new RecordScanner(pool);
    scanner.Init();
  }

  /** A SELECT leaves the heap in order exactly when the scan was blocked or another client has its last
      page pinned; a SELECT that can be run after it finds the same records. */
  lemma SelectAgainIff(s: Pool)
    requires CanScan(s)
    ensures var end := ScanEnd(PageList(s), 0);
      HeapOk(AfterScan(s)) <==> Blocks(PageList(s), end - 1) || PinsPage(Pins(s), end)
    ensures CanScan(AfterScan(s)) ==> ScanAll(AfterScan(s)).recs == ScanAll(s).recs
  {
    hide HeapOk, AfterScan, Pins, ScanAll, Blocks, CanScanAll, AllRecords;
    AfterScanIff(s);
    ScanAllIs(s);
    if CanScan(AfterScan(s)) {
      ScanAllIs(AfterScan(s));
    }
  }
}
