/** A scan that misses a record: two pages, of which the first holds a deleted record only. */
module BlockedScans {
  import opened Bytes
  import opened Options
  import opened Sequences
  import opened SlottedPage
  import opened Disks
  import opened PoolSpec
  import opened PoolProofs
  import opened HeapSpec
  import opened HeapProofs
  import opened HeapRemoval
  import opened HeapOpening
  import opened HeapRuns
  import opened ScanModel
  import opened ScanProofs

  /** An insert that has a place. */
  lemma Inserts(s: Pool, rec: Data)
    requires HeapOk(s) && !AllPinned(s) && s.disk.next <= BFP_MAX_PAGE_NUM && Guard(PageList(s), rec)
    ensures InsertReady(s, rec)
    ensures var r := HeapInsert(s, rec);
      && HeapOk(r.pool) && !AllPinned(r.pool)
      && Inserted(r.ok, PageList(r.pool)) == ModelInsert(PageList(s), rec)
  {
    hide HeapOk, AllPinned, PageList, HeapInsert, InsertReady, Guard, ModelInsert, Pins, Room;
    InsertRefines(s, rec);
    AllPinnedIs(s);
    AllPinnedIs(HeapInsert(s, rec).pool);
  }

  lemma SecondPage(a: Data, b: Data)
    requires |a| == 990 && |b| <= 32
    ensures Guard([], a) && ModelInsert([], a) == Inserted(true, [[Slot(false, a)]])
    ensures Guard([[Slot(false, a)]], b)
    ensures ModelInsert([[Slot(false, a)]], b) == Inserted(true, [[Slot(false, a)], [Slot(false, b)]])
  {
    var first := [Slot(false, a)];
    assert Footprint(first) == 991;
    assert [first] + [[Slot(false, b)]] == [first, [Slot(false, b)]];
  }

  /** The heap with both records, each on its own page. */
  lemma TwoPages(n: nat, a: Data, b: Data)
    requires n > 0 && |a| == 990 && |b| <= 32
    ensures InsertReady(NewHeap(n), a) && InsertReady(HeapInsert(NewHeap(n), a).pool, b)
    ensures var s := HeapInsert(HeapInsert(NewHeap(n), a).pool, b).pool;
      && HeapOk(s) && !AllPinned(s) && s.disk.next == 3
      && PageList(s) == [[Slot(false, a)], [Slot(false, b)]]
  {
    hide *;
    SecondPage(a, b);
    NewHeapIs(n);
    Inserts(NewHeap(n), a);
    var s := HeapInsert(NewHeap(n), a).pool;
    PageCount(s);
    LimitIs();
    Inserts(s, b);
    PageCount(HeapInsert(s, b).pool);
  }

  lemma LimitIs()
    ensures BFP_MAX_PAGE_NUM == 8064
  {}

  lemma NewHeapIs(n: nat)
    requires n > 0
    ensures HeapOk(NewHeap(n)) && !AllPinned(NewHeap(n)) && PageList(NewHeap(n)) == []
    ensures NewHeap(n).disk.next <= BFP_MAX_PAGE_NUM
  {
    FreshHeap(n);
    hide OpenPool, HeapOk, AllPinned, PageList;
  }

  lemma BlockedPages(a: Data, b: Data)
    ensures var pages := [[Slot(true, a)], [Slot(false, b)]];
      Blocks(pages, 0) && ScanEnd(pages, 0) == 1 && AllRecords(pages[..1]) == [] && AllRecords(pages) == [b]
  {
    var pages := [[Slot(true, a)], [Slot(false, b)]];
    assert pages[..1] == [[Slot(true, a)]];
    assert [[Slot(true, a)]][1..] == [];
    assert pages[1..] == [[Slot(false, b)]];
    assert [[Slot(false, b)]][1..] == [];
    assert LiveIn([Slot(true, a)]) == [];
    assert LiveIn([Slot(false, b)]) == [b];
  }

  /** In a pool of any size: insert a record that fills page 1 and a short one, remove the first. A scan
      then returns nothing although the second record is live, and keeps a pin. */
  lemma ScanMissesRecord(n: nat, a: Data, b: Data)
    requires n > 0 && |a| == 990 && |b| <= 32
    ensures InsertReady(NewHeap(n), a) && InsertReady(HeapInsert(NewHeap(n), a).pool, b)
    ensures RemoveReady(HeapInsert(HeapInsert(NewHeap(n), a).pool, b).pool, 1)
    ensures var s := HeapRemove(HeapInsert(HeapInsert(NewHeap(n), a).pool, b).pool, 1, 0).pool;
      && HeapOk(s) && s.disk.next > 1 && CanScanAll(s)
      && AllRecords(PageList(s)) == [b] && ScanAll(s).recs == [] && Pins(ScanAll(s).pool) != Pins(s)
  {
    hide *;
    TwoPages(n, a, b);
    var s := HeapInsert(HeapInsert(NewHeap(n), a).pool, b).pool;
    RemoveRefines(s, 1, 0);
    var r := HeapRemove(s, 1, 0).pool;
    AllPinnedIs(s);
    AllPinnedIs(r);
    MarkedFirst(a, b);
    PageCount(r);
    FreeFrameScans(r);
    BlockedPages(a, b);
    ScanAllIs(r);
  }

  lemma MarkedFirst(a: Data, b: Data)
    ensures [[Slot(false, a)], [Slot(false, b)]][0 := MarkSlot([Slot(false, a)], 0)] ==
            [[Slot(true, a)], [Slot(false, b)]]
  {
    assert [Slot(false, a)][0 := Slot(true, a)] == [Slot(true, a)];
  }
}
