/** The heap end to end: runs of inserts from a new file, then a scan. */
module HeapRuns {
  import opened Bytes
  import opened Options
  import opened Sequences
  import opened SlottedPage
  import opened Disks
  import opened PoolSpec
  import opened PoolProofs
  import opened HeapSpec
  import opened HeapProofs
  import opened HeapOpening
  import opened Durability
  import opened ScanModel
  import opened ScanSpec
  import opened ScanProofs

  // ---------------------------------------------------------------- inserts on lists of pages

  lemma {:induction false} LiveAppend(a: seq<Slot>, x: Slot)
    ensures LiveIn(a + [x]) == LiveIn(a) + (if x.deleted then [] else [x.bytes])
  {
    if a == [] {
      assert a + [x] == [x];
    } else {
      assert (a + [x])[1..] == a[1..] + [x];
      LiveAppend(a[1..], x);
    }
  }

  lemma AllRecordsLast(pages: Pages, last: seq<Slot>)
    ensures AllRecords(pages + [last]) == AllRecords(pages) + LiveIn(last)
  {
    AllRecordsAppend(pages, [last]);
    assert AllRecords([last]) == LiveIn(last) + AllRecords([last][1..]);
  }

  /** A successful insert appends its record to the live records; a failed one leaves them alone. */
  lemma InsertAppendsRecord(pages: Pages, rec: Data)
    ensures var r := ModelInsert(pages, rec);
      AllRecords(r.pages) == AllRecords(pages) + (if r.ok then [rec] else [])
  {
    hide Room, AllRecords, LiveIn;
    EmptyRecords();
    LiveAppend([], Slot(false, rec));
    var empty: seq<Slot> := [];
    assert empty + [Slot(false, rec)] == [Slot(false, rec)];
    if pages != [] && Room(Last(pages), |rec|) {
      LiveAppend(Last(pages), Slot(false, rec));
      AllRecordsLast(Front(pages), Last(pages));
      AllRecordsLast(Front(pages), Last(pages) + [Slot(false, rec)]);
    } else {
      AllRecordsLast(pages, [Slot(false, rec)]);
      AllRecordsLast(pages, []);
      var none: Pages := [];
      AllRecordsLast(none, []);
      AllRecordsLast(none + [[]], []);
      assert none + [[]] + [[]] == [[], []];
    }
  }

  lemma EmptyRecords()
    ensures AllRecords([]) == [] && LiveIn([]) == []
  {}

  /** No page of the list stops a scan. */
  ghost predicate Unblocked(pages: Pages)
  {
    forall k :: 0 <= k < |pages| ==> pages[k] != [] && !pages[k][|pages[k]| - 1].deleted
  }

  lemma InsertUnblocked(pages: Pages, rec: Data)
    requires Unblocked(pages) && ModelInsert(pages, rec).ok
    ensures Unblocked(ModelInsert(pages, rec).pages) && ModelInsert(pages, rec).pages != []
  {
    hide Room;
  }

  // ---------------------------------------------------------------- runs on the pool

  /** What one insert of a run needs: a frame to work in, an id for a new page should it take one, and
      a record the space test does not wrap on. */
  ghost predicate CanInsert(s: Pool, rec: Data)
  {
    HeapOk(s) && NewestReachable(s) && Guard(PageList(s), rec) && HasPlace(s, rec)
  }

  ghost predicate CanInsertAll(s: Pool, recs: seq<Data>)
    decreases |recs|
  {
    recs == [] ||
    (CanInsert(s, recs[0]) &&
      (InsertRefines(s, recs[0]); CanInsertAll(HeapInsert(s, recs[0]).pool, recs[1..])))
  }

  datatype Ran = Ran(pool: Pool, stored: seq<Data>)

  /** Run the inserts; `stored` collects the records whose insert answered true. */
  ghost function InsertAll(s: Pool, recs: seq<Data>): Ran
    requires CanInsertAll(s, recs)
    decreases |recs|
  {
    if recs == [] then Ran(s, [])
    else
      InsertRefines(s, recs[0]);
      var r := HeapInsert(s, recs[0]);
      var rest := InsertAll(r.pool, recs[1..]);
      Ran(rest.pool, (if r.ok then [recs[0]] else []) + rest.stored)
  }

  /** Any run of inserts, whichever succeed, adds exactly the records reported stored, in order; and a
      run of successes leaves no page that would stop a scan. */
  lemma {:induction false} RunAppends(s: Pool, recs: seq<Data>)
    requires HeapOk(s) && CanInsertAll(s, recs)
    ensures var r := InsertAll(s, recs);
      && HeapOk(r.pool) && Pins(r.pool) == Pins(s)
      && AllRecords(PageList(r.pool)) == AllRecords(PageList(s)) + r.stored
      && |r.stored| <= |recs|
      && (|r.stored| == |recs| ==> r.stored == recs)
      && (|r.stored| == |recs| && Unblocked(PageList(s)) ==> Unblocked(PageList(r.pool)))
      && (PageList(s) != [] || recs != [] ==> PageList(r.pool) != [])
    decreases |recs|
  {
    hide *;
    RunUnfolds(s, recs);
    if recs != [] {
      RefinedList(s, recs[0]);
      RunAppends(HeapInsert(s, recs[0]).pool, recs[1..]);
      Sum(AllRecords(PageList(s)), recs, HeapInsert(s, recs[0]).ok,
          InsertAll(HeapInsert(s, recs[0]).pool, recs[1..]).stored);
    }
  }

  lemma RunUnfolds(s: Pool, recs: seq<Data>)
    requires CanInsertAll(s, recs)
    ensures recs == [] ==> InsertAll(s, recs) == Ran(s, [])
    ensures recs != [] ==> CanInsert(s, recs[0]) && InsertReady(s, recs[0])
    ensures recs != [] ==>
      var r := HeapInsert(s, recs[0]);
      CanInsertAll(r.pool, recs[1..]) &&
      var rest := InsertAll(r.pool, recs[1..]);
      InsertAll(s, recs) == Ran(rest.pool, (if r.ok then [recs[0]] else []) + rest.stored)
  {
    if recs != [] {
      InsertRefines(s, recs[0]);
      hide HeapInsert, InsertReady, HeapOk, AllPinned, Guard, HasPlace, Refines;
    }
  }

  lemma Sum(a: seq<Data>, recs: seq<Data>, ok: bool, rest: seq<Data>)
    requires recs != [] && |rest| <= |recs| - 1 && (|rest| == |recs| - 1 ==> rest == recs[1..])
    ensures var one := if ok then [recs[0]] else [];
      && (a + one) + rest == a + (one + rest)
      && |one + rest| <= |recs|
      && (|one + rest| == |recs| ==> ok && |rest| == |recs| - 1 && one + rest == recs)
  {
    if ok {
      assert recs == [recs[0]] + recs[1..];
    }
  }

  lemma RefinedList(s: Pool, rec: Data)
    requires CanInsert(s, rec)
    ensures InsertReady(s, rec)
    ensures var r := HeapInsert(s, rec);
      && HeapOk(r.pool) && Pins(r.pool) == Pins(s)
      && AllRecords(PageList(r.pool)) == AllRecords(PageList(s)) + (if r.ok then [rec] else [])
      && PageList(r.pool) != []
      && (r.ok && Unblocked(PageList(s)) ==> Unblocked(PageList(r.pool)))
  {
    hide HeapOk, PageList, Pins, AllRecords, HeapInsert, InsertReady, AllPinned, Guard, HasPlace, Unblocked;
    InsertRefines(s, rec);
    InsertAppendsRecord(PageList(s), rec);
    if ModelInsert(PageList(s), rec).ok && Unblocked(PageList(s)) {
      InsertUnblocked(PageList(s), rec);
    }
  }

  // ---------------------------------------------------------------- end to end

  lemma UnblockedScan(pages: Pages)
    requires Unblocked(pages) && pages != []
    ensures AllRecords(pages[..ScanEnd(pages, 0)]) == AllRecords(pages)
    ensures !Blocks(pages, ScanEnd(pages, 0) - 1)
  {
    ScanEndAll(pages, 0);
    assert pages[..|pages|] == pages;
  }

  /** A heap of `n` frames on a new file. */
  ghost function NewHeap(n: nat): (s: Pool)
    requires n > 0
    ensures HeapOk(s) && PageList(s) == [] && !AllPinned(s)
  {
    NewFile();
    FreshHeap(n);
    OpenPool(n, [])
  }

  lemma AvailableAfter(s: Pool, r: Pool)
    requires Pins(r) == Pins(s) && !AllPinned(s)
    ensures !AllPinned(r)
  {
    AllPinnedIs(s);
    AllPinnedIs(r);
  }

  lemma PageCount(s: Pool)
    requires HeapOk(s)
    ensures PageList(s) != [] <==> s.disk.next > 1
  {
    hide HeapOk;
  }

  /** From a new file, with any number of frames, after any non-empty run of successful inserts, a full
      scan returns exactly the inserted records, each once, in insertion order, whatever pages were
      evicted on the way; and when it ends every pin is back where it was. */
  lemma InsertThenScan(n: nat, recs: seq<Data>)
    requires n > 0 && recs != [] && CanInsertAll(NewHeap(n), recs)
    requires InsertAll(NewHeap(n), recs).stored == recs
    ensures var s := InsertAll(NewHeap(n), recs).pool;
      && HeapOk(s) && s.disk.next > 1 && !AllPinned(s)
      && ScanAll(s).recs == recs && ScanAll(s).outcome == OutOfRange
      && Pins(ScanAll(s).pool) == Pins(s)
  {
    EmptyRecords();
    EmptyUnblocked();
    hide *;
    RunAppends(NewHeap(n), recs);
    var s := InsertAll(NewHeap(n), recs).pool;
    AvailableAfter(NewHeap(n), s);
    PageCount(s);
    FreeFrameScans(s);
    ScanAllIs(s);
    UnblockedScan(PageList(s));
  }

  lemma FreeFrameScans(s: Pool)
    requires !AllPinned(s)
    ensures CanScanAll(s)
  {}

  lemma EmptyUnblocked()
    ensures Unblocked([])
  {}

  /** The same list comes back after the heap was closed, in whatever order its dirty pages were written,
      and its file opened again with any number of frames. */
  lemma InsertCloseReopenScan(n: nat, recs: seq<Data>, order: seq<nat>, m: nat)
    requires n > 0 && m > 0 && recs != [] && CanInsertAll(NewHeap(n), recs)
    requires InsertAll(NewHeap(n), recs).stored == recs && Closable(InsertAll(NewHeap(n), recs).pool, order)
    ensures HeapFile(Closed(InsertAll(NewHeap(n), recs).pool, order).file)
    ensures var t := OpenPool(m, Closed(InsertAll(NewHeap(n), recs).pool, order).file);
      && HeapOk(t) && t.disk.next > 1 && !AllPinned(t)
      && ScanAll(t).recs == recs
  {
    EmptyRecords();
    EmptyUnblocked();
    hide *;
    RunAppends(NewHeap(n), recs);
    var s := InsertAll(NewHeap(n), recs).pool;
    AvailableAfter(NewHeap(n), s);
    CloseAndReopen(s, order, m);
    var t := OpenPool(m, Closed(s, order).file);
    PageCount(t);
    FreeFrameScans(t);
    ScanAllIs(t);
    UnblockedScan(PageList(t));
  }

  // ---------------------------------------------------------------- which inserts succeed

  /** An empty page takes a record exactly when it has at most 990 bytes. */
  lemma RoomInNewPage(size: nat)
    ensures Room([], size) <==> size <= 990
  {}

  lemma LastPageEnd(s: Pool)
    requires HeapOk(s) && s.disk.next > 1
    ensures PageList(s) != []
    ensures exists h :: Layout(h) && h.end == PAGE_SIZE - Footprint(Last(PageList(s)))
  {
    var b := Logical(s, s.disk.next - 1);
    assert DataPage(b);
    OpenAgrees(b);
    FreeEnd(Open(b).head, Open(b).bytes);
    hide HeapPool, Logical, Slots, Agree, Footprint, ReadWord;
  }

  lemma SmallGuard(s: Pool, rec: Data)
    requires HeapOk(s) && |rec| <= 32
    ensures Guard(PageList(s), rec)
  {
    PageCount(s);
    if s.disk.next > 1 {
      LastPageEnd(s);
      hide HeapOk, PageList, Footprint;
      var h :| Layout(h) && h.end == PAGE_SIZE - Footprint(Last(PageList(s)));
      SmallNeverWraps(h, |rec|);
    }
  }

  lemma MayInsert(s: Pool, rec: Data)
    requires HeapOk(s) && !AllPinned(s) && s.disk.next <= BFP_MAX_PAGE_NUM && Guard(PageList(s), rec)
    ensures CanInsert(s, rec) && InsertReady(s, rec)
    ensures HeapInsert(s, rec).ok == ModelInsert(PageList(s), rec).ok
  {
    hide HeapOk, AllPinned, PageList, HeapInsert, InsertReady, Guard, ModelInsert;
    InsertRefines(s, rec);
  }

  /** A record of at most 990 bytes that the space test does not wrap on is always stored; one of at
      most 32 bytes never makes it wrap. */
  lemma ShortRecordsStored(s: Pool, rec: Data)
    requires HeapOk(s) && !AllPinned(s) && s.disk.next <= BFP_MAX_PAGE_NUM
    requires |rec| <= 32 || (|rec| <= 990 && Guard(PageList(s), rec))
    ensures CanInsert(s, rec) && InsertReady(s, rec) && HeapInsert(s, rec).ok
  {
    if |rec| <= 32 {
      SmallGuard(s, rec);
    }
    RoomInNewPage(|rec|);
    MayInsert(s, rec);
    hide HeapOk, AllPinned, PageList, HeapInsert, InsertReady, Guard, CanInsert, Room;
  }

  // ---------------------------------------------------------------- runs of short records

  /** An insert leaves at least one page and adds at most two. */
  lemma InsertPages(pages: Pages, rec: Data)
    ensures var q := ModelInsert(pages, rec);
      |pages| <= |q.pages| <= |pages| + (if q.ok then 1 else 2) && q.pages != []
  {
    hide Room;
  }

  lemma NextAfterInsert(s: Pool, rec: Data)
    requires CanInsert(s, rec)
    ensures InsertReady(s, rec)
    ensures var r := HeapInsert(s, rec);
      HeapOk(r.pool) && r.pool.disk.next <= s.disk.next + (if r.ok then 1 else 2)
  {
    hide HeapOk, PageList, Pins, HeapInsert, InsertReady, AllPinned, Guard, HasPlace, ModelInsert;
    InsertRefines(s, rec);
    InsertPages(PageList(s), rec);
    PageListLength(s);
    PageListLength(HeapInsert(s, rec).pool);
  }

  lemma Cons(s: Pool, rec: Data, rest: seq<Data>)
    requires CanInsert(s, rec) && InsertReady(s, rec) && CanInsertAll(HeapInsert(s, rec).pool, rest)
    ensures CanInsertAll(s, [rec] + rest)
  {
    hide CanInsert, InsertReady, HeapInsert;
    assert ([rec] + rest)[1..] == rest;
  }

  lemma StoredMore(s: Pool, rec: Data, rest: seq<Data>)
    requires CanInsert(s, rec) && InsertReady(s, rec) && HeapInsert(s, rec).ok
    requires CanInsertAll(HeapInsert(s, rec).pool, rest) && CanInsertAll(s, [rec] + rest)
    requires InsertAll(HeapInsert(s, rec).pool, rest).stored == rest
    ensures InsertAll(s, [rec] + rest).stored == [rec] + rest
  {
    hide CanInsert, InsertReady, HeapInsert, InsertAll, CanInsertAll;
    assert ([rec] + rest)[1..] == rest;
    RunUnfolds(s, [rec] + rest);
  }

  lemma NoneStored(s: Pool)
    ensures CanInsertAll(s, []) && InsertAll(s, []).stored == []
  {}

  /** With an unpinned frame and a page id for each, records of at most 32 bytes are all stored. */
  lemma {:induction false} ShortRunStored(s: Pool, recs: seq<Data>)
    requires HeapOk(s) && !AllPinned(s) && s.disk.next + |recs| <= BFP_MAX_PAGE_NUM + 1
    requires forall i :: 0 <= i < |recs| ==> |recs[i]| <= 32
    ensures CanInsertAll(s, recs) && InsertAll(s, recs).stored == recs
    decreases |recs|
  {
    hide *;
    if recs == [] {
      NoneStored(s);
    } else {
      var rec, rest := recs[0], recs[1..];
      assert recs == [rec] + rest;
      ShortRecordsStored(s, rec);
      NextAfterInsert(s, rec);
      RefinedList(s, rec);
      AvailableAfter(s, HeapInsert(s, rec).pool);
      ShortRunStored(HeapInsert(s, rec).pool, rest);
      Cons(s, rec, rest);
      StoredMore(s, rec, rest);
    }
  }

  /** Up to 8064 records of at most 32 bytes, inserted into a new file, come back from a scan, for every
      pool size. */
  lemma ShortRunThenScan(n: nat, recs: seq<Data>)
    requires n > 0 && 0 < |recs| <= BFP_MAX_PAGE_NUM && forall i :: 0 <= i < |recs| ==> |recs[i]| <= 32
    ensures CanInsertAll(NewHeap(n), recs)
    ensures var s := InsertAll(NewHeap(n), recs).pool;
      HeapOk(s) && s.disk.next > 1 && CanScanAll(s) && ScanAll(s).recs == recs
  {
    hide *;
    NewHeapEmpty(n);
    ShortRunStored(NewHeap(n), recs);
    InsertThenScan(n, recs);
    FreeFrameScans(InsertAll(NewHeap(n), recs).pool);
  }

  lemma NewHeapEmpty(n: nat)
    requires n > 0
    ensures HeapOk(NewHeap(n)) && !AllPinned(NewHeap(n)) && NewHeap(n).disk.next == 1
  {
    PageListLength(NewHeap(n));
    hide HeapOk, PageList, AllPinned;
  }
}
