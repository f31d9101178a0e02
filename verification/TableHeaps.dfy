/** The table heap object: every call does to the pool what its specification says, and on a heap in
    order it is an operation on the list of records. */
module TableHeaps {
  import opened Bytes
  import opened Options
  import opened SlottedPage
  import opened Disks
  import opened PoolSpec
  import opened PoolProofs
  import opened BufferPools
  import opened RecordPages
  import opened HeapSpec
  import opened HeapProofs
  import opened HeapRemoval
  import opened HeapRuns
  import opened HeapOpening
  import opened ScanModel

  class TableHeap {
    const pool: BufferPool

    ghost predicate Valid()
      reads pool.Repr()
      ensures Valid() ==> pool.Valid()
    {
      pool.Valid()
    }

    /** The live records of the heap, in order. */
    ghost function Records(): seq<Data>
      requires Valid() && HeapOk(pool.View())
      reads pool.Repr()
    {
      AllRecords(PageList(pool.View()))
    }

    constructor (p: BufferPool)
      requires p.Valid()
      ensures Valid() && pool == p
    {
      pool := p;
    }

    /** Opens the file of a heap, new or existing. */
    static method Open(existing: seq<Data>, size: nat) returns (heap: TableHeap)
      requires size > 0 && HeapFile(existing)
      ensures heap.Valid() && fresh(heap.pool.Repr()) && heap.pool.View() == OpenPool(size, existing)
      ensures HeapOk(heap.pool.View()) && !AllPinned(heap.pool.View())
    {
      hide *;
      OpenedHeap(size, existing);
      var p := BufferPool.Open(existing, size);
      heap := new TableHeap(p);
    }

    /** `RecordPage{page}` and `insert` on it. */
    method TryInsertInto(page: Page, ghost f: nat, rec: Data) returns (ok: bool)
      requires Valid() && f < |pool.pages| && pool.pages[f] == page
      requires PageOk(pool.View().frames[f].data) && |rec| < OpenFrame(pool.View(), f).head.end
      modifies page.buffer
      ensures Valid()
      ensures Attempt(ok, pool.View()) == TryInsert(old(pool.View()), f, rec)
    {
      hide PageOk, Enough, BytesAfterInsert, HeadAfterInsert, Fits, Layout, SlottedPage.Open, ReadWord, Shaped;
      ghost var s := pool.View();
      WiredBuffer(f);
      OpensAsPage(s.frames[f].data);
      var rp := new RecordPage();
      rp.Init(page);
      var slot := rp.Insert(rec);
      ok := slot.Some?;
      pool.BufferWritten(f);
    }

    lemma OpensAsPage(b: Data)
      requires PageOk(b)
      ensures Readable(b) && Agree(SlottedPage.Open(b).head, SlottedPage.Open(b).bytes)
      ensures Layout(SlottedPage.Open(b).head)
    {
      OpenAgrees(b);
    }

    lemma WiredBuffer(f: nat)
      requires Valid() && f < |pool.pages|
      ensures pool.pages[f].buffer.Length == PAGE_SIZE
      ensures pool.View().frames[f] == pool.pages[f].View()
    {}

    /** `new_page`, and the insert into the page it returned. */
    method InsertInNewPage(rec: Data) returns (ok: bool)
      requires Valid() && NewPageOpens(pool.View(), rec)
      modifies pool.Repr()
      ensures Valid() && Attempt(ok, pool.View()) == HeapSpec.InsertInNewPage(old(pool.View()), rec)
    {
      hide NewPage, TryInsert, Unpin, PageOk;
      ghost var s := pool.View();
      NewPageFrame(s, rec);
      var page, pid := pool.NewPage();
      if page == null {
        return false;
      }
      ok := TryInsertInto(page, NewPage(s).frame.value, rec);
      pool.Unpin(pid, true);
    }

    lemma NewPageFrame(s: Pool, rec: Data)
      requires Shaped(s) && NewPageOpens(s, rec)
      ensures NewPage(s).frame.Some? ==> PageOk(NewPage(s).pool.frames[NewPage(s).frame.value].data)
      ensures NewPage(s).frame.Some? ==> |rec| < OpenFrame(NewPage(s).pool, NewPage(s).frame.value).head.end
    {
      hide NewPage;
    }

    /** The page tried first, pinned; null if there is none and none can be made. */
    method FirstPage() returns (page: Page?, pid: nat)
      requires Valid()
      modifies pool.Repr()
      ensures Valid()
      ensures var h := HeapSpec.FirstPage(old(pool.View()));
        pool.View() == h.pool && pid == h.pid && page == pool.PageAt(h.frame)
    {
      hide NewPage, Fetch;
      pid := pool.disk.CurrentPageId();
      if pid == INVALID_ID || pid == 0 {
        page, pid := pool.NewPage();
      } else {
        page := pool.Fetch(pid);
      }
    }

    /** Stores a record, in the newest page if it fits there and else in a new one. */
    method Insert(rec: Data) returns (ok: bool)
      requires Valid() && InsertReady(pool.View(), rec)
      modifies pool.Repr()
      ensures Valid() && Attempt(ok, pool.View()) == HeapInsert(old(pool.View()), rec)
    {
      hide HeapSpec.FirstPage, HeapSpec.InsertInNewPage, TryInsert, Unpin, NewPageOpens;
      hide PageOk, Fits, SlottedPage.Open, Enough;
      ghost var s := pool.View();
      var page, pid := FirstPage();
      if page == null {
        return false;
      }
      ok := TryInsertInto(page, HeapSpec.FirstPage(s).frame.value, rec);
      if !ok {
        pool.Unpin(pid, false);
        ok := InsertInNewPage(rec);
      } else {
        pool.Unpin(pid, true);
      }
    }

    /** Marks a record deleted. */
    method Remove(pid: nat, slot: nat) returns (ok: bool)
      requires Valid() && RemoveReady(pool.View(), pid)
      modifies pool.Repr()
      ensures Valid() && Attempt(ok, pool.View()) == HeapRemove(old(pool.View()), pid, slot)
    {
      hide Fetch, Unpin, PageOk;
      ghost var s := pool.View();
      var page := pool.Fetch(pid);
      if page == null {
        return false;
      }
      ok := RemoveIn(page, Fetch(s, pid).frame.value, slot);
      pool.Unpin(pid, true);
    }

    method RemoveIn(page: Page, ghost f: nat, slot: nat) returns (ok: bool)
      requires Valid() && f < |pool.pages| && pool.pages[f] == page && PageOk(pool.View().frames[f].data)
      modifies page.buffer
      ensures Valid()
      ensures var s := old(pool.View()); var o := OpenFrame(s, f);
        && ok == (slot < |o.head.idx|)
        && pool.View() == Store(s, f, if ok then BytesAfterRemove(o.head, o.bytes, slot) else o.bytes)
    {
      hide PageOk, BytesAfterRemove, Layout, SlottedPage.Open, ReadWord, Shaped;
      ghost var s := pool.View();
      WiredBuffer(f);
      OpensAsPage(s.frames[f].data);
      var rp := new RecordPage();
      rp.Init(page);
      ok := rp.Remove(slot);
      pool.BufferWritten(f);
    }

    /** On a heap in order, a successful insert appends its record to the live records, and a failed
        one leaves them as they are. */
    method Append(rec: Data) returns (ok: bool)
      requires Valid() && CanInsert(pool.View(), rec)
      modifies pool.Repr()
      ensures Valid() && HeapOk(pool.View()) && Pins(pool.View()) == old(Pins(pool.View()))
      ensures Records() == old(Records()) + (if ok then [rec] else [])
    {
      hide HeapOk, AllRecords, PageList, Pins, HeapInsert, InsertReady, CanInsert;
      RefinedList(pool.View(), rec);
      ok := Insert(rec);
    }
  }
}
