/** The record scanner object, page scanner included. */
module RecordScanners {
  import opened Bytes
  import opened Options
  import opened SlottedPage
  import opened BitMaps
  import opened PoolSpec
  import opened PoolProofs
  import opened BufferPools
  import opened RecordPages
  import opened HeapSpec
  import opened HeapProofs
  import opened ScanModel
  import opened ScanSpec
  import opened ScanProofs

  class RecordScanner {
    const pool: BufferPool
    const rp: RecordPage
    // next_rid_, and whether the page scanner has a record page
    var pid: nat
    var slot: nat
    var isOpen: bool
    ghost var frame: nat

    ghost function View(): (c: Cursor)
      reads this, rp
      ensures c.pid == pid && c.slot == slot && c.frame == (if isOpen then Some(frame) else None)
    {
      Cursor(pid, slot, if isOpen then rp.View() else Head(0, 0, 0, []), if isOpen then Some(frame) else None)
    }

    ghost predicate Valid()
      reads this, rp, pool.Repr()
      ensures Valid() ==> pool.Valid() && |pool.View().frames| > 0 && this !in pool.Repr() && rp !in pool.Repr()
    {
      && pool.Valid() && this !in pool.Repr() && rp !in pool.Repr()
      && (isOpen ==> frame < |pool.pages| && rp.page == pool.pages[frame] && Layout(rp.View())
                     && pool.pages[frame].buffer.Length == PAGE_SIZE)
    }

    constructor (p: BufferPool)
      requires p.Valid()
      ensures Valid() && pool == p && !isOpen && fresh(rp)
      ensures p.View() == old(p.View())
    {
      pool := p;
      rp := new RecordPage();
      pid, slot, isOpen, frame := 0, 0, false, 0;
    }

    /** Fetch a page and, if that worked, open it. */
    method FetchAndOpen(id: nat) returns (found: bool, ghost f: nat)
      requires pool.Valid() && CanOpen(pool.View(), id)
      modifies rp, pool.Repr()
      ensures pool.Valid()
      ensures var o := ScanSpec.OpenPage(old(pool.View()), id);
        && pool.View() == o.pool && o.cursor.frame == (if found then Some(f) else None)
        && (found ==> f < |pool.pages| && rp.page == pool.pages[f] && rp.View() == o.cursor.head)
        && (found ==> pool.pages[f].buffer.Length == PAGE_SIZE && Layout(rp.View()))
    {
      hide Fetch, PageOk, Layout, BufferPools.BufferPool.Valid, BufferPools.BufferPool.View;
      ghost var s := pool.View();
      var page := pool.Fetch(id);
      found := page != null;
      f := 0;
      if found {
        f := Fetch(s, id).frame.value;
        OpenIn(page, f);
      }
    }

    /** Fetch a page and open it at its first slot. */
    method OpenPage(id: nat)
      requires Valid() && CanOpen(pool.View(), id)
      modifies this, rp, pool.Repr()
      ensures Valid()
      ensures var o := ScanSpec.OpenPage(old(pool.View()), id); pool.View() == o.pool && View() == o.cursor
    {
      hide ScanSpec.OpenPage, Layout, CanOpen, Shaped, Fetch, PageOk;
      hide BufferPools.BufferPool.Repr, BufferPools.BufferPool.Valid, BufferPools.BufferPool.View;
      CursorStart(pool.View(), id);
      var found;
      ghost var f;
      found, f := FetchAndOpen(id);
      pid, slot, isOpen, frame := id, 0, found, f;
    }

    lemma CursorStart(s: Pool, id: nat)
      requires Shaped(s) && CanOpen(s, id)
      ensures var c := ScanSpec.OpenPage(s, id).cursor;
        c.pid == id && c.slot == 0 && (c.frame.None? ==> c.head == Head(0, 0, 0, []))
    {}

    /** `rp_.init(page)`, seen from the pool. */
    method OpenIn(page: Page, ghost f: nat)
      requires pool.Valid() && f < |pool.pages| && pool.pages[f] == page && PageOk(pool.View().frames[f].data)
      modifies rp, page.buffer
      ensures pool.Valid() && rp.page == page && page.buffer.Length == PAGE_SIZE
      ensures var o := OpenFrame(old(pool.View()), f);
        rp.View() == o.head && pool.View() == Store(old(pool.View()), f, o.bytes)
    {
      ghost var s := pool.View();
      assert s.frames[f] == page.View();
      hide PageOk, Layout, SlottedPage.Open;
      PageOkReadable(s.frames[f].data);
      rp.Init(page);
      pool.BufferWritten(f);
    }

    lemma PageOkReadable(b: Data)
      requires PageOk(b)
      ensures Readable(b) && |b| == PAGE_SIZE && Layout(SlottedPage.Open(b).head)
    {}

    /** Starts at page 1. */
    method Init()
      requires Valid() && CanOpen(pool.View(), 1)
      modifies this, rp, pool.Repr()
      ensures Valid()
      ensures var o := ScanInit(old(pool.View())); pool.View() == o.pool && View() == o.cursor
    {
      OpenPage(1);
    }

    /** The page after the current one, by the bitmap. */
    method NextAllocated() returns (next: Option<nat>)
      requires Valid()
      ensures Valid() && pool.View() == old(pool.View()) && View() == old(View())
      ensures next == NextPid(pool.View(), View())
    {
      hide FirstFrom, Layout;
      next := pool.head.bitmap.FirstAfter(true, pid);
    }

    /** Whether there is a slot to visit; moves on to the next allocated page, releasing the current
        one, when the current page is used up. */
    method HasNext() returns (more: bool)
      requires Valid() && isOpen && HasNextReady(pool.View(), View())
      modifies this, rp, pool.Repr()
      ensures Valid()
      ensures Moved(more, pool.View(), View()) == ScanSpec.HasNext(old(pool.View()), old(View()))
    {
      hide Unpin, ScanSpec.OpenPage, CanOpen, FirstFrom, Layout, Shaped, BufferPools.BufferPool.View;
      hide BufferPools.BufferPool.Valid, BufferPools.BufferPool.Repr;
      if slot < |rp.recIdx| {
        return true;
      }
      var next := NextAllocated();
      pool.Unpin(pid, false);
      if next == None {
        return false;
      }
      OpenPage(next.value);
      more := !isOpen || 0 < |rp.recIdx|;
    }

    /** One turn of the page scanner's loop: end of the page, a deleted slot, or a record. */
    method Visit() returns (done: bool, outcome: Outcome)
      requires Valid() && isOpen
      modifies `slot
      ensures Valid() && pool.View() == old(pool.View())
      ensures old(slot) >= |rp.recIdx| ==> done && outcome == OutOfRange && View() == old(View())
      ensures old(slot) < |rp.recIdx| ==>
        && done == !IsDeleted(old(pool.View()), old(View()), old(slot))
        && View() == old(View()).(slot := old(slot) + 1)
        && (done ==>
              outcome == Got(SlotAt(rp.View(), old(pool.View()).frames[frame].data, old(slot)).bytes, pid, old(slot)))
    {
      hide Layout, BufferPools.BufferPool.Repr;
      assert pool.View().frames[frame] == rp.page.View();
      var contained := rp.Contain(slot);
      var got := rp.Get(slot);
      done := contained != Deleted;
      outcome := if contained == Present then Got(got.value, pid, slot) else OutOfRange;
      if contained != BeyondEnd {
        slot := slot + 1;
      }
    }

    /** The next live record of the open page. */
    method PageNext() returns (outcome: Outcome)
      requires Valid() && isOpen
      modifies `slot
      ensures Valid() && pool.View() == old(pool.View())
      ensures Nexted(outcome, pool.View(), View()) == ScanSpec.PageNext(old(pool.View()), old(View()))
    {
      hide Shaped, PageOk, Layout, IsDeleted, SlotAt;
      hide BufferPools.BufferPool.Valid, BufferPools.BufferPool.View, BufferPools.BufferPool.Repr;
      ghost var s := pool.View();
      ghost var c := View();
      var done := false;
      outcome := OutOfRange;
      while !done
        invariant Valid() && isOpen && pool.View() == s && CursorOk(s, View())
        invariant if done then ScanSpec.PageNext(s, c) == Nexted(outcome, s, View())
                  else ScanSpec.PageNext(s, View()) == ScanSpec.PageNext(s, c)
        decreases !done, |rp.recIdx| - slot
      {
        done, outcome := Visit();
      }
    }

    method Next() returns (outcome: Outcome)
      requires Valid() && isOpen && NextReady(pool.View(), View())
      modifies this, rp, pool.Repr()
      ensures Valid()
      ensures Nexted(outcome, pool.View(), View()) == ScanSpec.Next(old(pool.View()), old(View()))
    {
      hide ScanSpec.HasNext, ScanSpec.OpenPage, ScanSpec.PageNext, CanOpen, HasNextReady, Layout;
      var more := HasNext();
      if !more {
        return OutOfRange;
      }
      if !isOpen {
        OpenPage(pid);
        if !isOpen {
          return InternalError;
        }
      }
      outcome := PageNext();
    }

    /** `~RecordScanner`: one unpin of the page the cursor names. */
    method Destroy()
      requires Valid()
      modifies pool.Repr()
      ensures pool.Valid() && pool.View() == Unpin(old(pool.View()), old(pid), false)
    {
      pool.Unpin(pid, false);
    }
  }
}
