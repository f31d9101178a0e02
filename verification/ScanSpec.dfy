/** The record scanner over the pool: what `RecordScanner::init/has_next/next` do to pool and cursor. */
module ScanSpec {
  import opened Bytes
  import opened Options
  import opened SlottedPage
  import opened BitMaps
  import opened PoolSpec
  import opened HeapSpec

  /** The scanner's members: the RID to visit next, and the record page it has open; None stands for
      the null record page after a failed fetch. */
  datatype Cursor = Cursor(pid: nat, slot: nat, head: Head, frame: Option<nat>)

  datatype Moved = Moved(more: bool, pool: Pool, cursor: Cursor)

  datatype Outcome =
    | Got(rec: Data, page: nat, slot: nat)
    | OutOfRange
    | InternalError

  datatype Nexted = Nexted(outcome: Outcome, pool: Pool, cursor: Cursor)

  /** The open page is one the cursor's header belongs to. */
  ghost predicate CursorOk(s: Pool, c: Cursor)
    requires Shaped(s)
  {
    c.frame.Some? && c.frame.value < |s.frames| && Layout(c.head)
  }

  ghost predicate CanOpen(s: Pool, id: nat)
    requires Shaped(s)
  {
    Fetch(s, id).frame.Some? ==> PageOk(Fetch(s, id).pool.frames[Fetch(s, id).frame.value].data)
  }

  /** Fetch page `id` and open it at its first slot. */
  function OpenPage(s: Pool, id: nat): (r: Moved)
    requires Shaped(s) && CanOpen(s, id)
    ensures Shaped(r.pool) && |r.pool.frames| == |s.frames|
    ensures r.cursor.frame.Some? ==> CursorOk(r.pool, r.cursor)
  {
    var h := Fetch(s, id);
    if h.frame.None? then Moved(false, h.pool, Cursor(id, 0, Head(0, 0, 0, []), None))
    else
      var o := OpenFrame(h.pool, h.frame.value);
      Moved(true, Store(h.pool, h.frame.value, o.bytes), Cursor(id, 0, o.head, h.frame))
  }

  /** `RecordScanner::init`: page 1, whether or not the heap has one. */
  function ScanInit(s: Pool): (r: Moved)
    requires Shaped(s) && CanOpen(s, 1)
    ensures Shaped(r.pool) && r.cursor.pid == 1 && r.cursor.slot == 0
  {
    OpenPage(s, 1)
  }

  /** The next allocated page, once the current one is used up. */
  function NextPid(s: Pool, c: Cursor): Option<nat>
  {
    FirstFrom(s.head.bits, true, c.pid + 1)
  }

  ghost predicate HasNextReady(s: Pool, c: Cursor)
    requires Shaped(s) && |s.frames| > 0
  {
    c.slot >= |c.head.idx| && NextPid(s, c).Some? ==> CanOpen(Unpin(s, c.pid, false), NextPid(s, c).value)
  }

  /** `has_next`. A failed fetch of the next page still answers true, with no page open. */
  function HasNext(s: Pool, c: Cursor): (r: Moved)
    requires Shaped(s) && |s.frames| > 0 && CursorOk(s, c) && HasNextReady(s, c)
    ensures Shaped(r.pool) && |r.pool.frames| == |s.frames|
    ensures r.cursor.frame.Some? ==> CursorOk(r.pool, r.cursor)
  {
    if c.slot < |c.head.idx| then Moved(true, s, c)
    else
      var next := NextPid(s, c);
      var s1 := Unpin(s, c.pid, false);
      if next.None? then Moved(false, s1, c)
      else
        var o := OpenPage(s1, next.value);
        Moved(o.cursor.frame.None? || 0 < |o.cursor.head.idx|, o.pool, o.cursor)
  }

  /** `RecordPage::contain` says deleted: the mark byte of the slot. */
  predicate IsDeleted(s: Pool, c: Cursor, slot: nat)
    requires Shaped(s) && CursorOk(s, c) && slot < |c.head.idx|
  {
    s.frames[c.frame.value].data[c.head.idx[slot]] == 1
  }

  /** `PageRecordScanner::next`: skip deleted slots, stop at the end of the page. */
  function PageNext(s: Pool, c: Cursor): (r: Nexted)
    requires Shaped(s) && CursorOk(s, c)
    ensures r.pool == s
    decreases |c.head.idx| - c.slot
  {
    if c.slot >= |c.head.idx| then Nexted(OutOfRange, s, c)
    else if IsDeleted(s, c, c.slot) then PageNext(s, c.(slot := c.slot + 1))
    else
      Nexted(Got(SlotAt(c.head, s.frames[c.frame.value].data, c.slot).bytes, c.pid, c.slot),
             s, c.(slot := c.slot + 1))
  }

  ghost predicate NextReady(s: Pool, c: Cursor)
    requires Shaped(s) && |s.frames| > 0 && CursorOk(s, c)
  {
    && HasNextReady(s, c)
    && var h := HasNext(s, c); (h.more && h.cursor.frame.None? ==> CanOpen(h.pool, h.cursor.pid))
  }

  /** `RecordScanner::next`. */
  function Next(s: Pool, c: Cursor): (r: Nexted)
    requires Shaped(s) && |s.frames| > 0 && CursorOk(s, c) && NextReady(s, c)
    ensures Shaped(r.pool)
  {
    var h := HasNext(s, c);
    if !h.more then Nexted(OutOfRange, h.pool, h.cursor)
    else if h.cursor.frame.Some? then PageNext(h.pool, h.cursor)
    else
      var o := OpenPage(h.pool, h.cursor.pid);
      if o.cursor.frame.None? then Nexted(InternalError, o.pool, o.cursor)
      else PageNext(o.pool, o.cursor)
  }
}
