/** The table heap over the pool: what `TableHeap::insert` and `remove` do to the whole state. */
module HeapSpec {
  import opened Bytes
  import opened Options
  import opened SlottedPage
  import opened Disks
  import opened PoolSpec

  /** The record page `RecordPage{page}` builds from the bytes of frame `f`. */
  function OpenFrame(s: Pool, f: nat): (o: Opened)
    requires Shaped(s) && f < |s.frames| && PageOk(s.frames[f].data)
    ensures |o.bytes| == PAGE_SIZE && Layout(o.head)
  {
    Open(s.frames[f].data)
  }

  datatype Attempt = Attempt(ok: bool, pool: Pool)

  datatype PageAttempt = PageAttempt(ok: bool, bytes: Data)

  /** Open a page and try to add `rec` to it: the answer and the bytes left behind. */
  function TryPage(b: Data, rec: Data): (r: PageAttempt)
    requires PageOk(b) && |rec| < Open(b).head.end
    ensures |r.bytes| == PAGE_SIZE
  {
    var o := Open(b);
    EnoughFits(o.head, |rec|);
    if Enough(o.head, |rec|) then PageAttempt(true, BytesAfterInsert(o.head, o.bytes, rec))
    else PageAttempt(false, o.bytes)
  }

  function TryInsert(s: Pool, f: nat, rec: Data): (r: Attempt)
    requires Shaped(s) && f < |s.frames| && PageOk(s.frames[f].data)
    requires |rec| < OpenFrame(s, f).head.end
    ensures Shaped(r.pool) && |r.pool.frames| == |s.frames|
  {
    var a := TryPage(s.frames[f].data, rec);
    Attempt(a.ok, Store(s, f, a.bytes))
  }

  /** The page a fresh `new_page` hands out opens empty. */
  ghost predicate NewPageOpens(s: Pool, rec: Data)
    requires Shaped(s)
  {
    var c := NewPage(s);
    c.frame.Some? ==>
      PageOk(c.pool.frames[c.frame.value].data) &&
      |rec| < OpenFrame(c.pool, c.frame.value).head.end
  }

  /** `new_page`, open, insert, unpin as dirty: the last resort of `TableHeap::insert`. */
  function InsertInNewPage(s: Pool, rec: Data): (r: Attempt)
    requires Shaped(s) && |s.frames| > 0 && NewPageOpens(s, rec)
    ensures Shaped(r.pool) && |r.pool.frames| == |s.frames|
  {
    var c := NewPage(s);
    if c.frame.None? then Attempt(false, c.pool)
    else
      var a := TryInsert(c.pool, c.frame.value, rec);
      Attempt(a.ok, Unpin(a.pool, c.id, true))
  }

  datatype Held = Held(frame: Option<nat>, pid: nat, pool: Pool)

  /** The page `insert` tries first: the newest one, or a new one if there is none yet. */
  function FirstPage(s: Pool): (r: Held)
    requires Shaped(s)
    ensures Shaped(r.pool) && |r.pool.frames| == |s.frames|
    ensures r.frame.Some? ==> r.frame.value < |s.frames|
  {
    var pid := CurrentPid(s.disk);
    if pid == INVALID_ID || pid == 0 then
      var c := NewPage(s);
      Held(c.frame, c.id, c.pool)
    else
      var r := Fetch(s, pid);
      Held(r.frame, pid, r.pool)
  }

  /** What the calls made by `insert` need: the page tried first can be opened and is longer than the
      record, a failed first try can be repeated in a new page, and the fetch of an existing page
      succeeds (`RecordPage::init` asserts a page). */
  ghost predicate InsertReady(s: Pool, rec: Data)
    requires Shaped(s) && |s.frames| > 0
  {
    var h := FirstPage(s);
    && (h.frame.None? ==> CurrentPid(s.disk) == INVALID_ID || CurrentPid(s.disk) == 0)
    && (h.frame.Some? ==>
          && PageOk(h.pool.frames[h.frame.value].data)
          && |rec| < OpenFrame(h.pool, h.frame.value).head.end
          && (!TryInsert(h.pool, h.frame.value, rec).ok ==>
                NewPageOpens(Unpin(TryInsert(h.pool, h.frame.value, rec).pool, h.pid, false), rec)))
  }

  function HeapInsert(s: Pool, rec: Data): (r: Attempt)
    requires Shaped(s) && |s.frames| > 0 && InsertReady(s, rec)
    ensures Shaped(r.pool) && |r.pool.frames| == |s.frames|
  {
    var h := FirstPage(s);
    if h.frame.None? then Attempt(false, h.pool)
    else
      var a := TryInsert(h.pool, h.frame.value, rec);
      if a.ok then Attempt(true, Unpin(a.pool, h.pid, true))
      else InsertInNewPage(Unpin(a.pool, h.pid, false), rec)
  }

  // ---------------------------------------------------------------- remove

  ghost predicate RemoveReady(s: Pool, pid: nat)
    requires Shaped(s) && |s.frames| > 0
  {
    Fetch(s, pid).frame.Some? ==> PageOk(Fetch(s, pid).pool.frames[Fetch(s, pid).frame.value].data)
  }

  function HeapRemove(s: Pool, pid: nat, slot: nat): (r: Attempt)
    requires Shaped(s) && |s.frames| > 0 && RemoveReady(s, pid)
    ensures Shaped(r.pool) && |r.pool.frames| == |s.frames|
  {
    var h := Fetch(s, pid);
    if h.frame.None? then Attempt(false, h.pool)
    else
      var o := OpenFrame(h.pool, h.frame.value);
      var ok := slot < |o.head.idx|;
      var b := if ok then BytesAfterRemove(o.head, o.bytes, slot) else o.bytes;
      Attempt(ok, Unpin(Store(h.pool, h.frame.value, b), pid, true))
  }
}
