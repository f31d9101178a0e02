/** The buffer pool as a state machine: what each `BufferPool` method does to the whole state. */
module PoolSpec {
  import opened Bytes
  import opened Options
  import opened Sequences
  import opened SlottedPage
  import opened BitMaps
  import opened Replacers
  import opened Disks

  // (PAGE_SIZE - 2 * sizeof(size_t)) * 8: the bits that fit in the header page
  const BFP_MAX_PAGE_NUM: nat := 8064

  datatype Frame = Frame(data: Data, pid: nat, pin: nat, dirty: bool)

  datatype Header = Header(pageNum: nat, phyNum: nat, bits: Data)

  /** `lru` lists the evictable frames, most recently released first. */
  datatype Pool = Pool(dir: map<nat, nat>, free: seq<nat>, frames: seq<Frame>, lru: seq<nat>,
                       disk: Disk, head: Header)

  /** Every stored frame number is a frame of the pool and every buffer a whole page. */
  ghost predicate Shaped(s: Pool)
  {
    && (forall p :: p in s.dir ==> s.dir[p] < |s.frames|)
    && (forall f :: f in s.free ==> f < |s.frames|)
    && (forall f :: f in s.lru ==> f < |s.frames|)
    && (forall f :: 0 <= f < |s.frames| ==> |s.frames[f].data| == PAGE_SIZE)
    && WholePages(s.disk)
  }

  const EMPTY_FRAME := Frame(Zeros(PAGE_SIZE), INVALID_ID, 0, false)

  /** `page` found, and the pool after the call; None is the null pointer. */
  datatype Fetched = Fetched(frame: Option<nat>, pool: Pool)

  // ---------------------------------------------------------------- frames

  /** `victim`: the back of the free list, else the frame released longest ago. */
  function Victim(s: Pool): (r: Fetched)
    requires Shaped(s)
    ensures Shaped(r.pool) && |r.pool.frames| == |s.frames|
    ensures r.frame.Some? ==> r.frame.value < |s.frames|
  {
    if s.free != [] then
      Fetched(Some(Last(s.free)), s.(free := Front(s.free)))
    else if s.lru != [] then
      Fetched(Some(Last(s.lru)), s.(lru := Front(s.lru)))
    else Fetched(None, s)
  }

  function FlushPage(s: Pool, id: nat): (r: Pool)
    requires Shaped(s)
    ensures Shaped(r) && |r.frames| == |s.frames|
  {
    if id in s.dir then s.(disk := Written(s.disk, id, s.frames[s.dir[id]].data)) else s
  }

  function WithFrame(s: Pool, f: nat, fr: Frame): (r: Pool)
    requires Shaped(s) && f < |s.frames| && |fr.data| == PAGE_SIZE
    ensures Shaped(r) && |r.frames| == |s.frames|
  {
    s.(frames := s.frames[f := fr])
  }

  /** `change_correspondence`: write the old page back if dirty, then bind the frame to `pid`. */
  function Rebind(s: Pool, f: nat, pid: nat): (r: Pool)
    requires Shaped(s) && f < |s.frames|
    ensures Shaped(r) && |r.frames| == |s.frames|
  {
    var fr := s.frames[f];
    var s1 := if fr.dirty then FlushPage(s, fr.pid) else s;
    s1.(dir := (s1.dir - {fr.pid})[pid := f],
        frames := s1.frames[f := Frame(Zeros(PAGE_SIZE), pid, 0, false)])
  }

  // ---------------------------------------------------------------- the public calls

  /** `fetch` of a resident page. */
  function FetchHit(s: Pool, id: nat): (r: Fetched)
    requires Shaped(s) && id in s.dir
    ensures Shaped(r.pool) && |r.pool.frames| == |s.frames|
  {
    var f := s.dir[id];
    var fr := s.frames[f];
    Fetched(Some(f), s.(frames := s.frames[f := fr.(pin := fr.pin + 1)], lru := Without(s.lru, f)))
  }

  function FetchMiss(s: Pool, id: nat): (r: Fetched)
    requires Shaped(s) && id !in s.dir
    ensures Shaped(r.pool) && |r.pool.frames| == |s.frames|
  {
    var v := Victim(s);
    if v.frame.None? then v
    else
      var f := v.frame.value;
      var s2 := Rebind(v.pool, f, id);
      Fetched(Some(f), WithFrame(s2, f, Frame(PageOnDisk(s2.disk, id), id, 1, false)))
  }

  function Fetch(s: Pool, id: nat): (r: Fetched)
    requires Shaped(s)
    ensures Shaped(r.pool) && |r.pool.frames| == |s.frames|
    ensures r.frame.Some? ==> r.frame.value < |s.frames|
  {
    if id in s.dir then FetchHit(s, id) else FetchMiss(s, id)
  }

  /** The id `new_page` settles on, and the disk with its counter afterwards: a deleted id below the
      newest one is reused, otherwise the counter moves on. */
  function ChosenId(s: Pool): (r: (nat, Disk))
  {
    var first := FirstFrom(s.head.bits, false, 0);
    if first.Some? && first.value < CurrentPid(s.disk) then (first.value, s.disk)
    else (s.disk.next, s.disk.(next := s.disk.next + 1))
  }

  predicate Reuses(s: Pool)
  {
    var first := FirstFrom(s.head.bits, false, 0);
    first.Some? && first.value < CurrentPid(s.disk)
  }

  /** The header after `new_page` recorded `id`. */
  function Recorded(h: Header, id: nat): Header
  {
    Header(h.pageNum + 1, h.phyNum + 1, WithBit(Grown(h.bits, id), id, true))
  }

  datatype Created = Created(frame: Option<nat>, id: nat, pool: Pool)

  /** `new_page`. The counter stays advanced when the call fails. */
  function NewPage(s: Pool): (r: Created)
    requires Shaped(s)
    ensures Shaped(r.pool) && |r.pool.frames| == |s.frames|
    ensures r.frame.Some? ==> r.frame.value < |s.frames|
  {
    var (id, disk) := ChosenId(s);
    var s1 := s.(disk := disk);
    if !Reuses(s) && id > BFP_MAX_PAGE_NUM then Created(None, id, s1)
    else
      var v := Victim(s1);
      if v.frame.None? then Created(None, id, v.pool)
      else
        var f := v.frame.value;
        var s2 := v.pool.(head := Recorded(s.head, id));
        var s3 := Rebind(s2, f, id);
        Created(Some(f), id, WithFrame(s3, f, Frame(Zeros(PAGE_SIZE), id, 1, true)))
  }

  /** `pin_count_--` on `size_t`. */
  function Decrement(pin: nat): nat
  {
    if pin == 0 then 0xFFFF_FFFF_FFFF_FFFF else pin - 1
  }

  function Unpin(s: Pool, id: nat, isDirty: bool): (r: Pool)
    requires Shaped(s) && |s.frames| > 0
    ensures Shaped(r) && |r.frames| == |s.frames|
  {
    if id !in s.dir then s
    else
      var f := s.dir[id];
      var fr := s.frames[f].(dirty := s.frames[f].dirty || isDirty, pin := Decrement(s.frames[f].pin));
      var s1 := s.(frames := s.frames[f := fr]);
      if fr.pin == 0 then s1.(lru := AfterPut(s.lru, |s.frames|, f)) else s1
  }

  /** A client storing into the buffer of frame `f` through the pointer it was handed. */
  function Store(s: Pool, f: nat, data: Data): (r: Pool)
    requires Shaped(s) && f < |s.frames| && |data| == PAGE_SIZE
    ensures Shaped(r) && |r.frames| == |s.frames|
  {
    s.(frames := s.frames[f := s.frames[f].(data := data)])
  }

  // ---------------------------------------------------------------- the header page

  /** `BFPHeaderPage::write2page`: two counters, then the bitmap. */
  function HeaderBytes(h: Header, b: Data): (r: Data)
    requires |b| == PAGE_SIZE && 16 + |h.bits| <= PAGE_SIZE
    ensures |r| == PAGE_SIZE
  {
    Splice(WriteWord(WriteWord(b, 0, h.pageNum), 8, h.phyNum), 16, h.bits)
  }

  /** The bitmap length `BFPHeaderPage::init` reads back. */
  function BitmapSize(pageNum: nat, phyNum: nat): nat
  {
    if phyNum > 8 then pageNum / 8 + (if pageNum % 8 == 0 then 0 else 1) else 1
  }

  const FRESH_HEADER := Header(1, 1, WithBit([0], 0, true))

  /** `BFPHeaderPage::init` on the bytes of page 0: a page count of zero means a new file. */
  function LoadHeader(b: Data): Header
    requires |b| == PAGE_SIZE
    requires ReadWord(b, 0) != 0 ==> 16 + BitmapSize(ReadWord(b, 0), ReadWord(b, 8)) <= PAGE_SIZE
  {
    var pageNum := ReadWord(b, 0);
    if pageNum == 0 then FRESH_HEADER
    else Header(pageNum, ReadWord(b, 8), b[16..16 + BitmapSize(pageNum, ReadWord(b, 8))])
  }

  // ---------------------------------------------------------------- opening and closing

  /** The pool the constructor builds before it reads the header page. */
  function Blank(n: nat, file: seq<Data>): (r: Pool)
    requires WholePages(Disk(file, 1))
    ensures Shaped(r) && |r.frames| == n
  {
    Pool(map[], seq(n, i => i), seq(n, i => EMPTY_FRAME), [], Disk(file, 1), Header(1, 1, []))
  }

  /** The header in these bytes is one that fits in a page. */
  ghost predicate HeaderFits(b: Data)
  {
    && |b| == PAGE_SIZE
    && (ReadWord(b, 0) != 0 ==> 16 + BitmapSize(ReadWord(b, 0), ReadWord(b, 8)) <= PAGE_SIZE)
  }

  /** `init` up to the header in memory: fetch page 0 and load it, or write a header if the file is
      new. */
  function HeaderLoaded(s: Pool): (r: Pool)
    requires Shaped(s) && |s.frames| > 0 && 0 !in s.dir && s.free != []
    requires HeaderFits(PageOnDisk(s.disk, 0)) && s.frames[Last(s.free)] == EMPTY_FRAME
    ensures Shaped(r) && |r.frames| == |s.frames|
  {
    var f := Last(s.free);
    var r := Fetch(s, 0).pool;
    var b := PageOnDisk(s.disk, 0);
    var h := LoadHeader(b);
    (if ReadWord(b, 0) == 0 then WithFrame(r, f, r.frames[f].(data := HeaderBytes(h, b), dirty := true)) else r)
    .(head := h)
  }

  function InitPool(s: Pool): (r: Pool)
    requires Shaped(s) && |s.frames| > 0 && 0 !in s.dir && s.free != []
    requires HeaderFits(PageOnDisk(s.disk, 0)) && s.frames[Last(s.free)] == EMPTY_FRAME
    ensures Shaped(r) && |r.frames| == |s.frames|
  {
    var isNew := ReadWord(PageOnDisk(s.disk, 0), 0) == 0;
    var s2 := Unpin(HeaderLoaded(s), 0, isNew);
    var s3 := if isNew then FlushPage(s2, 0) else s2;
    s3.(disk := s3.disk.(next := s3.head.phyNum))
  }

  /** A pool of `n` frames over an existing file. */
  function OpenPool(n: nat, file: seq<Data>): (r: Pool)
    requires n > 0 && WholePages(Disk(file, 1)) && HeaderFits(PageOnDisk(Disk(file, 1), 0))
    ensures Shaped(r) && |r.frames| == n
  {
    var s := Blank(n, file);
    assert Last(s.free) == n - 1;
    InitPool(s)
  }

  /** Every dirty resident page has been written, and nothing else changed on disk. */
  ghost predicate Flushed(s: Pool, d: Disk)
    requires Shaped(s)
    ensures Flushed(s, d) ==> WholePages(d)
  {
    && WholePages(d) && d.next == s.disk.next
    && (forall p: nat :: PageOnDisk(d, p) ==
          if p in s.dir && s.frames[s.dir[p]].dirty then s.frames[s.dir[p]].data else PageOnDisk(s.disk, p))
  }

  /** `delete_page` up to the rewriting of the header page. */
  function Dropped(s: Pool, id: nat): (r: Pool)
    requires Shaped(s) && id < 8 * |s.head.bits|
    ensures Shaped(r) && |r.frames| == |s.frames|
  {
    var head := Header(Decrement(s.head.pageNum), s.head.phyNum, WithBit(s.head.bits, id, false));
    if id in s.dir then
      var f := s.dir[id];
      s.(head := head, frames := s.frames[f := EMPTY_FRAME], free := [f] + s.free, dir := s.dir - {id})
    else s.(head := head)
  }

  /** Pin the header page, store the header in it, release it as dirty. */
  function SaveHeader(s: Pool): (r: Pool)
    requires Shaped(s) && |s.frames| > 0 && 16 + |s.head.bits| <= PAGE_SIZE
    ensures Shaped(r) && |r.frames| == |s.frames|
  {
    var r := Fetch(s, 0);
    if r.frame.None? then r.pool
    else
      var f := r.frame.value;
      var fr := r.pool.frames[f];
      Unpin(WithFrame(r.pool, f, fr.(data := HeaderBytes(s.head, fr.data), dirty := true)), fr.pid, true)
  }

  function DeletePage(s: Pool, id: nat): (r: Pool)
    requires Shaped(s) && |s.frames| > 0 && 16 + |s.head.bits| <= PAGE_SIZE
    requires id < s.head.phyNum ==> id < 8 * |s.head.bits|
    ensures Shaped(r) && |r.frames| == |s.frames|
  {
    if id >= s.head.phyNum then s else SaveHeader(Dropped(s, id))
  }

  // ---------------------------------------------------------------- the abstract page store

  /** The contents a page id denotes through the pool: the frame if resident, else the disk. */
  function Logical(s: Pool, p: nat): (b: Data)
    requires Shaped(s)
    ensures |b| == PAGE_SIZE
  {
    if p in s.dir then s.frames[s.dir[p]].data else PageOnDisk(s.disk, p)
  }
}
