/** Closing a heap and opening its file again gives the same heap. */
module Durability {
  import opened Bytes
  import opened Options
  import opened SlottedPage
  import opened BitMaps
  import opened Disks
  import opened PoolSpec
  import opened PoolProofs
  import opened Allocation
  import opened HeapSpec
  import opened HeapProofs
  import opened HeapOpening

  // ---------------------------------------------------------------- the header page

  lemma HeaderWords(h: Header, b: Data)
    requires |b| == PAGE_SIZE && 16 + |h.bits| <= PAGE_SIZE
    requires h.pageNum < WORD_LIMIT && h.phyNum < WORD_LIMIT
    ensures var r := HeaderBytes(h, b);
      && ReadWord(r, 0) == h.pageNum && ReadWord(r, 8) == h.phyNum
      && r[16..16 + |h.bits|] == h.bits
  {
    var b1 := WriteWord(b, 0, h.pageNum);
    var b2 := WriteWord(b1, 8, h.phyNum);
    ReadBackWord(b, 0, h.pageNum);
    ReadOtherWord(b1, 8, h.phyNum, 0);
    ReadBackWord(b1, 8, h.phyNum);
    hide WriteWord, Decode;
    SpliceOutside(b2, 16, h.bits, 0, 8);
    SpliceOutside(b2, 16, h.bits, 8, 16);
    SpliceInside(b2, 16, h.bits);
  }

  /** A header written to its page reads back unchanged exactly when the bitmap has the length that
      `init` works out from the two counters. After deletions it need not. */
  lemma HeaderReadBackIff(h: Header, b: Data)
    requires |b| == PAGE_SIZE && 16 + |h.bits| <= PAGE_SIZE
    requires 0 < h.pageNum < WORD_LIMIT && h.phyNum < WORD_LIMIT
    requires HeaderFits(HeaderBytes(h, b))
    ensures LoadHeader(HeaderBytes(h, b)) == h <==> |h.bits| == BitmapSize(h.pageNum, h.phyNum)
  {
    HeaderWords(h, b);
    hide HeaderBytes, ReadWord;
  }

  /** Every live page is still live after reopening exactly when all of them lie in the part of the bitmap
      that is read back. */
  lemma ReopenKeepsLiveIff(h: Header, b: Data)
    requires |b| == PAGE_SIZE && 16 + |h.bits| <= PAGE_SIZE
    requires 0 < h.pageNum < WORD_LIMIT && h.phyNum < WORD_LIMIT
    requires HeaderFits(HeaderBytes(h, b))
    ensures (forall id: nat :: Live(h, id) ==> Live(LoadHeader(HeaderBytes(h, b)), id)) <==>
            (forall id: nat :: Live(h, id) ==> id < 8 * BitmapSize(h.pageNum, h.phyNum))
  {
    HeaderWords(h, b);
    var r := LoadHeader(HeaderBytes(h, b));
    var size := BitmapSize(h.pageNum, h.phyNum);
    hide HeaderBytes, ReadWord, BitmapSize;
    assert |r.bits| == size;
    forall id: nat | Live(h, id)
      ensures Live(r, id) <==> id < 8 * size
    {
      if id < 8 * size {
        assert r.bits[id / 8] == h.bits[id / 8];
      }
    }
  }

  /** Seventeen pages of which page 5 was deleted: page 16 is lost on reopening. */
  lemma DeletionLosesBits(b: Data)
    requires |b| == PAGE_SIZE
    ensures var h := Header(16, 17, [223, 255, 1]);
      && HeaderFits(HeaderBytes(h, b))
      && !Live(h, 5) && Live(h, 16) && !Live(LoadHeader(HeaderBytes(h, b)), 16)
  {
    var h := Header(16, 17, [223, 255, 1]);
    HeaderWords(h, b);
    hide HeaderBytes, ReadWord;
  }

  // ---------------------------------------------------------------- close

  /** The order lists exactly the resident pages. */
  ghost predicate Walks(s: Pool, order: seq<nat>)
  {
    forall p :: p in order <==> p in s.dir
  }

  /** The page as a flush leaves it on disk. */
  function FlushedPage(s: Pool, p: nat): Data
    requires Shaped(s)
  {
    if p in s.dir && s.frames[s.dir[p]].dirty then s.frames[s.dir[p]].data else PageOnDisk(s.disk, p)
  }

  /** `flush_all_page` walking the directory in this order. */
  function FlushIn(s: Pool, order: seq<nat>): (d: Disk)
    requires Shaped(s)
    ensures WholePages(d) && d.next == s.disk.next
    ensures forall p: nat :: PageOnDisk(d, p) == if p in order then FlushedPage(s, p) else PageOnDisk(s.disk, p)
  {
    if order == [] then s.disk
    else
      var n := |order| - 1;
      var p := order[n];
      var d := FlushIn(s, order[..n]);
      assert forall q :: q in order <==> q in order[..n] || q == p by { assert order == order[..n] + [p]; }
      if p in s.dir && s.frames[s.dir[p]].dirty then Written(d, p, s.frames[s.dir[p]].data) else d
  }

  /** In whatever order the directory is walked, all dirty pages and nothing else get written. */
  lemma FlushedInAnyOrder(s: Pool, order: seq<nat>)
    requires Shaped(s) && Walks(s, order)
    ensures Flushed(s, FlushIn(s, order))
  {
    hide FlushIn, PageOnDisk;
  }

  /** Two flushes leave the same pages. */
  lemma FlushedSame(s: Pool, d: Disk, e: Disk)
    requires Shaped(s) && Flushed(s, d) && Flushed(s, e)
    ensures d.next == e.next && forall p: nat :: PageOnDisk(d, p) == PageOnDisk(e, p)
  {
    hide PageOnDisk;
  }

  /** The heap's header can be saved, and the directory is then walked in this order. */
  ghost predicate Closable(s: Pool, order: seq<nat>)
    ensures Closable(s, order) ==> Shaped(s) && |s.frames| > 0 && 16 + |s.head.bits| <= PAGE_SIZE
  {
    && Shaped(s) && |s.frames| > 0 && 16 + |s.head.bits| <= PAGE_SIZE
    && Walks(SaveHeader(s), order)
  }

  /** The page file after `close`. */
  function Closed(s: Pool, order: seq<nat>): (d: Disk)
    requires Closable(s, order)
    ensures Flushed(SaveHeader(s), d)
  {
    FlushedInAnyOrder(SaveHeader(s), order);
    FlushIn(SaveHeader(s), order)
  }

  lemma FlushedIsLogical(s: Pool, d: Disk)
    requires Coherent(s, {}) && Flushed(s, d)
    ensures forall p: nat :: PageOnDisk(d, p) == Logical(s, p)
  {
    hide FreeList, PoolProofs.Evictable;
    forall p: nat
      ensures PageOnDisk(d, p) == Logical(s, p)
    {
      if p in s.dir {
        assert s.frames[s.dir[p]].pid == p;
      }
    }
  }

  /** Saving the header is a store into the pinned page 0 followed by a dirty unpin. */
  lemma SaveHeaderIs(s: Pool)
    requires Partition(s) && |s.frames| > 0 && 16 + |s.head.bits| <= PAGE_SIZE
    requires Fetch(s, 0).frame.Some? && 0 in Fetch(s, 0).pool.dir
    requires Fetch(s, 0).pool.dir[0] == Fetch(s, 0).frame.value
    requires Fetch(s, 0).pool.frames[Fetch(s, 0).frame.value].pid == 0
    ensures var h := Fetch(s, 0); var f := h.frame.value;
      SaveHeader(s) == Unpin(Store(h.pool, f, HeaderBytes(s.head, h.pool.frames[f].data)), 0, true)
  {
    hide Fetch, HeaderBytes;
  }

  /** Writing the header page changes no data page and gives every pin back. */
  lemma SaveHeaderStep(s: Pool)
    requires HeapOk(s) && (0 in s.dir || !AllPinned(s)) && 16 + |s.head.bits| <= PAGE_SIZE
    ensures var r := SaveHeader(s);
      && HeapOk(r) && Pins(r) == Pins(s) && r.head == s.head && r.disk.next == s.disk.next
      && PageList(r) == PageList(s)
      && SameContents(s, r, {0}) && Logical(r, 0) == HeaderBytes(s.head, Logical(s, 0))
  {
    hide *;
    FetchStep(s, 0, {});
    FetchPins(s, 0);
    FetchFrames(s, 0);
    var h := Fetch(s, 0);
    PinsPositive(s, h.frame.value);
    SaveHeaderIs(s);
    var b := HeaderBytes(s.head, Logical(s, 0));
    StorePinned(h.pool, 0, b, true, Pins(s));
    var s1 := Store(h.pool, h.frame.value, b);
    UnpinStep(s1, 0, true, {0});
    UnpinPins(s1, 0, true, Pins(s));
    var r := SaveHeader(s);
    ContentsChain(h.pool, s1, r, 0);
    ContentsWeaken(s, h.pool, 0);
    ContentsTrans(s, h.pool, r, 0);
    DataPagesSame(s, r);
  }

  lemma DataPagesSame(s: Pool, r: Pool)
    requires HeapOk(s) && HeapPool(r, {}) && r.disk.next == s.disk.next && SameContents(s, r, {0})
    ensures HeapOk(r) && PageList(r) == PageList(s)
  {
    assert forall p: nat :: p > 0 ==> Logical(r, p) == Logical(s, p);
    hide Logical, HeapPool, DataPage, Slots, PageList;
    assert HeapOk(r);
    PageListIs(s);
    PageListIs(r);
  }

  lemma HeadOf(s: Pool)
    requires HeapOk(s)
    ensures Dense(s.head, s.disk.next)
    ensures |s.head.bits| == BitmapSize(s.head.pageNum, s.head.phyNum)
    ensures 0 < s.head.pageNum < WORD_LIMIT && s.head.phyNum == s.disk.next < WORD_LIMIT
    ensures forall p: nat :: 1 <= p < s.disk.next ==> DataPage(Logical(s, p))
  {
    hide Coherent, Logical, DataPage, Live;
  }

  /** The file left by writing all dirty pages after the header holds the heap. */
  lemma ClosedFile(s: Pool, d: Disk)
    requires HeapOk(s) && (0 in s.dir || !AllPinned(s)) && 16 + |s.head.bits| <= PAGE_SIZE
    requires Flushed(SaveHeader(s), d)
    ensures HeapFile(d.file) && LoadHeader(PageOnDisk(Disk(d.file, 1), 0)) == s.head
    ensures forall p: nat :: 1 <= p < s.disk.next ==> PageOnDisk(Disk(d.file, 1), p) == Logical(s, p)
  {
    hide *;
    SaveHeaderStep(s);
    var r := SaveHeader(s);
    CoherentHeap(r);
    FlushedIsLogical(r, d);
    FileIs(r, d);
    HeadOf(s);
    HeaderFitsAgain(s.head, s.disk.next, Logical(s, 0));
    HeaderReadBackIff(s.head, Logical(s, 0));
    SameDataPages(s, r);
    HeapFileFrom(s, r, d);
  }

  lemma CoherentHeap(s: Pool)
    requires HeapOk(s)
    ensures Coherent(s, {})
  {}

  lemma FileIs(s: Pool, d: Disk)
    requires Shaped(s) && WholePages(d)
    requires forall p: nat :: PageOnDisk(d, p) == Logical(s, p)
    ensures WholePages(Disk(d.file, 1))
    ensures forall p: nat :: PageOnDisk(Disk(d.file, 1), p) == Logical(s, p)
  {
    hide Logical, Shaped;
    assert forall p: nat :: PageOnDisk(Disk(d.file, 1), p) == PageOnDisk(d, p);
  }

  lemma HeaderFitsAgain(h: Header, next: nat, b: Data)
    requires Dense(h, next) && |b| == PAGE_SIZE && 16 + |h.bits| <= PAGE_SIZE
    ensures HeaderFits(HeaderBytes(h, b))
  {
    HeaderWords(h, b);
    hide HeaderBytes, ReadWord, Live;
  }

  lemma SameDataPages(s: Pool, r: Pool)
    requires HeapOk(s) && Shaped(r) && SameContents(s, r, {0})
    ensures forall p: nat :: 1 <= p < s.disk.next ==> Logical(r, p) == Logical(s, p) && DataPage(Logical(r, p))
  {
    hide Logical, DataPage, HeapPool;
  }

  lemma HeapFileFrom(s: Pool, r: Pool, d: Disk)
    requires HeapOk(s) && Shaped(r) && WholePages(Disk(d.file, 1)) && 16 + |s.head.bits| <= PAGE_SIZE
    requires forall p: nat :: PageOnDisk(Disk(d.file, 1), p) == Logical(r, p)
    requires Logical(r, 0) == HeaderBytes(s.head, Logical(s, 0)) && HeaderFits(Logical(r, 0))
    requires LoadHeader(Logical(r, 0)) == s.head && Dense(s.head, s.disk.next) && s.head.phyNum == s.disk.next
    requires forall p: nat :: 1 <= p < s.disk.next ==> DataPage(Logical(r, p))
    ensures HeapFile(d.file) && LoadHeader(PageOnDisk(Disk(d.file, 1), 0)) == s.head
  {
    hide HeapOk, Logical, DataPage, Dense, LoadHeader, HeaderFits, HeaderBytes, PageOnDisk, WholePages, Shaped;
    assert PageOnDisk(Disk(d.file, 1), 0) == Logical(r, 0);
  }

  /** Whatever was dirty in memory, a heap closed and opened again, with any number of frames, has the
      same pages, counters, bitmap and next page id, and nothing is pinned. */
  lemma ReopenedHeap(s: Pool, d: Disk, n: nat)
    requires HeapOk(s) && (0 in s.dir || !AllPinned(s)) && 16 + |s.head.bits| <= PAGE_SIZE
    requires Flushed(SaveHeader(s), d) && n > 0
    ensures HeapFile(d.file)
    ensures var t := OpenPool(n, d.file);
      && HeapOk(t) && !AllPinned(t) && PageList(t) == PageList(s)
      && t.head == s.head && t.disk.next == s.disk.next
  {
    hide *;
    ClosedFile(s, d);
    OpenedHeap(n, d.file);
    HeadOf(s);
    SameList(s, OpenPool(n, d.file), d.file);
  }

  /** Closing and opening again, whatever order the directory is walked in. */
  lemma CloseAndReopen(s: Pool, order: seq<nat>, n: nat)
    requires HeapOk(s) && (0 in s.dir || !AllPinned(s)) && Closable(s, order) && n > 0
    ensures HeapFile(Closed(s, order).file)
    ensures var t := OpenPool(n, Closed(s, order).file);
      && HeapOk(t) && !AllPinned(t) && PageList(t) == PageList(s)
      && t.head == s.head && t.disk.next == s.disk.next
  {
    hide *;
    ClosableIs(s, order);
    ReopenedHeap(s, Closed(s, order), n);
  }

  lemma ClosableIs(s: Pool, order: seq<nat>)
    requires Closable(s, order)
    ensures Shaped(s) && |s.frames| > 0 && 16 + |s.head.bits| <= PAGE_SIZE
  {}

  lemma SameList(s: Pool, t: Pool, file: seq<Data>)
    requires HeapOk(s) && HeapOk(t) && t.disk.next == s.disk.next && WholePages(Disk(file, 1))
    requires forall p: nat :: 1 <= p < s.disk.next ==> PageOnDisk(Disk(file, 1), p) == Logical(s, p)
    requires forall k :: 0 <= k < |PageList(t)| ==> StoredAt(file, k + 1, PageList(t)[k])
    ensures PageList(t) == PageList(s)
  {
    hide HeapOk, Logical, Slots, PageOk, PageOnDisk, PageList;
    PageListIs(s);
  }
}
