/** Opening a page file: the state `BufferPool`'s constructor leaves. */
module HeapOpening {
  import opened Bytes
  import opened Options
  import opened Sequences
  import opened SlottedPage
  import opened BitMaps
  import opened Replacers
  import opened Disks
  import opened PoolSpec
  import opened PoolProofs
  import opened Allocation
  import opened HeapProofs

  /** The bytes of page 0 after opening: a new file gets its first header. */
  function HeaderPage(file: seq<Data>): (b: Data)
    requires WholePages(Disk(file, 1)) && HeaderFits(PageOnDisk(Disk(file, 1), 0))
    ensures |b| == PAGE_SIZE
  {
    var b := PageOnDisk(Disk(file, 1), 0);
    if ReadWord(b, 0) == 0 then HeaderBytes(FRESH_HEADER, b) else b
  }

  /** After opening, the last frame holds the header page, unpinned; the other frames are free. */
  ghost predicate JustOpened(n: nat, file: seq<Data>, s: Pool)
    requires n > 0 && WholePages(Disk(file, 1)) && HeaderFits(PageOnDisk(Disk(file, 1), 0))
  {
    var b := PageOnDisk(Disk(file, 1), 0);
    var isNew := ReadWord(b, 0) == 0;
    && WholePages(s.disk)
    && s.dir == map[0 := n - 1]
    && s.free == Front(seq(n, i => i))
    && |s.frames| == n
    && (forall f :: 0 <= f < n - 1 ==> s.frames[f] == EMPTY_FRAME)
    && s.frames[n - 1] == Frame(HeaderPage(file), 0, 0, isNew)
    && s.lru == [n - 1]
    && s.head == LoadHeader(b) && s.disk.next == s.head.phyNum
    && (forall p: nat :: PageOnDisk(s.disk, p) == if p == 0 then HeaderPage(file) else PageOnDisk(Disk(file, 1), p))
  }

  lemma BlankFetch(n: nat, file: seq<Data>)
    requires n > 0 && WholePages(Disk(file, 1))
    ensures var s := Blank(n, file); var r := Fetch(s, 0);
      && s.free != [] && Last(s.free) == n - 1 && s.frames[n - 1] == EMPTY_FRAME
      && r.frame == Some(n - 1)
      && r.pool.dir == map[0 := n - 1] && r.pool.free == Front(seq(n, i => i)) && r.pool.lru == []
      && r.pool.disk == s.disk && r.pool.head == s.head
      && r.pool.frames == s.frames[n - 1 := Frame(PageOnDisk(s.disk, 0), 0, 1, false)]
  {
    hide PageOnDisk, Written;
  }

  lemma LoadedIs(n: nat, file: seq<Data>)
    requires n > 0 && WholePages(Disk(file, 1)) && HeaderFits(PageOnDisk(Disk(file, 1), 0))
    ensures var s := Blank(n, file); var b := PageOnDisk(Disk(file, 1), 0);
      && 0 !in s.dir && s.free != [] && s.frames[Last(s.free)] == EMPTY_FRAME
      && var r := HeaderLoaded(s); var isNew := ReadWord(b, 0) == 0;
        && r.dir == map[0 := n - 1] && r.free == Front(seq(n, i => i)) && r.lru == []
        && r.disk == Disk(file, 1) && r.head == LoadHeader(b)
        && r.frames == s.frames[n - 1 := Frame(HeaderPage(file), 0, 1, isNew)]
  {
    BlankFetch(n, file);
    hide Fetch, PageOnDisk, HeaderBytes, WholePages;
  }

  lemma OpenIs(n: nat, file: seq<Data>)
    requires n > 0 && WholePages(Disk(file, 1)) && HeaderFits(PageOnDisk(Disk(file, 1), 0))
    ensures JustOpened(n, file, OpenPool(n, file))
  {
    LoadedIs(n, file);
    var s := Blank(n, file);
    var s1 := HeaderLoaded(s);
    var isNew := ReadWord(PageOnDisk(Disk(file, 1), 0), 0) == 0;
    UnpinFresh(s1, n - 1, isNew);
    hide HeaderLoaded, HeaderPage, LoadHeader, Unpin;
  }

  lemma UnpinFresh(s: Pool, f: nat, isDirty: bool)
    requires Shaped(s) && 0 in s.dir && s.dir[0] == f && s.frames[f].pin == 1 && s.lru == []
    ensures Unpin(s, 0, isDirty) ==
      s.(frames := s.frames[f := s.frames[f].(pin := 0, dirty := s.frames[f].dirty || isDirty)], lru := [f])
  {}

  // ---------------------------------------------------------------- the opened pool is in order

  lemma OpenedCoherent(n: nat, file: seq<Data>, s: Pool)
    requires n > 0 && WholePages(Disk(file, 1)) && HeaderFits(PageOnDisk(Disk(file, 1), 0))
    requires JustOpened(n, file, s)
    ensures Coherent(s, {})
    ensures forall f :: 0 <= f < n ==> Pins(s)[f] == Unpinned
    ensures forall p: nat :: Logical(s, p) == if p == 0 then HeaderPage(file) else PageOnDisk(Disk(file, 1), p)
  {
    hide HeaderPage, LoadHeader, HeaderFits, PageOnDisk, WholePages, Front;
    FreshNoDup(n, s.free);
    forall f | f in s.free
      ensures f < n - 1
    {
      FreshFree(n, f);
    }
    forall f | 0 <= f < n - 1
      ensures f in s.free
    {
      assert s.free[f] == f;
    }
  }

  lemma FreshNoDup(n: nat, free: seq<nat>)
    requires n > 0 && free == Front(seq(n, i => i))
    ensures |free| == n - 1 && NoDup(free) && forall f :: 0 <= f < n - 1 ==> free[f] == f
  {}

  lemma FreshFree(n: nat, f: nat)
    requires n > 0 && f in Front(seq(n, i => i))
    ensures f < n - 1
  {}

  /** What makes a page file a heap's: a header that says so, and opened data pages. */
  ghost predicate HeapFile(file: seq<Data>)
    ensures HeapFile(file) ==> WholePages(Disk(file, 1)) && HeaderFits(PageOnDisk(Disk(file, 1), 0))
  {
    && WholePages(Disk(file, 1)) && HeaderFits(PageOnDisk(Disk(file, 1), 0))
    && var h := LoadHeader(PageOnDisk(Disk(file, 1), 0));
      && Dense(h, h.phyNum)
      && (forall p: nat :: 1 <= p < h.phyNum ==> DataPage(PageOnDisk(Disk(file, 1), p)))
  }

  /** Page `p` of the file holds these slots. */
  ghost predicate StoredAt(file: seq<Data>, p: nat, slots: seq<Slot>)
    requires WholePages(Disk(file, 1))
  {
    PageOk(PageOnDisk(Disk(file, 1), p)) && Slots(PageOnDisk(Disk(file, 1), p)) == slots
  }

  /** Opening a heap's file with any number of frames gives the heap in it, with nothing pinned. */
  lemma OpenedHeap(n: nat, file: seq<Data>)
    requires n > 0 && HeapFile(file)
    ensures var s := OpenPool(n, file);
      && HeapOk(s) && !AllPinned(s)
      && s.head == LoadHeader(PageOnDisk(Disk(file, 1), 0)) && s.disk.next == s.head.phyNum
    ensures forall f :: 0 <= f < n ==> Pins(OpenPool(n, file))[f] == Unpinned
    ensures var pages := PageList(OpenPool(n, file));
      forall k :: 0 <= k < |pages| ==> StoredAt(file, k + 1, pages[k])
  {
    hide *;
    var s := OpenPool(n, file);
    OpenIs(n, file);
    OpenedCoherent(n, file, s);
    HeapFileIs(file);
    OpenedParts(n, file, s);
    OpenedOk(n, file, s);
    AllPinnedIs(s);
    assert Pins(s)[0] == Unpinned;
  }

  lemma HeapFileIs(file: seq<Data>)
    requires HeapFile(file)
    ensures var h := LoadHeader(PageOnDisk(Disk(file, 1), 0)); Dense(h, h.phyNum) && h.phyNum > 0
  {}

  lemma OpenedOk(n: nat, file: seq<Data>, s: Pool)
    requires n > 0 && HeapFile(file) && Coherent(s, {}) && |s.frames| == n
    requires s.head == LoadHeader(PageOnDisk(Disk(file, 1), 0)) && s.disk.next == s.head.phyNum
    requires forall p :: p in s.dir ==> p < s.disk.next
    requires forall p: nat :: p > 0 ==> Logical(s, p) == PageOnDisk(Disk(file, 1), p)
    ensures HeapOk(s)
    ensures forall k :: 0 <= k < |PageList(s)| ==> StoredAt(file, k + 1, PageList(s)[k])
  {
    hide Coherent, LoadHeader, DataPage, Slots, PageOnDisk, Logical, Dense, HeaderFits, PageList;
    assert HeapOk(s);
    PageListIs(s);
    forall k | 0 <= k < |PageList(s)|
      ensures StoredAt(file, k + 1, PageList(s)[k])
    {
      assert DataPage(Logical(s, k + 1));
    }
  }

  lemma OpenedParts(n: nat, file: seq<Data>, s: Pool)
    requires n > 0 && WholePages(Disk(file, 1)) && HeaderFits(PageOnDisk(Disk(file, 1), 0))
    requires JustOpened(n, file, s) && LoadHeader(PageOnDisk(Disk(file, 1), 0)).phyNum > 0
    ensures s.head == LoadHeader(PageOnDisk(Disk(file, 1), 0)) && s.disk.next == s.head.phyNum
    ensures |s.frames| == n && (forall p :: p in s.dir ==> p < s.disk.next)
  {
    hide HeaderPage, LoadHeader, HeaderFits, PageOnDisk;
  }

  lemma NewFile()
    ensures WholePages(Disk([], 1)) && HeaderFits(PageOnDisk(Disk([], 1), 0))
    ensures LoadHeader(PageOnDisk(Disk([], 1), 0)) == FRESH_HEADER
    ensures HeapFile([])
  {
    ReadZeroWord(PAGE_SIZE, 0);
    FreshCounted();
    hide Live, WithBit, CountBits;
  }

  /** A heap on a new file has no pages. */
  lemma FreshHeap(n: nat)
    requires n > 0
    ensures WholePages(Disk([], 1)) && HeaderFits(PageOnDisk(Disk([], 1), 0))
    ensures var s := OpenPool(n, []);
      HeapOk(s) && PageList(s) == [] && s.disk.next == 1 && !AllPinned(s)
    ensures forall f :: 0 <= f < n ==> Pins(OpenPool(n, []))[f] == Unpinned
  {
    hide *;
    NewFile();
    OpenedHeap(n, []);
    EmptyList(OpenPool(n, []));
  }

  lemma EmptyList(s: Pool)
    requires HeapOk(s) && s.head == FRESH_HEADER && s.disk.next == s.head.phyNum
    ensures PageList(s) == [] && s.disk.next == 1
  {
    hide HeapOk;
  }
}
