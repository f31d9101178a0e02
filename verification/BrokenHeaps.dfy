/** Reachable heaps whose promises fail: an insert without a place, and a deleted page. */
module BrokenHeaps {
  import opened Bytes
  import opened Options
  import opened Sequences
  import opened SlottedPage
  import opened Disks
  import opened PoolSpec
  import opened PoolProofs
  import opened Allocation
  import opened Deletion
  import opened HeapSpec
  import opened HeapProofs
  import opened HeapRuns
  import opened HeapOpening
  import opened EmptyHeaps
  import opened BlockedScans
  import opened ScanModel
  import opened ScanSpec
  import opened ScanProofs

  // ---------------------------------------------------------------- an insert into a page nobody has

  /** The newest page by the counter is not allocated, and empty. */
  ghost predicate NewestLost(s: Pool)
    ensures NewestLost(s) ==> Coherent(s, {}) && |s.frames| > 0
  {
    && Coherent(s, {}) && |s.frames| > 0 && 1 < s.disk.next <= INVALID_ID
    && !Live(s.head, s.disk.next - 1) && Logical(s, s.disk.next - 1) == Zeros(PAGE_SIZE)
  }

  /** That page fetched and pinned, as `insert` finds it. */
  lemma LostFetched(s: Pool)
    requires NewestLost(s) && !AllPinned(s)
    ensures var p := s.disk.next - 1; var h := Fetch(s, p);
      && h.frame.Some? && Coherent(h.pool, {}) && p in h.pool.dir && h.pool.dir[p] == h.frame.value
      && h.frame.value < |h.pool.frames| && h.pool.frames[h.frame.value].data == Zeros(PAGE_SIZE)
      && h.pool.frames[h.frame.value].pin > 0 && h.pool.head == s.head
  {
    var p := s.disk.next - 1;
    FetchKeeps(s, p, {});
    FetchRest(s, p);
    FetchPartition(s, p);
    FetchPins(s, p);
    hide Fetch, Partition, Pins, AddPin, Live, AllPinned;
  }

  /** The insert answers true, and its record is on a page that is not allocated. */
  lemma LostInsert(s: Pool, rec: Data)
    requires NewestLost(s) && !AllPinned(s) && |rec| <= 990
    ensures InsertReady(s, rec)
    ensures var r := HeapInsert(s, rec); var p := s.disk.next - 1;
      && r.ok && PageOk(Logical(r.pool, p)) && Slots(Logical(r.pool, p)) == [Slot(false, rec)]
      && r.pool.head == s.head && !Live(r.pool.head, p)
  {
    RoomInNewPage(|rec|);
    hide *;
    var p := s.disk.next - 1;
    LostFetched(s);
    ZeroTried(rec);
    NewestReadyFrom(s, p, rec, Zeros(PAGE_SIZE));
    LostBounds(s);
    InsertNewestIs(s, rec);
    var a := TryPage(Zeros(PAGE_SIZE), rec);
    IsPage(a.bytes);
    LostFilled(Fetch(s, p).pool, p, a.bytes);
  }

  lemma LostBounds(s: Pool)
    requires NewestLost(s)
    ensures 1 < s.disk.next <= INVALID_ID && !Live(s.head, s.disk.next - 1)
  {
    hide Coherent, Live, Logical;
  }

  lemma ZeroTried(rec: Data)
    requires |rec| <= 990
    ensures PageOk(Zeros(PAGE_SIZE)) && |rec| < Open(Zeros(PAGE_SIZE)).head.end
    ensures var a := TryPage(Zeros(PAGE_SIZE), rec);
      a.ok && DataPage(a.bytes) && Slots(a.bytes) == [Slot(false, rec)]
  {
    hide TryPage, Slots, PageOk, Open, DataPage, Room;
    RoomInNewPage(|rec|);
    ZeroPage();
    TryPageResult(Zeros(PAGE_SIZE), rec);
  }

  lemma IsPage(b: Data)
    requires DataPage(b)
    ensures PageOk(b) && |b| == PAGE_SIZE
  {}

  lemma LostFilled(s: Pool, p: nat, b: Data)
    requires Coherent(s, {}) && p in s.dir && s.dir[p] < |s.frames| && s.frames[s.dir[p]].pin > 0
    requires |b| == PAGE_SIZE
    ensures var r := Unpin(Store(s, s.dir[p], b), p, true); Shaped(r) && Logical(r, p) == b && r.head == s.head
  {
    StoreKeeps(s, p, b, {});
    var s1 := Store(s, s.dir[p], b);
    UnpinKeeps(s1, p, true, {p});
    UnpinRest(s1, p, true);
    hide Coherent, Unpin, Logical;
  }

  /** A heap of one frame and one page, which record `a` fills. */
  ghost predicate OnePage(s: Pool, a: Data, pins: seq<Pin>)
    ensures OnePage(s, a, pins) ==> HeapOk(s)
  {
    && HeapOk(s) && Pins(s) == pins && PageList(s) == [[Slot(false, a)]] && s.disk.next == 2
    && Logical(s, 2) == Zeros(PAGE_SIZE)
  }

  lemma OnePageParts(s: Pool, a: Data, pins: seq<Pin>)
    requires OnePage(s, a, pins)
    ensures Pins(s) == pins && PageList(s) == [[Slot(false, a)]] && s.disk.next == 2
    ensures Logical(s, 2) == Zeros(PAGE_SIZE)
  {
    hide HeapOk;
  }

  lemma NewPins(n: nat)
    requires n > 0
    ensures |Pins(NewHeap(n))| == n && forall f :: 0 <= f < n ==> Pins(NewHeap(n))[f] == Unpinned
  {
    NewFile();
    FreshHeap(n);
    FreshUntouched(n);
    hide OpenPool, HeapOk, Pins;
  }

  lemma NewZeros(n: nat, p: nat)
    requires n > 0 && p > 0
    ensures Logical(NewHeap(n), p) == Zeros(PAGE_SIZE) && NewHeap(n).disk.next == 1
  {
    FreshUntouched(n);
    UntouchedParts(n, OpenPool(n, []));
    hide OpenPool, HeapOk, Logical, Coherent;
  }

  lemma Fill(n: nat, a: Data)
    requires n > 0 && |a| == 990
    ensures InsertReady(NewHeap(n), a)
    ensures var r := HeapInsert(NewHeap(n), a);
      && r.ok && HeapOk(r.pool) && Pins(r.pool) == Pins(NewHeap(n))
      && PageList(r.pool) == [[Slot(false, a)]] && r.pool.disk.next == 2
      && SameContents(NewHeap(n), r.pool, {1}) && r.pool.dir == NewPage(NewHeap(n)).pool.dir
  {
    hide HeapOk, Pins, PageList, Logical, HeapInsert, InsertReady, AllPinned, NewPage, Room, NewHeap;
    RoomInNewPage(990);
    NewHeapIs(n);
    NewZeros(n, 1);
    InsertFirst(NewHeap(n), a);
    PageListLength(HeapInsert(NewHeap(n), a).pool);
  }

  lemma FillOne(a: Data)
    requires |a| == 990
    ensures InsertReady(NewHeap(1), a)
    ensures OnePage(HeapInsert(NewHeap(1), a).pool, a, [Unpinned])
  {
    hide *;
    Fill(1, a);
    NewPins(1);
    NewZeros(1, 2);
    assert Pins(NewHeap(1)) == [Unpinned];
    SameAt(NewHeap(1), HeapInsert(NewHeap(1), a).pool, 2);
    OnePageFrom(HeapInsert(NewHeap(1), a).pool, a, [Unpinned]);
  }

  lemma SameAt(s: Pool, r: Pool, p: nat)
    requires Shaped(s) && Shaped(r) && SameContents(s, r, {1}) && p != 1
    ensures Logical(r, p) == Logical(s, p)
  {
    hide Logical;
  }

  lemma OpenOne(s: Pool, a: Data)
    requires OnePage(s, a, [Unpinned])
    ensures CanOpen(s, 1) && OnePage(ScanInit(s).pool, a, [Pinned(1, 1)])
  {
    hide *;
    OnePageParts(s, a, [Unpinned]);
    AllPinnedIs(s);
    OpenPageStep(s, 1);
    InitIs(s);
    var o := OpenPage(s, 1);
    ScanParts(o.pool, o.cursor, [Unpinned]);
    OnlyPin(o.cursor.frame.value);
    PageListLength(o.pool);
    SameZero(s, o.pool);
    OnePageFrom(o.pool, a, [Pinned(1, 1)]);
  }

  lemma InitIs(s: Pool)
    requires Shaped(s) && CanOpen(s, 1)
    ensures ScanInit(s) == OpenPage(s, 1)
  {
    hide OpenPage;
  }

  lemma OnlyPin(f: nat)
    requires f < 1
    ensures AddPin([Unpinned], f, 1) == [Pinned(1, 1)]
  {}

  lemma SameZero(s: Pool, r: Pool)
    requires Shaped(s) && Shaped(r) && SameContents(s, r, {})
    ensures Logical(r, 2) == Logical(s, 2)
  {
    hide Logical;
  }

  lemma OnePageFrom(s: Pool, a: Data, pins: seq<Pin>)
    requires HeapOk(s) && Pins(s) == pins && PageList(s) == [[Slot(false, a)]] && s.disk.next == 2
    requires Logical(s, 2) == Zeros(PAGE_SIZE)
    ensures OnePage(s, a, pins)
  {}

  lemma NoPlaceLeft(s: Pool, a: Data, b: Data)
    requires OnePage(s, a, [Pinned(1, 1)]) && |a| == 990 && |b| <= 32
    ensures NewestReachable(s) && Guard(PageList(s), b) && !HasPlace(s, b)
  {
    OnePageParts(s, a, [Pinned(1, 1)]);
    SecondPage(a, b);
    AllPinnedIs(s);
    PinnedHere(s);
    assert Footprint([Slot(false, a)]) == 991;
    hide OnePage, HeapOk, Pins, PageList, Logical, Footprint, AllPinned;
  }

  /** Page 1 is in the one frame, pinned once. */
  lemma PinnedHere(s: Pool)
    requires Partition(s) && Pins(s) == [Pinned(1, 1)]
    ensures 1 in s.dir && s.dir[1] == 0 && |s.frames| == 1 && s.frames[0].pin == 1
  {
    assert Pins(s)[0] == Pinned(1, 1) && |Pins(s)| == 1;
    assert s.frames[0].pid == 1;
    hide Pins;
  }

  /** The insert fails and loses id 2. */
  lemma LoseId(s: Pool, a: Data, b: Data)
    requires OnePage(s, a, [Pinned(1, 1)]) && |a| == 990 && |b| <= 32
    ensures InsertReady(s, b)
    ensures var r := HeapInsert(s, b);
      && !r.ok && !HeapOk(r.pool) && NewestLost(r.pool) && r.pool.disk.next == 3 && Pins(r.pool) == [Pinned(1, 1)]
  {
    hide *;
    NoPlaceLeft(s, a, b);
    InsertKeepsHeapIff(s, b);
    OnePageParts(s, a, [Pinned(1, 1)]);
    LostIs(s, HeapInsert(s, b));
  }

  lemma LostIs(s: Pool, r: Attempt)
    requires HeapOk(s) && IdLost(s, r) && s.disk.next == 2 && Logical(s, 2) == Zeros(PAGE_SIZE)
    requires Pins(s) == [Pinned(1, 1)] && !Live(r.pool.head, CurrentPid(r.pool.disk))
    ensures !r.ok && NewestLost(r.pool) && r.pool.disk.next == 3 && Pins(r.pool) == [Pinned(1, 1)]
  {
    PinnedHere(r.pool);
    hide HeapOk, Pins, Logical, Live, Coherent;
  }

  /** The scanner's pin is given back. */
  lemma ReleaseOne(s: Pool)
    requires NewestLost(s) && s.disk.next == 3 && Pins(s) == [Pinned(1, 1)]
    ensures var r := Unpin(s, 1, false); NewestLost(r) && r.disk.next == 3 && !AllPinned(r)
  {
    PinnedHere(s);
    UnpinKeeps(s, 1, false, {});
    UnpinRest(s, 1, false);
    NoTouch(1);
    UnpinOnce(s);
    hide Coherent, Unpin, Logical, Live, Pins;
  }

  lemma NoTouch(id: nat)
    ensures {} - {id} == {}
  {}

  lemma UnpinOnce(s: Pool)
    requires Shaped(s) && |s.frames| == 1 && 1 in s.dir && s.dir[1] == 0 && s.frames[0].pin == 1
    ensures Unpin(s, 1, false).frames[0].pin == 0 && |Unpin(s, 1, false).frames| == 1
  {}

  /** One frame: fill page 1, open a scanner, insert a short record, let the scanner go, insert it again.
      The first try fails and breaks the heap; the second answers true, and puts the record on a page that
      is not allocated, where no scan comes to. */
  lemma InsertLosesRecord(a: Data, b: Data)
    requires |a| == 990 && |b| <= 32
    ensures InsertReady(NewHeap(1), a)
    ensures var s1 := HeapInsert(NewHeap(1), a).pool;
      && CanOpen(s1, 1) && |ScanInit(s1).pool.frames| > 0 && InsertReady(ScanInit(s1).pool, b)
      && var f := HeapInsert(ScanInit(s1).pool, b);
      && !f.ok && !HeapOk(f.pool) && InsertReady(Unpin(f.pool, 1, false), b)
      && var r := HeapInsert(Unpin(f.pool, 1, false), b);
      && r.ok && PageOk(Logical(r.pool, 2)) && Slots(Logical(r.pool, 2)) == [Slot(false, b)]
      && !Live(r.pool.head, 2)
  {
    hide *;
    FillOne(a);
    var s1 := HeapInsert(NewHeap(1), a).pool;
    OpenOne(s1, a);
    LoseId(ScanInit(s1).pool, a, b);
    var f := HeapInsert(ScanInit(s1).pool, b);
    ReleaseOne(f.pool);
    LostInsert(Unpin(f.pool, 1, false), b);
  }

  // ---------------------------------------------------------------- a deleted page

  lemma FreeFrame(n: nat, s: Pool)
    requires n > 1 && Untouched(n, s)
    ensures s.frames[n - 2].pid == INVALID_ID && Partition(s)
  {
    assert s.free[n - 2] == n - 2;
    assert n - 2 in s.free;
    hide Logical, Synced;
  }

  lemma ZeroIsNoInvalid()
    ensures INVALID_ID != 0
  {}

  /** The header page keeps its frame when page 1 is made. */
  lemma BothResident(n: nat)
    requires n > 1
    ensures 0 in NewPage(NewHeap(n)).pool.dir && 1 in NewPage(NewHeap(n)).pool.dir
  {
    hide *;
    FreshUntouched(n);
    NewHeapOpens(n);
    var s := NewHeap(n);
    UntouchedParts(n, s);
    FreeFrame(n, s);
    VictimOne(n, s);
    NewHeapIs(n);
    HeapIsPool(s);
    NewPageStep(s, {});
    NewPageClaims(s);
    ClaimedDir(s, NewPage(s).pool, n - 2, NewPage(s).id);
    ZeroIsNoInvalid();
  }

  lemma NewHeapOpens(n: nat)
    requires n > 0
    ensures NewHeap(n) == OpenPool(n, []) && OpenPool(n, []).disk.next <= BFP_MAX_PAGE_NUM
  {
    NewHeapIs(n);
    hide OpenPool, HeapOk, AllPinned, PageList;
  }

  lemma HeapIsPool(s: Pool)
    requires HeapOk(s)
    ensures HeapPool(s, {})
  {}

  lemma ClaimedDir(s: Pool, r: Pool, f: nat, id: nat)
    requires Shaped(s) && f < |s.frames| && Claimed(s, r, f, id, Zeros(PAGE_SIZE), true)
    ensures r.dir == (s.dir - {s.frames[f].pid})[id := f]
  {
    hide Victim;
  }

  lemma NotRecovered(s: Pool)
    requires HeapOk(s) && 0 in s.dir && 1 in s.dir && s.disk.next == 2
    requires forall f :: 0 <= f < |Pins(s)| ==> Pins(s)[f] == Unpinned
    ensures !FrameIsRecovered(s, 1)
    ensures Partition(s) && |s.frames| > 0 && 16 + |s.head.bits| <= PAGE_SIZE
    ensures 1 < s.head.phyNum && 1 < 8 * |s.head.bits|
  {
    hide Logical, Synced, DataPage, Live;
    assert Pins(s)[s.dir[1]] == Unpinned;
  }

  /** With two frames or more: insert one record, and delete its page. The frame of the page is then both
      free and evictable. */
  lemma DeleteBreaks(n: nat, a: Data)
    requires n > 1 && |a| == 990
    ensures InsertReady(NewHeap(n), a)
    ensures var s := HeapInsert(NewHeap(n), a).pool;
      && Shaped(s) && |s.frames| > 0 && 16 + |s.head.bits| <= PAGE_SIZE
      && 1 < s.head.phyNum && 1 < 8 * |s.head.bits|
      && !Partition(DeletePage(s, 1))
  {
    hide *;
    Fill(n, a);
    var s := HeapInsert(NewHeap(n), a).pool;
    NewPins(n);
    BothResident(n);
    NotRecovered(s);
    DeletePartitionIff(s, 1);
  }
}
