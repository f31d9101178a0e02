/** Scanning a heap that has no page yet: the scanner opens page 1 all the same, and the first insert
    afterwards gives that page a second frame. */
module EmptyHeaps {
  import opened Bytes
  import opened Options
  import opened Sequences
  import opened SlottedPage
  import opened BitMaps
  import opened Replacers
  import opened Disks
  import opened PoolSpec
  import opened PoolProofs
  import opened Allocation
  import opened HeapSpec
  import opened HeapProofs
  import opened HeapOpening
  import opened ScanSpec

  /** The first `n` frame numbers. */
  predicate FirstFrames(free: seq<nat>, n: nat)
  {
    |free| == n && forall i :: 0 <= i < n ==> free[i] == i
  }

  /** A pool in which only the header page has been touched. */
  ghost predicate Untouched(n: nat, s: Pool)
  {
    && n > 0 && Coherent(s, {}) && |s.frames| == n && s.dir == map[0 := n - 1]
    && FirstFrames(s.free, n - 1) && s.lru == [n - 1]
    && s.head == FRESH_HEADER && s.disk.next == 1
    && (forall p: nat :: p > 0 ==> Logical(s, p) == Zeros(PAGE_SIZE))
  }

  lemma FreshFirst(n: nat, free: seq<nat>)
    requires n > 0 && free == Front(seq(n, i => i))
    ensures FirstFrames(free, n - 1)
  {}

  lemma FreshUntouched(n: nat)
    requires n > 0
    ensures WholePages(Disk([], 1)) && HeaderFits(PageOnDisk(Disk([], 1), 0))
    ensures Untouched(n, OpenPool(n, []))
  {
    NewFile();
    OpenIs(n, []);
    OpenedCoherent(n, [], OpenPool(n, []));
    FreshFirst(n, OpenPool(n, []).free);
    hide OpenPool, Coherent, HeaderPage, LoadHeader, HeaderFits, HeapFile;
  }

  /** Page 1 fetched: it takes the last free frame, or the only one. */
  ghost predicate PageOneOpen(n: nat, s: Pool)
    requires Shaped(s)
    ensures PageOneOpen(n, s) ==> n > 0 && |s.frames| == n && 1 in s.dir
    ensures PageOneOpen(n, s) ==> FirstFrames(s.free, if n == 1 then 0 else n - 2) && Partition(s)
    ensures PageOneOpen(n, s) ==> s.frames[s.dir[1]].pin == 1 && s.dir[1] == (if n == 1 then 0 else n - 2)
    ensures PageOneOpen(n, s) ==> s.lru == (if n == 1 then [] else [n - 1])
    ensures PageOneOpen(n, s) ==> s.head == FRESH_HEADER && s.disk.next == 1
  {
    && n > 0 && Partition(s) && |s.frames| == n
    && 1 in s.dir && s.frames[s.dir[1]].pin == 1 && s.dir[1] == (if n == 1 then 0 else n - 2)
    && s.lru == (if n == 1 then [] else [n - 1])
    && FirstFrames(s.free, if n == 1 then 0 else n - 2)
    && s.head == FRESH_HEADER && s.disk.next == 1
  }

  lemma UntouchedParts(n: nat, s: Pool)
    requires Untouched(n, s)
    ensures n > 0 && Shaped(s) && |s.frames| == n && s.dir == map[0 := n - 1]
    ensures FirstFrames(s.free, n - 1) && s.lru == [n - 1]
    ensures s.head == FRESH_HEADER && s.disk.next == 1 && Coherent(s, {})
    ensures forall p: nat :: p > 0 ==> Logical(s, p) == Zeros(PAGE_SIZE)
  {}

  lemma FrontOfOne(f: nat)
    ensures Front([f]) == [] && Last([f]) == f
  {}

  lemma FirstFramesLast(free: seq<nat>, n: nat)
    requires FirstFrames(free, n)
    ensures n == 0 ==> free == []
    ensures n > 0 ==> free != [] && Last(free) == n - 1 && FirstFrames(Front(free), n - 1)
  {}

  lemma VictimIs(s: Pool)
    requires Shaped(s)
    ensures s.free != [] ==> Victim(s) == Fetched(Some(Last(s.free)), s.(free := Front(s.free)))
    ensures s.free == [] && s.lru != [] ==> Victim(s) == Fetched(Some(Last(s.lru)), s.(lru := Front(s.lru)))
  {
    hide Last, Front, Shaped;
  }

  lemma VictimOne(n: nat, s: Pool)
    requires Untouched(n, s)
    ensures var v := Victim(s);
      && v.frame == Some(if n == 1 then 0 else n - 2) && v.pool.frames == s.frames
      && v.pool.lru == (if n == 1 then [] else [n - 1]) && FirstFrames(v.pool.free, if n == 1 then 0 else n - 2)
      && v.pool.dir == s.dir && v.pool.head == s.head && v.pool.disk == s.disk
  {
    hide *;
    UntouchedParts(n, s);
    FrontOfOne(n - 1);
    FirstFramesLast(s.free, n - 1);
    VictimIs(s);
  }

  lemma MissParts(s: Pool, id: nat)
    requires Shaped(s) && id !in s.dir && Victim(s).frame.Some?
    ensures var r := FetchMiss(s, id).pool; var v := Victim(s);
      && FetchMiss(s, id).frame == v.frame
      && r.lru == v.pool.lru && r.free == v.pool.free && r.head == v.pool.head
      && r.disk.next == v.pool.disk.next && |r.frames| == |v.pool.frames|
      && r.frames[v.frame.value].pin == 1 && id in r.dir && r.dir[id] == v.frame.value
  {
    hide PageOnDisk, Victim;
  }

  lemma FetchOne(n: nat, s: Pool)
    requires Untouched(n, s)
    ensures Fetch(s, 1).frame.Some? && PageOneOpen(n, Fetch(s, 1).pool)
    ensures Fetch(s, 1).pool.frames[Fetch(s, 1).frame.value].data == Zeros(PAGE_SIZE)
    ensures Fetch(s, 1).pool.dir[1] == Fetch(s, 1).frame.value
  {
    hide *;
    OneIsAnId();
    UntouchedParts(n, s);
    VictimOne(n, s);
    FetchKeeps(s, 1, {});
    FetchIsMiss(s);
    MissParts(s, 1);
    PageOneIs(n, Fetch(s, 1).pool);
  }

  lemma OneIsAnId()
    ensures 1 != INVALID_ID
  {}

  lemma PageOneIs(n: nat, s: Pool)
    requires Coherent(s, {}) && n > 0 && |s.frames| == n
    requires 1 in s.dir && s.frames[s.dir[1]].pin == 1 && s.dir[1] == (if n == 1 then 0 else n - 2)
    requires s.lru == (if n == 1 then [] else [n - 1])
    requires FirstFrames(s.free, if n == 1 then 0 else n - 2)
    requires s.head == FRESH_HEADER && s.disk.next == 1
    ensures PageOneOpen(n, s)
  {
    hide Synced, Front;
  }

  lemma FetchIsMiss(s: Pool)
    requires Shaped(s) && 1 !in s.dir
    ensures Fetch(s, 1) == FetchMiss(s, 1)
  {}

  // ---------------------------------------------------------------- the scan

  lemma StorePageOne(n: nat, s: Pool, f: nat, data: Data)
    requires Shaped(s) && PageOneOpen(n, s) && f < |s.frames| && |data| == PAGE_SIZE
    ensures PageOneOpen(n, Store(s, f, data))
  {
    hide FirstFrames, WholePages;
  }

  /** The bitmap of a new heap has no page after page 1. */
  lemma NoPageAfter()
    ensures FirstFrom(FRESH_HEADER.bits, true, 2).None?
    ensures FirstFrom(FRESH_HEADER.bits, false, 0) == Some(1)
  {
    FreshCounted();
    var d := FRESH_HEADER.bits;
    assert |d| == 1;
    assert Bit(d, 0) && !Bit(d, 1) by {
      assert Live(FRESH_HEADER, 0) && !Live(FRESH_HEADER, 1);
    }
    forall i | 2 <= i < 8 * |d|
      ensures !Bit(d, i)
    {
      assert !Live(FRESH_HEADER, i);
    }
    FirstFromIff(d, false, 0, 1);
  }

  /** The pool after the scan, page 1 released. */
  ghost predicate PageOneLeft(n: nat, s: Pool)
    requires Shaped(s)
    ensures PageOneLeft(n, s) ==> n > 0 && |s.frames| == n && 1 in s.dir && Partition(s)
    ensures PageOneLeft(n, s) ==> s.dir[1] == (if n == 1 then 0 else n - 2)
    ensures PageOneLeft(n, s) ==> s.head == FRESH_HEADER && s.disk.next == 1
    ensures PageOneLeft(n, s) ==> FirstFrames(s.free, if n == 1 then 0 else n - 2)
    ensures PageOneLeft(n, s) ==> s.lru == (if n == 1 then [0] else [n - 2, n - 1])
  {
    && n > 0 && Partition(s) && |s.frames| == n
    && 1 in s.dir && s.dir[1] == (if n == 1 then 0 else n - 2)
    && s.lru == (if n == 1 then [0] else [n - 2, n - 1])
    && FirstFrames(s.free, if n == 1 then 0 else n - 2)
    && s.head == FRESH_HEADER && s.disk.next == 1
  }

  lemma UnpinOne(n: nat, s: Pool)
    requires Shaped(s) && PageOneOpen(n, s)
    ensures PageOneLeft(n, Unpin(s, 1, false))
  {
    UnpinPartition(s, 1, false);
    hide Partition, FirstFrames, PageOneOpen, Shaped;
    assert n == 1 ==> [0] + [] == [0];
    assert n > 1 ==> [n - 2] + [n - 1] == [n - 2, n - 1];
  }

  /** The scan of an empty heap: page 1 is opened, found empty and released. */
  lemma EmptyScan(n: nat, s: Pool)
    requires Untouched(n, s) && Shaped(s)
    ensures CanOpen(s, 1)
    ensures var o := ScanInit(s);
      && |o.pool.frames| > 0 && CursorOk(o.pool, o.cursor) && HasNextReady(o.pool, o.cursor)
      && var h := HasNext(o.pool, o.cursor); !h.more && PageOneLeft(n, h.pool)
  {
    hide Untouched, PageOneOpen, PageOneLeft, Fetch, Unpin, FirstFrom, Store, Open, PageOk, Zeros, Shaped;
    ZeroPage();
    NoPageAfter();
    FetchOne(n, s);
    var h := Fetch(s, 1);
    var f := h.frame.value;
    var o := ScanInit(s);
    StorePageOne(n, h.pool, f, Open(Zeros(PAGE_SIZE)).bytes);
    UnpinOne(n, o.pool);
  }

  lemma NextId(s: Pool)
    requires Shaped(s) && s.head == FRESH_HEADER && s.disk.next == 1
    ensures ChosenId(s).0 == 1 && !Reuses(s) && NewPage(s).id == 1
    ensures (s.free != [] || s.lru != []) ==> NewPage(s).frame == Victim(s).frame && Victim(s).frame.Some?
  {
    NoPageAfter();
    hide FirstFrom, Rebind, Recorded;
  }

  /** After scanning an empty heap, the next new page gets id 1 while page 1 is resident: only in a pool
      of one frame are the frames still in order. */
  lemma EmptyScanBreaksIff(n: nat)
    requires n > 0
    ensures WholePages(Disk([], 1)) && HeaderFits(PageOnDisk(Disk([], 1), 0))
    ensures var s := OpenPool(n, []);
      && CanOpen(s, 1) && var o := ScanInit(s);
      && |o.pool.frames| > 0 && CursorOk(o.pool, o.cursor) && HasNextReady(o.pool, o.cursor)
      && var r := NewPage(HasNext(o.pool, o.cursor).pool);
      && r.frame.Some? && r.id == 1 && (Partition(r.pool) <==> n == 1)
  {
    hide *;
    FreshUntouched(n);
    var s := OpenPool(n, []);
    EmptyScan(n, s);
    var o := ScanInit(s);
    NewPageBreaks(n, HasNext(o.pool, o.cursor).pool);
  }

  lemma NewPageBreaks(n: nat, s: Pool)
    requires Shaped(s) && PageOneLeft(n, s)
    ensures var r := NewPage(s); r.frame.Some? && r.id == 1 && (Partition(r.pool) <==> n == 1)
  {
    hide *;
    OneIsAnId();
    NextId(s);
    VictimIs(s);
    FirstFramesLast(s.free, if n == 1 then 0 else n - 2);
    LastOf(n);
    NewPagePartitionIff(s);
  }

  lemma LastOf(n: nat)
    ensures Last([0]) == 0 && (n > 1 ==> Last([n - 2, n - 1]) == n - 1)
  {}
}
