/** The scanner through the pool yields what the list of pages says, whatever is evicted meanwhile,
    and accounts for exactly one pin until it ends. */
module ScanProofs {
  import opened Bytes
  import opened Options
  import opened Sequences
  import opened SlottedPage
  import opened BitMaps
  import opened Disks
  import opened PoolSpec
  import opened PoolProofs
  import opened Allocation
  import opened HeapSpec
  import opened HeapProofs
  import opened ScanModel
  import opened ScanSpec

  /** The scanner has page `c.pid` open and pinned once, on top of the pins of everyone else. */
  ghost predicate Scanning(s: Pool, c: Cursor, pins: seq<Pin>)
    ensures Scanning(s, c, pins) ==> HeapOk(s) && 1 <= c.pid < s.disk.next && |pins| == |s.frames|
    ensures Scanning(s, c, pins) ==> CursorOk(s, c) && c.frame.Some? && c.frame.value < |s.frames|
  {
    && HeapOk(s) && 1 <= c.pid < s.disk.next
    && CursorOk(s, c) && |pins| == |s.frames|
    && c.pid in s.dir && s.dir[c.pid] == c.frame.value
    && Pins(s) == AddPin(pins, c.frame.value, c.pid)
    && (pins[c.frame.value].Pinned? ==> pins[c.frame.value].pid == c.pid && pins[c.frame.value].count > 0)
    && Agree(c.head, s.frames[c.frame.value].data)
    && c.slot <= |c.head.idx|
  }

  /** The abstract position of a cursor. */
  lemma CursorPage(s: Pool, c: Cursor, pins: seq<Pin>)
    requires Scanning(s, c, pins)
    ensures var slots := PageList(s)[c.pid - 1];
      && |slots| == |c.head.idx| && c.slot <= |slots|
      && (forall i :: 0 <= i < |slots| ==> slots[i] == SlotAt(c.head, s.frames[c.frame.value].data, i))
  {
    hide HeapOk, Agree, Pins, AddPin, SlotAt, PageList;
    PageListIs(s);
    assert Logical(s, c.pid) == s.frames[c.frame.value].data;
    SlotsAgree(c.head, s.frames[c.frame.value].data);
  }

  lemma SlotsAgree(h: Head, b: Data)
    requires Agree(h, b)
    ensures PageOk(b) && |Slots(b)| == |h.idx|
    ensures forall i :: 0 <= i < |h.idx| ==> Slots(b)[i] == SlotAt(h, b, i)
  {
    hide ReadWord;
  }

  // ---------------------------------------------------------------- opening and releasing a page

  lemma OpenPageStep(s: Pool, id: nat)
    requires HeapOk(s) && 1 <= id < s.disk.next && (id in s.dir || !AllPinned(s))
    ensures CanOpen(s, id)
    ensures var r := OpenPage(s, id);
      && Scanning(r.pool, r.cursor, Pins(s)) && r.cursor.pid == id && r.cursor.slot == 0
      && PageList(r.pool) == PageList(s) && SameContents(s, r.pool, {})
  {
    FetchStep(s, id, {});
    FetchPins(s, id);
    var h := Fetch(s, id);
    var f := h.frame.value;
    PinsPositive(s, f);
    OpenedStep(s, h.pool, f, id);
    hide *;
    PageListSame(s, h.pool);
    OpensUnchangedFrom(s, id, h.pool.frames[f].data);
    OpenPageIs(s, id);
  }

  /** The page just fetched opens without a change to its bytes. */
  lemma OpenedStep(s: Pool, r: Pool, f: nat, id: nat)
    requires HeapOk(s) && HeapPool(r, {}) && r.disk.next == s.disk.next && SameContents(s, r, {})
    requires 1 <= id < s.disk.next && id in r.dir && r.dir[id] == f && f < |r.frames|
    requires |r.frames| == |s.frames| && r.frames[f].data == Logical(s, id)
    requires Pins(r) == AddPin(Pins(s), f, id)
    requires Pins(s)[f].Pinned? ==> Pins(s)[f].pid == id && Pins(s)[f].count > 0
    ensures DataPage(r.frames[f].data) && Open(r.frames[f].data).bytes == r.frames[f].data
    ensures Layout(Open(r.frames[f].data).head)
    ensures HeapOk(r) && Scanning(r, Cursor(id, 0, Open(r.frames[f].data).head, Some(f)), Pins(s))
  {
    OpenAgrees(r.frames[f].data);
    assert forall p: nat :: Logical(r, p) == Logical(s, p);
    hide Logical, HeapPool, Pins, AddPin, Agree, Open, Layout;
  }

  /** Page `id` is fetched, and opening it does not change its bytes. */
  ghost predicate OpensUnchanged(s: Pool, id: nat)
  {
    && Shaped(s) && Fetch(s, id).frame.Some?
    && var h := Fetch(s, id); var b := h.pool.frames[h.frame.value].data;
      PageOk(b) && Open(b).bytes == b
  }

  lemma OpensUnchangedFrom(s: Pool, id: nat, b: Data)
    requires Shaped(s) && Fetch(s, id).frame.Some?
    requires Fetch(s, id).pool.frames[Fetch(s, id).frame.value].data == b
    requires PageOk(b) && Open(b).bytes == b
    ensures OpensUnchanged(s, id)
  {
    hide Fetch, PageOk, Open;
  }

  lemma OpenPageIs(s: Pool, id: nat)
    requires OpensUnchanged(s, id)
    ensures CanOpen(s, id)
    ensures var h := Fetch(s, id);
      OpenPage(s, id) == Moved(true, h.pool, Cursor(id, 0, Open(h.pool.frames[h.frame.value].data).head, h.frame))
  {
    hide Fetch, Open, PageOk, Store;
    var h := Fetch(s, id);
    StoreSame(h.pool, h.frame.value);
  }

  lemma ReleaseStep(s: Pool, c: Cursor, pins: seq<Pin>)
    requires Scanning(s, c, pins)
    ensures var r := Unpin(s, c.pid, false);
      && HeapOk(r) && Pins(r) == pins && r.disk.next == s.disk.next && r.head == s.head
      && PageList(r) == PageList(s) && c.pid in r.dir
  {
    ScanParts(s, c, pins);
    hide *;
    NoRoomStep(s, c.pid, pins);
    UnpinRest(s, c.pid, false);
    PageListSame(s, Unpin(s, c.pid, false));
  }

  lemma ScanParts(s: Pool, c: Cursor, pins: seq<Pin>)
    requires Scanning(s, c, pins)
    ensures OthersOk(s, c.pid) && DataPage(Logical(s, c.pid))
    ensures c.pid in s.dir && s.dir[c.pid] == c.frame.value
    ensures Pins(s) == AddPin(pins, c.frame.value, c.pid)
    ensures pins[c.frame.value].Pinned? ==> pins[c.frame.value].pid == c.pid && pins[c.frame.value].count > 0
    ensures c.slot <= |c.head.idx|
  {
    hide DataPage, Pins, AddPin, Agree;
  }

  /** In a heap the next allocated page is the next id. */
  lemma NextPidIs(s: Pool, c: Cursor)
    requires HeapOk(s) && c.pid < s.disk.next
    ensures NextPid(s, c) == if c.pid + 1 < s.disk.next then Some(c.pid + 1) else None
  {
    var r := FirstFrom(s.head.bits, true, c.pid + 1);
    assert r.Some? ==> Live(s.head, r.value);
    assert c.pid + 1 < s.disk.next ==> Live(s.head, c.pid + 1);
    hide FirstFrom;
  }

  // ---------------------------------------------------------------- next

  /** What the scanner reads through its page pointer is what the list holds at its position. */
  lemma SlotHere(s: Pool, c: Cursor, pins: seq<Pin>)
    requires Scanning(s, c, pins)
    ensures c.slot <= |c.head.idx| == |PageList(s)[c.pid - 1]|
    ensures c.slot < |c.head.idx| ==>
      var slot := PageList(s)[c.pid - 1][c.slot];
      IsDeleted(s, c, c.slot) == slot.deleted
      && SlotAt(c.head, s.frames[c.frame.value].data, c.slot).bytes == slot.bytes
  {
    CursorPage(s, c, pins);
    hide PageList, Scanning;
  }

  lemma PageNextIs(s: Pool, c: Cursor)
    requires Shaped(s) && CursorOk(s, c)
    ensures PageNext(s, c) ==
      if c.slot >= |c.head.idx| then Nexted(OutOfRange, s, c)
      else if IsDeleted(s, c, c.slot) then PageNext(s, c.(slot := c.slot + 1))
      else Nexted(Got(SlotAt(c.head, s.frames[c.frame.value].data, c.slot).bytes, c.pid, c.slot),
                  s, c.(slot := c.slot + 1))
  {}

  lemma InPageIs(pages: Pages, k: nat, j: nat)
    requires k < |pages| && j <= |pages[k]|
    ensures InPage(pages, k, j) ==
      if j == |pages[k]| then Stop(true, k, j)
      else if pages[k][j].deleted then InPage(pages, k, j + 1)
      else Yield(pages[k][j].bytes, k, j)
  {}

  /** The scanner is under way and `m` is what the list says the rest of its page yields next. */
  ghost predicate InPageAt(s: Pool, c: Cursor, pins: seq<Pin>, m: Move)
    ensures InPageAt(s, c, pins, m) ==> Shaped(s) && CursorOk(s, c)
  {
    Scanning(s, c, pins) && c.slot <= |PageList(s)[c.pid - 1]| && m == InPage(PageList(s), c.pid - 1, c.slot)
  }

  lemma InPageAtIs(s: Pool, c: Cursor, pins: seq<Pin>, m: Move)
    requires InPageAt(s, c, pins, m)
    ensures Scanning(s, c, pins) && c.slot <= |PageList(s)[c.pid - 1]|
    ensures m == InPage(PageList(s), c.pid - 1, c.slot)
  {}

  lemma InPageAtFrom(s: Pool, c: Cursor, pins: seq<Pin>, m: Move)
    requires Scanning(s, c, pins) && c.slot <= |PageList(s)[c.pid - 1]|
    requires m == InPage(PageList(s), c.pid - 1, c.slot)
    ensures InPageAt(s, c, pins, m)
  {}

  lemma {:induction false} PageNextStep(s: Pool, c: Cursor, pins: seq<Pin>, m: Move)
    requires InPageAt(s, c, pins, m)
    ensures var r := PageNext(s, c);
      && Scanning(s, r.cursor, pins) && r.cursor.pid == c.pid
      && (m.Yield? ==> r.outcome == Got(m.rec, c.pid, m.slot) && r.cursor.slot == m.slot + 1)
      && (m.Stop? ==> r.outcome == OutOfRange && r.cursor.slot == m.slot)
      && m.page == c.pid - 1 && (m.Stop? ==> m.holding)
    decreases |c.head.idx| - c.slot
  {
    hide *;
    InPageAtIs(s, c, pins, m);
    SlotHere(s, c, pins);
    PageNextIs(s, c);
    InPageIs(PageList(s), c.pid - 1, c.slot);
    if c.slot < |c.head.idx| {
      CursorMoves(s, c, pins);
      if IsDeleted(s, c, c.slot) {
        InPageAtFrom(s, c.(slot := c.slot + 1), pins, m);
        PageNextStep(s, c.(slot := c.slot + 1), pins, m);
      }
    }
  }

  lemma CursorMoves(s: Pool, c: Cursor, pins: seq<Pin>)
    requires Scanning(s, c, pins) && c.slot < |c.head.idx|
    ensures Scanning(s, c.(slot := c.slot + 1), pins)
  {
    hide HeapOk, Pins, AddPin, Agree;
  }

  /** Where a scanner is after one call: where the list model says, still holding its one pin unless
      the last page is used up, in which case every pin is back where it was before the scan, and the
      cursor still names that page. */
  ghost predicate After(s: Pool, pins: seq<Pin>, m: Move, r: Nexted)
    requires HeapOk(s)
  {
    && HeapOk(r.pool) && PageList(r.pool) == PageList(s)
    && match m
       case Yield(rec, k, i) =>
         r.outcome == Got(rec, k + 1, i) && Scanning(r.pool, r.cursor, pins)
         && r.cursor.pid == k + 1 && r.cursor.slot == i + 1
       case Stop(true, k, i) =>
         r.outcome == OutOfRange && Scanning(r.pool, r.cursor, pins)
         && r.cursor.pid == k + 1 && r.cursor.slot == i
       case Stop(false, k, _) =>
         r.outcome == OutOfRange && Pins(r.pool) == pins
         && r.cursor.pid == k + 1 && r.cursor.pid in r.pool.dir
  }

  lemma NextWithin(s: Pool, c: Cursor, pins: seq<Pin>)
    requires Scanning(s, c, pins) && c.slot < |c.head.idx|
    ensures NextReady(s, c) && Next(s, c) == PageNext(s, c)
  {
    hide PageNext, Scanning;
  }

  lemma NextAtEnd(s: Pool, c: Cursor)
    requires Shaped(s) && |s.frames| > 0 && CursorOk(s, c) && c.slot >= |c.head.idx| && NextPid(s, c) == None
    ensures NextReady(s, c)
    ensures Next(s, c) == Nexted(OutOfRange, Unpin(s, c.pid, false), c)
  {
    hide Unpin, NextPid, PageNext;
  }

  lemma NextAcross(s: Pool, c: Cursor, id: nat)
    requires Shaped(s) && |s.frames| > 0 && CursorOk(s, c) && c.slot >= |c.head.idx|
    requires NextPid(s, c) == Some(id) && CanOpen(Unpin(s, c.pid, false), id)
    requires OpenPage(Unpin(s, c.pid, false), id).cursor.frame.Some?
    ensures NextReady(s, c)
    ensures var o := OpenPage(Unpin(s, c.pid, false), id);
      Next(s, c) == if 0 < |o.cursor.head.idx| then PageNext(o.pool, o.cursor)
                    else Nexted(OutOfRange, o.pool, o.cursor)
  {
    hide Unpin, NextPid, PageNext, OpenPage;
  }

  lemma AfterYield(s: Pool, pins: seq<Pin>, m: Move, r: Nexted)
    requires HeapOk(s) && HeapOk(r.pool) && PageList(r.pool) == PageList(s)
    requires m.Yield? && r.outcome == Got(m.rec, m.page + 1, m.slot)
    requires Scanning(r.pool, r.cursor, pins) && r.cursor.pid == m.page + 1 && r.cursor.slot == m.slot + 1
    ensures After(s, pins, m, r)
  {
    hide HeapOk, Scanning, PageList, Pins;
  }

  lemma AfterGot(s: Pool, pins: seq<Pin>, m: Move, r: Nexted)
    requires HeapOk(s) && After(s, pins, m, r)
    ensures HeapOk(r.pool) && PageList(r.pool) == PageList(s)
    ensures r.outcome.Got? <==> m.Yield?
    ensures !r.outcome.Got? ==> r.outcome == OutOfRange
    ensures m.Yield? ==> r.outcome == Got(m.rec, m.page + 1, m.slot)
    ensures m.Yield? ==> Scanning(r.pool, r.cursor, pins) && r.cursor.pid == m.page + 1 && r.cursor.slot == m.slot + 1
    ensures m.Stop? && m.holding ==> Scanning(r.pool, r.cursor, pins)
    ensures m.Stop? && !m.holding ==> Pins(r.pool) == pins && r.cursor.pid in r.pool.dir
    ensures m.Stop? ==> r.cursor.pid == m.page + 1
  {
    hide HeapOk, Scanning, PageList, Pins;
  }

  lemma AfterInPage(s: Pool, o: Pool, c: Cursor, pins: seq<Pin>)
    requires HeapOk(s) && Scanning(o, c, pins) && PageList(o) == PageList(s)
    requires c.slot <= |PageList(o)[c.pid - 1]|
    ensures After(s, pins, InPage(PageList(s), c.pid - 1, c.slot), PageNext(o, c))
  {
    hide *;
    var m := InPage(PageList(s), c.pid - 1, c.slot);
    InPageAtFrom(o, c, pins, m);
    PageNextStep(o, c, pins, m);
    if m.Yield? {
      AfterYield(s, pins, m, PageNext(o, c));
    } else {
      AfterStop(s, pins, m, PageNext(o, c));
    }
  }

  lemma AfterStop(s: Pool, pins: seq<Pin>, m: Move, r: Nexted)
    requires HeapOk(s) && HeapOk(r.pool) && PageList(r.pool) == PageList(s)
    requires m.Stop? && r.outcome == OutOfRange
    requires m.holding ==>
      Scanning(r.pool, r.cursor, pins) && r.cursor.pid == m.page + 1 && r.cursor.slot == m.slot
    requires !m.holding ==>
      Pins(r.pool) == pins && r.cursor.pid == m.page + 1 && r.cursor.pid in r.pool.dir
    ensures After(s, pins, m, r)
  {
    hide HeapOk, Scanning, PageList, Pins;
  }

  lemma AbsNextIs(pages: Pages, k: nat, j: nat)
    requires k < |pages| && j <= |pages[k]|
    ensures AbsNext(pages, k, j) ==
      if j < |pages[k]| then InPage(pages, k, j)
      else if k + 1 == |pages| then Stop(false, k, j)
      else if |pages[k + 1]| == 0 then Stop(true, k + 1, 0)
      else InPage(pages, k + 1, 0)
  {}

  /** The scanner is at the end of its page, the next page is not resident, and other clients' pins leave
      no frame for it. */
  ghost predicate Starved(s: Pool, c: Cursor, pins: seq<Pin>)
  {
    c.slot == |c.head.idx| && c.pid + 1 < s.disk.next && Unpinned !in pins && c.pid + 1 !in s.dir
  }

  /** Every call of `next` that finds a frame for its page refines the list model. */
  lemma NextRefines(s: Pool, c: Cursor, pins: seq<Pin>)
    requires Scanning(s, c, pins) && !Starved(s, c, pins)
    ensures c.slot <= |PageList(s)[c.pid - 1]|
    ensures NextReady(s, c)
    ensures After(s, pins, AbsNext(PageList(s), c.pid - 1, c.slot), Next(s, c))
  {
    hide *;
    SlotHere(s, c, pins);
    AbsNextIs(PageList(s), c.pid - 1, c.slot);
    if c.slot < |c.head.idx| {
      NextWithin(s, c, pins);
      AfterInPage(s, s, c, pins);
    } else {
      NextPidIs(s, c);
      ReleaseStep(s, c, pins);
      PidBound(s, c, pins);
      if c.pid + 1 == s.disk.next {
        NextAtEnd(s, c);
        AfterStop(s, pins, Stop(false, c.pid - 1, c.slot), Next(s, c));
      } else {
        NotStarved(s, c, pins);
        NextPage(s, c, pins);
      }
    }
  }

  lemma PidBound(s: Pool, c: Cursor, pins: seq<Pin>)
    requires Scanning(s, c, pins)
    ensures 1 <= c.pid < s.disk.next
  {}

  lemma NotStarved(s: Pool, c: Cursor, pins: seq<Pin>)
    requires Scanning(s, c, pins) && !Starved(s, c, pins)
    ensures c.slot == |c.head.idx| && c.pid + 1 < s.disk.next ==> Unpinned in pins || c.pid + 1 in s.dir
  {
    hide Scanning;
  }

  lemma NextPage(s: Pool, c: Cursor, pins: seq<Pin>)
    requires Scanning(s, c, pins) && (Unpinned in pins || c.pid + 1 in s.dir)
    requires c.slot == |c.head.idx| == |PageList(s)[c.pid - 1]| && c.pid + 1 < s.disk.next
    ensures NextReady(s, c)
    ensures After(s, pins, AbsNext(PageList(s), c.pid - 1, c.slot), Next(s, c))
  {
    hide *;
    AbsNextIs(PageList(s), c.pid - 1, c.slot);
    NextPidIs(s, c);
    ReleaseStep(s, c, pins);
    var s1 := Unpin(s, c.pid, false);
    UnpinRest(s, c.pid, false);
    AllPinnedIs(s1);
    OpenPageStep(s1, c.pid + 1);
    NextAcross(s, c, c.pid + 1);
    var o := OpenPage(s1, c.pid + 1);
    SlotHere(o.pool, o.cursor, pins);
    if |o.cursor.head.idx| == 0 {
      AfterStop(s, pins, Stop(true, c.pid, 0), Next(s, c));
    } else {
      AfterInPage(s, o.pool, o.cursor, pins);
    }
  }

  /** Without a frame for its next page the scanner reports an internal error, pinning nothing. */
  lemma NextStarves(s: Pool, c: Cursor, pins: seq<Pin>)
    requires Scanning(s, c, pins) && Starved(s, c, pins)
    ensures NextReady(s, c)
    ensures var r := Next(s, c);
      r.outcome == InternalError && HeapOk(r.pool) && PageList(r.pool) == PageList(s) && Pins(r.pool) == pins
  {
    hide *;
    StarvedIs(s, c, pins);
    NextPidIs(s, c);
    ReleaseStep(s, c, pins);
    var s1 := Unpin(s, c.pid, false);
    AllPinnedIs(s1);
    FetchFails(s1, c.pid + 1);
    NextWithout(s, c, c.pid + 1);
  }

  lemma StarvedIs(s: Pool, c: Cursor, pins: seq<Pin>)
    requires Scanning(s, c, pins) && Starved(s, c, pins)
    ensures c.slot == |c.head.idx| && c.pid + 1 < s.disk.next && c.pid + 1 !in Unpin(s, c.pid, false).dir
    ensures Unpinned !in pins
  {
    UnpinRest(s, c.pid, false);
    hide Unpin, HeapOk, Agree, Pins, AddPin;
  }

  lemma FetchFails(s: Pool, id: nat)
    requires HeapOk(s) && id < s.disk.next && id !in s.dir && AllPinned(s)
    ensures Fetch(s, id) == Fetched(None, s)
  {
    FetchKeeps(s, id, {});
    hide Fetch, AllPinned, Dense, DataPage;
  }

  lemma NextWithout(s: Pool, c: Cursor, id: nat)
    requires Shaped(s) && |s.frames| > 0 && CursorOk(s, c) && c.slot >= |c.head.idx|
    requires NextPid(s, c) == Some(id) && Fetch(Unpin(s, c.pid, false), id) == Fetched(None, Unpin(s, c.pid, false))
    ensures NextReady(s, c)
    ensures Next(s, c).outcome == InternalError && Next(s, c).pool == Unpin(s, c.pid, false)
  {
    hide Unpin, NextPid, PageNext, Fetch;
  }

  /** `next` reports an internal error exactly when it is starved of a frame. */
  lemma InternalErrorIff(s: Pool, c: Cursor, pins: seq<Pin>)
    requires Scanning(s, c, pins)
    ensures NextReady(s, c) && (Next(s, c).outcome == InternalError <==> Starved(s, c, pins))
  {
    hide *;
    if Starved(s, c, pins) {
      NextStarves(s, c, pins);
    } else {
      NextRefines(s, c, pins);
      AfterGot(s, pins, AbsNext(PageList(s), c.pid - 1, c.slot), Next(s, c));
    }
  }

  /** Every page a scan may come to can be fetched: a frame is free of other clients' pins, or all pages
      are resident. */
  ghost predicate Reachable(s: Pool, pins: seq<Pin>)
  {
    Unpinned in pins || forall p: nat :: 1 <= p < s.disk.next ==> p in s.dir
  }

  lemma ReachableNotStarved(s: Pool, c: Cursor, pins: seq<Pin>)
    requires Scanning(s, c, pins) && Reachable(s, pins)
    ensures !Starved(s, c, pins)
  {
    hide Scanning;
  }

  /** Resident pages stay resident when another resident page is opened or released. */
  lemma NextKeepsReachable(s: Pool, c: Cursor, pins: seq<Pin>)
    requires Scanning(s, c, pins) && Reachable(s, pins) && NextReady(s, c) && Next(s, c).outcome.Got?
    requires Next(s, c).pool.disk.next == s.disk.next
    ensures Reachable(Next(s, c).pool, pins)
  {
    hide *;
    PidBound(s, c, pins);
    if Unpinned in pins {
      ReachableUnpinned(Next(s, c).pool, pins);
    } else {
      ResidentOf(s, c, pins);
      NextKeepsDir(s, c, pins);
      ReachableFrom(s, Next(s, c).pool, pins);
    }
  }

  lemma ReachableUnpinned(s: Pool, pins: seq<Pin>)
    requires Unpinned in pins
    ensures Reachable(s, pins)
  {}

  lemma NextKeepsDir(s: Pool, c: Cursor, pins: seq<Pin>)
    requires Scanning(s, c, pins) && NextReady(s, c)
    requires c.pid + 1 < s.disk.next ==> c.pid + 1 in s.dir
    ensures Next(s, c).pool.dir == s.dir
  {
    hide *;
    ScannerParts(s, c, pins);
    NextPidIs(s, c);
    var s1 := Unpin(s, c.pid, false);
    UnpinRest(s, c.pid, false);
    if c.slot < |c.head.idx| {
      NextWithin(s, c, pins);
    } else if c.pid + 1 < s.disk.next {
      ReleaseStep(s, c, pins);
      OpenPageStep(s1, c.pid + 1);
      OpenFrameSome(s1, c.pid + 1, Pins(s1));
      NextAcross(s, c, c.pid + 1);
      OpenResident(s1, c.pid + 1);
    } else {
      NextAtEnd(s, c);
    }
  }

  lemma ScannerParts(s: Pool, c: Cursor, pins: seq<Pin>)
    requires Scanning(s, c, pins)
    ensures Shaped(s) && |s.frames| > 0 && CursorOk(s, c) && HeapOk(s) && 1 <= c.pid < s.disk.next
  {
    hide Agree, Pins, AddPin;
  }

  lemma OpenFrameSome(s: Pool, id: nat, pins: seq<Pin>)
    requires Shaped(s) && CanOpen(s, id) && Scanning(OpenPage(s, id).pool, OpenPage(s, id).cursor, pins)
    ensures OpenPage(s, id).cursor.frame.Some?
  {
    hide OpenPage;
  }

  lemma ResidentOf(s: Pool, c: Cursor, pins: seq<Pin>)
    requires Scanning(s, c, pins) && Reachable(s, pins) && Unpinned !in pins
    ensures c.pid + 1 < s.disk.next ==> c.pid + 1 in s.dir
  {
    hide Agree, Pins, AddPin;
  }

  lemma ReachableFrom(s: Pool, r: Pool, pins: seq<Pin>)
    requires Reachable(s, pins) && r.disk.next == s.disk.next && r.dir == s.dir
    ensures Reachable(r, pins)
  {}

  lemma OpenResident(s: Pool, id: nat)
    requires Shaped(s) && CanOpen(s, id) && id in s.dir
    ensures OpenPage(s, id).pool.dir == s.dir
  {
    hide Open, PageOk;
  }

  // ---------------------------------------------------------------- the whole scan

  datatype Scan = Scan(recs: seq<Data>, outcome: Outcome, pool: Pool, cursor: Cursor)

  ghost function Measure(s: Pool, c: Cursor): (m: (nat, nat))
    requires HeapOk(s) && 1 <= c.pid < s.disk.next
  {
    (s.disk.next - c.pid, if c.slot <= |PageList(s)[c.pid - 1]| then |PageList(s)[c.pid - 1]| - c.slot else 0)
  }

  /** Call `next` until it does not succeed. Each call uses up slots of a page or moves on a page. */
  ghost function DrainPool(s: Pool, c: Cursor, pins: seq<Pin>): (r: Scan)
    requires Scanning(s, c, pins) && Reachable(s, pins)
    decreases s.disk.next - c.pid, Measure(s, c).1
  {
    ReachableNotStarved(s, c, pins);
    NextRefines(s, c, pins);
    var n := Next(s, c);
    if n.outcome.Got? then
      DrainDecreases(s, c, pins);
      var rest := DrainPool(n.pool, n.cursor, pins);
      Scan([n.outcome.rec] + rest.recs, rest.outcome, rest.pool, rest.cursor)
    else Scan([], n.outcome, n.pool, n.cursor)
  }

  lemma MoveForward(pages: Pages, k: nat, j: nat)
    requires k < |pages| && j <= |pages[k]|
    ensures var m := AbsNext(pages, k, j); m.Yield? ==>
      && (m.page == k || m.page == k + 1) && m.page < |pages| && m.slot < |pages[m.page]|
      && (m.page == k ==> m.slot >= j)
  {}

  lemma DrainDecreases(s: Pool, c: Cursor, pins: seq<Pin>)
    requires Scanning(s, c, pins) && Reachable(s, pins)
    requires NextReady(s, c) && Next(s, c).outcome.Got?
    ensures var n := Next(s, c);
      && Scanning(n.pool, n.cursor, pins) && Reachable(n.pool, pins)
      && n.pool.disk.next == s.disk.next && n.cursor.pid >= c.pid
      && (n.cursor.pid == c.pid ==> Measure(n.pool, n.cursor).1 < Measure(s, c).1)
  {
    hide *;
    ReachableNotStarved(s, c, pins);
    NextRefines(s, c, pins);
    MoveForward(PageList(s), c.pid - 1, c.slot);
    AfterGot(s, pins, AbsNext(PageList(s), c.pid - 1, c.slot), Next(s, c));
    MeasureIs(s, c);
    MeasureIs(Next(s, c).pool, Next(s, c).cursor);
    NextKeepsReachable(s, c, pins);
  }

  lemma MeasureIs(s: Pool, c: Cursor)
    requires HeapOk(s) && 1 <= c.pid < s.disk.next && c.slot <= |PageList(s)[c.pid - 1]|
    ensures Measure(s, c).1 == |PageList(s)[c.pid - 1]| - c.slot
    ensures |PageList(s)| == s.disk.next - 1
  {
    hide HeapOk, PageList;
  }

  lemma DrainPoolIs(s: Pool, c: Cursor, pins: seq<Pin>)
    requires Scanning(s, c, pins) && Reachable(s, pins)
    ensures NextReady(s, c)
    ensures var n := Next(s, c); var r := DrainPool(s, c, pins);
      && (n.outcome.Got? ==> Scanning(n.pool, n.cursor, pins) && Reachable(n.pool, pins))
      && (n.outcome.Got? ==>
            var rest := DrainPool(n.pool, n.cursor, pins);
            r == Scan([n.outcome.rec] + rest.recs, rest.outcome, rest.pool, rest.cursor))
      && (!n.outcome.Got? ==> r == Scan([], n.outcome, n.pool, n.cursor))
  {
    hide Next, NextReady, Scanning, HeapOk, After, Starved, Reachable;
    ReachableNotStarved(s, c, pins);
    NextRefines(s, c, pins);
    if Next(s, c).outcome.Got? {
      DrainDecreases(s, c, pins);
    }
  }

  lemma DrainUnfolds(pages: Pages, k: nat, j: nat)
    requires k < |pages| && j <= |pages[k]|
    ensures var m := AbsNext(pages, k, j);
      && (m.Stop? ==> Drain(pages, k, j) == [] && LastMove(pages, k, j) == m)
      && (m.Yield? ==> m.page < |pages| && m.slot + 1 <= |pages[m.page]|)
      && (m.Yield? ==> Drain(pages, k, j) == [m.rec] + Drain(pages, m.page, m.slot + 1))
      && (m.Yield? ==> LastMove(pages, k, j) == LastMove(pages, m.page, m.slot + 1))
  {}

  /** The one pin of a scanner tells in the pin counts. */
  lemma HeldPin(s: Pool, c: Cursor, pins: seq<Pin>)
    requires Scanning(s, c, pins)
    ensures Pins(s) != pins
  {
    hide HeapOk, CursorOk, Agree, Pins;
    var f := c.frame.value;
    assert AddPin(pins, f, c.pid)[f] != pins[f];
  }

  /** Draining the scanner through the pool yields what draining the list of pages yields and leaves the
      heap as it was. Every pin is as it was before the scan exactly when the scan was not blocked;
      otherwise the scanner still holds its one pin. */
  lemma {:induction false} DrainRefines(s: Pool, c: Cursor, pins: seq<Pin>)
    requires Scanning(s, c, pins) && Reachable(s, pins)
    ensures c.slot <= |PageList(s)[c.pid - 1]|
    ensures var r := DrainPool(s, c, pins); var pages := PageList(s);
      && r.recs == Drain(pages, c.pid - 1, c.slot)
      && r.outcome == OutOfRange
      && HeapOk(r.pool) && PageList(r.pool) == pages
      && (Pins(r.pool) == pins <==> !LastMove(pages, c.pid - 1, c.slot).holding)
      && (LastMove(pages, c.pid - 1, c.slot).holding ==> Scanning(r.pool, r.cursor, pins))
    decreases s.disk.next - c.pid, Measure(s, c).1
  {
    hide *;
    ReachableNotStarved(s, c, pins);
    NextRefines(s, c, pins);
    DrainPoolIs(s, c, pins);
    var n := Next(s, c);
    AfterGot(s, pins, AbsNext(PageList(s), c.pid - 1, c.slot), n);
    DrainUnfolds(PageList(s), c.pid - 1, c.slot);
    if n.outcome.Got? {
      DrainDecreases(s, c, pins);
      DrainRefines(n.pool, n.cursor, pins);
    } else if AbsNext(PageList(s), c.pid - 1, c.slot).holding {
      HeldPin(n.pool, n.cursor, pins);
    }
  }

  /** At its end the cursor names the last page looked at, which is resident. */
  lemma {:induction false} DrainEnds(s: Pool, c: Cursor, pins: seq<Pin>)
    requires Scanning(s, c, pins) && Reachable(s, pins)
    ensures c.slot <= |PageList(s)[c.pid - 1]|
    ensures var r := DrainPool(s, c, pins);
      r.cursor.pid == LastMove(PageList(s), c.pid - 1, c.slot).page + 1 && r.cursor.pid in r.pool.dir
    decreases s.disk.next - c.pid, Measure(s, c).1
  {
    hide *;
    ReachableNotStarved(s, c, pins);
    NextRefines(s, c, pins);
    DrainPoolIs(s, c, pins);
    var n := Next(s, c);
    var m := AbsNext(PageList(s), c.pid - 1, c.slot);
    AfterGot(s, pins, m, n);
    DrainUnfolds(PageList(s), c.pid - 1, c.slot);
    if n.outcome.Got? {
      DrainDecreases(s, c, pins);
      DrainEnds(n.pool, n.cursor, pins);
    } else if m.holding {
      ScanParts(n.pool, n.cursor, pins);
    }
  }

  /** Some frame is not pinned, or every page is resident. */
  ghost predicate CanScanAll(s: Pool)
  {
    !AllPinned(s) || forall p: nat :: 1 <= p < s.disk.next ==> p in s.dir
  }

  /** A scan from its start: open page 1, then drain. */
  ghost function ScanAll(s: Pool): Scan
    requires HeapOk(s) && s.disk.next > 1 && CanScanAll(s)
  {
    ScanStarts(s);
    var o := ScanInit(s);
    DrainPool(o.pool, o.cursor, Pins(s))
  }

  lemma ScanStarts(s: Pool)
    requires HeapOk(s) && s.disk.next > 1 && CanScanAll(s)
    ensures CanOpen(s, 1)
    ensures var o := ScanInit(s);
      && Scanning(o.pool, o.cursor, Pins(s)) && Reachable(o.pool, Pins(s)) && PageList(o.pool) == PageList(s)
      && o.cursor.pid == 1 && o.cursor.slot == 0
  {
    AllPinnedIs(s);
    hide HeapOk, Pins, AllPinned, OpenPage, CanOpen, Scanning;
    OpenPageStep(s, 1);
    if Unpinned !in Pins(s) {
      OpenResident(s, 1);
      SameNext(s, OpenPage(s, 1).pool);
      ReachableFrom(s, OpenPage(s, 1).pool, Pins(s));
    }
  }

  lemma SameNext(s: Pool, r: Pool)
    requires HeapOk(s) && HeapOk(r) && PageList(r) == PageList(s)
    ensures r.disk.next == s.disk.next
  {
    hide HeapOk;
  }

  /** A whole scan, whenever a frame can be found for each page: it returns the live records of the pages up
      to the first one that blocks it, in order, each once; that is every live record exactly when none
      lies beyond; and every pin count is back exactly when the last page looked at does not block. */
  lemma ScanAllIs(s: Pool)
    requires HeapOk(s) && s.disk.next > 1 && CanScanAll(s)
    ensures var r := ScanAll(s); var pages := PageList(s);
      && r.recs == AllRecords(pages[..ScanEnd(pages, 0)])
      && (r.recs == AllRecords(pages) <==> AllRecords(pages[ScanEnd(pages, 0)..]) == [])
      && r.outcome == OutOfRange
      && HeapOk(r.pool) && PageList(r.pool) == pages
      && (Pins(r.pool) == Pins(s) <==> !Blocks(pages, ScanEnd(pages, 0) - 1))
  {
    hide *;
    ScanStarts(s);
    var o := ScanInit(s);
    ScanAllUnfolds(s);
    DrainRefines(o.pool, o.cursor, Pins(s));
    DrainCompleteIff(PageList(s));
    HoldsIffBlocked(PageList(s), 0);
  }

  lemma ScanAllUnfolds(s: Pool)
    requires HeapOk(s) && s.disk.next > 1 && CanScanAll(s)
    ensures CanOpen(s, 1) && PageList(s) != []
    ensures var o := ScanInit(s); Scanning(o.pool, o.cursor, Pins(s)) && Reachable(o.pool, Pins(s))
    ensures ScanAll(s) == DrainPool(ScanInit(s).pool, ScanInit(s).cursor, Pins(s))
  {
    hide ScanInit, DrainPool, HeapOk, Scanning, Pins, CanOpen, Reachable;
    ScanStarts(s);
  }

  /** The scanner is under way and `todo` is what draining it comes to. */
  ghost predicate Remaining(s: Pool, c: Cursor, pins: seq<Pin>, todo: Scan)
    ensures Remaining(s, c, pins, todo) ==> Shaped(s) && |s.frames| > 0 && CursorOk(s, c) && c.frame.Some?
  {
    Scanning(s, c, pins) && Reachable(s, pins) && todo == DrainPool(s, c, pins)
  }

  /** What one `next` means for the drain still to come. */
  lemma NextYields(s: Pool, c: Cursor, pins: seq<Pin>, todo: Scan)
    requires Remaining(s, c, pins, todo)
    ensures NextReady(s, c)
    ensures todo.recs != [] ==>
      && Next(s, c).outcome.Got? && Next(s, c).outcome.rec == todo.recs[0]
      && Remaining(Next(s, c).pool, Next(s, c).cursor, pins, todo.(recs := todo.recs[1..]))
    ensures todo.recs == [] ==> Next(s, c) == Nexted(OutOfRange, todo.pool, todo.cursor)
  {
    hide *;
    RemainingIs(s, c, pins, todo);
    DrainPoolIs(s, c, pins);
    DrainRefines(s, c, pins);
    var n := Next(s, c);
    if n.outcome.Got? {
      RemainingFrom(n.pool, n.cursor, pins, DrainPool(n.pool, n.cursor, pins));
    }
  }

  lemma RemainingIs(s: Pool, c: Cursor, pins: seq<Pin>, todo: Scan)
    requires Remaining(s, c, pins, todo)
    ensures Scanning(s, c, pins) && Reachable(s, pins) && todo == DrainPool(s, c, pins)
  {}

  lemma RemainingFrom(s: Pool, c: Cursor, pins: seq<Pin>, todo: Scan)
    requires Scanning(s, c, pins) && Reachable(s, pins) && todo == DrainPool(s, c, pins)
    ensures Remaining(s, c, pins, todo)
  {}

  /** A scan opened on a heap with pages has everything the scan can reach still to come. */
  lemma OpenedRemaining(s: Pool)
    requires HeapOk(s) && s.disk.next > 1 && CanScanAll(s)
    ensures CanOpen(s, 1)
    ensures Remaining(ScanInit(s).pool, ScanInit(s).cursor, Pins(s), ScanAll(s))
  {
    hide *;
    ScanStarts(s);
    ScanAllUnfolds(s);
    var o := ScanInit(s);
    RemainingFrom(o.pool, o.cursor, Pins(s), ScanAll(s));
  }
}
