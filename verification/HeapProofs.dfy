/** The heap as a list of pages of slots, and what each heap call does to that list. */
module HeapProofs {
  import opened Bytes
  import opened Options
  import opened Sequences
  import opened SlottedPage
  import opened BitMaps
  import opened Replacers
  import opened Disks
  import opened PoolSpec
  import opened PoolProofs
  import opened Allocation
  import opened HeapSpec

  // ---------------------------------------------------------------- the heap's state

  /** The pool of a heap, whose pages are never deleted: exactly the ids below the counter are live,
      and both counters and the bitmap's length follow from it. */
  ghost predicate Dense(h: Header, next: nat)
  {
    && 1 <= next <= BFP_MAX_PAGE_NUM + 1
    && h.pageNum == h.phyNum == next
    && |h.bits| == (next - 1) / 8 + 1
    && (forall id: nat :: Live(h, id) <==> id < next)
  }

  ghost predicate HeapPool(s: Pool, touched: set<nat>)
    ensures HeapPool(s, touched) ==> Partition(s) && |s.frames| > 0 && 1 <= s.disk.next <= BFP_MAX_PAGE_NUM + 1
  {
    && Coherent(s, touched) && |s.frames| > 0
    && Dense(s.head, s.disk.next)
    && (forall p :: p in s.dir ==> p < s.disk.next)
  }

  /** A data page that has been opened at least once. */
  ghost predicate DataPage(b: Data)
    ensures DataPage(b) ==> PageOk(b) && |b| == PAGE_SIZE
  {
    PageOk(b) && ReadWord(b, END_AT) != 0
  }

  ghost predicate HeapOk(s: Pool)
    ensures HeapOk(s) ==> HeapPool(s, {})
  {
    && HeapPool(s, {})
    && (forall p: nat :: 1 <= p < s.disk.next ==> DataPage(Logical(s, p)))
  }

  ghost function PageSlots(s: Pool, p: nat): seq<Slot>
    requires Shaped(s)
  {
    if PageOk(Logical(s, p)) then Slots(Logical(s, p)) else []
  }

  ghost function FirstPages(s: Pool, n: nat): (r: Pages)
    requires Shaped(s)
    ensures |r| == n
  {
    if n == 0 then [] else FirstPages(s, n - 1) + [PageSlots(s, n)]
  }

  lemma {:induction false} FirstPagesAt(s: Pool, n: nat)
    requires Shaped(s)
    ensures forall k :: 0 <= k < n ==> FirstPages(s, n)[k] == PageSlots(s, k + 1)
  {
    hide PageSlots;
    if n > 0 {
      FirstPagesAt(s, n - 1);
    }
  }

  /** The slots of the data pages 1, 2, ... in order. */
  ghost function PageList(s: Pool): (r: Pages)
    requires HeapOk(s)
    ensures |r| == s.disk.next - 1
  {
    FirstPages(s, s.disk.next - 1)
  }

  lemma PageSlotsAre(s: Pool)
    requires HeapOk(s)
    ensures forall p: nat :: 1 <= p < s.disk.next ==> PageSlots(s, p) == Slots(Logical(s, p))
  {
    hide HeapPool, Slots, Logical;
  }

  lemma PageListLength(s: Pool)
    requires HeapOk(s)
    ensures |PageList(s)| == s.disk.next - 1
  {
    hide HeapOk;
  }

  /** Page `k + 1` is the `k`th of the list. */
  lemma PageListIs(s: Pool)
    requires HeapOk(s)
    ensures forall k :: 0 <= k < s.disk.next - 1 ==> PageList(s)[k] == Slots(Logical(s, k + 1))
  {
    hide HeapOk, Slots, Logical, PageSlots;
    PageSlotsAre(s);
    FirstPagesAt(s, s.disk.next - 1);
  }

  // ---------------------------------------------------------------- pins

  datatype Pin = Unpinned | Pinned(count: nat, pid: nat)

  function PinOf(fr: Frame): Pin
  {
    if fr.pin == 0 then Unpinned else Pinned(fr.pin, fr.pid)
  }

  /** Who is pinned how often, frame by frame. */
  function Pins(s: Pool): (r: seq<Pin>)
    ensures |r| == |s.frames|
    ensures forall f :: 0 <= f < |r| ==> r[f] == PinOf(s.frames[f])
  {
    seq(|s.frames|, f requires 0 <= f < |s.frames| => PinOf(s.frames[f]))
  }

  /** One more pin on frame `f`, which now holds page `id`. */
  function AddPin(pins: seq<Pin>, f: nat, id: nat): (r: seq<Pin>)
    requires f < |pins|
    ensures |r| == |pins|
  {
    pins[f := Pinned(if pins[f].Pinned? then pins[f].count + 1 else 1, id)]
  }

  lemma AllPinnedIs(s: Pool)
    ensures AllPinned(s) <==> Unpinned !in Pins(s)
  {
    if !AllPinned(s) {
      var f :| 0 <= f < |s.frames| && s.frames[f].pin == 0;
      assert Pins(s)[f] == Unpinned;
    }
  }

  // ---------------------------------------------------------------- single calls

  lemma FetchStep(s: Pool, id: nat, touched: set<nat>)
    requires HeapPool(s, touched) && id < s.disk.next && (id in s.dir || !AllPinned(s))
    ensures id != INVALID_ID
    ensures var r := Fetch(s, id);
      && r.frame.Some? && HeapPool(r.pool, touched)
      && r.pool.head == s.head && r.pool.disk.next == s.disk.next
      && SameContents(s, r.pool, {})
      && id in r.pool.dir && r.pool.dir[id] == r.frame.value
      && r.pool.frames[r.frame.value].data == Logical(s, id)
  {
    FetchKeeps(s, id, touched);
    FetchRest(s, id);
    hide Coherent, Dense, Fetch, Logical;
  }

  lemma FetchRest(s: Pool, id: nat)
    requires Shaped(s)
    ensures Fetch(s, id).pool.head == s.head && Fetch(s, id).pool.disk.next == s.disk.next
    ensures forall p :: p in Fetch(s, id).pool.dir ==> p in s.dir || p == id
  {
    hide Without, PageOnDisk, Written, WholePages;
  }

  lemma FetchPins(s: Pool, id: nat)
    requires Partition(s) && id != INVALID_ID && Fetch(s, id).frame.Some?
    ensures var f := Fetch(s, id).frame.value;
      && Pins(Fetch(s, id).pool) == AddPin(Pins(s), f, id)
      && (Pins(s)[f].Pinned? ==> Pins(s)[f].pid == id)
  {
    var r := Fetch(s, id);
    var f := r.frame.value;
    FetchFrames(s, id);
    hide Fetch, Partition;
    assert Pins(r.pool) == AddPin(Pins(s), f, id);
  }

  lemma FetchFrames(s: Pool, id: nat)
    requires Partition(s) && id != INVALID_ID && Fetch(s, id).frame.Some?
    ensures var r := Fetch(s, id); var f := r.frame.value;
      && (forall g :: 0 <= g < |s.frames| && g != f ==> r.pool.frames[g] == s.frames[g])
      && r.pool.frames[f].pid == id && r.pool.frames[f].pin == s.frames[f].pin + 1
      && (s.frames[f].pin > 0 ==> s.frames[f].pid == id)
  {
    if id !in s.dir {
      VictimPicks(s);
      FetchMissClaims(s, id);
      hide Victim, FetchMiss, WrittenBack, PageOnDisk;
    } else {
      hide Without, PageOnDisk;
    }
  }

  lemma StorePins(s: Pool, f: nat, data: Data)
    requires Shaped(s) && f < |s.frames| && |data| == PAGE_SIZE
    ensures Pins(Store(s, f, data)) == Pins(s)
  {}

  lemma UnpinPins(s: Pool, id: nat, isDirty: bool, pins: seq<Pin>)
    requires Partition(s) && |s.frames| > 0 && id in s.dir && |pins| == |s.frames|
    requires Pins(s) == AddPin(pins, s.dir[id], id)
    requires pins[s.dir[id]].Pinned? ==> pins[s.dir[id]].pid == id && pins[s.dir[id]].count > 0
    ensures Pins(Unpin(s, id, isDirty)) == pins
  {
    hide AfterPut, PageOnDisk;
    var f := s.dir[id];
    var r := Unpin(s, id, isDirty);
    assert Pins(s)[f] == PinOf(s.frames[f]);
    forall g | 0 <= g < |pins|
      ensures Pins(r)[g] == pins[g]
    {
      assert g != f ==> Pins(s)[g] == pins[g];
    }
  }

  lemma PinsPositive(s: Pool, f: nat)
    requires f < |s.frames|
    ensures Pins(s)[f].Pinned? ==> Pins(s)[f].count > 0
  {}

  lemma UnpinStep(s: Pool, id: nat, isDirty: bool, touched: set<nat>)
    requires HeapPool(s, touched) && MayUnpin(s, id, isDirty, touched)
    ensures var r := Unpin(s, id, isDirty);
      && HeapPool(r, TouchedAfterUnpin(s, id, isDirty, touched))
      && r.head == s.head && r.disk == s.disk && r.dir == s.dir
      && SameContents(s, r, {})
  {
    UnpinKeeps(s, id, isDirty, touched);
    UnpinRest(s, id, isDirty);
    hide Coherent, Dense, Unpin, Logical;
  }

  lemma UnpinRest(s: Pool, id: nat, isDirty: bool)
    requires Shaped(s) && |s.frames| > 0
    ensures var r := Unpin(s, id, isDirty); r.head == s.head && r.disk == s.disk && r.dir == s.dir
  {
    hide AfterPut, WholePages;
  }

  lemma StoreStep(s: Pool, id: nat, data: Data, touched: set<nat>)
    requires HeapPool(s, touched) && id in s.dir && |data| == PAGE_SIZE
    requires s.frames[s.dir[id]].pin > 0
    ensures var r := Store(s, s.dir[id], data);
      && HeapPool(r, touched + {id})
      && r.head == s.head && r.disk == s.disk && r.dir == s.dir
      && SameContents(s, r, {id}) && Logical(r, id) == data
  {
    StoreKeeps(s, id, data, touched);
    hide Coherent, Dense, Logical;
  }

  // ---------------------------------------------------------------- a new page

  lemma DenseChoice(s: Pool)
    requires Dense(s.head, s.disk.next)
    ensures !Reuses(s) && ChosenId(s) == (s.disk.next, s.disk.(next := s.disk.next + 1))
  {
    var first := FirstFrom(s.head.bits, false, 0);
    assert first.Some? ==> !Live(s.head, first.value);
    hide FirstFrom;
  }

  lemma DenseRecorded(h: Header, next: nat)
    requires Dense(h, next) && next <= BFP_MAX_PAGE_NUM
    ensures Dense(Recorded(h, next), next + 1)
  {
    RecordedLive(h, next);
    hide Live, WithBit;
  }

  lemma NewPageStep(s: Pool, touched: set<nat>)
    requires HeapPool(s, touched) && !AllPinned(s) && s.disk.next <= BFP_MAX_PAGE_NUM
    ensures var r := NewPage(s);
      && r.frame.Some? && r.id == s.disk.next && HeapPool(r.pool, touched)
      && r.pool.disk.next == s.disk.next + 1
      && SameContents(s, r.pool, {r.id}) && Logical(r.pool, r.id) == Zeros(PAGE_SIZE)
      && r.id in r.pool.dir && r.pool.dir[r.id] == r.frame.value
      && r.pool.frames[r.frame.value] == Frame(Zeros(PAGE_SIZE), r.id, 1, true)
      && Pins(r.pool) == AddPin(Pins(s), r.frame.value, r.id)
      && Pins(s)[r.frame.value] == Unpinned
  {
    hide NewPage, Dense, Victim, WrittenBack, Logical, Recorded, ChosenId, Reuses, Claimed, Pins, AddPin;
    DenseChoice(s);
    NewPageSucceedsIff(s);
    NewPageHead(s);
    DenseRecorded(s.head, s.disk.next);
    VictimPicks(s);
    NewPageClaims(s);
    NewPageKeeps(s, touched);
    var r := NewPage(s);
    ClaimedPins(s, r.pool, r.frame.value, r.id, Zeros(PAGE_SIZE), true);
  }

  lemma ClaimedPins(s: Pool, r: Pool, f: nat, id: nat, data: Data, dirty: bool)
    requires Shaped(s) && f < |s.frames| && Claimed(s, r, f, id, data, dirty) && s.frames[f].pin == 0
    ensures Pins(r) == AddPin(Pins(s), f, id) && Pins(s)[f] == Unpinned
    ensures |r.frames| == |s.frames|
    ensures r.frames[f] == Frame(data, id, 1, dirty)
    ensures forall p :: p in r.dir ==> p in s.dir || p == id
  {
    hide Victim;
    assert Pins(r) == AddPin(Pins(s), f, id);
  }

  // ---------------------------------------------------------------- filling a pinned page

  lemma AgreeIsData(h: Head, b: Data)
    requires Agree(h, b)
    ensures DataPage(b)
  {
    if ReadWord(b, END_AT) == 0 {
      ReadBackWord(b, END_AT, PAGE_SIZE);
      hide ReadWord, WriteWord;
      assert false;
    }
  }

  /** What `TryInsert` leaves in the page and answers, in terms of the slots alone. */
  predicate Room(slots: seq<Slot>, size: nat)
  {
    8 * (4 + |slots|) + size + 1 < PAGE_SIZE - Footprint(slots)
  }

  lemma TryPageResult(b: Data, rec: Data)
    requires PageOk(b) && |rec| < PAGE_SIZE - Footprint(Slots(b))
    ensures |rec| < Open(b).head.end
    ensures var a := TryPage(b, rec);
      && a.ok == Room(Slots(b), |rec|)
      && DataPage(a.bytes)
      && Slots(a.bytes) == (if a.ok then Slots(b) + [Slot(false, rec)] else Slots(b))
      && (DataPage(b) && !a.ok ==> a.bytes == b)
  {
    var o := Open(b);
    OpenAgrees(b);
    FreeEnd(o.head, o.bytes);
    AgreeIsData(o.head, o.bytes);
    EnoughFits(o.head, |rec|);
    hide ReadWord, WriteWord, Layout, Footprint, BytesAfterInsert;
    if Enough(o.head, |rec|) {
      InsertAgrees(o.head, o.bytes, rec);
      InsertAppends(o.head, o.bytes, rec);
      AgreeIsData(HeadAfterInsert(o.head, |rec|), BytesAfterInsert(o.head, o.bytes, rec));
    }
  }

  /** All data pages but `p` have been opened. */
  ghost predicate OthersOk(s: Pool, p: nat)
    requires Shaped(s)
  {
    forall q: nat :: 1 <= q < s.disk.next && q != p ==> DataPage(Logical(s, q))
  }

  /** Store an opened page into the pinned frame of `p` and release it. */
  lemma FillStep(s: Pool, p: nat, b: Data, isDirty: bool, pins: seq<Pin>)
    requires HeapPool(s, {}) && 1 <= p < s.disk.next && OthersOk(s, p) && DataPage(b)
    requires p in s.dir && s.dir[p] < |s.frames| && |pins| == |s.frames| && Pins(s) == AddPin(pins, s.dir[p], p)
    requires pins[s.dir[p]].Pinned? ==> pins[s.dir[p]].pid == p && pins[s.dir[p]].count > 0
    requires isDirty || s.frames[s.dir[p]].dirty
    ensures var r := Unpin(Store(s, s.dir[p], b), p, isDirty);
      && HeapOk(r) && Pins(r) == pins
      && r.disk.next == s.disk.next && r.dir == s.dir
      && Logical(r, p) == b && SameContents(s, r, {p})
  {
    hide *;
    StorePinned(s, p, b, isDirty, pins);
    var s1 := Store(s, s.dir[p], b);
    UnpinStep(s1, p, isDirty, {p});
    UnpinPins(s1, p, isDirty, pins);
    ContentsChain(s, s1, Unpin(s1, p, isDirty), p);
    FilledOk(s, Unpin(s1, p, isDirty), p);
  }

  lemma ContentsChain(s: Pool, s1: Pool, r: Pool, p: nat)
    requires Shaped(s) && Shaped(s1) && Shaped(r)
    requires SameContents(s, s1, {p}) && SameContents(s1, r, {})
    ensures SameContents(s, r, {p}) && Logical(r, p) == Logical(s1, p)
  {
    hide Logical;
  }

  lemma FilledOk(s: Pool, r: Pool, p: nat)
    requires Shaped(s) && HeapPool(r, {}) && r.disk.next == s.disk.next
    requires OthersOk(s, p) && SameContents(s, r, {p}) && DataPage(Logical(r, p))
    ensures HeapOk(r)
  {
    hide Logical, DataPage, HeapPool;
  }

  lemma StorePinned(s: Pool, p: nat, b: Data, isDirty: bool, pins: seq<Pin>)
    requires HeapPool(s, {}) && p in s.dir && |b| == PAGE_SIZE
    requires |pins| == |s.frames| && Pins(s) == AddPin(pins, s.dir[p], p)
    requires isDirty || s.frames[s.dir[p]].dirty
    ensures var s1 := Store(s, s.dir[p], b);
      && HeapPool(s1, {p}) && Pins(s1) == Pins(s)
      && s1.head == s.head && s1.disk == s.disk && s1.dir == s.dir
      && SameContents(s, s1, {p}) && Logical(s1, p) == b
      && MayUnpin(s1, p, isDirty, {p}) && TouchedAfterUnpin(s1, p, isDirty, {p}) == {}
  {
    var f := s.dir[p];
    assert s.frames[f].pin > 0 by { assert Pins(s)[f] == PinOf(s.frames[f]); }
    assert {} + {p} == {p};
    StoreStep(s, p, b, {});
    StorePins(s, f, b);
    var s1 := Store(s, f, b);
    assert s1.frames[f].dirty == s.frames[f].dirty && s1.frames[f].pin > 0;
    hide Coherent, Dense, Logical, Pins, HeapPool;
  }

  // ---------------------------------------------------------------- insert as an operation on lists

  datatype Inserted = Inserted(ok: bool, pages: Pages)

  /** `insert` on the list of pages: into the last page if there is room, else into a new one, which
      is added whether or not the record fits in it. */
  function ModelInsert(pages: Pages, rec: Data): Inserted
  {
    if pages != [] && Room(Last(pages), |rec|) then
      Inserted(true, Front(pages) + [Last(pages) + [Slot(false, rec)]])
    else if Room([], |rec|) then Inserted(true, pages + [[Slot(false, rec)]])
    else if pages == [] then Inserted(false, [[], []])
    else Inserted(false, pages + [[]])
  }

  /** The record is shorter than the free region's end of every page it may be tried in. */
  predicate Guard(pages: Pages, rec: Data)
  {
    |rec| < PAGE_SIZE && (pages != [] ==> |rec| < PAGE_SIZE - Footprint(Last(pages)))
  }

  lemma NewPageReady(s: Pool, rec: Data)
    requires HeapPool(s, {}) && !AllPinned(s) && s.disk.next <= BFP_MAX_PAGE_NUM && |rec| < PAGE_SIZE
    ensures NewPageOpens(s, rec)
    ensures PageOk(Zeros(PAGE_SIZE)) && |rec| < Open(Zeros(PAGE_SIZE)).head.end
    ensures var a := TryPage(Zeros(PAGE_SIZE), rec);
      && a.ok == Room([], |rec|) && DataPage(a.bytes)
      && Slots(a.bytes) == if a.ok then [Slot(false, rec)] else []
  {
    hide HeapPool, AllPinned, NewPage, TryPage, DataPage, Slots, Open, PageOk, Pins, AddPin, Logical, Room;
    NewPageStep(s, {});
    ZeroPage();
    TryPageResult(Zeros(PAGE_SIZE), rec);
  }

  lemma PageListGrows(s: Pool, r: Pool)
    requires HeapOk(s) && HeapOk(r) && r.disk.next == s.disk.next + 1
    requires SameContents(s, r, {s.disk.next})
    ensures PageList(r) == PageList(s) + [Slots(Logical(r, s.disk.next))]
  {
    hide Slots, Logical, HeapOk, PageList;
    PageListIs(s);
    PageListIs(r);
  }

  lemma PageListLast(s: Pool, r: Pool)
    requires HeapOk(s) && HeapOk(r) && r.disk.next == s.disk.next > 1
    requires SameContents(s, r, {s.disk.next - 1})
    ensures PageList(r) == Front(PageList(s)) + [Slots(Logical(r, s.disk.next - 1))]
    ensures Last(PageList(s)) == Slots(Logical(s, s.disk.next - 1))
  {
    hide Slots, Logical, HeapOk, PageList;
    PageListIs(s);
    PageListIs(r);
  }

  lemma PageListSame(s: Pool, r: Pool)
    requires HeapOk(s) && HeapOk(r) && r.disk.next == s.disk.next
    requires SameContents(s, r, {})
    ensures PageList(r) == PageList(s)
  {
    hide Slots, Logical, HeapOk, PageList;
    PageListIs(s);
    PageListIs(r);
  }

  lemma OthersStay(s: Pool, r: Pool)
    requires HeapOk(s) && Shaped(r) && r.disk.next == s.disk.next + 1 && SameContents(s, r, {s.disk.next})
    ensures OthersOk(r, s.disk.next)
  {
    hide Logical, DataPage, HeapPool;
  }

  lemma InsertInNewPageIs(s: Pool, rec: Data)
    requires Shaped(s) && |s.frames| > 0 && NewPageOpens(s, rec) && NewPage(s).frame.Some?
    ensures var c := NewPage(s); var f := c.frame.value; var a := TryPage(c.pool.frames[f].data, rec);
      InsertInNewPage(s, rec) == Attempt(a.ok, Unpin(Store(c.pool, f, a.bytes), c.id, true))
  {
    hide NewPage, TryPage, Unpin;
  }

  /** `insert` into a page obtained for it. */
  lemma InsertNewStep(s: Pool, rec: Data)
    requires HeapOk(s) && !AllPinned(s) && s.disk.next <= BFP_MAX_PAGE_NUM && |rec| < PAGE_SIZE
    ensures NewPageOpens(s, rec)
    ensures var r := InsertInNewPage(s, rec);
      && r.ok == Room([], |rec|)
      && HeapOk(r.pool) && Pins(r.pool) == Pins(s) && r.pool.disk.next == s.disk.next + 1
      && PageList(r.pool) == PageList(s) + [if r.ok then [Slot(false, rec)] else []]
  {
    hide *;
    NewPageStep(s, {});
    NewPageReady(s, rec);
    InsertInNewPageIs(s, rec);
    var c := NewPage(s);
    var a := TryPage(Zeros(PAGE_SIZE), rec);
    OthersStay(s, c.pool);
    FillStep(c.pool, c.id, a.bytes, true, Pins(s));
    var r := InsertInNewPage(s, rec).pool;
    ContentsTrans(s, c.pool, r, c.id);
    PageListGrows(s, r);
  }

  lemma ContentsTrans(s: Pool, s1: Pool, r: Pool, p: nat)
    requires Shaped(s) && Shaped(s1) && Shaped(r)
    requires SameContents(s, s1, {p}) && SameContents(s1, r, {p})
    ensures SameContents(s, r, {p})
  {
    hide Logical;
  }

  // ---------------------------------------------------------------- insert

  /** A first try that found no room leaves the heap as it was before the fetch. */
  lemma NoRoomStep(s: Pool, p: nat, pins: seq<Pin>)
    requires HeapPool(s, {}) && p in s.dir && 1 <= p < s.disk.next
    requires OthersOk(s, p) && DataPage(Logical(s, p))
    requires |pins| == |s.frames| && Pins(s) == AddPin(pins, s.dir[p], p)
    requires pins[s.dir[p]].Pinned? ==> pins[s.dir[p]].pid == p && pins[s.dir[p]].count > 0
    ensures var r := Unpin(s, p, false);
      && HeapOk(r) && Pins(r) == pins && r.disk.next == s.disk.next && SameContents(s, r, {})
  {
    hide *;
    NoRoomUnpin(s, p, pins);
    UnpinStep(s, p, false, {});
    UnpinPins(s, p, false, pins);
    ContentsWeaken(s, Unpin(s, p, false), p);
    FilledOk(s, Unpin(s, p, false), p);
  }

  lemma ContentsWeaken(s: Pool, r: Pool, p: nat)
    requires Shaped(s) && Shaped(r) && SameContents(s, r, {})
    ensures SameContents(s, r, {p}) && Logical(r, p) == Logical(s, p)
  {
    hide Logical;
  }

  lemma NoRoomUnpin(s: Pool, p: nat, pins: seq<Pin>)
    requires HeapPool(s, {}) && p in s.dir
    requires |pins| == |s.frames| && Pins(s) == AddPin(pins, s.dir[p], p)
    ensures MayUnpin(s, p, false, {}) && TouchedAfterUnpin(s, p, false, {}) == {}
  {
    assert Pins(s)[s.dir[p]] == PinOf(s.frames[s.dir[p]]);
    assert {} - {p} == {};
  }

  lemma StoreSame(s: Pool, f: nat)
    requires Shaped(s) && f < |s.frames|
    ensures Store(s, f, s.frames[f].data) == s
  {
    assert s.frames[f := s.frames[f]] == s.frames;
  }

  /** The newest page `p` has been fetched and can be tried, and a new page after it. */
  ghost predicate NewestReady(s: Pool, p: nat, rec: Data)
  {
    && Shaped(s) && |s.frames| > 0 && Fetch(s, p).frame.Some?
    && var h := Fetch(s, p); var b := h.pool.frames[h.frame.value].data;
      && PageOk(b) && |rec| < Open(b).head.end
      && (TryPage(b, rec).ok || TryPage(b, rec).bytes == b)
      && (TryPage(b, rec).ok || NewPageOpens(Unpin(h.pool, p, false), rec))
  }

  lemma NewestReadyFrom(s: Pool, p: nat, rec: Data, b: Data)
    requires Shaped(s) && |s.frames| > 0 && Fetch(s, p).frame.Some?
    requires Fetch(s, p).pool.frames[Fetch(s, p).frame.value].data == b
    requires PageOk(b) && |rec| < Open(b).head.end
    requires TryPage(b, rec).ok || TryPage(b, rec).bytes == b
    requires TryPage(b, rec).ok || NewPageOpens(Unpin(Fetch(s, p).pool, p, false), rec)
    ensures NewestReady(s, p, rec)
  {
    hide PageOk, Fetch, TryPage, NewPageOpens, Unpin, Open;
  }

  lemma InsertExistingIs(s: Pool, rec: Data)
    requires 1 < s.disk.next <= BFP_MAX_PAGE_NUM + 1 && NewestReady(s, s.disk.next - 1, rec)
    ensures InsertReady(s, rec)
    ensures var p := s.disk.next - 1; var h := Fetch(s, p); var f := h.frame.value;
      var a := TryPage(h.pool.frames[f].data, rec);
      HeapInsert(s, rec) ==
        if a.ok then Attempt(true, Unpin(Store(h.pool, f, a.bytes), p, true))
        else InsertInNewPage(Unpin(h.pool, p, false), rec)
  {
    hide NewestReady, InsertReady, HeapInsert, Fetch, TryPage, Unpin, InsertInNewPage, Store;
    InsertNewestIs(s, rec);
  }

  /** `insert` when there is a newest page, unfolded. */
  lemma InsertNewestIs(s: Pool, rec: Data)
    requires 1 < s.disk.next <= INVALID_ID && NewestReady(s, s.disk.next - 1, rec)
    ensures InsertReady(s, rec)
    ensures var p := s.disk.next - 1; var h := Fetch(s, p); var f := h.frame.value;
      var a := TryPage(h.pool.frames[f].data, rec);
      HeapInsert(s, rec) ==
        if a.ok then Attempt(true, Unpin(Store(h.pool, f, a.bytes), p, true))
        else InsertInNewPage(Unpin(h.pool, p, false), rec)
  {
    hide Fetch, TryPage, Unpin, NewPageOpens, InsertInNewPage, NewPage;
    var h := Fetch(s, s.disk.next - 1);
    StoreSame(h.pool, h.frame.value);
    hide Store;
  }

  /** The first page has been made and can be tried, and a second one after it. */
  ghost predicate FirstReady(s: Pool, rec: Data)
  {
    && Shaped(s) && |s.frames| > 0 && NewPage(s).frame.Some?
    && var c := NewPage(s); var b := c.pool.frames[c.frame.value].data;
      && PageOk(b) && |rec| < Open(b).head.end
      && (!TryPage(b, rec).ok ==>
            NewPageOpens(Unpin(Store(c.pool, c.frame.value, TryPage(b, rec).bytes), c.id, false), rec))
  }

  lemma FirstReadyFrom(s: Pool, rec: Data, b: Data)
    requires Shaped(s) && |s.frames| > 0 && NewPage(s).frame.Some?
    requires NewPage(s).pool.frames[NewPage(s).frame.value].data == b
    requires PageOk(b) && |rec| < Open(b).head.end
    requires TryPage(b, rec).ok ||
             NewPageOpens(Unpin(Store(NewPage(s).pool, NewPage(s).frame.value, TryPage(b, rec).bytes),
                                NewPage(s).id, false), rec)
    ensures FirstReady(s, rec)
  {
    hide PageOk, NewPage, TryPage, NewPageOpens, Unpin, Open, Store;
  }

  /** `insert` into a heap without pages, unfolded. */
  lemma InsertFirstIs(s: Pool, rec: Data)
    requires s.disk.next == 1 && FirstReady(s, rec)
    ensures InsertReady(s, rec)
    ensures var c := NewPage(s); var f := c.frame.value;
      var a := TryPage(c.pool.frames[f].data, rec);
      HeapInsert(s, rec) ==
        if a.ok then Attempt(true, Unpin(Store(c.pool, f, a.bytes), c.id, true))
        else InsertInNewPage(Unpin(Store(c.pool, f, a.bytes), c.id, false), rec)
  {
    hide Fetch, TryPage, Unpin, NewPageOpens, InsertInNewPage, NewPage, Store;
  }

  /** The step from one heap state to the next: the pool is in order, every pin is back where it was,
      and the list of pages is what the model says. */
  ghost predicate Refines(s: Pool, rec: Data, r: Attempt)
    requires HeapOk(s)
  {
    && HeapOk(r.pool) && Pins(r.pool) == Pins(s)
    && Inserted(r.ok, PageList(r.pool)) == ModelInsert(PageList(s), rec)
  }

  /** The newest page, if there is one, can be fetched; the source follows a null pointer otherwise. */
  ghost predicate NewestReachable(s: Pool)
  {
    s.disk.next == 1 || s.disk.next - 1 in s.dir || !AllPinned(s)
  }

  /** There is room in the newest page, or an id and a frame for a new one. */
  ghost predicate HasPlace(s: Pool, rec: Data)
    requires HeapOk(s)
  {
    || (PageList(s) != [] && Room(Last(PageList(s)), |rec|))
    || (s.disk.next <= BFP_MAX_PAGE_NUM && !AllPinned(s))
  }

  /** The newest page fetched and pinned, as `insert` finds it. */
  lemma NewestPage(s: Pool, rec: Data)
    requires HeapOk(s) && NewestReachable(s) && s.disk.next > 1 && Guard(PageList(s), rec)
    ensures var p := s.disk.next - 1; var h := Fetch(s, p); var b := Logical(s, p);
      && h.frame.Some? && HeapPool(h.pool, {}) && h.pool.disk.next == s.disk.next
      && OthersOk(h.pool, p) && SameContents(s, h.pool, {})
      && p in h.pool.dir && h.pool.dir[p] == h.frame.value
      && h.pool.frames[h.frame.value].data == b == Logical(h.pool, p) && DataPage(b)
      && Pins(h.pool) == AddPin(Pins(s), h.frame.value, p)
      && (Pins(s)[h.frame.value].Pinned? ==>
            Pins(s)[h.frame.value].pid == p && Pins(s)[h.frame.value].count > 0)
      && Slots(b) == Last(PageList(s)) && |rec| < PAGE_SIZE - Footprint(Slots(b))
  {
    var p := s.disk.next - 1;
    FetchStep(s, p, {});
    FetchPins(s, p);
    var h := Fetch(s, p);
    PinsPositive(s, h.frame.value);
    hide Fetch, Logical, Pins, HeapPool, DataPage, Footprint, Slots, AddPin;
    assert forall q: nat :: Logical(h.pool, q) == Logical(s, q);
  }

  lemma InsertInLast(s: Pool, rec: Data)
    requires HeapOk(s) && NewestReachable(s) && s.disk.next > 1 && Guard(PageList(s), rec)
    requires Room(Last(PageList(s)), |rec|)
    ensures InsertReady(s, rec)
    ensures var r := HeapInsert(s, rec);
      && r.ok && HeapOk(r.pool) && Pins(r.pool) == Pins(s)
      && PageList(r.pool) == Front(PageList(s)) + [Last(PageList(s)) + [Slot(false, rec)]]
  {
    hide *;
    var p := s.disk.next - 1;
    NewestPage(s, rec);
    var h := Fetch(s, p);
    TryPageResult(Logical(s, p), rec);
    NewestReadyFrom(s, p, rec, Logical(s, p));
    InsertExistingIs(s, rec);
    var a := TryPage(Logical(s, p), rec);
    FillStep(h.pool, p, a.bytes, true, Pins(s));
    var r := HeapInsert(s, rec).pool;
    ContentsWeaken(s, h.pool, p);
    ContentsTrans(s, h.pool, r, p);
    PageListLast(s, r);
  }

  lemma InsertAfterFull(s: Pool, rec: Data)
    requires HeapOk(s) && !AllPinned(s) && s.disk.next > 1 && Guard(PageList(s), rec)
    requires !Room(Last(PageList(s)), |rec|) && s.disk.next <= BFP_MAX_PAGE_NUM
    ensures InsertReady(s, rec)
    ensures var r := HeapInsert(s, rec);
      && r.ok == Room([], |rec|) && HeapOk(r.pool) && Pins(r.pool) == Pins(s)
      && PageList(r.pool) == PageList(s) + [if r.ok then [Slot(false, rec)] else []]
  {
    hide *;
    var p := s.disk.next - 1;
    ReachableWhenUnpinned(s);
    NewestPage(s, rec);
    var h := Fetch(s, p);
    TryPageResult(Logical(s, p), rec);
    AllPinnedIs(s);
    var s2 := Unpin(h.pool, p, false);
    AllPinnedIs(s2);
    ShortEnough(PageList(s), rec);
    NoRoomStep(h.pool, p, Pins(s));
    ContentsChain2(s, h.pool, s2);
    PageListSame(s, s2);
    InsertNewStep(s2, rec);
    InsertIsNew(s, rec);
  }

  lemma ShortEnough(pages: Pages, rec: Data)
    requires Guard(pages, rec)
    ensures |rec| < PAGE_SIZE
  {}

  lemma ContentsChain2(s: Pool, s1: Pool, r: Pool)
    requires Shaped(s) && Shaped(s1) && Shaped(r)
    requires SameContents(s, s1, {}) && SameContents(s1, r, {})
    ensures SameContents(s, r, {})
  {
    hide Logical;
  }

  /** With no room in the newest page `insert` is an insert into a new page after that page was
      released unchanged. */
  lemma InsertIsNew(s: Pool, rec: Data)
    requires HeapOk(s) && NewestReachable(s) && s.disk.next > 1 && Guard(PageList(s), rec)
    requires !Room(Last(PageList(s)), |rec|)
    requires NewPageOpens(Unpin(Fetch(s, s.disk.next - 1).pool, s.disk.next - 1, false), rec)
    ensures InsertReady(s, rec)
    ensures HeapInsert(s, rec) ==
      InsertInNewPage(Unpin(Fetch(s, s.disk.next - 1).pool, s.disk.next - 1, false), rec)
  {
    hide *;
    NewestPage(s, rec);
    TryPageResult(Logical(s, s.disk.next - 1), rec);
    NewestReadyFrom(s, s.disk.next - 1, rec, Logical(s, s.disk.next - 1));
    InsertExistingIs(s, rec);
  }

  lemma InsertExisting(s: Pool, rec: Data)
    requires HeapOk(s) && NewestReachable(s) && s.disk.next > 1 && Guard(PageList(s), rec)
    requires HasPlace(s, rec)
    ensures InsertReady(s, rec) && Refines(s, rec, HeapInsert(s, rec))
  {
    hide HeapInsert, InsertReady, HeapOk, Pins, Room, Guard, AllPinned, NewestReachable;
    ReachableWhenUnpinned(s);
    if Room(Last(PageList(s)), |rec|) {
      InsertInLast(s, rec);
    } else {
      InsertAfterFull(s, rec);
    }
  }

  lemma ReachableWhenUnpinned(s: Pool)
    ensures !AllPinned(s) ==> NewestReachable(s)
    ensures s.disk.next - 1 in s.dir ==> NewestReachable(s)
  {}

  lemma FirstPageStep(s: Pool, rec: Data)
    requires HeapOk(s) && !AllPinned(s) && s.disk.next == 1 && |rec| < PAGE_SIZE
    ensures var c := NewPage(s);
      && c.frame.Some? && c.id == 1 && HeapPool(c.pool, {}) && c.pool.disk.next == 2 <= BFP_MAX_PAGE_NUM
      && OthersOk(c.pool, 1) && SameContents(s, c.pool, {1})
      && 1 in c.pool.dir && c.pool.dir[1] == c.frame.value
      && c.pool.frames[c.frame.value].data == Zeros(PAGE_SIZE) && c.pool.frames[c.frame.value].dirty
      && Pins(c.pool) == AddPin(Pins(s), c.frame.value, 1)
      && Pins(s)[c.frame.value] == Unpinned
  {
    NewPageStep(s, {});
    hide *;
    OthersStay(s, NewPage(s).pool);
  }

  lemma InsertFirst(s: Pool, rec: Data)
    requires HeapOk(s) && !AllPinned(s) && s.disk.next == 1 && |rec| < PAGE_SIZE
    ensures InsertReady(s, rec)
    ensures var r := HeapInsert(s, rec);
      && r.ok == Room([], |rec|) && HeapOk(r.pool) && Pins(r.pool) == Pins(s)
      && PageList(r.pool) == PageList(s) + (if r.ok then [[Slot(false, rec)]] else [[], []])
      && (r.ok ==> SameContents(s, r.pool, {1}) && r.pool.dir == NewPage(s).pool.dir)
  {
    hide *;
    FirstPageStep(s, rec);
    NewPageReady(s, rec);
    var c := NewPage(s);
    var a := TryPage(Zeros(PAGE_SIZE), rec);
    FillStep(c.pool, 1, a.bytes, a.ok, Pins(s));
    var s2 := Unpin(Store(c.pool, c.frame.value, a.bytes), 1, a.ok);
    ContentsTrans(s, c.pool, s2, 1);
    PageListGrows(s, s2);
    if !a.ok {
      AllPinnedIs(s);
      AllPinnedIs(s2);
      InsertNewStep(s2, rec);
    }
    FirstReadyFrom(s, rec, Zeros(PAGE_SIZE));
    InsertFirstIs(s, rec);
  }

  /** `TableHeap::insert` refines the insert on lists of pages, whenever the record has a place. */
  lemma InsertRefines(s: Pool, rec: Data)
    requires HeapOk(s) && NewestReachable(s) && Guard(PageList(s), rec) && HasPlace(s, rec)
    ensures InsertReady(s, rec) && Refines(s, rec, HeapInsert(s, rec))
  {
    if s.disk.next > 1 {
      InsertExisting(s, rec);
    } else {
      assert PageList(s) == [];
      InsertFirst(s, rec);
      hide HeapInsert, InsertReady, HeapOk, Pins, Room, AllPinned;
    }
  }

  // ---------------------------------------------------------------- an insert without a place

  /** What a failed `new_page` leaves: the id counter is past an id that no page has. */
  ghost predicate IdLost(s: Pool, r: Attempt)
    requires Shaped(s)
  {
    && !r.ok && Coherent(r.pool, {}) && r.pool.disk.next == s.disk.next + 1 && r.pool.head == s.head
    && SameContents(s, r.pool, {}) && Pins(r.pool) == Pins(s)
  }

  /** The id counter has no part in the pool's invariants. */
  lemma CounterCoherent(s: Pool)
    requires Coherent(s, {})
    ensures Coherent(s.(disk := s.disk.(next := s.disk.next + 1)), {})
  {}

  lemma FailedNewPage(s: Pool, rec: Data)
    requires HeapOk(s) && (AllPinned(s) || s.disk.next > BFP_MAX_PAGE_NUM)
    ensures NewPage(s).frame.None? && NewPageOpens(s, rec)
    ensures IdLost(s, InsertInNewPage(s, rec)) && InsertInNewPage(s, rec).pool == NewPage(s).pool
  {
    DenseChoice(s);
    NewPageSucceedsIff(s);
    hide Recorded, FirstFrom, Rebind, Grown, Dense, Victim, NewPage, Reuses, DataPage, Partition;
    var r := NewPage(s).pool;
    CounterCoherent(s);
    assert r == s.(disk := s.disk.(next := s.disk.next + 1));
    assert Pins(r) == Pins(s);
    assert forall p: nat :: Logical(r, p) == Logical(s, p);
  }

  lemma LostIdBreaks(s: Pool, r: Attempt)
    requires HeapOk(s) && IdLost(s, r)
    ensures !HeapOk(r.pool)
    ensures CurrentPid(r.pool.disk) == s.disk.next && !Live(r.pool.head, CurrentPid(r.pool.disk))
  {
    hide Coherent, DataPage, Logical, Live;
  }

  /** The bitmap of a heap fits in the header page exactly up to the page limit. */
  lemma HeaderFitsIff(s: Pool)
    requires HeapOk(s)
    ensures 16 + |s.head.bits| <= PAGE_SIZE <==> s.disk.next <= BFP_MAX_PAGE_NUM
  {
    hide Coherent, DataPage, Logical, Live;
  }

  lemma LostLater(s: Pool, s1: Pool, r: Attempt)
    requires Shaped(s) && Shaped(s1) && IdLost(s1, r)
    requires SameContents(s, s1, {}) && Pins(s1) == Pins(s) && s1.head == s.head && s1.disk.next == s.disk.next
    ensures IdLost(s, r)
  {
    hide Logical, Pins, Coherent;
  }

  lemma NoPlaceExisting(s: Pool, rec: Data)
    requires HeapOk(s) && NewestReachable(s) && s.disk.next > 1 && Guard(PageList(s), rec)
    requires !HasPlace(s, rec)
    ensures InsertReady(s, rec) && IdLost(s, HeapInsert(s, rec))
  {
    hide *;
    NoPlaceIs(s, rec);
    var p := s.disk.next - 1;
    NewestPage(s, rec);
    var h := Fetch(s, p);
    AllPinnedIs(s);
    var s2 := Unpin(h.pool, p, false);
    AllPinnedIs(s2);
    NoRoomStep(h.pool, p, Pins(s));
    FetchRest(s, p);
    UnpinRest(h.pool, p, false);
    ContentsChain2(s, h.pool, s2);
    FailedNewPage(s2, rec);
    InsertIsNew(s, rec);
    LostLater(s, s2, HeapInsert(s, rec));
  }

  lemma NoPlaceIs(s: Pool, rec: Data)
    requires HeapOk(s) && !HasPlace(s, rec)
    ensures s.disk.next > 1 ==> !Room(Last(PageList(s)), |rec|)
    ensures AllPinned(s) || s.disk.next > BFP_MAX_PAGE_NUM
    ensures s.disk.next == 1 ==> AllPinned(s)
  {
    hide HeapOk, Room, AllPinned;
  }

  lemma NoPlaceFirst(s: Pool, rec: Data)
    requires HeapOk(s) && s.disk.next == 1 && !HasPlace(s, rec)
    ensures InsertReady(s, rec) && IdLost(s, HeapInsert(s, rec))
  {
    NoPlaceIs(s, rec);
    FailedNewPage(s, rec);
    hide HeapOk, NewPage, Pins, Logical, TryInsert, Unpin, Fetch, HasPlace;
  }

  /** An insert leaves the heap in order exactly when the record has a place. Without one it answers no,
      and the id counter runs past an id that no page has. */
  lemma InsertKeepsHeapIff(s: Pool, rec: Data)
    requires HeapOk(s) && NewestReachable(s) && Guard(PageList(s), rec)
    ensures InsertReady(s, rec)
    ensures HeapOk(HeapInsert(s, rec).pool) <==> HasPlace(s, rec)
    ensures HasPlace(s, rec) ==> Refines(s, rec, HeapInsert(s, rec))
    ensures !HasPlace(s, rec) ==>
      var r := HeapInsert(s, rec);
      IdLost(s, r) && !Live(r.pool.head, CurrentPid(r.pool.disk))
  {
    hide *;
    if HasPlace(s, rec) {
      InsertRefines(s, rec);
      RefinedOk(s, rec, HeapInsert(s, rec));
    } else {
      NextPositive(s);
      if s.disk.next > 1 {
        NoPlaceExisting(s, rec);
      } else {
        NoPlaceFirst(s, rec);
      }
      LostIdBreaks(s, HeapInsert(s, rec));
    }
  }

  lemma RefinedOk(s: Pool, rec: Data, r: Attempt)
    requires HeapOk(s) && Refines(s, rec, r)
    ensures HeapOk(r.pool)
  {}

  lemma NextPositive(s: Pool)
    requires HeapOk(s)
    ensures s.disk.next >= 1
  {}
}
