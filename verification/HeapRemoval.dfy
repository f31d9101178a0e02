/** `TableHeap::remove` on the list of pages. */
module HeapRemoval {
  import opened Bytes
  import opened Options
  import opened SlottedPage
  import opened Disks
  import opened PoolSpec
  import opened PoolProofs
  import opened HeapSpec
  import opened HeapProofs

  /** Mark slot `i` as deleted, if there is such a slot. */
  function MarkSlot(slots: seq<Slot>, i: nat): seq<Slot>
  {
    if i < |slots| then slots[i := Slot(true, slots[i].bytes)] else slots
  }

  /** The bytes `remove` leaves in an opened page. */
  function RemovedBytes(b: Data, i: nat): (r: Data)
    requires PageOk(b)
    ensures |r| == PAGE_SIZE
  {
    var o := Open(b);
    if i < |o.head.idx| then BytesAfterRemove(o.head, o.bytes, i) else o.bytes
  }

  lemma RemovedSlots(b: Data, i: nat)
    requires DataPage(b)
    ensures DataPage(RemovedBytes(b, i)) && |Open(b).head.idx| == |Slots(b)|
    ensures Slots(RemovedBytes(b, i)) == MarkSlot(Slots(b), i)
  {
    var o := Open(b);
    OpenAgrees(b);
    AgreeIsData(o.head, o.bytes);
    if i < |o.head.idx| {
      RemoveMarks(o.head, o.bytes, i);
      AgreeIsData(o.head, BytesAfterRemove(o.head, o.bytes, i));
    }
    hide BytesAfterRemove, ReadWord;
  }

  lemma RemoveIs(s: Pool, p: nat, i: nat)
    requires Shaped(s) && |s.frames| > 0 && Fetch(s, p).frame.Some?
    requires PageOk(Fetch(s, p).pool.frames[Fetch(s, p).frame.value].data)
    ensures RemoveReady(s, p)
    ensures var h := Fetch(s, p); var f := h.frame.value; var b := h.pool.frames[f].data;
      HeapRemove(s, p, i) == Attempt(i < |Open(b).head.idx|, Unpin(Store(h.pool, f, RemovedBytes(b, i)), p, true))
  {
    hide Fetch, Unpin, Store, BytesAfterRemove, Open;
  }

  lemma PageListAt(s: Pool, r: Pool, p: nat)
    requires HeapOk(s) && HeapOk(r) && r.disk.next == s.disk.next && 1 <= p < s.disk.next
    requires SameContents(s, r, {p})
    ensures |PageList(s)| == s.disk.next - 1 && PageList(s)[p - 1] == Slots(Logical(s, p))
    ensures PageList(r) == PageList(s)[p - 1 := Slots(Logical(r, p))]
  {
    hide Slots, Logical, HeapOk, PageList;
    PageListIs(s);
    PageListIs(r);
  }

  lemma OthersFetched(s: Pool, r: Pool, p: nat)
    requires HeapOk(s) && Shaped(r) && r.disk.next == s.disk.next && SameContents(s, r, {})
    requires 1 <= p < s.disk.next
    ensures OthersOk(r, p) && DataPage(Logical(s, p)) && Logical(r, p) == Logical(s, p)
  {
    assert forall q: nat :: Logical(r, q) == Logical(s, q);
    hide Logical, DataPage, HeapPool;
  }

  /** A remove answers whether the slot exists, marks that slot alone, and returns every pin. */
  lemma RemoveRefines(s: Pool, p: nat, i: nat)
    requires HeapOk(s) && (p in s.dir || !AllPinned(s)) && 1 <= p < s.disk.next
    ensures RemoveReady(s, p)
    ensures var r := HeapRemove(s, p, i); var slots := PageList(s)[p - 1];
      && HeapOk(r.pool) && Pins(r.pool) == Pins(s)
      && r.ok == (i < |slots|)
      && PageList(r.pool) == PageList(s)[p - 1 := MarkSlot(slots, i)]
  {
    hide *;
    FetchStep(s, p, {});
    FetchPins(s, p);
    var h := Fetch(s, p);
    PinsPositive(s, h.frame.value);
    OthersFetched(s, h.pool, p);
    var b := Logical(s, p);
    RemovedSlots(b, i);
    FillStep(h.pool, p, RemovedBytes(b, i), true, Pins(s));
    RemoveIs(s, p, i);
    var r := HeapRemove(s, p, i).pool;
    ContentsWeaken(s, h.pool, p);
    ContentsTrans(s, h.pool, r, p);
    PageListAt(s, r, p);
  }
}
