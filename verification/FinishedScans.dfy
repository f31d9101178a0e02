/** What a scanner leaves behind: its destructor releases the page of its cursor once more. */
module FinishedScans {
  import opened Options
  import opened SlottedPage
  import opened Disks
  import opened PoolSpec
  import opened PoolProofs
  import opened HeapSpec
  import opened HeapProofs
  import opened ScanModel
  import opened ScanSpec
  import opened ScanProofs

  /** Some client has page `id` pinned. */
  ghost predicate PinsPage(pins: seq<Pin>, id: nat)
  {
    exists f :: 0 <= f < |pins| && pins[f].Pinned? && pins[f].pid == id
  }

  lemma ScanAllEnds(s: Pool)
    requires HeapOk(s) && s.disk.next > 1 && CanScanAll(s)
    ensures var r := ScanAll(s); var end := ScanEnd(PageList(s), 0);
      && r.cursor.pid == end && end in r.pool.dir && 1 <= end < s.disk.next
      && (Blocks(PageList(s), end - 1) ==> Scanning(r.pool, r.cursor, Pins(s)))
  {
    hide *;
    ScanStarts(s);
    ScanAllUnfolds(s);
    var o := ScanInit(s);
    DrainEnds(o.pool, o.cursor, Pins(s));
    DrainRefines(o.pool, o.cursor, Pins(s));
    HoldsIffBlocked(PageList(s), 0);
    PageListLength(s);
  }

  /** The pool after a whole scan and the scanner's destructor. */
  ghost function AfterScan(s: Pool): (r: Pool)
    requires HeapOk(s) && s.disk.next > 1 && CanScanAll(s)
    ensures Shaped(r)
  {
    ScanAllIs(s);
    Unpin(ScanAll(s).pool, ScanAll(s).cursor.pid, false)
  }

  /** A frame's pin tells which page a client holds. */
  lemma PinnedFrame(s: Pool, id: nat)
    requires Partition(s) && id in s.dir && id != INVALID_ID
    ensures s.frames[s.dir[id]].pin > 0 <==> PinsPage(Pins(s), id)
  {
    var f := s.dir[id];
    if s.frames[f].pin > 0 {
      assert Pins(s)[f].pid == id;
    }
    if PinsPage(Pins(s), id) {
      var g :| 0 <= g < |Pins(s)| && Pins(s)[g].Pinned? && Pins(s)[g].pid == id;
      assert s.frames[g].pid == id;
    }
  }

  lemma ReleaseKeeps(s: Pool, id: nat)
    requires HeapOk(s) && id in s.dir && s.frames[s.dir[id]].pin > 0
    ensures HeapOk(Unpin(s, id, false)) && PageList(Unpin(s, id, false)) == PageList(s)
  {
    assert {} - {id} == {};
    UnpinStep(s, id, false, {});
    hide Unpin, HeapPool, Logical, PageList, DataPage;
    var r := Unpin(s, id, false);
    assert forall p: nat :: Logical(r, p) == Logical(s, p);
    assert HeapOk(r);
    PageListSame(s, r);
  }

  /** After a whole scan and the destructor of its scanner the heap is in order, and its frames are
      partitioned, exactly when the scan was blocked, and so still held its pin, or another client has the
      last page pinned, whose pin is then the one given back. */
  lemma AfterScanIff(s: Pool)
    requires HeapOk(s) && s.disk.next > 1 && CanScanAll(s)
    ensures var pages := PageList(s); var end := ScanEnd(pages, 0);
      && (HeapOk(AfterScan(s)) <==> Blocks(pages, end - 1) || PinsPage(Pins(s), end))
      && (Partition(AfterScan(s)) <==> Blocks(pages, end - 1) || PinsPage(Pins(s), end))
      && (Blocks(pages, end - 1) ==> Pins(AfterScan(s)) == Pins(s))
      && (HeapOk(AfterScan(s)) ==> PageList(AfterScan(s)) == pages)
  {
    hide *;
    ScanAllIs(s);
    ScanAllEnds(s);
    AfterScanIs(s);
    var r := ScanAll(s);
    var end := ScanEnd(PageList(s), 0);
    if Blocks(PageList(s), end - 1) {
      ReleaseStep(r.pool, r.cursor, Pins(s));
      HeapIsPartition(AfterScan(s));
    } else {
      HeapIsPartition(r.pool);
      HeapIds(r.pool, end);
      PinnedFrame(r.pool, end);
      UnpinPartitionIff(r.pool, end, false);
      if r.pool.frames[r.pool.dir[end]].pin > 0 {
        ReleaseKeeps(r.pool, end);
      } else if HeapOk(AfterScan(s)) {
        HeapIsPartition(AfterScan(s));
      }
    }
  }

  lemma AfterScanIs(s: Pool)
    requires HeapOk(s) && s.disk.next > 1 && CanScanAll(s)
    ensures Shaped(ScanAll(s).pool) && |ScanAll(s).pool.frames| > 0
    ensures AfterScan(s) == Unpin(ScanAll(s).pool, ScanAll(s).cursor.pid, false)
  {
    hide HeapOk, ScanAll, Unpin;
    ScanAllIs(s);
    HeapIsPartition(ScanAll(s).pool);
  }

  lemma HeapIds(s: Pool, id: nat)
    requires HeapOk(s) && id in s.dir
    ensures id != INVALID_ID && s.dir[id] < |s.frames|
  {}

  lemma HeapIsPartition(s: Pool)
    requires HeapOk(s)
    ensures Partition(s) && Shaped(s) && |s.frames| > 0
  {
    hide Partition;
  }

  /** With no page pinned by others, a scan that is not blocked always leaves the pool broken. */
  lemma UnpinnedScanBreaks(s: Pool)
    requires HeapOk(s) && s.disk.next > 1 && forall f :: 0 <= f < |Pins(s)| ==> Pins(s)[f] == Unpinned
    ensures CanScanAll(s)
    ensures Partition(AfterScan(s)) <==> Blocks(PageList(s), ScanEnd(PageList(s), 0) - 1)
  {
    hide HeapOk, AfterScan, Partition, Blocks, Pins;
    NobodyPins(s);
    AfterScanIff(s);
  }

  lemma NobodyPins(s: Pool)
    requires HeapOk(s) && forall f :: 0 <= f < |Pins(s)| ==> Pins(s)[f] == Unpinned
    ensures !AllPinned(s) && CanScanAll(s)
  {
    HeapIsPartition(s);
    hide HeapOk, Partition;
    assert Pins(s)[0] == Unpinned;
    AllPinnedIs(s);
  }
}
