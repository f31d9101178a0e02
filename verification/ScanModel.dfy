/** What a scan yields, on the list of pages alone, and when that is everything. */
module ScanModel {
  import opened Bytes
  import opened Options
  import opened SlottedPage

  /** One call of `next`: a record and the position after it, or the end of the scan. `holding` tells
      whether the scanner still has its page pinned when it reports the end. */
  datatype Move =
    | Yield(rec: Data, page: nat, slot: nat)
    | Stop(holding: bool, page: nat, slot: nat)

  /** The first slot from `j` on that is not marked deleted. */
  function FirstLive(slots: seq<Slot>, j: nat): (r: nat)
    requires j <= |slots|
    ensures j <= r <= |slots|
    ensures r < |slots| ==> !slots[r].deleted
    ensures forall i :: j <= i < r ==> slots[i].deleted
    decreases |slots| - j
  {
    if j == |slots| || !slots[j].deleted then j else FirstLive(slots, j + 1)
  }

  /** `PageRecordScanner::next` in page `k`: past the last live record it reports the end. */
  function InPage(pages: Pages, k: nat, j: nat): Move
    requires k < |pages| && j <= |pages[k]|
  {
    var i := FirstLive(pages[k], j);
    if i < |pages[k]| then Yield(pages[k][i].bytes, k, i) else Stop(true, k, i)
  }

  /** `RecordScanner::next`: at the end of a page it moves on one page, and stops there if that page
      has no slots. */
  function AbsNext(pages: Pages, k: nat, j: nat): Move
    requires k < |pages| && j <= |pages[k]|
  {
    if j < |pages[k]| then InPage(pages, k, j)
    else if k + 1 == |pages| then Stop(false, k, j)
    else if pages[k + 1] == [] then Stop(true, k + 1, 0)
    else InPage(pages, k + 1, 0)
  }

  /** The records a client gets that calls `next` until it no longer succeeds. */
  function Drain(pages: Pages, k: nat, j: nat): seq<Data>
    requires k < |pages| && j <= |pages[k]|
    decreases |pages| - k, |pages[k]| - j
  {
    var m := AbsNext(pages, k, j);
    if m.Stop? then [] else [m.rec] + Drain(pages, m.page, m.slot + 1)
  }

  // ---------------------------------------------------------------- the reference

  /** The records not marked deleted, in slot order. */
  function LiveIn(slots: seq<Slot>): seq<Data>
  {
    if slots == [] then []
    else (if slots[0].deleted then [] else [slots[0].bytes]) + LiveIn(slots[1..])
  }

  /** All live records, page by page. */
  function AllRecords(pages: Pages): seq<Data>
  {
    if pages == [] then [] else LiveIn(pages[0]) + AllRecords(pages[1..])
  }

  /** A scan does not get past this page: it has no slots (the first page excepted) or its last slot
      is marked deleted. */
  predicate Blocks(pages: Pages, k: nat)
    requires k < |pages|
  {
    if pages[k] == [] then k > 0 else pages[k][|pages[k]| - 1].deleted
  }

  /** The number of pages a scan that has reached page `k` looks at in all. */
  function ScanEnd(pages: Pages, k: nat): (e: nat)
    requires k < |pages|
    ensures k < e <= |pages|
    decreases |pages| - k
  {
    if Blocks(pages, k) || k + 1 == |pages| then k + 1 else ScanEnd(pages, k + 1)
  }

  lemma LiveFrom(slots: seq<Slot>, j: nat)
    requires j <= |slots|
    ensures j == |slots| ==> LiveIn(slots[j..]) == []
    ensures j < |slots| && slots[j].deleted ==> LiveIn(slots[j..]) == LiveIn(slots[j + 1..])
    ensures j < |slots| && !slots[j].deleted ==> LiveIn(slots[j..]) == [slots[j].bytes] + LiveIn(slots[j + 1..])
  {
    if j < |slots| {
      assert slots[j..][1..] == slots[j + 1..];
      assert [] + LiveIn(slots[j + 1..]) == LiveIn(slots[j + 1..]);
    }
  }

  lemma {:induction false} LiveSkip(slots: seq<Slot>, j: nat)
    requires j <= |slots|
    ensures var i := FirstLive(slots, j);
      LiveIn(slots[j..]) == if i < |slots| then [slots[i].bytes] + LiveIn(slots[i + 1..]) else []
    decreases |slots| - j
  {
    hide LiveIn;
    LiveFrom(slots, j);
    if j < |slots| && slots[j].deleted {
      LiveSkip(slots, j + 1);
    }
  }

  /** What a drain yields after the live records of a page. */
  function AfterPage(pages: Pages, k: nat, j: nat): seq<Data>
    requires k < |pages| && j <= |pages[k]|
  {
    if j < |pages[k]| && pages[k][|pages[k]| - 1].deleted then [] else Drain(pages, k, |pages[k]|)
  }

  lemma DrainStep(pages: Pages, k: nat, j: nat)
    requires k < |pages| && j < |pages[k]|
    ensures var i := FirstLive(pages[k], j);
      Drain(pages, k, j) == if i < |pages[k]| then [pages[k][i].bytes] + Drain(pages, k, i + 1) else []
  {}

  lemma Regroup(x: seq<Data>, y: seq<Data>, z: seq<Data>)
    ensures x + (y + z) == (x + y) + z
  {}

  lemma {:induction false} DrainInPage(pages: Pages, k: nat, j: nat)
    requires k < |pages| && j <= |pages[k]|
    ensures Drain(pages, k, j) == LiveIn(pages[k][j..]) + AfterPage(pages, k, j)
    decreases |pages[k]| - j
  {
    hide Drain, LiveIn, FirstLive, AfterPage;
    var i := FirstLive(pages[k], j);
    if i < |pages[k]| {
      DrainInPage(pages, k, i + 1);
      DrainYields(pages, k, j);
    } else {
      DrainDead(pages, k, j);
    }
  }

  lemma DrainYields(pages: Pages, k: nat, j: nat)
    requires k < |pages| && j <= |pages[k]| && FirstLive(pages[k], j) < |pages[k]|
    ensures var i := FirstLive(pages[k], j);
      && Drain(pages, k, j) == [pages[k][i].bytes] + Drain(pages, k, i + 1)
      && LiveIn(pages[k][j..]) + AfterPage(pages, k, j) ==
           [pages[k][i].bytes] + (LiveIn(pages[k][i + 1..]) + AfterPage(pages, k, i + 1))
  {
    hide *;
    var i := FirstLive(pages[k], j);
    DrainStep(pages, k, j);
    LiveSkip(pages[k], j);
    AfterSame(pages, k, j, i);
    Regroup([pages[k][i].bytes], LiveIn(pages[k][i + 1..]), AfterPage(pages, k, j));
  }

  lemma DrainDead(pages: Pages, k: nat, j: nat)
    requires k < |pages| && j <= |pages[k]| && FirstLive(pages[k], j) == |pages[k]|
    ensures Drain(pages, k, j) == LiveIn(pages[k][j..]) + AfterPage(pages, k, j)
  {
    LiveSkip(pages[k], j);
    if j < |pages[k]| {
      DrainStep(pages, k, j);
    }
  }

  lemma AfterSame(pages: Pages, k: nat, j: nat, i: nat)
    requires k < |pages| && j <= i < |pages[k]| && !pages[k][i].deleted
    ensures AfterPage(pages, k, i + 1) == AfterPage(pages, k, j)
  {}

  lemma DrainFromEnd(pages: Pages, k: nat)
    requires k < |pages|
    ensures Drain(pages, k, |pages[k]|) ==
      if k + 1 < |pages| && pages[k + 1] != [] then Drain(pages, k + 1, 0) else []
  {}

  lemma {:induction false} AllRecordsAppend(a: Pages, b: Pages)
    ensures AllRecords(a + b) == AllRecords(a) + AllRecords(b)
  {
    if a == [] {
      assert a + b == b;
    } else {
      assert (a + b)[1..] == a[1..] + b;
      AllRecordsAppend(a[1..], b);
    }
  }

  lemma AllRecordsFrom(pages: Pages, k: nat, e: nat)
    requires k < e <= |pages|
    ensures AllRecords(pages[k..e]) == LiveIn(pages[k]) + AllRecords(pages[k + 1..e])
  {
    assert pages[k..e][1..] == pages[k + 1..e];
  }

  /** What the drain of one page and the pages after it adds up to. */
  lemma DrainPage(pages: Pages, k: nat)
    requires k < |pages|
    ensures Drain(pages, k, 0) == LiveIn(pages[k]) +
      (if Blocks(pages, k) && pages[k] != [] then []
       else if k + 1 < |pages| && pages[k + 1] != [] then Drain(pages, k + 1, 0) else [])
  {
    DrainInPage(pages, k, 0);
    assert pages[k][0..] == pages[k];
    DrainFromEnd(pages, k);
    hide Drain, LiveIn;
  }

  lemma NoRecordsIn(pages: Pages, k: nat)
    requires k < |pages| && pages[k] == []
    ensures AllRecords(pages[k..k + 1]) == []
  {
    AllRecordsFrom(pages, k, k + 1);
  }

  /** A scan yields exactly the live records of the pages it looks at, in order, each once. */
  lemma {:induction false} DrainIs(pages: Pages, k: nat)
    requires k < |pages| && (k > 0 ==> pages[k] != [])
    ensures Drain(pages, k, 0) == AllRecords(pages[k..ScanEnd(pages, k)])
    decreases |pages| - k
  {
    hide Drain, LiveIn, AllRecords;
    DrainPage(pages, k);
    AllRecordsFrom(pages, k, ScanEnd(pages, k));
    if !Blocks(pages, k) && k + 1 < |pages| {
      if pages[k + 1] == [] {
        NoRecordsIn(pages, k + 1);
      } else {
        DrainIs(pages, k + 1);
      }
    } else {
      EmptyRun(pages, k + 1);
    }
  }

  lemma EmptyRun(pages: Pages, k: nat)
    requires k <= |pages|
    ensures AllRecords(pages[k..k]) == []
  {}

  /** The scan is complete exactly when no live record lies beyond the first page that blocks it. */
  lemma DrainCompleteIff(pages: Pages)
    requires pages != []
    ensures Drain(pages, 0, 0) == AllRecords(pages[..ScanEnd(pages, 0)])
    ensures Drain(pages, 0, 0) == AllRecords(pages) <==> AllRecords(pages[ScanEnd(pages, 0)..]) == []
  {
    var e := ScanEnd(pages, 0);
    DrainIs(pages, 0);
    assert pages[0..e] == pages[..e];
    assert pages == pages[..e] + pages[e..];
    AllRecordsAppend(pages[..e], pages[e..]);
  }

  lemma {:induction false} ScanEndAll(pages: Pages, k: nat)
    requires k < |pages|
    requires forall i :: k <= i < |pages| ==> !Blocks(pages, i)
    ensures ScanEnd(pages, k) == |pages|
    decreases |pages| - k
  {
    if k + 1 < |pages| {
      ScanEndAll(pages, k + 1);
    }
  }

  /** No page blocks: the scan returns every live record. */
  lemma DrainComplete(pages: Pages)
    requires pages != []
    requires forall k :: 0 <= k < |pages| ==> !Blocks(pages, k)
    ensures Drain(pages, 0, 0) == AllRecords(pages)
  {
    ScanEndAll(pages, 0);
    DrainCompleteIff(pages);
    assert pages[|pages|..] == [];
  }

  /** How the drain ends. */
  function LastMove(pages: Pages, k: nat, j: nat): (m: Move)
    requires k < |pages| && j <= |pages[k]|
    ensures m.Stop?
    decreases |pages| - k, |pages[k]| - j
  {
    var m := AbsNext(pages, k, j);
    if m.Stop? then m else LastMove(pages, m.page, m.slot + 1)
  }

  lemma {:induction false} LastMoveInPage(pages: Pages, k: nat, j: nat)
    requires k < |pages| && j < |pages[k]|
    ensures LastMove(pages, k, j) ==
      if pages[k][|pages[k]| - 1].deleted then Stop(true, k, |pages[k]|) else LastMove(pages, k, |pages[k]|)
    decreases |pages[k]| - j
  {
    var i := FirstLive(pages[k], j);
    if i + 1 < |pages[k]| {
      LastMoveInPage(pages, k, i + 1);
    }
  }

  lemma LastMoveFromEnd(pages: Pages, k: nat)
    requires k < |pages|
    ensures LastMove(pages, k, |pages[k]|) ==
      if k + 1 == |pages| then Stop(false, k, |pages[k]|)
      else if pages[k + 1] == [] then Stop(true, k + 1, 0)
      else LastMove(pages, k + 1, 0)
  {}

  /** The scanner lets go of its last page exactly when the scan was not blocked. */
  lemma {:induction false} HoldsIffBlocked(pages: Pages, k: nat)
    requires k < |pages| && (k > 0 ==> pages[k] != [])
    ensures LastMove(pages, k, 0).holding <==> Blocks(pages, ScanEnd(pages, k) - 1)
    ensures LastMove(pages, k, 0).page + 1 == ScanEnd(pages, k)
    decreases |pages| - k
  {
    hide LastMove;
    LastMoveFromEnd(pages, k);
    if pages[k] != [] {
      LastMoveInPage(pages, k, 0);
    }
    if !Blocks(pages, k) && k + 1 < |pages| && pages[k + 1] != [] {
      HoldsIffBlocked(pages, k + 1);
    }
  }
}
