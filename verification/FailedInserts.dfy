/** Runs of inserts some of which fail: exactly when a scan still returns everything that was stored. */
module FailedInserts {
  import opened Bytes
  import opened Sequences
  import opened SlottedPage
  import opened PoolSpec
  import opened PoolProofs
  import opened HeapSpec
  import opened HeapProofs
  import opened HeapRuns
  import opened ScanModel
  import opened ScanProofs

  /** The longest record an empty page takes. */
  const LONGEST: nat := 990

  /** A record that no page takes: a third one after two of these, if it is stored, is never scanned. */
  predicate TooLong(rec: Data)
  {
    |rec| > LONGEST
  }

  /** The records of the run that are stored. */
  function Short(recs: seq<Data>): seq<Data>
  {
    if recs == [] then [] else (if TooLong(recs[0]) then [] else [recs[0]]) + Short(recs[1..])
  }

  /** Somewhere after two records in a row that are too long there is one that is not. */
  ghost predicate ShortAfterTwoLong(recs: seq<Data>)
  {
    exists i: nat, j: nat :: ShortAt(recs, i, j)
  }

  predicate ShortAt(recs: seq<Data>, i: nat, j: nat)
  {
    i + 1 < j < |recs| && TooLong(recs[i]) && TooLong(recs[i + 1]) && !TooLong(recs[j])
  }

  // ---------------------------------------------------------------- on lists of pages

  function ModelRun(pages: Pages, recs: seq<Data>): Pages
    decreases |recs|
  {
    if recs == [] then pages else ModelRun(ModelInsert(pages, recs[0]).pages, recs[1..])
  }

  /** An insert is refused exactly when its record is too long. */
  lemma InsertOkIff(pages: Pages, rec: Data)
    ensures ModelInsert(pages, rec).ok <==> !TooLong(rec)
  {
    RoomInNewPage(|rec|);
    if pages != [] {
      LongHasNoRoom(Last(pages), |rec|);
    }
    hide Room;
  }

  lemma LongHasNoRoom(slots: seq<Slot>, size: nat)
    ensures Room(slots, size) ==> size <= LONGEST
  {}

  /** No slot is marked deleted. */
  predicate NoneDeleted(pages: Pages)
  {
    forall k, i :: 0 <= k < |pages| && 0 <= i < |pages[k]| ==> !pages[k][i].deleted
  }

  /** An empty page, not the first and not the last. */
  ghost predicate Gap(pages: Pages)
  {
    exists k :: GapAt(pages, k)
  }

  predicate GapAt(pages: Pages, k: int)
  {
    1 <= k < |pages| - 1 && pages[k] == []
  }

  predicate EmptyLast(pages: Pages)
  {
    |pages| > 1 && Last(pages) == []
  }

  /** Some record lies beyond the end of the scan. */
  predicate Missed(pages: Pages)
  {
    pages != [] && AllRecords(pages[ScanEnd(pages, 0)..]) != []
  }

  /** What one insert does to the shape of the list. */
  lemma InsertShape(pages: Pages, rec: Data)
    requires NoneDeleted(pages)
    ensures var q := ModelInsert(pages, rec).pages;
      && NoneDeleted(q) && q != []
      && (Gap(pages) ==> Gap(q))
      && (!TooLong(rec) && !Gap(pages) ==> !Gap(q) && !EmptyLast(q))
      && (TooLong(rec) ==> EmptyLast(q) && (Gap(q) <==> Gap(pages) || EmptyLast(pages)))
  {
    InsertOkIff(pages, rec);
    RoomInNewPage(|rec|);
    hide Room;
    var q := ModelInsert(pages, rec).pages;
    if k :| GapAt(pages, k) {
      assert GapAt(q, k);
    }
    if EmptyLast(pages) && TooLong(rec) {
      assert GapAt(q, |pages| - 1);
    }
    if k :| GapAt(q, k) {
      assert k < |pages| - 1 ==> GapAt(pages, k);
    }
  }

  lemma BlockIsGap(pages: Pages, k: nat)
    requires k < |pages| - 1 && NoneDeleted(pages) && Blocks(pages, k)
    ensures Gap(pages)
  {
    assert GapAt(pages, k);
  }

  /** Without a gap nothing lies beyond the end of the scan. */
  lemma {:induction false} NoGapEnd(pages: Pages, k: nat)
    requires k < |pages| && NoneDeleted(pages) && !Gap(pages)
    ensures ScanEnd(pages, k) == |pages|
    decreases |pages| - k
  {
    if k + 1 < |pages| && Blocks(pages, k) {
      BlockIsGap(pages, k);
      assert false;
    }
    if k + 1 < |pages| {
      NoGapEnd(pages, k + 1);
    }
  }

  lemma NoGapComplete(pages: Pages)
    requires NoneDeleted(pages) && !Gap(pages)
    ensures !Missed(pages)
  {
    hide NoneDeleted, Gap;
    if pages != [] {
      NoGapEnd(pages, 0);
      EmptyRecords();
      assert pages[|pages|..] == [];
    }
  }

  /** The scan stops at the first gap at the latest. */
  lemma {:induction false} GapEnd(pages: Pages, k: nat, gap: nat)
    requires k <= gap && GapAt(pages, gap)
    ensures ScanEnd(pages, k) <= gap + 1
    decreases gap - k
  {
    if k < gap {
      GapEnd(pages, k + 1, gap);
    }
  }

  /** It stops at the same page in a list that differs only beyond the gap. */
  lemma {:induction false} SameEnd(p: Pages, q: Pages, k: nat, gap: nat)
    requires k <= gap && GapAt(p, gap) && gap < |q| - 1 && forall i :: 0 <= i <= gap ==> q[i] == p[i]
    ensures ScanEnd(q, k) == ScanEnd(p, k)
    decreases gap - k
  {
    if k < gap {
      SameEnd(p, q, k + 1, gap);
    }
  }

  /** An insert into a list is one into any end of it that is not empty. */
  lemma InsertTail(pages: Pages, rec: Data, e: nat)
    requires e < |pages|
    ensures var q := ModelInsert(pages, rec).pages;
      q[..e] == pages[..e] && q[e..] == ModelInsert(pages[e..], rec).pages
    ensures ModelInsert(pages, rec).ok == ModelInsert(pages[e..], rec).ok
  {
    hide Room;
    assert Last(pages[e..]) == Last(pages);
  }

  /** Once there is a gap, every record stored is missed. */
  lemma GapMisses(pages: Pages, rec: Data)
    requires Gap(pages)
    ensures Missed(ModelInsert(pages, rec).pages) <==> Missed(pages) || !TooLong(rec)
  {
    hide AllRecords, Room, ModelInsert;
    var gap :| GapAt(pages, gap);
    var e := ScanEnd(pages, 0);
    var q := ModelInsert(pages, rec).pages;
    GapEnd(pages, 0, gap);
    InsertTail(pages, rec, e);
    InsertTail(pages, rec, gap + 1);
    LongerList(pages, rec);
    forall i | 0 <= i <= gap
      ensures q[i] == pages[i]
    {
      assert q[..gap + 1][i] == pages[..gap + 1][i];
    }
    SameEnd(pages, q, 0, gap);
    InsertAppendsRecord(pages[e..], rec);
    InsertOkIff(pages, rec);
  }

  lemma LongerList(pages: Pages, rec: Data)
    ensures |ModelInsert(pages, rec).pages| >= |pages|
  {
    hide Room;
  }

  // ---------------------------------------------------------------- the run

  /** A run of which `long` records before were too long loses a record. */
  predicate Loses(long: nat, recs: seq<Data>)
    decreases |recs|
  {
    recs != [] &&
    if TooLong(recs[0]) then Loses(long + 1, recs[1..])
    else long >= 2 || Loses(0, recs[1..])
  }

  /** The list after `long` records in a row that were too long, or with a gap already. */
  ghost predicate InShape(pages: Pages, long: nat)
  {
    && NoneDeleted(pages) && (Gap(pages) <==> long >= 2) && (long == 1 ==> EmptyLast(pages))
    && (long == 0 ==> !EmptyLast(pages))
  }

  lemma {:induction false} FirstBlock(pages: Pages, k: nat, g: nat)
    requires k <= g < |pages| && Blocks(pages, g) && forall i :: k <= i < g ==> !Blocks(pages, i)
    ensures ScanEnd(pages, k) == g + 1
    decreases g - k
  {
    if k < g {
      FirstBlock(pages, k + 1, g);
    }
  }

  /** The insert that makes the gap leaves nothing beyond it. */
  lemma NewGap(pages: Pages, rec: Data)
    requires NoneDeleted(pages) && !Gap(pages) && EmptyLast(pages) && TooLong(rec)
    ensures !Missed(ModelInsert(pages, rec).pages)
  {
    InsertOkIff(pages, rec);
    hide Room, AllRecords;
    var q := ModelInsert(pages, rec).pages;
    assert q == pages + [[]];
    var g := |pages| - 1;
    forall i | 0 <= i < g
      ensures !Blocks(q, i)
    {
      if Blocks(pages, i) {
        BlockIsGap(pages, i);
        assert false;
      }
    }
    FirstBlock(q, 0, g);
    assert q[g + 1..] == [[]];
    OneEmpty();
  }

  lemma OneEmpty()
    ensures AllRecords([[]]) == []
  {
    var none: seq<Slot> := [];
    assert [none][1..] == [];
  }

  /** What is missed stays missed. */
  lemma {:induction false} StaysMissed(pages: Pages, recs: seq<Data>)
    requires Gap(pages) && NoneDeleted(pages) && Missed(pages)
    ensures Missed(ModelRun(pages, recs))
    decreases |recs|
  {
    hide Gap, Missed, NoneDeleted, ModelInsert;
    if recs != [] {
      GapMisses(pages, recs[0]);
      InsertShape(pages, recs[0]);
      StaysMissed(ModelInsert(pages, recs[0]).pages, recs[1..]);
    }
  }

  lemma {:induction false} MissedIff(pages: Pages, long: nat, recs: seq<Data>)
    requires InShape(pages, long) && !Missed(pages)
    ensures Missed(ModelRun(pages, recs)) <==> Loses(long, recs)
    decreases |recs|
  {
    hide Gap, Missed, NoneDeleted, ModelInsert, EmptyLast, TooLong;
    if recs != [] {
      var rec := recs[0];
      var q := ModelInsert(pages, rec).pages;
      InsertShape(pages, rec);
      if long >= 2 {
        GapMisses(pages, rec);
      } else if long == 1 && TooLong(rec) {
        NewGap(pages, rec);
      } else {
        NoGapComplete(q);
      }
      if TooLong(rec) {
        MissedIff(q, long + 1, recs[1..]);
      } else if long >= 2 {
        StaysMissed(q, recs[1..]);
      } else {
        MissedIff(q, 0, recs[1..]);
      }
    }
  }

  // ---------------------------------------------------------------- in terms of the records

  ghost predicate HasShort(recs: seq<Data>)
  {
    exists j: nat :: j < |recs| && !TooLong(recs[j])
  }

  lemma HasShortTail(recs: seq<Data>)
    requires recs != []
    ensures HasShort(recs) <==> !TooLong(recs[0]) || HasShort(recs[1..])
  {
    hide TooLong;
    if j: nat :| j < |recs[1..]| && !TooLong(recs[1..][j]) {
      assert !TooLong(recs[j + 1]);
    }
    if j: nat :| j < |recs| && !TooLong(recs[j]) {
      assert j > 0 ==> !TooLong(recs[1..][j - 1]);
    }
  }

  lemma LaterShort(recs: seq<Data>)
    requires recs != [] && ShortAfterTwoLong(recs[1..])
    ensures ShortAfterTwoLong(recs) && HasShort(recs[1..])
  {
    hide TooLong;
    var i: nat, j: nat :| ShortAt(recs[1..], i, j);
    assert ShortAt(recs, i + 1, j + 1);
  }

  lemma FirstShort(recs: seq<Data>)
    requires |recs| > 1 && TooLong(recs[0]) && TooLong(recs[1]) && HasShort(recs[2..])
    ensures ShortAfterTwoLong(recs)
  {
    hide TooLong;
    var j: nat :| j < |recs[2..]| && !TooLong(recs[2..][j]);
    assert ShortAt(recs, 0, j + 2);
  }

  lemma ShortWhere(recs: seq<Data>)
    requires recs != [] && ShortAfterTwoLong(recs)
    ensures ShortAfterTwoLong(recs[1..])
      || (|recs| > 1 && TooLong(recs[0]) && TooLong(recs[1]) && HasShort(recs[2..]))
  {
    hide TooLong;
    var i: nat, j: nat :| ShortAt(recs, i, j);
    if i == 0 {
      assert !TooLong(recs[2..][j - 2]);
    } else {
      assert ShortAt(recs[1..], i - 1, j - 1);
    }
  }

  lemma TwoLongTail(recs: seq<Data>)
    requires recs != []
    ensures ShortAfterTwoLong(recs) <==>
      || ShortAfterTwoLong(recs[1..])
      || (|recs| > 1 && TooLong(recs[0]) && TooLong(recs[1]) && HasShort(recs[2..]))
    ensures ShortAfterTwoLong(recs[1..]) ==> HasShort(recs[1..])
  {
    hide TooLong, ShortAfterTwoLong, HasShort;
    if ShortAfterTwoLong(recs[1..]) {
      LaterShort(recs);
    } else if ShortAfterTwoLong(recs) {
      ShortWhere(recs);
    } else if |recs| > 1 && TooLong(recs[0]) && TooLong(recs[1]) && HasShort(recs[2..]) {
      FirstShort(recs);
    }
  }

  lemma {:induction false} LosesIff(long: nat, recs: seq<Data>)
    ensures Loses(long, recs) <==>
      || (long >= 2 && HasShort(recs))
      || (long == 1 && recs != [] && TooLong(recs[0]) && HasShort(recs[1..]))
      || ShortAfterTwoLong(recs)
    decreases |recs|
  {
    hide TooLong, HasShort, ShortAfterTwoLong;
    if recs == [] {
      NoShort();
    } else {
      HasShortTail(recs);
      TwoLongTail(recs);
      if |recs| > 1 {
        HasShortTail(recs[1..]);
        assert recs[1..][1..] == recs[2..];
      }
      LosesIff(if TooLong(recs[0]) then long + 1 else 0, recs[1..]);
      if |recs| == 1 {
        NoShort();
      }
    }
  }

  lemma NoShort()
    ensures !HasShort([]) && !ShortAfterTwoLong([])
  {}

  lemma EmptyShape()
    ensures InShape([], 0) && !Missed([])
  {}

  /** A run from an empty list misses a record exactly when a short one comes after two long ones. */
  lemma ModelMissedIff(recs: seq<Data>)
    ensures Missed(ModelRun([], recs)) <==> ShortAfterTwoLong(recs)
  {
    hide Missed, ModelRun, Loses, HasShort, ShortAfterTwoLong, TooLong;
    EmptyShape();
    MissedIff([], 0, recs);
    LosesIff(0, recs);
  }

  // ---------------------------------------------------------------- on the pool

  /** A run of inserts on the pool is the run on the list of pages, and stores the short records. */
  lemma {:induction false} RunIsModel(s: Pool, recs: seq<Data>)
    requires HeapOk(s) && CanInsertAll(s, recs)
    ensures var r := InsertAll(s, recs);
      HeapOk(r.pool) && PageList(r.pool) == ModelRun(PageList(s), recs) && r.stored == Short(recs)
    decreases |recs|
  {
    hide *;
    RunUnfolds(s, recs);
    ModelUnfolds(PageList(s), recs);
    if recs != [] {
      InsertModel(s, recs[0]);
      RunIsModel(HeapInsert(s, recs[0]).pool, recs[1..]);
    }
  }

  lemma ModelUnfolds(pages: Pages, recs: seq<Data>)
    ensures recs == [] ==> ModelRun(pages, recs) == pages && Short(recs) == []
    ensures recs != [] ==> ModelRun(pages, recs) == ModelRun(ModelInsert(pages, recs[0]).pages, recs[1..])
    ensures recs != [] ==> Short(recs) == (if TooLong(recs[0]) then [] else [recs[0]]) + Short(recs[1..])
  {
    hide ModelInsert, TooLong;
  }

  lemma InsertModel(s: Pool, rec: Data)
    requires CanInsert(s, rec)
    ensures InsertReady(s, rec)
    ensures var r := HeapInsert(s, rec);
      HeapOk(r.pool) && PageList(r.pool) == ModelInsert(PageList(s), rec).pages && r.ok == !TooLong(rec)
  {
    hide HeapOk, PageList, Pins, HeapInsert, InsertReady, AllPinned, Guard, HasPlace, ModelInsert, TooLong;
    InsertRefines(s, rec);
    InsertOkIff(PageList(s), rec);
  }

  /** From a new file, for every pool size: the short records of a run are stored, and a scan returns all of
      them exactly when none of them comes after two records in a row that are too long. */
  lemma RunThenScanIff(n: nat, recs: seq<Data>)
    requires n > 0 && recs != [] && CanInsertAll(NewHeap(n), recs)
    ensures InsertAll(NewHeap(n), recs).stored == Short(recs)
    ensures var s := InsertAll(NewHeap(n), recs).pool;
      && HeapOk(s) && s.disk.next > 1 && CanScanAll(s)
      && (ScanAll(s).recs == Short(recs) <==> !ShortAfterTwoLong(recs))
  {
    EmptyRecords();
    hide *;
    RunIsModel(NewHeap(n), recs);
    RunAppends(NewHeap(n), recs);
    ModelMissedIff(recs);
    var s := InsertAll(NewHeap(n), recs).pool;
    AvailableAfter(NewHeap(n), s);
    PageCount(s);
    FreeFrameScans(s);
    ScanAllIs(s);
    MissedIs(PageList(s));
  }

  lemma MissedIs(pages: Pages)
    requires pages != []
    ensures Missed(pages) <==> AllRecords(pages[ScanEnd(pages, 0)..]) != []
  {
    hide AllRecords, ScanEnd;
  }

  lemma LongList(pages: Pages, rec: Data)
    requires TooLong(rec)
    ensures var q := ModelInsert(pages, rec).pages; q != [] && Last(q) == []
  {
    InsertOkIff(pages, rec);
    hide Room;
  }

  lemma EmptyLastGuard(pages: Pages, rec: Data)
    requires |rec| < PAGE_SIZE && (pages == [] || Last(pages) == [])
    ensures Guard(pages, rec)
  {}

  /** A heap ready for another insert, with nothing in its newest page. */
  ghost predicate Ready(s: Pool, next: nat)
    ensures Ready(s, next) ==> HeapOk(s)
  {
    HeapOk(s) && !AllPinned(s) && s.disk.next <= next && (PageList(s) == [] || Last(PageList(s)) == [])
  }

  lemma ReadyInsert(s: Pool, next: nat, rec: Data)
    requires Ready(s, next) && next <= BFP_MAX_PAGE_NUM && |rec| < PAGE_SIZE
    ensures CanInsert(s, rec) && InsertReady(s, rec)
    ensures TooLong(rec) ==> Ready(HeapInsert(s, rec).pool, next + 2)
  {
    hide HeapOk, AllPinned, PageList, HeapInsert, InsertReady, ModelInsert, TooLong, Pins, CanInsert, Guard;
    EmptyLastGuard(PageList(s), rec);
    MayInsert(s, rec);
    InsertModel(s, rec);
    NextAfterInsert(s, rec);
    RefinedList(s, rec);
    AvailableAfter(s, HeapInsert(s, rec).pool);
    if TooLong(rec) {
      LongList(PageList(s), rec);
    }
  }

  lemma PageLimit()
    ensures BFP_MAX_PAGE_NUM == 8064 && PAGE_SIZE == 1024 && LONGEST == 990
  {}

  lemma ThreeCanInsert(n: nat, a: Data, b: Data, c: Data)
    requires n > 0 && TooLong(a) && TooLong(b) && |a| < PAGE_SIZE && |b| < PAGE_SIZE && |c| < PAGE_SIZE
    ensures CanInsertAll(NewHeap(n), [a, b, c])
  {
    hide *;
    PageLimit();
    NewHeapReady(n);
    ReadyInsert(NewHeap(n), 1, a);
    var s1 := HeapInsert(NewHeap(n), a).pool;
    ReadyInsert(s1, 3, b);
    var s2 := HeapInsert(s1, b).pool;
    ReadyInsert(s2, 5, c);
    assert [a] + [b, c] == [a, b, c];
    assert [b] + [c] == [b, c];
    assert [c] + [] == [c];
    NoneStored(HeapInsert(s2, c).pool);
    Cons(s2, c, []);
    Cons(s1, b, [c]);
    Cons(NewHeap(n), a, [b, c]);
  }

  lemma NewHeapReady(n: nat)
    requires n > 0
    ensures Ready(NewHeap(n), 1)
  {
    NewHeapEmpty(n);
    hide HeapOk, AllPinned, PageList;
  }

  /** Two long records and a short one, from a new file: the short one is stored, and the scan returns
      nothing. */
  lemma RunMissesRecord(n: nat, a: Data, b: Data, c: Data)
    requires n > 0 && TooLong(a) && TooLong(b) && !TooLong(c) && |a| < PAGE_SIZE && |b| < PAGE_SIZE
    ensures CanInsertAll(NewHeap(n), [a, b, c])
    ensures var r := InsertAll(NewHeap(n), [a, b, c]);
      && r.stored == [c] && HeapOk(r.pool) && r.pool.disk.next > 1 && CanScanAll(r.pool)
      && ScanAll(r.pool).recs != [c]
  {
    hide *;
    ShortLength(c);
    ThreeCanInsert(n, a, b, c);
    OneShort(a, b, c);
    RunThenScanIff(n, [a, b, c]);
  }

  lemma ShortLength(rec: Data)
    requires !TooLong(rec)
    ensures |rec| < PAGE_SIZE
  {}

  lemma OneShort(a: Data, b: Data, c: Data)
    requires TooLong(a) && TooLong(b) && !TooLong(c)
    ensures ShortAfterTwoLong([a, b, c]) && Short([a, b, c]) == [c]
  {
    assert ShortAt([a, b, c], 0, 2);
    hide TooLong;
    assert [a, b, c][1..] == [b, c];
    assert [b, c][1..] == [c];
    assert [c][1..] == [];
    assert Short([c]) == [c] + Short([]);
    assert Short([b, c]) == [] + Short([c]);
    assert Short([a, b, c]) == [] + Short([b, c]);
  }
}
