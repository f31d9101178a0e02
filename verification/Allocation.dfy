/** Page allocation: the bitmap, the page counters and the id counter. */
module Allocation {
  import opened Bytes
  import opened Options
  import opened SlottedPage
  import opened BitMaps
  import opened Disks
  import opened PoolSpec
  import Replacers
  import Sequences

  /** The page is allocated: its bit is set. */
  predicate Live(h: Header, id: nat)
  {
    id < 8 * |h.bits| && Bit(h.bits, id)
  }

  /** The page count is the number of live pages, every live id is below the id counter, and the header
      page is live. */
  ghost predicate Counted(h: Header, next: nat)
  {
    && h.pageNum == CountBits(h.bits, 8 * |h.bits|)
    && (forall id: nat :: Live(h, id) ==> id < next)
    && Live(h, 0)
  }

  lemma FreshCounted()
    ensures Counted(FRESH_HEADER, 1)
    ensures forall id: nat :: Live(FRESH_HEADER, id) <==> id == 0
  {
    hide WithByteBit, ByteBit;
    ZeroByteClear(0);
    forall id: nat | id < 8
      ensures Live(FRESH_HEADER, id) <==> id == 0
    {
      ZeroByteClear(id);
      BitAfterSet([0], 0, true, id);
    }
    CountZero(8);
    CountAfterSet([0], 0, true, 8);
  }

  lemma {:induction false} CountZero(n: nat)
    requires n <= 8
    ensures CountBits([0], n) == 0
  {
    hide ByteBit;
    if n > 0 {
      ZeroByteClear(n - 1);
      CountZero(n - 1);
    }
  }

  /** `new_page` never picks a live id, and it picks one below the counter it leaves. */
  lemma ChosenIdFresh(s: Pool)
    requires Counted(s.head, s.disk.next)
    ensures !Live(s.head, ChosenId(s).0)
    ensures ChosenId(s).0 < ChosenId(s).1.next
  {
    hide FirstFrom, CountBits;
    var first := FirstFrom(s.head.bits, false, 0);
    assert Live(s.head, 0);
  }

  lemma RecordedLive(h: Header, id: nat)
    ensures forall p: nat :: Live(Recorded(h, id), p) <==> Live(h, p) || p == id
  {
    hide WithByteBit, ByteBit, WithBit, Bit, Grown;
    var grown := Grown(h.bits, id);
    forall p: nat
      ensures Live(Recorded(h, id), p) <==> Live(h, p) || p == id
    {
      if p < 8 * |grown| {
        BitAfterSet(grown, id, true, p);
        GrownBit(h.bits, id, p);
      } else {
        assert !Live(h, p);
      }
    }
  }

  lemma RecordedCounted(h: Header, next: nat, id: nat, next': nat)
    requires Counted(h, next) && !Live(h, id) && next <= next' && id < next'
    ensures Counted(Recorded(h, id), next')
  {
    RecordedLive(h, id);
    hide WithByteBit, ByteBit, WithBit, Bit, Grown, Live, CountBits;
    var grown := Grown(h.bits, id);
    GrownCount(h.bits, id);
    GrownBit(h.bits, id, id);
    assert Live(h, id) <==> (id < 8 * |h.bits| && Bit(h.bits, id)) by { LiveIs(h, id); }
    CountAfterSet(grown, id, true, 8 * |grown|);
  }

  lemma LiveIs(h: Header, id: nat)
    ensures Live(h, id) <==> (id < 8 * |h.bits| && Bit(h.bits, id))
  {}

  /** Whatever `new_page` returns, the counts stay right; a page it hands out was not live before. */
  lemma NewPageCounted(s: Pool)
    requires Shaped(s) && Counted(s.head, s.disk.next)
    ensures var r := NewPage(s);
      && Counted(r.pool.head, r.pool.disk.next)
      && !Live(s.head, r.id) && r.id < r.pool.disk.next
      && (r.frame.Some? ==> forall p: nat :: Live(r.pool.head, p) <==> Live(s.head, p) || p == r.id)
      && (r.frame.None? ==> r.pool.head == s.head)
  {
    ChosenIdFresh(s);
    RecordedCounted(s.head, s.disk.next, ChosenId(s).0, ChosenId(s).1.next);
    RecordedLive(s.head, ChosenId(s).0);
    NewPageHead(s);
    hide NewPage, Recorded, ChosenId, CountBits;
  }

  lemma NewPageHead(s: Pool)
    requires Shaped(s)
    ensures var r := NewPage(s);
      && r.id == ChosenId(s).0 && r.pool.disk.next == ChosenId(s).1.next
      && r.pool.head == if r.frame.Some? then Recorded(s.head, r.id) else s.head
  {
    hide Recorded, FirstFrom, Reuses;
  }

  lemma ClearedLive(h: Header, h1: Header, id: nat)
    requires id < 8 * |h.bits| && h1.bits == WithBit(h.bits, id, false)
    ensures forall p: nat :: Live(h1, p) <==> Live(h, p) && p != id
  {
    hide WithByteBit, ByteBit, WithBit, Bit;
    forall p: nat
      ensures Live(h1, p) <==> Live(h, p) && p != id
    {
      if p < 8 * |h.bits| {
        BitAfterSet(h.bits, id, false, p);
      }
    }
  }

  /** Deleting keeps the count right exactly when the page deleted was live: for a page that is
      already gone the count still drops. */
  lemma DeleteCountedIff(s: Pool, id: nat)
    requires Shaped(s) && Counted(s.head, s.disk.next) && 0 < id < 8 * |s.head.bits|
    ensures Counted(Dropped(s, id).head, s.disk.next) <==> Live(s.head, id)
    ensures forall p: nat :: Live(Dropped(s, id).head, p) <==> Live(s.head, p) && p != id
  {
    var h1 := Dropped(s, id).head;
    ClearedLive(s.head, h1, id);
    hide WithByteBit, ByteBit, WithBit, CountBits;
    CountAfterSet(s.head.bits, id, false, 8 * |s.head.bits|);
    CountPositive(s.head.bits, 0, 8 * |s.head.bits|);
  }

  lemma {:induction false} CountPositive(d: Data, i: nat, n: nat)
    requires i < n <= 8 * |d| && Bit(d, i)
    ensures CountBits(d, n) > 0
  {
    hide Bit;
    if i < n - 1 {
      CountPositive(d, i, n - 1);
    }
  }

  /** Rewriting the header page touches neither the header in memory nor the id counter. */
  lemma SaveHeaderKeepsCounts(s: Pool)
    requires Shaped(s) && |s.frames| > 0 && 16 + |s.head.bits| <= PAGE_SIZE
    ensures SaveHeader(s).head == s.head && SaveHeader(s).disk.next == s.disk.next
  {
    hide HeaderBytes, Fetch, Unpin, Shaped;
    FetchKeepsCounts(s, 0);
    var r := Fetch(s, 0);
    if r.frame.Some? {
      var f := r.frame.value;
      var fr := r.pool.frames[f];
      UnpinKeepsCounts(WithFrame(r.pool, f, fr.(data := HeaderBytes(s.head, fr.data), dirty := true)), fr.pid, true);
    }
  }

  lemma FetchKeepsCounts(s: Pool, id: nat)
    requires Shaped(s)
    ensures Fetch(s, id).pool.head == s.head && Fetch(s, id).pool.disk.next == s.disk.next
    ensures forall f :: 0 <= f < |s.frames| ==> |Fetch(s, id).pool.frames[f].data| == PAGE_SIZE
  {
    hide PageOnDisk, Zeros, Sequences.Without, Sequences.Last, Sequences.Front;
  }

  lemma UnpinKeepsCounts(s: Pool, id: nat, isDirty: bool)
    requires Shaped(s) && |s.frames| > 0
    ensures Unpin(s, id, isDirty).head == s.head && Unpin(s, id, isDirty).disk == s.disk
  {
    hide Replacers.AfterPut;
  }

  // ---------------------------------------------------------------- runs

  datatype AllocOp = Create | Delete(id: nat)

  ghost predicate AllocGood(s: Pool)
  {
    Shaped(s) && |s.frames| > 0 && Counted(s.head, s.disk.next) && 16 + |s.head.bits| <= PAGE_SIZE
  }

  /** New ids stay within the header page's bitmap; only live pages other than the header go. */
  ghost predicate AllocAllowed(s: Pool, op: AllocOp)
  {
    match op
    case Create => s.disk.next < BFP_MAX_PAGE_NUM
    case Delete(id) => id > 0 && Live(s.head, id)
  }

  function AllocStep(s: Pool, op: AllocOp): Pool
    requires AllocGood(s) && AllocAllowed(s, op)
  {
    match op
    case Create => NewPage(s).pool
    case Delete(id) => DeletePage(s, id)
  }

  lemma AllocStepGood(s: Pool, op: AllocOp)
    requires AllocGood(s) && AllocAllowed(s, op)
    ensures AllocGood(AllocStep(s, op))
    ensures forall p: nat :: Live(AllocStep(s, op).head, p) ==>
      Live(s.head, p) || (op == Create && p == NewPage(s).id && !Live(s.head, p))
  {
    match op {
      case Create =>
        NewPageCounted(s);
        NewPageHead(s);
        BitmapFits(s);
        hide NewPage, Recorded, Live, Counted;
      case Delete(id) =>
        DeleteCountedIff(s, id);
        var d := Dropped(s, id);
        SaveHeaderKeepsCounts(d);
        hide SaveHeader, Live, Counted;
    }
  }

  lemma BitmapFits(s: Pool)
    requires AllocGood(s) && s.disk.next < BFP_MAX_PAGE_NUM
    ensures 16 + |Recorded(s.head, ChosenId(s).0).bits| <= PAGE_SIZE
  {
    hide Counted, WithByteBit, Bit;
  }

  ghost predicate AllocAllowedRun(s: Pool, ops: seq<AllocOp>)
    requires AllocGood(s)
    decreases |ops|
  {
    ops == [] ||
    (AllocAllowed(s, ops[0]) &&
      (AllocStepGood(s, ops[0]); AllocAllowedRun(AllocStep(s, ops[0]), ops[1..])))
  }

  /** Across any run of creations and deletions the page count stays the number of set bits, and no
      set bit reaches the id counter. */
  ghost function AllocRun(s: Pool, ops: seq<AllocOp>): (r: Pool)
    requires AllocGood(s) && AllocAllowedRun(s, ops)
    ensures AllocGood(r)
    decreases |ops|
  {
    if ops == [] then s
    else AllocStepGood(s, ops[0]); AllocRun(AllocStep(s, ops[0]), ops[1..])
  }
}
