/** The slotted page as bytes: header words, slot directory growing up, records growing down. */
module SlottedPage {
  import opened Bytes

  const PAGE_SIZE: nat := 1024

  /** Offsets of the three header words and of slot `i`. */
  const START_AT: nat := 0
  const END_AT: nat := 8
  const COUNT_AT: nat := 16

  function SlotOffset(i: nat): nat { 8 * (3 + i) }

  /** One record as `|is_deleted|bytes|` stores it. */
  datatype Slot = Slot(deleted: bool, bytes: Data)

  /** The slots of pages 1, 2, ... in order. */
  type Pages = seq<seq<Slot>>

  /** The members `RecordPage` keeps in memory. */
  datatype Head = Head(start: nat, end: nat, count: nat, idx: seq<nat>)

  datatype Opened = Opened(head: Head, bytes: Data)

  ghost predicate Readable(b: Data)
  {
    |b| == PAGE_SIZE && SlotOffset(ReadWord(b, COUNT_AT)) <= PAGE_SIZE
  }

  function SlotWords(b: Data, n: nat): (idx: seq<nat>)
    requires |b| == PAGE_SIZE && SlotOffset(n) <= PAGE_SIZE
    ensures |idx| == n
    ensures forall i :: 0 <= i < n ==> idx[i] == ReadWord(b, SlotOffset(i))
  {
    seq(n, i requires 0 <= i < n => ReadWord(b, SlotOffset(i)))
  }

  /** `RecordPage::init`: an end word of zero marks a page used for the first time. */
  function Open(b: Data): (o: Opened)
    requires Readable(b)
    ensures |o.bytes| == PAGE_SIZE
  {
    var end := ReadWord(b, END_AT);
    var count := ReadWord(b, COUNT_AT);
    Opened(Head(ReadWord(b, START_AT), if end == 0 then PAGE_SIZE else end, count, SlotWords(b, count)),
           if end == 0 then WriteWord(b, END_AT, PAGE_SIZE) else b)
  }

  /** The end of record `i`: the start of the record before it. */
  function RecordEnd(h: Head, i: nat): nat
    requires i < |h.idx|
  {
    if i == 0 then PAGE_SIZE else h.idx[i - 1]
  }

  /** Offsets strictly decrease, the free region ends at the lowest record, and the slot
      directory stays below it. */
  ghost predicate Layout(h: Head)
    ensures Layout(h) ==> h.end <= PAGE_SIZE
  {
    && h.start == h.count == |h.idx|
    && h.end == (if h.idx == [] then PAGE_SIZE else h.idx[|h.idx| - 1])
    && (forall i :: 0 <= i < |h.idx| ==> h.end <= h.idx[i] < PAGE_SIZE)
    && (forall i, j :: 0 <= i < j < |h.idx| ==> h.idx[j] < h.idx[i])
    && SlotOffset(|h.idx|) < h.end
  }

  /** A page and the header `RecordPage::init` rebuilds from its bytes agree with each other. */
  ghost predicate Agree(h: Head, b: Data)
    ensures Agree(h, b) ==> Layout(h) && |b| == PAGE_SIZE && PageOk(b)
  {
    Readable(b) && Open(b) == Opened(h, b) && Layout(h)
  }

  ghost predicate PageOk(b: Data)
  {
    Readable(b) && Layout(Open(b).head)
  }

  function SlotAt(h: Head, b: Data, i: nat): Slot
    requires |b| == PAGE_SIZE && Layout(h) && i < |h.idx|
  {
    Slot(b[h.idx[i]] == 1, b[h.idx[i] + 1..RecordEnd(h, i)])
  }

  function SlotsOf(h: Head, b: Data): (s: seq<Slot>)
    requires |b| == PAGE_SIZE && Layout(h)
    ensures |s| == |h.idx|
    ensures forall i :: 0 <= i < |s| ==> s[i] == SlotAt(h, b, i)
  {
    seq(|h.idx|, i requires 0 <= i < |h.idx| => SlotAt(h, b, i))
  }

  /** What a page stores, read from its bytes alone. */
  function Slots(b: Data): seq<Slot>
    requires PageOk(b)
  {
    SlotsOf(Open(b).head, Open(b).bytes)
  }

  lemma OpenAgrees(b: Data)
    requires PageOk(b)
    ensures Agree(Open(b).head, Open(b).bytes)
    ensures PageOk(Open(b).bytes) && Slots(Open(b).bytes) == Slots(b)
    ensures ReadWord(b, END_AT) != 0 ==> Open(b).bytes == b
  {
    var o := Open(b);
    if ReadWord(b, END_AT) == 0 {
      ReadBackWord(b, END_AT, PAGE_SIZE);
      ReadOtherWord(b, END_AT, PAGE_SIZE, START_AT);
      ReadOtherWord(b, END_AT, PAGE_SIZE, COUNT_AT);
      assert o.head.idx == [];
    }
  }

  /** A page fresh from the pool is all zeros: it opens empty. */
  lemma ZeroPage()
    ensures PageOk(Zeros(PAGE_SIZE)) && Slots(Zeros(PAGE_SIZE)) == []
    ensures Open(Zeros(PAGE_SIZE)).head == Head(0, PAGE_SIZE, 0, [])
  {
    ReadZeroWord(PAGE_SIZE, START_AT);
    ReadZeroWord(PAGE_SIZE, END_AT);
    ReadZeroWord(PAGE_SIZE, COUNT_AT);
  }

  // ---------------------------------------------------------------- free space

  /** Subtraction on `size_t`. */
  function Minus(a: nat, b: nat): nat
  {
    (a - b) % 0x1_0000_0000_0000_0000
  }

  /** `RecordPage::enough`, with the wrap-around of its unsigned subtraction. */
  predicate Enough(h: Head, size: nat)
  {
    SlotOffset(|h.idx|) + WORD < Minus(h.end, size + 1)
  }

  /** The space test the page needs. */
  predicate Fits(h: Head, size: nat)
  {
    SlotOffset(|h.idx| + 1) + size + 1 < h.end
  }

  /** The coded test is the intended one exactly when the record is shorter than `free_addr_end_`.
      From there on the subtraction wraps and the test accepts a record that cannot fit. (A C++
      vector holds fewer than 2^63 bytes.) */
  lemma EnoughExact(h: Head, size: nat)
    requires Layout(h) && size < WORD_LIMIT / 2
    ensures (Enough(h, size) == Fits(h, size)) <==> size < h.end
  {
    if size < h.end {
      assert Minus(h.end, size + 1) == h.end - size - 1;
    } else {
      assert Minus(h.end, size + 1) == h.end - size - 1 + WORD_LIMIT;
    }
  }

  /** Records of up to 32 bytes never reach the wrap-around, however full the page is. */
  lemma SmallNeverWraps(h: Head, size: nat)
    requires Layout(h) && size <= 32
    ensures size < h.end
  {
    assert |h.idx| == 0 || SlotOffset(|h.idx|) >= 32;
  }

  /** An empty page accepts records of up to 990 bytes, and by the wrap-around those that are longer than
      the page. */
  lemma FreshPageAccepts(size: nat)
    requires size < WORD_LIMIT / 2
    ensures Enough(Head(0, PAGE_SIZE, 0, []), size) <==> size <= 990 || size >= PAGE_SIZE
  {
    if size < PAGE_SIZE {
      assert Minus(PAGE_SIZE, size + 1) == PAGE_SIZE - size - 1;
    } else {
      assert Minus(PAGE_SIZE, size + 1) == PAGE_SIZE - size - 1 + WORD_LIMIT;
    }
  }

  // ---------------------------------------------------------------- insert

  function HeadAfterInsert(h: Head, size: nat): Head
    requires size < h.end
  {
    var at := h.end - size - 1;
    Head(h.start + 1, at, h.count + 1, h.idx + [at])
  }

  /** `write_head(rid, idx)`: the three header words and one slot. */
  function WriteHead(b: Data, h: Head, slot: nat, at: nat): (r: Data)
    requires |b| == PAGE_SIZE && SlotOffset(slot + 1) <= PAGE_SIZE
    ensures |r| == PAGE_SIZE
  {
    WriteWord(WriteWord(WriteWord(WriteWord(b, START_AT, h.start), END_AT, h.end), COUNT_AT, h.count),
              SlotOffset(slot), at)
  }

  /** The bytes after `RecordPage::insert` accepted `rec`. */
  function BytesAfterInsert(h: Head, b: Data, rec: Data): (r: Data)
    requires |b| == PAGE_SIZE && Layout(h) && Fits(h, |rec|)
    ensures |r| == PAGE_SIZE
  {
    var h1 := HeadAfterInsert(h, |rec|);
    WriteHead(Splice(Splice(b, h1.end, [0]), h1.end + 1, rec), h1, |h.idx|, h1.end)
  }

  lemma WriteHeadWords(b: Data, h: Head, slot: nat, at: nat)
    requires |b| == PAGE_SIZE && SlotOffset(slot + 1) <= PAGE_SIZE
    requires h.start < WORD_LIMIT && h.end < WORD_LIMIT && h.count < WORD_LIMIT && at < WORD_LIMIT
    ensures var r := WriteHead(b, h, slot, at);
      && ReadWord(r, START_AT) == h.start
      && ReadWord(r, END_AT) == h.end
      && ReadWord(r, COUNT_AT) == h.count
      && ReadWord(r, SlotOffset(slot)) == at
      && (forall i :: 0 <= i < slot ==> ReadWord(r, SlotOffset(i)) == ReadWord(b, SlotOffset(i)))
      && r[SlotOffset(slot + 1)..PAGE_SIZE] == b[SlotOffset(slot + 1)..PAGE_SIZE]
  {
    hide ReadWord, WriteWord;
    var b1 := WriteWord(b, START_AT, h.start);
    var b2 := WriteWord(b1, END_AT, h.end);
    var b3 := WriteWord(b2, COUNT_AT, h.count);
    var r := WriteWord(b3, SlotOffset(slot), at);
    WriteWordOutside(b, START_AT, h.start, SlotOffset(slot + 1), PAGE_SIZE);
    WriteWordOutside(b1, END_AT, h.end, SlotOffset(slot + 1), PAGE_SIZE);
    WriteWordOutside(b2, COUNT_AT, h.count, SlotOffset(slot + 1), PAGE_SIZE);
    WriteWordOutside(b3, SlotOffset(slot), at, SlotOffset(slot + 1), PAGE_SIZE);
    ReadBackWord(b, START_AT, h.start);
    ReadBackWord(b1, END_AT, h.end);
    ReadBackWord(b2, COUNT_AT, h.count);
    ReadBackWord(b3, SlotOffset(slot), at);
    ReadOtherWord(b1, END_AT, h.end, START_AT);
    ReadOtherWord(b2, COUNT_AT, h.count, START_AT);
    ReadOtherWord(b2, COUNT_AT, h.count, END_AT);
    ReadOtherWord(b3, SlotOffset(slot), at, START_AT);
    ReadOtherWord(b3, SlotOffset(slot), at, END_AT);
    ReadOtherWord(b3, SlotOffset(slot), at, COUNT_AT);
    forall i | 0 <= i < slot
      ensures ReadWord(r, SlotOffset(i)) == ReadWord(b, SlotOffset(i))
    {
      assert SlotOffset(i) + WORD <= SlotOffset(slot);
      ReadOtherWord(b, START_AT, h.start, SlotOffset(i));
      ReadOtherWord(b1, END_AT, h.end, SlotOffset(i));
      ReadOtherWord(b2, COUNT_AT, h.count, SlotOffset(i));
      ReadOtherWord(b3, SlotOffset(slot), at, SlotOffset(i));
    }
  }

  /** After an insert, re-reading the bytes rebuilds exactly the header kept in memory. */
  lemma InsertAgrees(h: Head, b: Data, rec: Data)
    requires Agree(h, b) && Fits(h, |rec|)
    ensures Agree(HeadAfterInsert(h, |rec|), BytesAfterInsert(h, b, rec))
  {
    hide Decode, Encode, WriteHead;
    var h1 := HeadAfterInsert(h, |rec|);
    var b1 := Splice(b, h1.end, [0]);
    var b2 := Splice(b1, h1.end + 1, rec);
    var r := BytesAfterInsert(h, b, rec);
    WriteHeadWords(b2, h1, |h.idx|, h1.end);
    forall i | 0 <= i < |h.idx|
      ensures ReadWord(r, SlotOffset(i)) == h.idx[i]
    {
      assert SlotOffset(i) + WORD <= h1.end;
      SpliceOutside(b, h1.end, [0], SlotOffset(i), SlotOffset(i) + WORD);
      SpliceOutside(b1, h1.end + 1, rec, SlotOffset(i), SlotOffset(i) + WORD);
      assert h.idx[i] == ReadWord(b, SlotOffset(i));
    }
    assert SlotWords(r, h1.count) == h1.idx;
  }

  /** Everything from the old end of the free region up is untouched; the record and its mark fill
      the new gap exactly. */
  lemma InsertedBytes(h: Head, b: Data, rec: Data)
    requires |b| == PAGE_SIZE && Layout(h) && Fits(h, |rec|)
    requires h.end < WORD_LIMIT && h.count + 1 < WORD_LIMIT
    ensures var r := BytesAfterInsert(h, b, rec); var at := h.end - |rec| - 1;
      r[at..PAGE_SIZE] == [0] + rec + b[h.end..PAGE_SIZE]
  {
    hide Decode, Encode, WriteHead, Splice, ReadWord;
    var h1 := HeadAfterInsert(h, |rec|);
    var b1 := Splice(b, h1.end, [0]);
    var b2 := Splice(b1, h1.end + 1, rec);
    var r := BytesAfterInsert(h, b, rec);
    WriteHeadWords(b2, h1, |h.idx|, h1.end);
    var low := SlotOffset(|h.idx| + 1);
    assert r[h1.end..PAGE_SIZE] == r[low..PAGE_SIZE][h1.end - low..];
    assert b2[h1.end..PAGE_SIZE] == b2[low..PAGE_SIZE][h1.end - low..];
    MarkAndRecord(b, h1.end, rec);
  }

  lemma MarkAndRecord(b: Data, at: nat, rec: Data)
    requires at + |rec| + 1 <= |b|
    ensures Splice(Splice(b, at, [0]), at + 1, rec)[at..|b|] == [0] + rec + b[at + |rec| + 1..]
  {}

  /** An insert adds one live record holding exactly the given bytes and disturbs no other slot. */
  lemma InsertAppends(h: Head, b: Data, rec: Data)
    requires Agree(h, b) && Fits(h, |rec|)
    ensures PageOk(BytesAfterInsert(h, b, rec))
    ensures Slots(BytesAfterInsert(h, b, rec)) == Slots(b) + [Slot(false, rec)]
  {
    hide Decode, Encode, BytesAfterInsert, Open, SlotAt;
    InsertAgrees(h, b, rec);
    InsertedBytes(h, b, rec);
    var h1 := HeadAfterInsert(h, |rec|);
    var r := BytesAfterInsert(h, b, rec);
    SplitTop(b, r, rec, h.end);
    forall i | 0 <= i < |h.idx|
      ensures SlotAt(h1, r, i) == SlotAt(h, b, i)
    {
      SameSlot(h, h1, b, r, h.end, i);
    }
    NewSlot(h1, r, rec, h.end);
    SlotsGrow(h, h1, b, r, Slot(false, rec));
  }

  lemma SlotsGrow(h: Head, h1: Head, b: Data, r: Data, x: Slot)
    requires |b| == |r| == PAGE_SIZE && Layout(h) && Layout(h1) && |h1.idx| == |h.idx| + 1
    requires forall i :: 0 <= i < |h.idx| ==> SlotAt(h1, r, i) == SlotAt(h, b, i)
    requires SlotAt(h1, r, |h.idx|) == x
    ensures SlotsOf(h1, r) == SlotsOf(h, b) + [x]
  {
    hide SlotAt;
    forall i | 0 <= i < |h1.idx|
      ensures SlotsOf(h1, r)[i] == (SlotsOf(h, b) + [x])[i]
    {
      assert SlotsOf(h1, r)[i] == SlotAt(h1, r, i);
    }
  }

  lemma SplitTop(b: Data, r: Data, rec: Data, end: nat)
    requires |b| == |r| == PAGE_SIZE && |rec| < end <= PAGE_SIZE
    requires r[end - |rec| - 1..PAGE_SIZE] == [0] + rec + b[end..PAGE_SIZE]
    ensures r[end - |rec| - 1] == 0 && r[end - |rec|..end] == rec
    ensures forall k :: end <= k < PAGE_SIZE ==> r[k] == b[k]
  {
    var at := end - |rec| - 1;
    var top := r[at..PAGE_SIZE];
    assert r[at] == top[0];
    assert r[at + 1..end] == top[1..|rec| + 1];
    forall k | end <= k < PAGE_SIZE
      ensures r[k] == b[k]
    {
      assert r[k] == top[k - at];
    }
  }

  lemma NewSlot(h1: Head, r: Data, rec: Data, end: nat)
    requires |r| == PAGE_SIZE && Layout(h1) && |h1.idx| > 0 && |rec| < end
    requires h1.end == end - |rec| - 1 && RecordEnd(h1, |h1.idx| - 1) == end
    requires r[h1.end] == 0 && r[h1.end + 1..end] == rec
    ensures SlotAt(h1, r, |h1.idx| - 1) == Slot(false, rec)
  {}

  lemma SameSlot(h: Head, h1: Head, b: Data, r: Data, low: nat, i: nat)
    requires |b| == |r| == PAGE_SIZE && Layout(h) && Layout(h1) && i < |h.idx|
    requires h.idx <= h1.idx && low <= h.end <= PAGE_SIZE
    requires forall k :: low <= k < PAGE_SIZE ==> r[k] == b[k]
    ensures SlotAt(h1, r, i) == SlotAt(h, b, i)
  {
    assert RecordEnd(h1, i) == RecordEnd(h, i);
    assert r[h1.idx[i] + 1..RecordEnd(h1, i)] == b[h.idx[i] + 1..RecordEnd(h, i)];
  }

  // ---------------------------------------------------------------- remove

  /** The bytes after `RecordPage::remove` marked slot `i`. */
  function BytesAfterRemove(h: Head, b: Data, i: nat): (r: Data)
    requires |b| == PAGE_SIZE && Layout(h) && i < |h.idx|
    ensures |r| == PAGE_SIZE
  {
    Splice(b, h.idx[i], [1])
  }

  lemma RemoveKeepsWord(h: Head, b: Data, i: nat, at: nat)
    requires |b| == PAGE_SIZE && Layout(h) && i < |h.idx| && at + WORD <= SlotOffset(|h.idx|)
    ensures ReadWord(BytesAfterRemove(h, b, i), at) == ReadWord(b, at)
  {
    SpliceOutside(b, h.idx[i], [1], at, at + WORD);
    hide Decode, Splice;
  }

  lemma RemoveAgrees(h: Head, b: Data, i: nat)
    requires Agree(h, b) && i < |h.idx|
    ensures Agree(h, BytesAfterRemove(h, b, i))
  {
    var r := BytesAfterRemove(h, b, i);
    hide BytesAfterRemove, ReadWord;
    RemoveKeepsWord(h, b, i, START_AT);
    RemoveKeepsWord(h, b, i, END_AT);
    RemoveKeepsWord(h, b, i, COUNT_AT);
    forall j | 0 <= j < |h.idx|
      ensures ReadWord(r, SlotOffset(j)) == h.idx[j]
    {
      RemoveKeepsWord(h, b, i, SlotOffset(j));
    }
    assert SlotWords(r, h.count) == h.idx;
  }

  lemma SlotAfterRemove(h: Head, b: Data, i: nat, j: nat)
    requires |b| == PAGE_SIZE && Layout(h) && i < |h.idx| && j < |h.idx|
    ensures SlotAt(h, BytesAfterRemove(h, b, i), j) ==
      if i == j then Slot(true, SlotAt(h, b, i).bytes) else SlotAt(h, b, j)
  {
    var r := BytesAfterRemove(h, b, i);
    var lo, hi := h.idx[j] + 1, RecordEnd(h, j);
    assert h.idx[i] < lo || hi <= h.idx[i];
    SpliceOutside(b, h.idx[i], [1], lo, hi);
    assert j != i ==> h.idx[j] != h.idx[i];
    hide Splice;
  }

  /** A remove marks its own slot, keeps every other answer and leaves the header alone. */
  lemma RemoveMarks(h: Head, b: Data, i: nat)
    requires Agree(h, b) && i < |h.idx|
    ensures Agree(h, BytesAfterRemove(h, b, i))
    ensures PageOk(BytesAfterRemove(h, b, i))
    ensures Slots(BytesAfterRemove(h, b, i)) == Slots(b)[i := Slot(true, Slots(b)[i].bytes)]
  {
    RemoveAgrees(h, b, i);
    var r := BytesAfterRemove(h, b, i);
    hide BytesAfterRemove, ReadWord, SlotAt;
    forall j | 0 <= j < |h.idx|
      ensures SlotAt(h, r, j) == if i == j then Slot(true, SlotAt(h, b, i).bytes) else SlotAt(h, b, j)
    {
      SlotAfterRemove(h, b, i, j);
    }
    assert SlotsOf(h, r) == SlotsOf(h, b)[i := Slot(true, SlotsOf(h, b)[i].bytes)];
  }

  // ---------------------------------------------------------------- runs

  datatype PageOp = Insert(rec: Data) | Remove(slot: nat)

  lemma EnoughFits(h: Head, size: nat)
    requires size < h.end < 0x1_0000_0000_0000_0000
    ensures Enough(h, size) == Fits(h, size)
  {
    assert Minus(h.end, size + 1) == h.end - size - 1;
  }

  /** `insert` and `remove` on header and bytes together; both leave a page they refuse alone. */
  function Apply(o: Opened, op: PageOp): Opened
    requires Agree(o.head, o.bytes)
    requires op.Insert? ==> |op.rec| < o.head.end
  {
    match op
    case Insert(rec) =>
      EnoughFits(o.head, |rec|);
      if Enough(o.head, |rec|) then
        Opened(HeadAfterInsert(o.head, |rec|), BytesAfterInsert(o.head, o.bytes, rec))
      else o
    case Remove(i) =>
      if i < |o.head.idx| then Opened(o.head, BytesAfterRemove(o.head, o.bytes, i)) else o
  }

  lemma ApplyAgrees(o: Opened, op: PageOp)
    requires Agree(o.head, o.bytes)
    requires op.Insert? ==> |op.rec| < o.head.end
    ensures Agree(Apply(o, op).head, Apply(o, op).bytes)
  {
    hide Open, ReadWord, BytesAfterInsert, BytesAfterRemove;
    match op {
      case Insert(rec) =>
        EnoughFits(o.head, |rec|);
        if Enough(o.head, |rec|) {
          InsertAgrees(o.head, o.bytes, rec);
        }
      case Remove(i) =>
        if i < |o.head.idx| {
          RemoveAgrees(o.head, o.bytes, i);
        }
    }
  }

  /** Every insert of the run offers a record shorter than the free region's end. */
  ghost predicate Guarded(o: Opened, ops: seq<PageOp>)
    requires Agree(o.head, o.bytes)
    decreases |ops|
  {
    ops == [] ||
    ((ops[0].Insert? ==> |ops[0].rec| < o.head.end) &&
      (ApplyAgrees(o, ops[0]); Guarded(Apply(o, ops[0]), ops[1..])))
  }

  ghost function Run(o: Opened, ops: seq<PageOp>): (r: Opened)
    requires Agree(o.head, o.bytes) && Guarded(o, ops)
    ensures Agree(r.head, r.bytes)
    decreases |ops|
  {
    if ops == [] then o else ApplyAgrees(o, ops[0]); Run(Apply(o, ops[0]), ops[1..])
  }

  /** The reference: a list of slots on which insert appends while there is room and remove marks. */
  function ModelStep(s: seq<Slot>, op: PageOp): seq<Slot>
  {
    match op
    case Insert(rec) =>
      if 8 * (4 + |s|) + |rec| + 1 < PAGE_SIZE - Footprint(s) then s + [Slot(false, rec)] else s
    case Remove(i) =>
      if i < |s| then s[i := Slot(true, s[i].bytes)] else s
  }

  function Model(s: seq<Slot>, ops: seq<PageOp>): seq<Slot>
    decreases |ops|
  {
    if ops == [] then s else Model(ModelStep(s, ops[0]), ops[1..])
  }

  /** Bytes the records take: each one its mark and its contents. */
  function Footprint(s: seq<Slot>): nat
  {
    if s == [] then 0 else Footprint(s[..|s| - 1]) + |s[|s| - 1].bytes| + 1
  }

  /** free_addr_end_ is the page size less the space of all records, deleted ones included. */
  lemma {:induction false} EndIsFootprint(h: Head, b: Data, n: nat)
    requires |b| == PAGE_SIZE && Layout(h) && n <= |h.idx|
    ensures Footprint(SlotsOf(h, b)[..n]) == PAGE_SIZE - (if n == 0 then PAGE_SIZE else h.idx[n - 1])
    decreases n
  {
    if n > 0 {
      EndIsFootprint(h, b, n - 1);
      var s := SlotsOf(h, b)[..n];
      assert s[..n - 1] == SlotsOf(h, b)[..n - 1];
      assert RecordEnd(h, n - 1) == if n == 1 then PAGE_SIZE else h.idx[n - 2];
    }
  }

  lemma FreeEnd(h: Head, b: Data)
    requires Agree(h, b)
    ensures h.end == PAGE_SIZE - Footprint(Slots(b))
  {
    EndIsFootprint(h, b, |h.idx|);
    assert Slots(b)[..|h.idx|] == Slots(b);
  }

  lemma AgreeSlots(h: Head, b: Data)
    requires Agree(h, b)
    ensures Slots(b) == SlotsOf(h, b)
  {
    hide ReadWord, Layout, SlotsOf;
  }

  lemma StepInsert(o: Opened, rec: Data)
    requires Agree(o.head, o.bytes) && |rec| < o.head.end
    ensures Agree(Apply(o, Insert(rec)).head, Apply(o, Insert(rec)).bytes)
    ensures Slots(Apply(o, Insert(rec)).bytes) == ModelStep(Slots(o.bytes), Insert(rec))
  {
    ApplyAgrees(o, Insert(rec));
    FreeEnd(o.head, o.bytes);
    AgreeSlots(o.head, o.bytes);
    hide Agree, BytesAfterInsert, Slots, SlotAt, Footprint;
    EnoughFits(o.head, |rec|);
    if Enough(o.head, |rec|) {
      InsertAppends(o.head, o.bytes, rec);
    }
  }

  lemma StepRemove(o: Opened, i: nat)
    requires Agree(o.head, o.bytes)
    ensures Agree(Apply(o, Remove(i)).head, Apply(o, Remove(i)).bytes)
    ensures Slots(Apply(o, Remove(i)).bytes) == ModelStep(Slots(o.bytes), Remove(i))
  {
    ApplyAgrees(o, Remove(i));
    AgreeSlots(o.head, o.bytes);
    hide Agree, BytesAfterRemove, Slots, SlotAt;
    if i < |o.head.idx| {
      RemoveMarks(o.head, o.bytes, i);
    }
  }

  /** One call answers as the list of slots does. */
  lemma StepRefines(o: Opened, op: PageOp)
    requires Agree(o.head, o.bytes)
    requires op.Insert? ==> |op.rec| < o.head.end
    ensures Agree(Apply(o, op).head, Apply(o, op).bytes)
    ensures SlotsOf(Apply(o, op).head, Apply(o, op).bytes) == ModelStep(SlotsOf(o.head, o.bytes), op)
  {
    hide *;
    AgreeSlots(o.head, o.bytes);
    match op {
      case Insert(rec) => StepInsert(o, rec);
      case Remove(i) => StepRemove(o, i);
    }
    AgreeSlots(Apply(o, op).head, Apply(o, op).bytes);
  }

  /** Any run of inserts and removes keeps memory and bytes in agreement and answers exactly as the
      list of slots does. */
  lemma {:induction false} RunRefines(o: Opened, ops: seq<PageOp>)
    requires Agree(o.head, o.bytes) && Guarded(o, ops)
    ensures SlotsOf(Run(o, ops).head, Run(o, ops).bytes) == Model(SlotsOf(o.head, o.bytes), ops)
    ensures Slots(Run(o, ops).bytes) == SlotsOf(Run(o, ops).head, Run(o, ops).bytes)
    decreases |ops|
  {
    hide Agree, SlotsOf, Slots, Apply, ModelStep;
    AgreeSlots(Run(o, ops).head, Run(o, ops).bytes);
    if ops != [] {
      StepRefines(o, ops[0]);
      RunRefines(Apply(o, ops[0]), ops[1..]);
    }
  }
}
