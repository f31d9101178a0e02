/** Runs of inserts and removes on a heap, in any mix. */
module MixedRuns {
  import opened Bytes
  import opened Options
  import opened SlottedPage
  import opened PoolSpec
  import opened PoolProofs
  import opened HeapSpec
  import opened HeapProofs
  import opened HeapRemoval
  import opened HeapRuns
  import opened ScanModel

  datatype HeapOp = Add(rec: Data) | Take(page: nat, slot: nat)

  /** What the call needs: for an insert as before, for a remove a page of the heap that is resident or can
      be brought in. */
  ghost predicate CanDo(s: Pool, op: HeapOp)
  {
    match op
    case Add(rec) => CanInsert(s, rec)
    case Take(p, _) => HeapOk(s) && (p in s.dir || !AllPinned(s)) && 1 <= p < s.disk.next
  }

  ghost function Do(s: Pool, op: HeapOp): Attempt
    requires CanDo(s, op)
  {
    match op
    case Add(rec) => (InsertRefines(s, rec); HeapInsert(s, rec))
    case Take(p, i) => (RemoveRefines(s, p, i); HeapRemove(s, p, i))
  }

  /** The same call on the list of pages; a remove needs its page. */
  function ModelDo(pages: Pages, op: HeapOp): Inserted
    requires op.Take? ==> 1 <= op.page <= |pages|
  {
    match op
    case Add(rec) => ModelInsert(pages, rec)
    case Take(p, i) => Inserted(i < |pages[p - 1]|, pages[p - 1 := MarkSlot(pages[p - 1], i)])
  }

  lemma DoIs(s: Pool, op: HeapOp)
    requires CanDo(s, op)
    ensures HeapOk(s) && (op.Take? ==> 1 <= op.page <= |PageList(s)|)
    ensures var r := Do(s, op);
      && HeapOk(r.pool) && Pins(r.pool) == Pins(s)
      && Inserted(r.ok, PageList(r.pool)) == ModelDo(PageList(s), op)
  {
    hide HeapOk, AllPinned, PageList, Pins, HeapInsert, HeapRemove, InsertReady, RemoveReady, Guard, HasPlace;
    hide ModelInsert, MarkSlot;
    PageListLength(s);
    match op {
      case Add(rec) => InsertRefines(s, rec);
      case Take(p, i) => RemoveRefines(s, p, i);
    }
  }

  // ---------------------------------------------------------------- runs

  ghost predicate CanDoAll(s: Pool, ops: seq<HeapOp>)
    decreases |ops|
  {
    ops == [] || (CanDo(s, ops[0]) && CanDoAll(Do(s, ops[0]).pool, ops[1..]))
  }

  datatype Done = Done(pool: Pool, answers: seq<bool>)

  ghost function DoAll(s: Pool, ops: seq<HeapOp>): Done
    requires CanDoAll(s, ops)
    decreases |ops|
  {
    if ops == [] then Done(s, [])
    else
      var r := Do(s, ops[0]);
      var rest := DoAll(r.pool, ops[1..]);
      Done(rest.pool, [r.ok] + rest.answers)
  }

  datatype ModelDone = ModelDone(pages: Pages, answers: seq<bool>)

  /** None if a remove names a page that is not there. */
  function ModelDoAll(pages: Pages, ops: seq<HeapOp>): Option<ModelDone>
    decreases |ops|
  {
    if ops == [] then Some(ModelDone(pages, []))
    else if ops[0].Take? && !(1 <= ops[0].page <= |pages|) then None
    else
      var r := ModelDo(pages, ops[0]);
      var rest := ModelDoAll(r.pages, ops[1..]);
      if rest.None? then None else Some(ModelDone(rest.value.pages, [r.ok] + rest.value.answers))
  }

  lemma DoAllUnfolds(s: Pool, ops: seq<HeapOp>)
    requires CanDoAll(s, ops)
    ensures ops == [] ==> DoAll(s, ops) == Done(s, [])
    ensures ops != [] ==> CanDo(s, ops[0]) && CanDoAll(Do(s, ops[0]).pool, ops[1..])
    ensures ops != [] ==>
      var rest := DoAll(Do(s, ops[0]).pool, ops[1..]);
      DoAll(s, ops) == Done(rest.pool, [Do(s, ops[0]).ok] + rest.answers)
  {
    hide CanDo, Do;
  }

  lemma ModelUnfolds(pages: Pages, ops: seq<HeapOp>)
    ensures ops == [] ==> ModelDoAll(pages, ops) == Some(ModelDone(pages, []))
    ensures ops != [] && (ops[0].Take? ==> 1 <= ops[0].page <= |pages|) ==>
      var r := ModelDo(pages, ops[0]); var rest := ModelDoAll(r.pages, ops[1..]);
      rest.Some? ==> ModelDoAll(pages, ops) == Some(ModelDone(rest.value.pages, [r.ok] + rest.value.answers))
  {
    hide ModelDo;
  }

  /** Any run of inserts and removes on pool, bitmap and page bytes does to the list of pages what the same
      run does on the list, gives the same answers, and has every pin back. */
  lemma {:induction false} MixedRunRefines(s: Pool, ops: seq<HeapOp>)
    requires HeapOk(s) && CanDoAll(s, ops)
    ensures var r := DoAll(s, ops);
      && HeapOk(r.pool) && Pins(r.pool) == Pins(s)
      && ModelDoAll(PageList(s), ops) == Some(ModelDone(PageList(r.pool), r.answers))
    decreases |ops|
  {
    hide *;
    DoAllUnfolds(s, ops);
    ModelUnfolds(PageList(s), ops);
    if ops != [] {
      DoIs(s, ops[0]);
      MixedRunRefines(Do(s, ops[0]).pool, ops[1..]);
    }
  }

  // ---------------------------------------------------------------- what a remove takes away

  lemma {:induction false} LiveConcat(a: seq<Slot>, b: seq<Slot>)
    ensures LiveIn(a + b) == LiveIn(a) + LiveIn(b)
  {
    if a == [] {
      assert a + b == b;
    } else {
      assert (a + b)[1..] == a[1..] + b;
      LiveConcat(a[1..], b);
    }
  }

  lemma CutAt(slots: seq<Slot>, i: nat)
    requires i < |slots|
    ensures slots == slots[..i] + ([slots[i]] + slots[i + 1..])
  {
    assert slots == slots[..i] + slots[i..];
    assert slots[i..] == [slots[i]] + slots[i + 1..];
  }

  lemma LiveOne(x: Slot)
    ensures LiveIn([x]) == if x.deleted then [] else [x.bytes]
  {
    assert [x][1..] == [];
  }

  lemma LiveAround(slots: seq<Slot>, i: nat)
    requires i < |slots|
    ensures LiveIn(slots) ==
      LiveIn(slots[..i]) + ((if slots[i].deleted then [] else [slots[i].bytes]) + LiveIn(slots[i + 1..]))
  {
    hide LiveIn;
    CutAt(slots, i);
    LiveConcat(slots[..i], [slots[i]] + slots[i + 1..]);
    LiveConcat([slots[i]], slots[i + 1..]);
    LiveOne(slots[i]);
  }

  lemma MarkParts(slots: seq<Slot>, i: nat)
    requires i < |slots|
    ensures MarkSlot(slots, i)[..i] == slots[..i] && MarkSlot(slots, i)[i + 1..] == slots[i + 1..]
    ensures |MarkSlot(slots, i)| == |slots| && MarkSlot(slots, i)[i].deleted
  {}

  lemma PagesAround(pages: Pages, k: nat)
    requires k < |pages|
    ensures AllRecords(pages) == AllRecords(pages[..k]) + (LiveIn(pages[k]) + AllRecords(pages[k + 1..]))
  {
    assert pages == pages[..k] + pages[k..];
    AllRecordsAppend(pages[..k], pages[k..]);
    assert pages[k..][1..] == pages[k + 1..];
    hide LiveIn;
  }

  /** A remove of a slot takes its record, if it is live, out of the live records of the heap, and leaves
      all others in their places. */
  lemma RemoveTakes(pages: Pages, p: nat, i: nat)
    requires 1 <= p <= |pages| && i < |pages[p - 1]|
    ensures var slots := pages[p - 1];
      var before := AllRecords(pages[..p - 1]) + LiveIn(slots[..i]);
      var after := LiveIn(slots[i + 1..]) + AllRecords(pages[p..]);
      && AllRecords(pages) == before + (if slots[i].deleted then [] else [slots[i].bytes]) + after
      && AllRecords(ModelDo(pages, Take(p, i)).pages) == before + after
  {
    var q := ModelDo(pages, Take(p, i)).pages;
    assert q[..p - 1] == pages[..p - 1] && q[p..] == pages[p..] && q[p - 1] == MarkSlot(pages[p - 1], i);
    hide LiveIn, AllRecords, MarkSlot, ModelDo;
    var slots := pages[p - 1];
    PagesAround(pages, p - 1);
    PagesAround(q, p - 1);
    LiveAround(slots, i);
    MarkParts(slots, i);
    LiveAround(MarkSlot(slots, i), i);
    var one := if slots[i].deleted then [] else [slots[i].bytes];
    Around(AllRecords(pages[..p - 1]), LiveIn(slots[..i]), one, LiveIn(slots[i + 1..]), AllRecords(pages[p..]));
    Around(AllRecords(pages[..p - 1]), LiveIn(slots[..i]), [], LiveIn(slots[i + 1..]), AllRecords(pages[p..]));
  }

  lemma Around(a: seq<Data>, b: seq<Data>, m: seq<Data>, c: seq<Data>, d: seq<Data>)
    ensures a + ((b + (m + c)) + d) == (a + b) + m + (c + d)
    ensures m == [] ==> (a + b) + m + (c + d) == (a + b) + (c + d)
  {}
}
