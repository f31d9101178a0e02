/** Whole runs of buffer pool calls by clients that follow the pin protocol. */
module PoolRuns {
  import opened Bytes
  import opened Options
  import opened Sequences
  import opened SlottedPage
  import opened BitMaps
  import opened Replacers
  import opened Disks
  import opened PoolSpec
  import opened PoolProofs
  import opened Allocation

  datatype Op =
    | FetchPage(id: nat)
    | CreatePage
    | Release(id: nat, isDirty: bool)
    | StorePage(id: nat, data: Data)

  /** A run also remembers the pages written and not yet released as dirty, and for each frame when
      its pin count last fell to zero. */
  datatype Trace = Trace(pool: Pool, touched: set<nat>, clock: nat, stamp: seq<nat>)

  /** Clients fetch allocated pages, release what they pinned, write only while pinned, and report
      what they wrote. */
  ghost predicate Allowed(t: Trace, op: Op)
    requires Shaped(t.pool)
  {
    match op
    case FetchPage(id) => Live(t.pool.head, id) && id != INVALID_ID
    case CreatePage => t.pool.disk.next < INVALID_ID
    case Release(id, isDirty) => MayUnpin(t.pool, id, isDirty, t.touched)
    case StorePage(id, data) =>
      id in t.pool.dir && t.pool.frames[t.pool.dir[id]].pin > 0 && |data| == PAGE_SIZE
  }

  function Released(s: Pool, op: Op): Option<nat>
    requires Shaped(s)
  {
    if op.Release? && op.id in s.dir && s.frames[s.dir[op.id]].pin == 1 then Some(s.dir[op.id]) else None
  }

  function StepPool(s: Pool, op: Op): (r: Pool)
    requires Shaped(s) && |s.frames| > 0
    requires op.StorePage? ==> op.id in s.dir && |op.data| == PAGE_SIZE
    ensures Shaped(r)
  {
    match op
    case FetchPage(id) => Fetch(s, id).pool
    case CreatePage => NewPage(s).pool
    case Release(id, isDirty) => Unpin(s, id, isDirty)
    case StorePage(id, data) => Store(s, s.dir[id], data)
  }

  ghost predicate Recent(lru: seq<nat>, stamp: seq<nat>)
  {
    && (forall i :: 0 <= i < |lru| ==> lru[i] < |stamp|)
    && (forall i, j :: 0 <= i < j < |lru| ==> stamp[lru[j]] < stamp[lru[i]])
  }

  /** Everything a run keeps. */
  ghost predicate Good(t: Trace)
  {
    && Coherent(t.pool, t.touched)
    && |t.pool.frames| > 0
    && Counted(t.pool.head, t.pool.disk.next)
    && (forall p :: p in t.pool.dir ==> Live(t.pool.head, p))
    && |t.stamp| == |t.pool.frames|
    && (forall f :: 0 <= f < |t.stamp| ==> t.stamp[f] < t.clock)
    && Recent(t.pool.lru, t.stamp)
  }

  ghost function Step(t: Trace, op: Op): Trace
    requires Good(t) && Allowed(t, op)
  {
    var f := Released(t.pool, op);
    Trace(StepPool(t.pool, op),
          match op
          case StorePage(id, _) => t.touched + {id}
          case Release(id, isDirty) => TouchedAfterUnpin(t.pool, id, isDirty, t.touched)
          case _ => t.touched,
          t.clock + 1,
          if f.Some? then t.stamp[f.value := t.clock] else t.stamp)
  }

  // ---------------------------------------------------------------- recency

  /** With the free list empty the frame claimed is the one whose last release is oldest. */
  lemma VictimIsOldest(t: Trace, g: nat)
    requires Good(t) && t.pool.free == [] && g < |t.pool.frames| && t.pool.frames[g].pin == 0
    ensures Victim(t.pool).frame.Some?
    ensures g != Victim(t.pool).frame.value ==> t.stamp[Victim(t.pool).frame.value] < t.stamp[g]
  {
    assert g in t.pool.lru;
    var k :| 0 <= k < |t.pool.lru| && t.pool.lru[k] == g;
    if g != Last(t.pool.lru) {
      assert k < |t.pool.lru| - 1;
    }
  }

  lemma RecentFront(lru: seq<nat>, stamp: seq<nat>)
    requires Recent(lru, stamp) && lru != []
    ensures Recent(Front(lru), stamp)
  {}

  lemma RecentWithout(lru: seq<nat>, stamp: seq<nat>, f: nat)
    requires Recent(lru, stamp) && NoDup(lru)
    ensures Recent(Without(lru, f), stamp)
  {
    if f in lru {
      var k :| 0 <= k < |lru| && lru[k] == f;
      WithoutAt(lru, k);
      RecentCut(lru, stamp, k);
    }
  }

  lemma RecentCut(lru: seq<nat>, stamp: seq<nat>, k: nat)
    requires Recent(lru, stamp) && k < |lru|
    ensures Recent(lru[..k] + lru[k + 1..], stamp)
  {
    var r := lru[..k] + lru[k + 1..];
    forall i | 0 <= i < |r|
      ensures r[i] == lru[if i < k then i else i + 1]
    {}
  }

  lemma RecentPush(lru: seq<nat>, stamp: seq<nat>, f: nat, clock: nat)
    requires Recent(lru, stamp) && f < |stamp| && f !in lru
    requires forall g :: 0 <= g < |stamp| ==> stamp[g] < clock
    ensures Recent([f] + lru, stamp[f := clock])
  {}

  lemma VictimRecent(s: Pool, stamp: seq<nat>)
    requires Shaped(s) && Recent(s.lru, stamp)
    ensures Recent(Victim(s).pool.lru, stamp)
  {
    if s.free == [] && s.lru != [] {
      RecentFront(s.lru, stamp);
    }
  }

  lemma StepRecent(t: Trace, op: Op)
    requires Good(t) && Allowed(t, op)
    ensures Recent(Step(t, op).pool.lru, Step(t, op).stamp)
  {
    hide Counted, Live, Coherent, Recent, Fetch, NewPage, Unpin, Store, TouchedAfterUnpin;
    match op {
      case FetchPage(id) => FetchRecent(t.pool, id, t.stamp);
      case CreatePage =>
        NewPageLru(t.pool);
        VictimRecent(t.pool, t.stamp);
      case Release(id, isDirty) => ReleaseRecent(t, id, isDirty);
      case StorePage(_, _) => hide Allowed;
        assert StepPool(t.pool, op).lru == t.pool.lru by { StoreLru(t.pool, op); }
    }
  }

  lemma StoreLru(s: Pool, op: Op)
    requires Shaped(s) && |s.frames| > 0 && op.StorePage? && op.id in s.dir && |op.data| == PAGE_SIZE
    ensures StepPool(s, op).lru == s.lru
  {}

  lemma FetchRecent(s: Pool, id: nat, stamp: seq<nat>)
    requires Partition(s) && Recent(s.lru, stamp)
    ensures Recent(Fetch(s, id).pool.lru, stamp)
  {
    hide Recent, Fetch;
    FetchLru(s, id);
    if id in s.dir {
      RecentWithout(s.lru, stamp, s.dir[id]);
    } else {
      VictimRecent(s, stamp);
    }
  }

  lemma ReleaseRecent(t: Trace, id: nat, isDirty: bool)
    requires Good(t) && Allowed(t, Release(id, isDirty))
    ensures var f := Released(t.pool, Release(id, isDirty));
      Recent(Unpin(t.pool, id, isDirty).lru, if f.Some? then t.stamp[f.value := t.clock] else t.stamp)
  {
    hide Counted, Live, Synced, Recent, Unpin;
    UnpinLru(t.pool, id, isDirty);
    if Released(t.pool, Release(id, isDirty)).Some? {
      RecentPush(t.pool.lru, t.stamp, t.pool.dir[id], t.clock);
    }
  }

  lemma FetchLru(s: Pool, id: nat)
    requires Shaped(s)
    ensures Fetch(s, id).pool.lru ==
      if id in s.dir then Without(s.lru, s.dir[id]) else Victim(s).pool.lru
    ensures Fetch(s, id).pool.head == s.head && Fetch(s, id).pool.disk.next == s.disk.next
    ensures |Fetch(s, id).pool.frames| == |s.frames|
  {
    hide Without, PageOnDisk, Written;
  }

  lemma NewPageLru(s: Pool)
    requires Shaped(s)
    ensures NewPage(s).pool.lru == if NewPage(s).frame.Some? then Victim(s).pool.lru else s.lru
    ensures |NewPage(s).pool.frames| == |s.frames|
    ensures NewPage(s).frame.Some? ==>
      NewPage(s).pool.dir == (s.dir - {s.frames[Victim(s).frame.value].pid})[NewPage(s).id := Victim(s).frame.value]
    ensures NewPage(s).frame.None? ==> NewPage(s).pool.dir == s.dir
  {
    hide Rebind, Recorded, FirstFrom, Reuses, PageOnDisk, WholePages;
    var r := NewPage(s);
    if r.frame.Some? {
      var v := Victim(s.(disk := ChosenId(s).1));
      var s2 := v.pool.(head := Recorded(s.head, r.id));
      RebindShape(s2, v.frame.value, r.id, Frame(Zeros(PAGE_SIZE), r.id, 1, true));
    }
  }

  lemma UnpinLru(s: Pool, id: nat, isDirty: bool)
    requires Partition(s) && |s.frames| > 0 && (id in s.dir ==> s.frames[s.dir[id]].pin > 0)
    ensures Unpin(s, id, isDirty).lru ==
      if id in s.dir && s.frames[s.dir[id]].pin == 1 then [s.dir[id]] + s.lru else s.lru
  {
    if id in s.dir {
      ReplacerHasRoom(s, s.dir[id]);
    }
  }

  // ---------------------------------------------------------------- one step

  lemma StepCoherent(t: Trace, op: Op)
    requires Good(t) && Allowed(t, op)
    ensures Coherent(Step(t, op).pool, Step(t, op).touched)
    ensures forall p: nat :: Logical(Step(t, op).pool, p) == Expected(t, op, p, Logical(t.pool, p))
  {
    hide Recent, Counted, Logical, Synced;
    match op {
      case FetchPage(id) => FetchKeeps(t.pool, id, t.touched);
      case CreatePage => CreateCoherent(t);
      case Release(id, isDirty) => UnpinKeeps(t.pool, id, isDirty, t.touched);
      case StorePage(id, data) => StoreKeeps(t.pool, id, data, t.touched);
    }
  }

  lemma CreateCoherent(t: Trace)
    requires Good(t) && Allowed(t, CreatePage)
    ensures Coherent(NewPage(t.pool).pool, t.touched)
    ensures forall p: nat ::
      Logical(NewPage(t.pool).pool, p) == Expected(t, CreatePage, p, Logical(t.pool, p))
  {
    hide Recent;
    ChosenIdFresh(t.pool);
    NewPageHead(t.pool);
    hide Live, Counted, FirstFrom;
    if NewPage(t.pool).frame.Some? {
      NewPageKeeps(t.pool, t.touched);
    } else {
      NewPageSucceedsIff(t.pool);
      hide NewPage;
      var s1 := NewPage(t.pool).pool;
      assert s1 == t.pool.(disk := s1.disk) && s1.disk.file == t.pool.disk.file by { FailedDisk(t.pool); }
    }
  }

  lemma FailedDisk(s: Pool)
    requires Shaped(s) && NewPage(s).frame.None?
    ensures NewPage(s).pool == s.(disk := NewPage(s).pool.disk)
    ensures NewPage(s).pool.disk.file == s.disk.file
  {
    hide FirstFrom, Recorded, Grown;
  }

  /** What page `p` holds after one call, from what it held before: a created page is zeroed, a stored
      one holds what was stored, and nothing else changes. */
  function Expected(t: Trace, op: Op, p: nat, was: Data): Data
    requires Shaped(t.pool)
  {
    match op
    case CreatePage =>
      if NewPage(t.pool).frame.Some? && p == NewPage(t.pool).id then Zeros(PAGE_SIZE) else was
    case StorePage(id, data) => if p == id then data else was
    case _ => was
  }

  lemma FetchDir(s: Pool, id: nat, p: nat)
    requires Shaped(s) && p in Fetch(s, id).pool.dir
    ensures p in s.dir || p == id
  {
    hide PageOnDisk, Written, Without;
  }

  lemma StepCounted(t: Trace, op: Op)
    requires Good(t) && Allowed(t, op)
    ensures var r := StepPool(t.pool, op);
      && Counted(r.head, r.disk.next) && |r.frames| == |t.pool.frames|
      && (forall p :: p in r.dir ==> Live(r.head, p))
  {
    hide Recent, Synced, Counted, Live;
    var r := StepPool(t.pool, op);
    match op {
      case FetchPage(id) =>
        FetchLru(t.pool, id);
        forall p | p in r.dir
          ensures Live(r.head, p)
        {
          FetchDir(t.pool, id, p);
        }
      case CreatePage =>
        NewPageLru(t.pool);
        NewPageCounted(t.pool);
      case Release(id, isDirty) => hide AfterPut;
      case StorePage(id, data) =>
    }
  }

  lemma StepGood(t: Trace, op: Op)
    requires Good(t) && Allowed(t, op)
    ensures Good(Step(t, op))
  {
    StepCoherent(t, op);
    StepCounted(t, op);
    StepRecent(t, op);
    hide Coherent, Counted, Recent, Live, StepPool, TouchedAfterUnpin, Allowed;
  }

  // ---------------------------------------------------------------- whole runs

  ghost predicate AllowedRun(t: Trace, ops: seq<Op>)
    requires Good(t)
    decreases |ops|
  {
    ops == [] || (Allowed(t, ops[0]) && (StepGood(t, ops[0]); AllowedRun(Step(t, ops[0]), ops[1..])))
  }

  ghost function RunPool(t: Trace, ops: seq<Op>): (r: Trace)
    requires Good(t) && AllowedRun(t, ops)
    ensures Good(r)
    decreases |ops|
  {
    if ops == [] then t else StepGood(t, ops[0]); RunPool(Step(t, ops[0]), ops[1..])
  }

  /** What page `p` holds after the run by the account of the stores alone, caching left out. */
  ghost function StoredAfter(t: Trace, ops: seq<Op>, p: nat, was: Data): Data
    requires Good(t) && AllowedRun(t, ops)
    decreases |ops|
  {
    if ops == [] then was
    else
      StepGood(t, ops[0]);
      StoredAfter(Step(t, ops[0]), ops[1..], p, Expected(t, ops[0], p, was))
  }

  /** Whatever is fetched, evicted and written back in between, every page id denotes exactly what the
      stores put there. */
  lemma {:induction false} RunIsTransparent(t: Trace, ops: seq<Op>, p: nat)
    requires Good(t) && AllowedRun(t, ops)
    ensures Logical(RunPool(t, ops).pool, p) == StoredAfter(t, ops, p, Logical(t.pool, p))
    decreases |ops|
  {
    hide Good, Allowed, Step, Logical, Expected;
    if ops != [] {
      StepGood(t, ops[0]);
      StepCoherent(t, ops[0]);
      RunIsTransparent(Step(t, ops[0]), ops[1..], p);
    }
  }

  /** A pinned page stays in its frame whatever other clients call. */
  lemma PinnedStays(t: Trace, op: Op, p: nat)
    requires Good(t) && Allowed(t, op) && p in t.pool.dir && t.pool.frames[t.pool.dir[p]].pin > 0
    ensures var r := Step(t, op).pool; var f := t.pool.dir[p];
      && p in r.dir && r.dir[p] == f
      && ((op.Release? && op.id == p) || r.frames[f].pin >= t.pool.frames[f].pin)
  {
    hide Recent, Synced, Counted, Live;
    match op {
      case FetchPage(id) => PinnedStaysFetch(t, id, p);
      case CreatePage => PinnedStaysNew(t, p);
      case Release(id, isDirty) => hide AfterPut;
      case StorePage(id, data) =>
    }
  }

  lemma PinnedStaysFetch(t: Trace, id: nat, p: nat)
    requires Good(t) && id != INVALID_ID && p in t.pool.dir && t.pool.frames[t.pool.dir[p]].pin > 0
    ensures var r := Fetch(t.pool, id).pool; var f := t.pool.dir[p];
      && p in r.dir && r.dir[p] == f
      && r.frames[f].pin >= t.pool.frames[f].pin
  {
    hide Recent, Synced, Counted, Live, PageOnDisk, Without;
    if id !in t.pool.dir && Victim(t.pool).frame.Some? {
      PinnedStaysMiss(t.pool, id, p);
    }
  }

  lemma PinnedStaysNew(t: Trace, p: nat)
    requires Good(t) && p in t.pool.dir && t.pool.frames[t.pool.dir[p]].pin > 0
    ensures var r := NewPage(t.pool).pool; var f := t.pool.dir[p];
      && p in r.dir && r.dir[p] == f
      && r.frames[f].pin >= t.pool.frames[f].pin
  {
    hide *;
    GoodPartition(t);
    if NewPage(t.pool).frame.Some? {
      CreatedIsNew(t);
      VictimPicks(t.pool);
      NewPageClaims(t.pool);
      var r := NewPage(t.pool);
      ClaimKeepsPinned(t.pool, r.pool, r.frame.value, r.id, Zeros(PAGE_SIZE), true, p);
    } else {
      FailedDisk(t.pool);
    }
  }

  lemma PinnedStaysMiss(s: Pool, id: nat, p: nat)
    requires Partition(s) && id != INVALID_ID && id !in s.dir && Victim(s).frame.Some?
    requires p in s.dir && s.frames[s.dir[p]].pin > 0
    ensures var r := FetchMiss(s, id).pool;
      p in r.dir && r.dir[p] == s.dir[p] && r.frames[r.dir[p]] == s.frames[s.dir[p]]
  {
    hide *;
    VictimPicks(s);
    FetchMissClaims(s, id);
    var r := FetchMiss(s, id);
    ClaimKeepsPinned(s, r.pool, r.frame.value, id, PageOnDisk(r.pool.disk, id), false, p);
  }

  lemma GoodPartition(t: Trace)
    requires Good(t)
    ensures Partition(t.pool)
  {}

  /** Claiming an unpinned frame leaves every pinned page in its frame. */
  lemma ClaimKeepsPinned(s: Pool, r: Pool, f: nat, id: nat, data: Data, dirty: bool, p: nat)
    requires Partition(s) && f < |s.frames| && s.frames[f].pin == 0 && Claimed(s, r, f, id, data, dirty)
    requires p in s.dir && s.frames[s.dir[p]].pin > 0 && p != id
    ensures p in r.dir && r.dir[p] == s.dir[p] && r.frames[r.dir[p]] == s.frames[s.dir[p]]
  {
    hide Victim, WholePages, FreeList, PoolProofs.Evictable;
  }

  lemma CreatedIsNew(t: Trace)
    requires Good(t)
    ensures NewPage(t.pool).id !in t.pool.dir
  {
    ChosenIdFresh(t.pool);
    NewPageHead(t.pool);
    hide NewPage, Recent;
  }
}
