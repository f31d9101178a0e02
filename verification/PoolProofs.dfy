/** What every step of the buffer pool keeps: the frame partition and cache coherence. */
module PoolProofs {
  import opened Bytes
  import opened Options
  import opened Sequences
  import opened SlottedPage
  import opened BitMaps
  import opened Replacers
  import opened Disks
  import opened PoolSpec

  // ---------------------------------------------------------------- invariants

  /** `dir_[p] = f` exactly when frame `f` holds page `p`. */
  ghost predicate Bound(dir: map<nat, nat>, frames: seq<Frame>)
  {
    && (forall p :: p in dir ==> p != INVALID_ID && dir[p] < |frames| && frames[dir[p]].pid == p)
    && (forall f :: 0 <= f < |frames| && frames[f].pid != INVALID_ID ==>
          frames[f].pid in dir && dir[frames[f].pid] == f)
  }

  /** The free list holds each unused frame once; an unused frame is unpinned and clean. */
  ghost predicate FreeList(free: seq<nat>, frames: seq<Frame>)
  {
    && NoDup(free)
    && (forall f :: f in free ==> f < |frames|)
    && (forall f :: 0 <= f < |frames| ==> (f in free <==> frames[f].pid == INVALID_ID))
    && (forall f :: 0 <= f < |frames| && frames[f].pid == INVALID_ID ==> frames[f].pin == 0 && !frames[f].dirty)
  }

  /** The replacer holds each used, unpinned frame once. */
  ghost predicate Evictable(lru: seq<nat>, frames: seq<Frame>)
  {
    && NoDup(lru)
    && (forall f :: f in lru ==> f < |frames|)
    && (forall f :: 0 <= f < |frames| ==>
          (f in lru <==> frames[f].pid != INVALID_ID && frames[f].pin == 0))
  }

  /** Every frame is in exactly one of: the free list, the replacer, or pinned. */
  ghost predicate Partition(s: Pool)
    ensures Partition(s) ==> Shaped(s)
  {
    Shaped(s) && Bound(s.dir, s.frames) && FreeList(s.free, s.frames) && Evictable(s.lru, s.frames)
  }

  /** `touched` are the pages written since their frame was last known to match the disk and not yet
      handed back as dirty; all of them are pinned. Every other clean page equals its disk image. */
  ghost predicate Synced(s: Pool, touched: set<nat>)
    requires Shaped(s)
  {
    && (forall p :: p in touched ==> p in s.dir && s.frames[s.dir[p]].pin > 0)
    && (forall f | 0 <= f < |s.frames| && s.frames[f].pid != INVALID_ID && !s.frames[f].dirty
          && s.frames[f].pid !in touched ::
          s.frames[f].data == PageOnDisk(s.disk, s.frames[f].pid))
  }

  ghost predicate Coherent(s: Pool, touched: set<nat>)
    ensures Coherent(s, touched) ==> Partition(s)
  {
    Partition(s) && Synced(s, touched)
  }

  ghost predicate AllPinned(s: Pool)
  {
    forall f :: 0 <= f < |s.frames| ==> s.frames[f].pin > 0
  }

  /** The contents of every page id but `except` read the same in both states. */
  ghost predicate SameContents(s: Pool, r: Pool, except: set<nat>)
    requires Shaped(s) && Shaped(r)
  {
    forall p :: p !in except ==> Logical(r, p) == Logical(s, p)
  }

  lemma ExactlyOnePlace(s: Pool, f: nat)
    requires Partition(s) && f < |s.frames|
    ensures (f in s.free && f !in s.lru && s.frames[f].pin == 0)
         || (f !in s.free && f in s.lru && s.frames[f].pin == 0)
         || (f !in s.free && f !in s.lru && s.frames[f].pin > 0)
  {}

  lemma DirInjective(s: Pool, p: nat, q: nat)
    requires Partition(s) && p in s.dir && q in s.dir && s.dir[p] == s.dir[q]
    ensures p == q
  {
    assert s.frames[s.dir[p]].pid == p;
  }

  /** A full replacer never has to drop a frame: the frame being put is not in it yet. */
  lemma ReplacerHasRoom(s: Pool, f: nat)
    requires Partition(s) && f < |s.frames| && s.frames[f].pin > 0
    ensures |s.lru| < |s.frames|
    ensures AfterPut(s.lru, |s.frames|, f) == [f] + s.lru
  {
    RoomLeft(s.lru, |s.frames|, f);
  }

  // ---------------------------------------------------------------- victim

  /** A frame can be claimed exactly when some frame is unpinned, and what is claimed is unpinned. */
  lemma VictimPicks(s: Pool)
    requires Partition(s)
    ensures Victim(s).frame.None? <==> AllPinned(s)
    ensures Victim(s).frame.None? ==> Victim(s).pool == s
    ensures Victim(s).frame.Some? ==> s.frames[Victim(s).frame.value].pin == 0
  {
    if s.free != [] {
      assert s.frames[Last(s.free)].pin == 0;
    } else if s.lru != [] {
      assert s.frames[Last(s.lru)].pin == 0;
    }
  }

  lemma VictimLists(s: Pool)
    requires Partition(s) && Victim(s).frame.Some?
    ensures var f := Victim(s).frame.value; var r := Victim(s).pool;
      && r == s.(free := r.free, lru := r.lru)
      && NoDup(r.free) && NoDup(r.lru)
      && (forall g :: g in r.free <==> g in s.free && g != f)
      && (forall g :: g in r.lru <==> g in s.lru && g != f)
  {
    var f := Victim(s).frame.value;
    if s.free != [] {
      FrontMembers(s.free);
    } else {
      FrontMembers(s.lru);
    }
  }

  lemma FrontMembers(s: seq<nat>)
    requires s != [] && NoDup(s)
    ensures NoDup(Front(s))
    ensures forall g :: g in Front(s) <==> g in s && g != Last(s)
  {
    forall g | g in s && g != Last(s)
      ensures g in Front(s)
    {
      assert g in Front(s) + [Last(s)];
    }
  }

  // ---------------------------------------------------------------- claiming a frame

  /** `r` is `s` with frame `f`, taken by `Victim`, now holding page `id` pinned once. */
  ghost predicate Claimed(s: Pool, r: Pool, f: nat, id: nat, data: Data, dirty: bool)
    requires Shaped(s) && f < |s.frames|
  {
    var v := Victim(s);
    && v.frame == Some(f)
    && r.dir == (s.dir - {s.frames[f].pid})[id := f]
    && r.frames == s.frames[f := Frame(data, id, 1, dirty)]
    && r.free == v.pool.free && r.lru == v.pool.lru
    && WholePages(r.disk) && |data| == PAGE_SIZE
  }

  lemma ClaimBinds(dir: map<nat, nat>, frames: seq<Frame>, f: nat, id: nat, fr: Frame)
    requires Bound(dir, frames) && f < |frames| && id !in dir && id != INVALID_ID && fr.pid == id
    ensures Bound((dir - {frames[f].pid})[id := f], frames[f := fr])
  {}

  lemma ClaimPartition(s: Pool, r: Pool, f: nat, id: nat, data: Data, dirty: bool)
    requires Partition(s) && f < |s.frames| && Claimed(s, r, f, id, data, dirty)
    requires id !in s.dir && id != INVALID_ID
    ensures Partition(r)
  {
    hide Victim, WholePages;
    VictimLists(s);
    ClaimBinds(s.dir, s.frames, f, id, Frame(data, id, 1, dirty));
  }

  /** The disk after the old page of a claimed frame was written back if it was dirty. */
  function WrittenBack(s: Pool, f: nat): (d: Disk)
    requires Shaped(s) && f < |s.frames|
    ensures WholePages(d)
  {
    if s.frames[f].dirty && s.frames[f].pid in s.dir
    then Written(s.disk, s.frames[f].pid, s.frames[s.dir[s.frames[f].pid]].data) else s.disk
  }

  /** Writing back the claimed frame changes what no page id denotes, the new one aside. */
  lemma ClaimContents(s: Pool, r: Pool, f: nat, id: nat, data: Data, dirty: bool, touched: set<nat>)
    requires Coherent(s, touched) && f < |s.frames| && s.frames[f].pin == 0
    requires Claimed(s, r, f, id, data, dirty) && Shaped(r)
    requires id !in s.dir && id != INVALID_ID
    requires r.disk.file == WrittenBack(s, f).file
    ensures SameContents(s, r, {id})
    ensures Logical(r, id) == data
    ensures forall p :: p !in s.dir ==> PageOnDisk(r.disk, p) == PageOnDisk(s.disk, p)
  {
    hide Victim, Written, WholePages;
    var was := s.frames[f].pid;
    forall p
      ensures PageOnDisk(r.disk, p) == PageOnDisk(WrittenBack(s, f), p)
    {
      assert PageOnDisk(r.disk, p) == PageOnDisk(WrittenBack(s, f), p);
    }
    forall p | p != id
      ensures Logical(r, p) == Logical(s, p)
    {
      if p == was && p in s.dir {
        assert s.dir[p] == f;
      } else if p in s.dir {
        assert s.dir[p] != f;
      }
    }
  }

  lemma ClaimSynced(s: Pool, r: Pool, f: nat, id: nat, data: Data, dirty: bool, touched: set<nat>)
    requires Coherent(s, touched) && f < |s.frames| && s.frames[f].pin == 0
    requires Claimed(s, r, f, id, data, dirty) && Partition(r)
    requires id !in s.dir && id != INVALID_ID
    requires r.disk.file == WrittenBack(s, f).file
    requires !dirty ==> data == PageOnDisk(r.disk, id)
    ensures Synced(r, touched)
  {
    hide Victim, Written, WholePages;
    forall p | p in touched
      ensures p in r.dir && r.frames[r.dir[p]].pin > 0
    {
      assert s.dir[p] != f;
    }
    forall g | 0 <= g < |r.frames| && r.frames[g].pid != INVALID_ID && !r.frames[g].dirty
      && r.frames[g].pid !in touched
      ensures r.frames[g].data == PageOnDisk(r.disk, r.frames[g].pid)
    {
      if g != f {
        var p := s.frames[g].pid;
        assert s.dir[p] == g;
        assert p != s.frames[f].pid;
        assert PageOnDisk(r.disk, p) == PageOnDisk(WrittenBack(s, f), p);
      }
    }
  }

  // ---------------------------------------------------------------- fetch

  lemma FetchMissClaims(s: Pool, id: nat)
    requires Partition(s) && id !in s.dir && id != INVALID_ID && Victim(s).frame.Some?
    ensures var r := FetchMiss(s, id);
      && r.frame == Victim(s).frame
      && r.pool.disk == WrittenBack(s, r.frame.value) && r.pool.head == s.head
      && Claimed(s, r.pool, r.frame.value, id, PageOnDisk(r.pool.disk, id), false)
  {
    hide Written, PageOnDisk;
    VictimLists(s);
    var r := FetchMiss(s, id);
    var f := Victim(s).frame.value;
    assert r.pool.frames == s.frames[f := Frame(PageOnDisk(r.pool.disk, id), id, 1, false)];
  }

  lemma FetchHitKeeps(s: Pool, id: nat, touched: set<nat>)
    requires Coherent(s, touched) && id in s.dir
    ensures var r := FetchHit(s, id);
      Coherent(r.pool, touched) && SameContents(s, r.pool, {})
  {
    hide PageOnDisk, WholePages;
    var r := FetchHit(s, id).pool;
    WithoutNoDup(s.lru, s.dir[id]);
  }

  /** `fetch` of any page id keeps the partition and every page's contents; it fails, and then changes
      nothing, exactly when the page is absent and every frame is pinned. */
  lemma FetchKeeps(s: Pool, id: nat, touched: set<nat>)
    requires Coherent(s, touched) && id != INVALID_ID
    ensures var r := Fetch(s, id);
      && Coherent(r.pool, touched)
      && SameContents(s, r.pool, {})
      && (r.frame.None? <==> id !in s.dir && AllPinned(s))
      && (r.frame.None? ==> r.pool == s)
      && (r.frame.Some? ==> id in r.pool.dir && r.pool.dir[id] == r.frame.value)
      && (r.frame.Some? ==> r.pool.frames[r.frame.value].data == Logical(s, id))
  {
    VictimPicks(s);
    if id in s.dir {
      FetchHitKeeps(s, id, touched);
      hide Without;
      assert Logical(FetchHit(s, id).pool, id) == Logical(s, id);
    } else if Victim(s).frame.Some? {
      FetchMissKeeps(s, id, touched);
    }
  }

  lemma FetchMissKeeps(s: Pool, id: nat, touched: set<nat>)
    requires Coherent(s, touched) && id !in s.dir && id != INVALID_ID && Victim(s).frame.Some?
    ensures var r := FetchMiss(s, id);
      && r.frame.Some? && Coherent(r.pool, touched) && SameContents(s, r.pool, {})
      && id in r.pool.dir && r.pool.dir[id] == r.frame.value
      && r.pool.frames[r.frame.value].data == Logical(s, id)
  {
    VictimPicks(s);
    FetchMissClaims(s, id);
    var r := FetchMiss(s, id);
    var f := r.frame.value;
    var data := PageOnDisk(r.pool.disk, id);
    hide Victim, FetchMiss, PageOnDisk, WrittenBack;
    ClaimPartition(s, r.pool, f, id, data, false);
    ClaimContents(s, r.pool, f, id, data, false, touched);
    ClaimSynced(s, r.pool, f, id, data, false, touched);
    assert Logical(s, id) == PageOnDisk(s.disk, id);
  }

  // ---------------------------------------------------------------- new_page

  /** The call gets past the page limit and finds a frame. */
  ghost predicate CanCreate(s: Pool)
  {
    (Reuses(s) || s.disk.next <= BFP_MAX_PAGE_NUM) && !AllPinned(s)
  }

  /** Rebinding a frame, and then what the caller records in it. */
  lemma RebindShape(s: Pool, f: nat, pid: nat, fr: Frame)
    requires Shaped(s) && f < |s.frames| && |fr.data| == PAGE_SIZE
    ensures var r := WithFrame(Rebind(s, f, pid), f, fr);
      && r.dir == (s.dir - {s.frames[f].pid})[pid := f]
      && r.free == s.free && r.lru == s.lru && r.head == s.head && r.disk.next == s.disk.next
      && r.frames == s.frames[f := fr]
      && r.disk == WrittenBack(s, f)
  {
    hide Written;
    assert WithFrame(Rebind(s, f, pid), f, fr).frames == s.frames[f := fr];
  }

  lemma NewPageIs(s: Pool)
    requires Shaped(s) && NewPage(s).frame.Some?
    ensures WholePages(ChosenId(s).1) && ChosenId(s).1.file == s.disk.file && Shaped(s.(disk := ChosenId(s).1))
    ensures var r := NewPage(s); var f := r.frame.value;
      var v := Victim(s.(disk := ChosenId(s).1)); var s2 := v.pool.(head := Recorded(s.head, r.id));
      && v.frame == r.frame && r.id == ChosenId(s).0 && Shaped(s2)
      && r.pool == WithFrame(Rebind(s2, f, r.id), f, Frame(Zeros(PAGE_SIZE), r.id, 1, true))
  {
    hide Rebind, Recorded, FirstFrom, Victim, Reuses;
  }

  lemma VictimOnDisk(s: Pool, disk: Disk)
    requires Shaped(s) && WholePages(disk)
    ensures Victim(s.(disk := disk)) == Fetched(Victim(s).frame, Victim(s).pool.(disk := disk))
    ensures Victim(s).pool.frames == s.frames && Victim(s).pool.dir == s.dir
  {}

  lemma WrittenBackFile(s: Pool, r: Pool, f: nat)
    requires Shaped(s) && Shaped(r) && f < |s.frames|
    requires r.frames == s.frames && r.dir == s.dir && r.disk.file == s.disk.file
    ensures WrittenBack(r, f).file == WrittenBack(s, f).file
  {
    hide PageOnDisk, Extended;
  }

  lemma NewPageClaims(s: Pool)
    requires Partition(s) && NewPage(s).frame.Some?
    ensures var r := NewPage(s);
      && r.frame == Victim(s).frame
      && r.pool.disk.file == WrittenBack(s, r.frame.value).file
      && r.pool.disk.next == ChosenId(s).1.next
      && r.pool.head == Recorded(s.head, r.id) && r.id == ChosenId(s).0
      && Claimed(s, r.pool, r.frame.value, r.id, Zeros(PAGE_SIZE), true)
  {
    hide Victim, NewPage, FirstFrom, Recorded, Rebind, WrittenBack, WithFrame, Shaped, Reuses;
    hide FreeList, Evictable, Bound;
    NewPageIs(s);
    var r := NewPage(s);
    var f := r.frame.value;
    VictimOnDisk(s, ChosenId(s).1);
    var v := Victim(s.(disk := ChosenId(s).1));
    var s2 := v.pool.(head := Recorded(s.head, r.id));
    RebindShape(s2, f, r.id, Frame(Zeros(PAGE_SIZE), r.id, 1, true));
    WrittenBackFile(s, s2, f);
  }

  lemma NewPageSucceedsIff(s: Pool)
    requires Partition(s)
    ensures NewPage(s).frame.Some? <==> CanCreate(s)
    ensures NewPage(s).frame.None? ==> NewPage(s).pool == s.(disk := ChosenId(s).1)
  {
    hide Recorded, FirstFrom, Rebind, Grown;
    var s1 := s.(disk := ChosenId(s).1);
    VictimPicks(s1);
  }

  /** `new_page` keeps the partition, hands out a zeroed page pinned once, and leaves what every other
      id denotes alone, provided the id it picks is not already resident. */
  lemma NewPageKeeps(s: Pool, touched: set<nat>)
    requires Coherent(s, touched) && NewPage(s).frame.Some?
    requires NewPage(s).id !in s.dir && NewPage(s).id != INVALID_ID
    ensures var r := NewPage(s);
      && Coherent(r.pool, touched)
      && SameContents(s, r.pool, {r.id})
      && Logical(r.pool, r.id) == Zeros(PAGE_SIZE)
      && r.id in r.pool.dir && r.pool.dir[r.id] == r.frame.value
  {
    VictimPicks(s);
    NewPageClaims(s);
    var r := NewPage(s);
    var f := r.frame.value;
    hide Victim, NewPage, PageOnDisk, WrittenBack, ChosenId;
    ClaimPartition(s, r.pool, f, r.id, Zeros(PAGE_SIZE), true);
    ClaimContents(s, r.pool, f, r.id, Zeros(PAGE_SIZE), true, touched);
    ClaimSynced(s, r.pool, f, r.id, Zeros(PAGE_SIZE), true, touched);
  }

  lemma ClaimSameFrame(s: Pool, r: Pool, f: nat, id: nat, data: Data, dirty: bool)
    requires Partition(s) && f < |s.frames| && Claimed(s, r, f, id, data, dirty)
    requires id in s.dir && s.dir[id] == f
    ensures Partition(r)
  {
    hide Victim, WholePages;
    VictimLists(s);
    assert Bound(r.dir, r.frames);
  }

  lemma ClaimTwoFrames(s: Pool, r: Pool, f: nat, id: nat, data: Data, dirty: bool)
    requires Partition(s) && f < |s.frames| && Claimed(s, r, f, id, data, dirty)
    requires id in s.dir && s.dir[id] != f
    ensures !Partition(r)
  {
    hide Victim, WholePages;
    assert r.frames[s.dir[id]].pid == id && r.dir[id] == f;
  }

  /** A successful `new_page` keeps the partition exactly when the id it picks has no frame yet, or
      its frame is the very one being claimed. Scanning a heap without pages makes page 1 resident
      before it is allocated and so breaks the next `new_page`. */
  lemma NewPagePartitionIff(s: Pool)
    requires Partition(s) && NewPage(s).frame.Some? && NewPage(s).id != INVALID_ID
    ensures Partition(NewPage(s).pool) <==>
      (NewPage(s).id in s.dir ==> s.dir[NewPage(s).id] == NewPage(s).frame.value)
  {
    NewPageClaims(s);
    var r := NewPage(s);
    var f := r.frame.value;
    hide *;
    if r.id !in s.dir {
      ClaimPartition(s, r.pool, f, r.id, Zeros(PAGE_SIZE), true);
    } else if s.dir[r.id] == f {
      ClaimSameFrame(s, r.pool, f, r.id, Zeros(PAGE_SIZE), true);
    } else {
      ClaimTwoFrames(s, r.pool, f, r.id, Zeros(PAGE_SIZE), true);
    }
  }

  // ---------------------------------------------------------------- unpin and store

  /** The client holds a pin, and does not give back the last pin of a page it wrote as clean. */
  ghost predicate MayUnpin(s: Pool, id: nat, isDirty: bool, touched: set<nat>)
    requires Shaped(s)
  {
    id in s.dir ==>
      s.frames[s.dir[id]].pin > 0 &&
      (isDirty || s.frames[s.dir[id]].dirty || s.frames[s.dir[id]].pin > 1 || id !in touched)
  }

  function TouchedAfterUnpin(s: Pool, id: nat, isDirty: bool, touched: set<nat>): set<nat>
    requires Shaped(s)
  {
    if id in s.dir && (isDirty || s.frames[s.dir[id]].dirty) then touched - {id} else touched
  }

  lemma UnpinLists(lru: seq<nat>, frames: seq<Frame>, f: nat, fr: Frame)
    requires Evictable(lru, frames) && f < |frames| && frames[f].pid != INVALID_ID && frames[f].pin > 0
    requires fr.pid == frames[f].pid && fr.pin == frames[f].pin - 1
    ensures Evictable(if fr.pin == 0 then [f] + lru else lru, frames[f := fr])
  {
    NoDupCons(f, lru);
  }

  lemma UnpinPartition(s: Pool, id: nat, isDirty: bool)
    requires Partition(s) && |s.frames| > 0
    requires id in s.dir ==> s.frames[s.dir[id]].pin > 0
    ensures Partition(Unpin(s, id, isDirty))
  {
    hide PageOnDisk, WholePages, Evictable, AfterPut;
    if id in s.dir {
      var f := s.dir[id];
      ReplacerHasRoom(s, f);
      UnpinLists(s.lru, s.frames, f, Unpin(s, id, isDirty).frames[f]);
    }
  }

  lemma UnpinKeeps(s: Pool, id: nat, isDirty: bool, touched: set<nat>)
    requires Coherent(s, touched) && |s.frames| > 0 && MayUnpin(s, id, isDirty, touched)
    ensures var r := Unpin(s, id, isDirty);
      && Coherent(r, TouchedAfterUnpin(s, id, isDirty, touched))
      && SameContents(s, r, {})
  {
    hide PageOnDisk, AfterPut;
    UnpinPartition(s, id, isDirty);
  }

  /** An unpin of a resident page keeps the partition exactly when the page is pinned: without a pin
      the counter wraps to its maximum while the frame stays in the replacer. */
  lemma UnpinPartitionIff(s: Pool, id: nat, isDirty: bool)
    requires Partition(s) && |s.frames| > 0 && id in s.dir
    ensures Partition(Unpin(s, id, isDirty)) <==> s.frames[s.dir[id]].pin > 0
  {
    var f := s.dir[id];
    if s.frames[f].pin > 0 {
      UnpinPartition(s, id, isDirty);
    } else {
      var r := Unpin(s, id, isDirty);
      assert r.frames[f].pin == 0xFFFF_FFFF_FFFF_FFFF && r.frames[f].pid != INVALID_ID;
      assert f in s.lru && r.lru == s.lru;
    }
  }

  lemma StoreKeeps(s: Pool, p: nat, data: Data, touched: set<nat>)
    requires Coherent(s, touched) && p in s.dir && |data| == PAGE_SIZE
    requires s.frames[s.dir[p]].pin > 0
    ensures var r := Store(s, s.dir[p], data);
      && Coherent(r, touched + {p})
      && SameContents(s, r, {p}) && Logical(r, p) == data
  {
    hide PageOnDisk, WholePages;
    var r := Store(s, s.dir[p], data);
    forall q | q != p && q in s.dir
      ensures s.dir[q] != s.dir[p]
    {
      DirInjective(s, p, if s.dir[q] == s.dir[p] then q else p);
    }
  }
}
