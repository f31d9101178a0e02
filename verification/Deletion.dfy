/** When `delete_page` keeps the frame partition. */
module Deletion {
  import opened Bytes
  import opened Options
  import opened Sequences
  import opened SlottedPage
  import opened Replacers
  import opened Disks
  import opened PoolSpec
  import opened PoolProofs

  /** The deleted page has no frame; or its frame is pinned and so not in the replacer; or the frame,
      the only free one, is taken again at once for the header page. */
  ghost predicate FrameIsRecovered(s: Pool, id: nat)
    requires Shaped(s)
  {
    id in s.dir ==>
      s.frames[s.dir[id]].pin > 0 || (s.free == [] && (id == 0 || 0 !in s.dir))
  }

  lemma DroppedPartition(s: Pool, id: nat)
    requires Partition(s) && id < 8 * |s.head.bits|
    requires id in s.dir ==> s.frames[s.dir[id]].pin > 0
    ensures Partition(Dropped(s, id))
  {
    if id in s.dir {
      NoDupCons(s.dir[id], s.free);
    }
  }

  /** Storing the header while the page is pinned, as a frame update. */
  lemma StoredPartition(s: Pool, f: nat, fr: Frame)
    requires Partition(s) && f < |s.frames| && s.frames[f].pid != INVALID_ID
    requires fr.pid == s.frames[f].pid && fr.pin == s.frames[f].pin && |fr.data| == PAGE_SIZE
    ensures Partition(WithFrame(s, f, fr))
  {}

  lemma FetchPartition(s: Pool, id: nat)
    requires Partition(s) && id != INVALID_ID
    ensures Partition(Fetch(s, id).pool)
    ensures var r := Fetch(s, id); r.frame.Some? ==>
      && id in r.pool.dir && r.pool.dir[id] == r.frame.value
      && r.pool.frames[r.frame.value].pid == id && r.pool.frames[r.frame.value].pin > 0
  {
    hide PageOnDisk;
    if id in s.dir {
      WithoutNoDup(s.lru, s.dir[id]);
    } else if Victim(s).frame.Some? {
      VictimPicks(s);
      FetchMissClaims(s, id);
      var r := FetchMiss(s, id);
      hide Victim, FetchMiss;
      ClaimPartition(s, r.pool, r.frame.value, id, r.pool.frames[r.frame.value].data, false);
    }
  }

  lemma SaveHeaderPartition(s: Pool)
    requires Partition(s) && |s.frames| > 0 && 16 + |s.head.bits| <= PAGE_SIZE
    ensures Partition(SaveHeader(s))
  {
    FetchPartition(s, 0);
    var r := Fetch(s, 0);
    if r.frame.Some? {
      var f := r.frame.value;
      var fr := r.pool.frames[f];
      hide Fetch, Unpin, Partition;
      FetchHead(s, 0);
      var b := HeaderBytes(s.head, fr.data);
      hide HeaderBytes;
      StoredPartition(r.pool, f, fr.(data := b, dirty := true));
      UnpinPartition(WithFrame(r.pool, f, fr.(data := b, dirty := true)), 0, true);
    }
  }

  lemma FetchHead(s: Pool, id: nat)
    requires Shaped(s)
    ensures Fetch(s, id).pool.head == s.head
  {
    hide Without, PageOnDisk, Written;
  }

  /** The state after the header was saved, in terms of the state after the fetch. */
  lemma SaveHeaderShape(s: Pool, f: nat)
    requires Shaped(s) && |s.frames| > 0 && 16 + |s.head.bits| <= PAGE_SIZE
    requires Fetch(s, 0).frame == Some(f)
    requires 0 in Fetch(s, 0).pool.dir && Fetch(s, 0).pool.dir[0] == f
    requires Fetch(s, 0).pool.frames[f].pin > 0 && Fetch(s, 0).pool.frames[f].pid == 0
    ensures var r := Fetch(s, 0).pool; var e := SaveHeader(s);
      && e.dir == r.dir && e.free == r.free && |e.frames| == |r.frames|
      && (forall g :: 0 <= g < |r.frames| && g != f ==> e.frames[g] == r.frames[g])
      && e.frames[f].pid == r.frames[f].pid && e.frames[f].pin == r.frames[f].pin - 1
      && e.lru == if r.frames[f].pin == 1 then AfterPut(r.lru, |r.frames|, f) else r.lru
  {
    hide Fetch, HeaderBytes, AfterPut, Written;
  }

  /** A frame listed as free and as evictable at once stays so when another frame is released. */
  lemma StillListed(lru: seq<nat>, n: nat, f: nat, g: nat)
    requires NoDup(lru) && (forall x :: x in lru ==> x < n) && f in lru && g !in lru && g < n
    ensures f in AfterPut(lru, n, g)
  {
    RoomLeft(lru, n, g);
  }

  lemma FreeAndEvictable(s: Pool, f: nat)
    requires f in s.free && f in s.lru
    ensures !Partition(s)
  {}

  lemma HeaderResident(s: Pool, id: nat)
    requires Partition(s) && |s.frames| > 0 && 16 + |s.head.bits| <= PAGE_SIZE && id < 8 * |s.head.bits|
    requires id in s.dir && s.frames[s.dir[id]].pin == 0 && id != 0 && 0 in s.dir
    ensures !Partition(SaveHeader(Dropped(s, id)))
  {
    var f := s.dir[id];
    var g := s.dir[0];
    var s1 := Dropped(s, id);
    assert f != g by { assert s.frames[f].pid == id && s.frames[g].pid == 0; }
    hide Written, PageOnDisk;
    var r := Fetch(s1, 0).pool;
    assert r.lru == Without(s.lru, g) && r.free == [f] + s.free;
    WithoutNoDup(s.lru, g);
    StillListed(r.lru, |s.frames|, f, g);
    SaveHeaderShape(s1, g);
    hide Fetch, SaveHeader, AfterPut, Without;
    FreeAndEvictable(SaveHeader(s1), f);
  }

  lemma OtherFrameFree(s: Pool, id: nat)
    requires Partition(s) && |s.frames| > 0 && 16 + |s.head.bits| <= PAGE_SIZE && id < 8 * |s.head.bits|
    requires id in s.dir && s.frames[s.dir[id]].pin == 0 && 0 !in s.dir - {id} && s.free != []
    ensures !Partition(SaveHeader(Dropped(s, id)))
  {
    var f := s.dir[id];
    var g := Last(s.free);
    var s1 := Dropped(s, id);
    assert Last(s1.free) == g && f in Front(s1.free) by { assert Front(s1.free)[0] == f; }
    assert f != g && g !in s.lru && f in s.lru;
    MissLists(s1, 0);
    var r := Fetch(s1, 0).pool;
    hide Fetch, Dropped, Victim;
    StillListed(r.lru, |s.frames|, f, g);
    SaveHeaderShape(s1, g);
    hide SaveHeader, AfterPut;
    FreeAndEvictable(SaveHeader(s1), f);
  }

  /** A fetch that claims a frame, on any state. */
  lemma MissLists(s: Pool, id: nat)
    requires Shaped(s) && id !in s.dir && Victim(s).frame.Some?
    ensures var r := Fetch(s, id); var v := Victim(s); var f := v.frame.value;
      && r.frame == v.frame && r.pool.free == v.pool.free && r.pool.lru == v.pool.lru
      && r.pool.dir == (s.dir - {s.frames[f].pid})[id := f]
      && |r.pool.frames| == |s.frames|
      && (forall g :: 0 <= g < |s.frames| && g != f ==> r.pool.frames[g] == s.frames[g])
      && r.pool.frames[f].pid == id && r.pool.frames[f].pin == 1
  {
    hide Written, PageOnDisk;
  }

  /** With no other free frame, the dropped page's frame is the next victim. */
  lemma DroppedIsVictim(s: Pool, id: nat)
    requires Partition(s) && id < 8 * |s.head.bits| && id in s.dir && s.free == []
    ensures var s1 := Dropped(s, id); var f := s.dir[id];
      && s1.dir == s.dir - {id} && s1.frames == s.frames[f := EMPTY_FRAME]
      && |s1.head.bits| == |s.head.bits|
      && Victim(s1).frame == Some(f) && Victim(s1).pool.lru == s.lru && Victim(s1).pool.free == []
  {
    var s1 := Dropped(s, id);
    assert Last(s1.free) == s.dir[id] && Front(s1.free) == [];
  }

  lemma OnlyFrameFree(s: Pool, id: nat)
    requires Partition(s) && |s.frames| > 0 && 16 + |s.head.bits| <= PAGE_SIZE && id < 8 * |s.head.bits|
    requires id in s.dir && s.frames[s.dir[id]].pin == 0 && 0 !in s.dir - {id} && s.free == []
    ensures Partition(SaveHeader(Dropped(s, id)))
  {
    hide Fetch, SaveHeader, Victim, Dropped, AfterPut, Without;
    var f := s.dir[id];
    var s1 := Dropped(s, id);
    DroppedIsVictim(s, id);
    MissLists(s1, 0);
    SaveHeaderShape(s1, f);
    WithoutNoDup(s.lru, f);
    PutKnown(s.lru, |s.frames|, f);
    RecoveredParts(s, SaveHeader(s1), f, id);
  }

  lemma PutKnown(lru: seq<nat>, n: nat, f: nat)
    requires f in lru && n > 0
    ensures AfterPut(lru, n, f) == [f] + Without(lru, f)
  {}

  lemma RecoveredParts(s: Pool, e: Pool, f: nat, id: nat)
    requires Partition(s) && Shaped(e) && id in s.dir && s.dir[id] == f && s.frames[f].pin == 0
    requires 0 !in s.dir - {id} && s.free == [] && e.free == []
    requires e.dir == (s.dir - {id})[0 := f] && |e.frames| == |s.frames|
    requires e.frames[f].pid == 0 && e.frames[f].pin == 0
    requires forall g :: 0 <= g < |s.frames| && g != f ==> e.frames[g] == s.frames[g]
    requires NoDup(Without(s.lru, f)) && f !in Without(s.lru, f) && e.lru == [f] + Without(s.lru, f)
    ensures Partition(e)
  {
    hide WholePages;
  }

  /** `delete_page` keeps every frame in exactly one place if and only if the page has no frame, its
      frame is pinned, or its frame is the only free one and the header page is not resident. In
      every other case the frame ends up free and evictable at the same time. */
  lemma DeletePartitionIff(s: Pool, id: nat)
    requires Partition(s) && |s.frames| > 0 && 16 + |s.head.bits| <= PAGE_SIZE
    requires id < s.head.phyNum && id < 8 * |s.head.bits|
    ensures Partition(DeletePage(s, id)) <==> FrameIsRecovered(s, id)
  {
    hide SaveHeader, Dropped;
    if id !in s.dir || s.frames[s.dir[id]].pin > 0 {
      DroppedPartition(s, id);
      DroppedSizes(s, id);
      SaveHeaderPartition(Dropped(s, id));
    } else if id != 0 && 0 in s.dir {
      HeaderResident(s, id);
    } else if s.free != [] {
      OtherFrameFree(s, id);
    } else {
      OnlyFrameFree(s, id);
    }
  }

  lemma DroppedSizes(s: Pool, id: nat)
    requires Shaped(s) && id < 8 * |s.head.bits|
    ensures |Dropped(s, id).head.bits| == |s.head.bits|
  {}
}
