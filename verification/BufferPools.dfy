/** The buffer pool objects. Every method is proved to do to the whole state exactly what its
    specification function in PoolSpec says. */
module BufferPools {
  import opened Bytes
  import opened Options
  import opened Sequences
  import opened SlottedPage
  import opened BitMaps
  import opened Replacers
  import opened Disks
  import opened PoolSpec

  class Page {
    const buffer: array<Byte>
    var pid: nat
    var pinCount: nat
    var dirty: bool

    ghost function View(): Frame
      reads this, buffer
    {
      Frame(buffer[..], pid, pinCount, dirty)
    }

    constructor ()
      ensures fresh(buffer) && buffer.Length == PAGE_SIZE && View() == EMPTY_FRAME
    {
      buffer := new Byte[PAGE_SIZE](i => 0);
      pid, pinCount, dirty := INVALID_ID, 0, false;
      new;
      assert buffer[..] == Zeros(PAGE_SIZE);
    }

    method ClearAll()
      requires buffer.Length == PAGE_SIZE
      modifies this, buffer
      ensures View() == EMPTY_FRAME
    {
      forall i | 0 <= i < buffer.Length {
        buffer[i] := 0;
      }
      assert buffer[..] == Zeros(PAGE_SIZE);
      pid := INVALID_ID;
      pinCount := 0;
      dirty := false;
    }
  }

  class BFPHeaderPage {
    var pageNum: nat
    var phyNum: nat
    const bitmap: BitMap

    ghost function View(): Header
      reads this, bitmap
    {
      Header(pageNum, phyNum, bitmap.data)
    }

    constructor ()
      ensures fresh(bitmap) && View() == Header(1, 1, [])
    {
      pageNum, phyNum := 1, 1;
      bitmap := new BitMap([]);
    }

    method WriteToPage(page: Page)
      requires page.buffer.Length == PAGE_SIZE && 16 + |bitmap.data| <= PAGE_SIZE
      modifies page, page.buffer
      ensures page.View() == old(page.View()).(data := HeaderBytes(View(), old(page.View()).data), dirty := true)
    {
      PutWord(page.buffer, 0, pageNum);
      PutWord(page.buffer, 8, phyNum);
      CopyInto(page.buffer, 16, bitmap.data);
      page.dirty := true;
    }

    /** Returns true for a file used for the first time, whose header it writes. */
    method Init(page: Page) returns (isNew: bool)
      requires page.buffer.Length == PAGE_SIZE
      requires ReadWord(page.buffer[..], 0) != 0 ==>
        16 + BitmapSize(ReadWord(page.buffer[..], 0), ReadWord(page.buffer[..], 8)) <= PAGE_SIZE
      modifies this, bitmap, page, page.buffer
      ensures isNew == (ReadWord(old(page.buffer[..]), 0) == 0)
      ensures View() == LoadHeader(old(page.buffer[..]))
      ensures page.View() ==
        if isNew then old(page.View()).(data := HeaderBytes(View(), old(page.View()).data), dirty := true)
        else old(page.View())
    {
      pageNum := Decode(page.buffer[0..8]);
      phyNum := Decode(page.buffer[8..16]);
      assert page.buffer[0..8] == page.buffer[..][0..8];
      assert page.buffer[8..16] == page.buffer[..][8..16];
      if pageNum == 0 {
        pageNum := 1;
        phyNum := 1;
        bitmap.data := [0];
        bitmap.Set(0, true);
        WriteToPage(page);
        return true;
      }
      var size := if phyNum > 8 then pageNum / 8 + (if pageNum % 8 == 0 then 0 else 1) else 1;
      bitmap.data := page.buffer[16..16 + size];
      assert page.buffer[16..16 + size] == page.buffer[..][16..16 + size];
      isNew := false;
    }
  }

  ghost function FramesOf(ps: seq<Page>): (r: seq<Frame>)
    reads ps, set p | p in ps :: p.buffer
    ensures |r| == |ps|
    ensures forall i :: 0 <= i < |ps| ==> r[i] == ps[i].View()
  {
    if ps == [] then [] else FramesOf(ps[..|ps| - 1]) + [ps[|ps| - 1].View()]
  }

  class BufferPool {
    const pages: seq<Page>
    const replacer: LruReplacer<nat>
    const disk: DiskManager
    const head: BFPHeaderPage
    var dir: map<nat, nat>
    var free: seq<nat>

    /** The frames and their buffers are distinct objects, and the replacer has room for all. */
    ghost predicate Wired()
    {
      && |pages| > 0
      && replacer.capacity == |pages|
      && (forall i :: 0 <= i < |pages| ==> pages[i].buffer.Length == PAGE_SIZE)
      && (forall i, j :: 0 <= i < j < |pages| ==> pages[i] != pages[j] && pages[i].buffer != pages[j].buffer)
    }

    ghost function Repr(): set<object>
    {
      {this, replacer, disk, head, head.bitmap} + (set p | p in pages) + (set p | p in pages :: p.buffer)
    }

    ghost function View(): (s: Pool)
      reads Repr()
      ensures s.dir == dir && s.free == free && s.lru == replacer.Order()
      ensures s.disk == disk.View() && s.head == head.View()
      ensures |s.frames| == |pages| && forall i :: 0 <= i < |pages| ==> s.frames[i] == pages[i].View()
    {
      Pool(dir, free, FramesOf(pages), replacer.Order(), disk.View(), head.View())
    }

    ghost predicate Valid()
      reads Repr()
      ensures Valid() ==> |pages| > 0 && replacer.capacity == |pages| && Shaped(View())
    {
      Wired() && replacer.Valid() && Shaped(View())
    }

    /** The members as the constructor sets them up, before it calls `init`. */
    constructor Unopened(existing: seq<Data>, size: nat)
      requires size > 0 && WholePages(Disk(existing, 1))
      ensures Valid() && fresh(Repr()) && |pages| == size
      ensures View() == Blank(size, existing)
    {
      hide View, FramesOf;
      dir := map[];
      replacer := new LruReplacer(size);
      disk := new DiskManager(existing, 1);
      head := new BFPHeaderPage();
      var ps, list := MakePages(size);
      pages := ps;
      free := list;
      new;
      BlankView(size, existing);
      forall o | o in Repr()
        ensures fresh(o)
      {
        assert o in {this, replacer, disk, head, head.bitmap} || exists p :: p in pages && (o == p || o == p.buffer);
      }
    }

    /** Open a page file with `size` frames. */
    static method Open(existing: seq<Data>, size: nat) returns (pool: BufferPool)
      requires size > 0 && WholePages(Disk(existing, 1))
      requires HeaderFits(PageOnDisk(Disk(existing, 1), 0))
      ensures pool.Valid() && fresh(pool.Repr()) && |pool.pages| == size
      ensures pool.View() == OpenPool(size, existing)
    {
      hide InitPool;
      pool := new BufferPool.Unopened(existing, size);
      pool.Init();
    }

    static method MakePages(size: nat) returns (ps: seq<Page>, list: seq<nat>)
      ensures |ps| == size && list == seq(size, i => i)
      ensures forall p :: p in ps ==> fresh(p) && fresh(p.buffer)
      ensures forall i :: 0 <= i < size ==> ps[i].buffer.Length == PAGE_SIZE && ps[i].View() == EMPTY_FRAME
      ensures forall i, j :: 0 <= i < j < size ==> ps[i] != ps[j] && ps[i].buffer != ps[j].buffer
    {
      ps, list := [], [];
      while |ps| < size
        invariant |list| == |ps| <= size
        invariant forall i :: 0 <= i < |ps| ==> list[i] == i
        invariant forall p :: p in ps ==> fresh(p) && fresh(p.buffer)
        invariant forall i :: 0 <= i < |ps| ==> ps[i].buffer.Length == PAGE_SIZE && ps[i].View() == EMPTY_FRAME
        invariant forall i, j :: 0 <= i < j < |ps| ==> ps[i] != ps[j] && ps[i].buffer != ps[j].buffer
      {
        var p := new Page();
        list := list + [|ps|];
        ps := ps + [p];
      }
    }

    lemma BlankView(size: nat, existing: seq<Data>)
      requires |pages| == size && WholePages(Disk(existing, 1))
      requires dir == map[] && free == seq(size, i => i) && replacer.Order() == []
      requires disk.View() == Disk(existing, 1) && head.View() == Header(1, 1, [])
      requires forall i :: 0 <= i < size ==> pages[i].View() == EMPTY_FRAME
      ensures View() == Blank(size, existing)
    {
      assert View().frames == Blank(size, existing).frames;
      assert View().free == Blank(size, existing).free;
    }

    // ------------------------------------------------ single steps on the objects

    method Victim() returns (frame: Option<nat>)
      requires Valid()
      modifies this, replacer
      ensures Valid()
      ensures Fetched(frame, View()) == PoolSpec.Victim(old(View()))
    {
      ghost var before := View();
      if free != [] {
        frame := Some(Last(free));
        free := Front(free);
      } else {
        frame := replacer.Victim();
        assert before.lru != [] ==> before.lru == Front(before.lru) + [Last(before.lru)];
      }
      assert View() == PoolSpec.Victim(before).pool;
    }

    method FlushPage(id: nat)
      requires Valid()
      modifies disk
      ensures Valid() && View() == PoolSpec.FlushPage(old(View()), id)
    {
      if id in dir {
        var page := pages[dir[id]];
        disk.WritePage(id, page.buffer);
        assert View() == PoolSpec.FlushPage(old(View()), id);
      }
    }

    /** A client or the pool itself overwriting what frame `f` records. */
    method SetFrame(f: nat, pid: nat, pinCount: nat, dirty: bool)
      requires Valid() && f < |pages|
      modifies pages[f]
      ensures Valid()
      ensures View() == WithFrame(old(View()), f, Frame(old(View()).frames[f].data, pid, pinCount, dirty))
    {
      var p := pages[f];
      p.pid := pid;
      p.pinCount := pinCount;
      p.dirty := dirty;
      assert View().frames == old(View()).frames[f := p.View()];
    }

    /** Clear the frame and bind it to `pid`. */
    method BindFrame(f: nat, pid: nat)
      requires Valid() && f < |pages|
      modifies this, pages[f], pages[f].buffer
      ensures Valid()
      ensures var s := old(View());
        View() == s.(dir := (s.dir - {s.frames[f].pid})[pid := f],
                     frames := s.frames[f := Frame(Zeros(PAGE_SIZE), pid, 0, false)])
    {
      ghost var s := View();
      var p := pages[f];
      dir := dir - {p.pid};
      p.ClearAll();
      p.pid := pid;
      dir := dir[pid := f];
      assert View().frames == s.frames[f := Frame(Zeros(PAGE_SIZE), pid, 0, false)];
    }

    /** `disk_.read_page` into a frame that was just bound, and the bookkeeping after it. */
    method ReadFrame(f: nat, id: nat)
      requires Valid() && f < |pages|
      modifies pages[f], pages[f].buffer
      ensures Valid()
      ensures var s := old(View());
        View() == WithFrame(s, f, Frame(if id < |s.disk.file| then s.disk.file[id] else s.frames[f].data, id, 1, false))
    {
      ghost var s := View();
      var p := pages[f];
      disk.ReadPage(id, p.buffer);
      p.pinCount := 1;
      p.pid := id;
      p.dirty := false;
      assert View().frames == s.frames[f := p.View()];
    }

    method InitHeader(page: Page, ghost f: nat) returns (isNew: bool)
      requires Valid() && f < |pages| && pages[f] == page && HeaderFits(View().frames[f].data)
      modifies head, head.bitmap, page, page.buffer
      ensures Valid()
      ensures var s := old(View()); var b := s.frames[f].data; var h := LoadHeader(b);
        && isNew == (ReadWord(b, 0) == 0)
        && View() == (if isNew then WithFrame(s, f, s.frames[f].(data := HeaderBytes(h, b), dirty := true)) else s)
                     .(head := h)
    {
      ghost var s := View();
      isNew := head.Init(page);
      hide LoadHeader, HeaderBytes;
      assert View().frames == s.frames[f := pages[f].View()];
    }

    method WriteHeader(page: Page, ghost f: nat)
      requires Valid() && f < |pages| && pages[f] == page && 16 + |head.bitmap.data| <= PAGE_SIZE
      modifies page, page.buffer
      ensures Valid()
      ensures var s := old(View());
        View() == WithFrame(s, f, s.frames[f].(data := HeaderBytes(s.head, s.frames[f].data), dirty := true))
    {
      ghost var s := View();
      head.WriteToPage(page);
      hide HeaderBytes;
      assert View().frames == s.frames[f := pages[f].View()];
    }

    method RecordPageId(id: nat)
      requires Valid()
      modifies head, head.bitmap
      ensures Valid()
      ensures View() == old(View()).(head := Recorded(old(View()).head, id))
    {
      head.bitmap.Grow(id);
      head.bitmap.Set(id, true);
      head.pageNum := head.pageNum + 1;
      head.phyNum := head.phyNum + 1;
    }

    method AdvanceId() returns (id: nat)
      requires Valid()
      modifies disk
      ensures Valid() && id == old(View()).disk.next
      ensures View() == old(View()).(disk := old(View()).disk.(next := id + 1))
    {
      id := disk.NextPageId();
    }

    method SetNextId(id: nat)
      requires Valid()
      modifies disk
      ensures Valid() && View() == old(View()).(disk := old(View()).disk.(next := id))
    {
      disk.SetNextPageId(id);
    }

    method PutInReplacer(f: nat)
      requires Valid() && f < |pages|
      modifies replacer
      ensures Valid() && View() == old(View()).(lru := AfterPut(old(View()).lru, |pages|, f))
    {
      ghost var s := View();
      PutShaped(s, f);
      hide AfterPut, Shaped, Wired;
      replacer.Put(f);
      assert View() == s.(lru := AfterPut(s.lru, |pages|, f));
    }

    lemma PutShaped(s: Pool, f: nat)
      requires Shaped(s) && f < |s.frames|
      ensures Shaped(s.(lru := AfterPut(s.lru, |s.frames|, f)))
    {
      hide WholePages;
    }

    method TakeFromReplacer(f: nat)
      requires Valid()
      modifies replacer
      ensures Valid() && View() == old(View()).(lru := Without(old(View()).lru, f))
    {
      replacer.Remove(f);
    }

    /** A client's store into the buffer of frame `f`, seen from the pool. */
    twostate lemma BufferWritten(f: nat)
      requires old(Valid()) && f < |pages|
      requires unchanged(Repr() - {pages[f].buffer})
      ensures Valid() && View() == Store(old(View()), f, pages[f].buffer[..])
    {
      hide Shaped, WholePages;
      assert View().frames == old(View()).frames[f := pages[f].View()];
      assert View() == Store(old(View()), f, pages[f].buffer[..]);
    }

    // ------------------------------------------------ the pool's calls

    /** The page object of a frame number, null for none. */
    ghost function PageAt(f: Option<nat>): Page?
    {
      if f.Some? && f.value < |pages| then pages[f.value] else null
    }

    method ChangeCorrespondence(f: nat, pid: nat)
      requires Valid() && f < |pages|
      modifies Repr()
      ensures Valid() && View() == Rebind(old(View()), f, pid)
    {
      hide View, Valid, PoolSpec.FlushPage, Wired;
      if pages[f].dirty {
        FlushPage(pages[f].pid);
      }
      BindFrame(f, pid);
    }

    /** `fetch` of a resident page. */
    method FetchHit(id: nat) returns (page: Page)
      requires Valid() && id in dir
      modifies Repr()
      ensures Valid() && View() == PoolSpec.FetchHit(old(View()), id).pool
      ensures page == pages[old(dir)[id]]
    {
      hide View, Valid, Wired, Without;
      var f := dir[id];
      page := pages[f];
      SetFrame(f, page.pid, page.pinCount + 1, page.dirty);
      TakeFromReplacer(f);
    }

    /** Pins the page's frame, reading the page in if it is not resident; null if no frame is free. */
    method Fetch(id: nat) returns (page: Page?)
      requires Valid()
      modifies Repr()
      ensures Valid() && View() == PoolSpec.Fetch(old(View()), id).pool
      ensures page == PageAt(PoolSpec.Fetch(old(View()), id).frame)
    {
      hide View, Valid, Wired, PoolSpec.Victim, Rebind, PoolSpec.FetchHit;
      if id in dir {
        HitFrame(View(), id);
        page := FetchHit(id);
        return;
      }
      var frame := Victim();
      if frame == None {
        return null;
      }
      page := pages[frame.value];
      RebindClears(View(), frame.value, id);
      ChangeCorrespondence(frame.value, id);
      ReadFrame(frame.value, id);
    }

    lemma HitFrame(s: Pool, id: nat)
      requires Shaped(s) && id in s.dir
      ensures PoolSpec.FetchHit(s, id).frame == Some(s.dir[id])
    {}

    lemma RebindClears(s: Pool, f: nat, pid: nat)
      requires Shaped(s) && f < |s.frames|
      ensures Rebind(s, f, pid).frames[f].data == Zeros(PAGE_SIZE)
    {}

    /** The id `new_page` settles on. */
    method PickId() returns (id: nat, reuses: bool)
      requires Valid()
      modifies disk
      ensures Valid() && View() == old(View()).(disk := ChosenId(old(View())).1)
      ensures id == ChosenId(old(View())).0 && reuses == Reuses(old(View()))
    {
      hide FirstFrom;
      var first := head.bitmap.First(false);
      var current := disk.CurrentPageId();
      reuses := first.Some? && first.value < current;
      if reuses {
        id := first.value;
      } else {
        id := AdvanceId();
      }
    }

    /** The id of the new page and its frame; null, with the id counter still advanced, at the page
        limit or when no frame is free. */
    method NewPage() returns (page: Page?, id: nat)
      requires Valid()
      modifies Repr()
      ensures Valid() && View() == PoolSpec.NewPage(old(View())).pool
      ensures page == PageAt(PoolSpec.NewPage(old(View())).frame) && id == PoolSpec.NewPage(old(View())).id
    {
      hide View, Valid, Wired, PoolSpec.Victim, Rebind, ChosenId, Reuses, Recorded;
      ghost var s := View();
      page := null;
      var reuses;
      id, reuses := PickId();
      if !reuses && id > BFP_MAX_PAGE_NUM {
        return;
      }
      VictimHead(View());
      var frame := Victim();
      if frame == None {
        return;
      }
      page := pages[frame.value];
      RecordPageId(id);
      RebindClears(View(), frame.value, id);
      ChangeCorrespondence(frame.value, id);
      SetFrame(frame.value, id, 1, true);
    }

    lemma VictimHead(s: Pool)
      requires Shaped(s)
      ensures PoolSpec.Victim(s).pool.head == s.head
    {}

    method Unpin(id: nat, isDirty: bool)
      requires Valid()
      modifies Repr()
      ensures Valid() && View() == PoolSpec.Unpin(old(View()), id, isDirty)
    {
      hide View, Valid, Wired, AfterPut;
      if id in dir {
        var f := dir[id];
        var page := pages[f];
        var pinCount := if page.pinCount == 0 then INVALID_ID else page.pinCount - 1;
        SetFrame(f, page.pid, pinCount, page.dirty || isDirty);
        if pinCount == 0 {
          PutInReplacer(f);
        }
      }
    }

    method DeletePage(id: nat)
      requires Valid() && 16 + |head.bitmap.data| <= PAGE_SIZE
      requires id < head.phyNum ==> id < 8 * |head.bitmap.data|
      modifies Repr()
      ensures Valid() && View() == PoolSpec.DeletePage(old(View()), id)
    {
      hide View, Valid, Wired, PoolSpec.SaveHeader, Dropped;
      if id >= head.phyNum {
        return;
      }
      BitmapKept(View(), id);
      Drop(id);
      SaveHeader();
    }

    lemma BitmapKept(s: Pool, id: nat)
      requires Shaped(s) && id < 8 * |s.head.bits|
      ensures |Dropped(s, id).head.bits| == |s.head.bits|
    {}

    method ReleaseFrame(id: nat)
      requires Valid() && id in dir
      modifies Repr()
      ensures Valid()
      ensures var s := old(View()); var f := s.dir[id];
        View() == s.(frames := s.frames[f := EMPTY_FRAME], free := [f] + s.free, dir := s.dir - {id})
    {
      ghost var s := View();
      var f := dir[id];
      pages[f].ClearAll();
      free := [f] + free;
      dir := dir - {id};
      assert View().frames == s.frames[f := EMPTY_FRAME];
    }

    method ForgetPageId(id: nat)
      requires Valid() && id < 8 * |head.bitmap.data|
      modifies head, head.bitmap
      ensures Valid()
      ensures var h := old(View()).head;
        View() == old(View()).(head := Header(Decrement(h.pageNum), h.phyNum, WithBit(h.bits, id, false)))
    {
      head.bitmap.Set(id, false);
      head.pageNum := if head.pageNum == 0 then INVALID_ID else head.pageNum - 1;
    }

    /** The part of `delete_page` before the header page is rewritten. */
    method Drop(id: nat)
      requires Valid() && id < 8 * |head.bitmap.data|
      modifies Repr()
      ensures Valid() && View() == Dropped(old(View()), id)
    {
      hide View, Valid, Wired, Decrement, WithBit;
      ForgetPageId(id);
      if id in dir {
        ReleaseFrame(id);
      }
    }

    method SaveHeader()
      requires Valid() && 16 + |head.bitmap.data| <= PAGE_SIZE
      modifies Repr()
      ensures Valid() && View() == PoolSpec.SaveHeader(old(View()))
    {
      hide View, Valid, Wired, PoolSpec.Fetch, PoolSpec.Unpin, HeaderBytes;
      ghost var s := View();
      var page := Fetch(0);
      if page == null {
        return;
      }
      ghost var f := PoolSpec.Fetch(s, 0).frame.value;
      SameHeader(s, 0);
      WriteHeader(page, f);
      Unpin(page.pid, true);
    }

    lemma SameHeader(s: Pool, id: nat)
      requires Shaped(s)
      ensures PoolSpec.Fetch(s, id).pool.head == s.head
    {
      hide Without, PageOnDisk, Written;
    }

    /** What the file holds for `p` once the dirty pages among `done` are written. */
    ghost function WrittenSoFar(s: Pool, done: set<nat>, p: nat): Data
      requires Shaped(s) && done <= s.dir.Keys
    {
      if p in done && s.frames[s.dir[p]].dirty then s.frames[s.dir[p]].data else PageOnDisk(s.disk, p)
    }

    method FlushAllPage()
      requires Valid()
      modifies disk
      ensures Valid() && Flushed(old(View()), View().disk)
      ensures View() == old(View()).(disk := View().disk)
    {
      ghost var s := View();
      var left := dir.Keys;
      while left != {}
        invariant Valid() && left <= s.dir.Keys
        invariant View() == s.(disk := View().disk) && View().disk.next == s.disk.next
        invariant forall p: nat :: PageOnDisk(View().disk, p) == WrittenSoFar(s, s.dir.Keys - left, p)
        decreases left
      {
        var p :| p in left;
        left := left - {p};
        var page := pages[dir[p]];
        if page.dirty {
          FlushPage(p);
        }
      }
    }

    /** The header page, then every dirty page, goes to the file; gives up if page 0 gets no frame. */
    method Close() returns (closed: bool)
      requires Valid() && 16 + |head.bitmap.data| <= PAGE_SIZE
      modifies Repr()
      ensures Valid()
      ensures closed == PoolSpec.Fetch(old(View()), 0).frame.Some?
      ensures closed ==> Flushed(PoolSpec.SaveHeader(old(View())), View().disk)
    {
      hide View, Valid, Wired, PoolSpec.Fetch, PoolSpec.Unpin, HeaderBytes;
      ghost var s := View();
      var page := Fetch(0);
      if page == null {
        return false;
      }
      ghost var f := PoolSpec.Fetch(s, 0).frame.value;
      SameHeader(s, 0);
      WriteHeader(page, f);
      Unpin(page.pid, true);
      FlushAllPage();
      closed := true;
    }

    /** `init` up to the header in memory. */
    method LoadHeaderPage() returns (isNew: bool)
      requires Valid() && 0 !in dir && free != []
      requires HeaderFits(PageOnDisk(disk.View(), 0)) && View().frames[Last(free)] == EMPTY_FRAME
      modifies Repr()
      ensures Valid() && isNew == (ReadWord(PageOnDisk(old(View()).disk, 0), 0) == 0)
      ensures View() == HeaderLoaded(old(View()))
    {
      hide View, Valid, Wired, PoolSpec.Fetch, HeaderBytes, LoadHeader;
      FirstFetch(View());
      var page := Fetch(0);
      isNew := InitHeader(page, Last(old(free)));
    }

    method Init()
      requires Valid() && 0 !in dir && free != []
      requires HeaderFits(PageOnDisk(disk.View(), 0)) && View().frames[Last(free)] == EMPTY_FRAME
      modifies Repr()
      ensures Valid() && View() == InitPool(old(View()))
    {
      hide View, Valid, Wired, PoolSpec.Unpin, PoolSpec.FlushPage, HeaderLoaded;
      var isNew := LoadHeaderPage();
      Unpin(0, isNew);
      if isNew {
        FlushPage(0);
      }
      SetNextId(head.phyNum);
    }

    lemma FirstFetch(s: Pool)
      requires Shaped(s) && 0 !in s.dir && s.free != [] && s.frames[Last(s.free)] == EMPTY_FRAME
      ensures PoolSpec.Fetch(s, 0).frame == Some(Last(s.free))
      ensures PoolSpec.Fetch(s, 0).pool.frames[Last(s.free)].data == PageOnDisk(s.disk, 0)
    {}
  }
}
