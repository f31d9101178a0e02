/** The page file and the page-id counter. */
module Disks {
  import opened Bytes
  import opened SlottedPage

  const INVALID_ID: nat := 0xFFFF_FFFF_FFFF_FFFF

  /** The file as whole pages, and `next_page_id_`. */
  datatype Disk = Disk(file: seq<Data>, next: nat)

  ghost predicate WholePages(d: Disk)
  {
    forall i :: 0 <= i < |d.file| ==> |d.file[i]| == PAGE_SIZE
  }

  /** What a page id denotes: bytes beyond the end of the file count as zeros. */
  function PageOnDisk(d: Disk, id: nat): (b: Data)
    requires WholePages(d)
    ensures |b| == PAGE_SIZE
  {
    if id < |d.file| then d.file[id] else Zeros(PAGE_SIZE)
  }

  /** `fwrite` at `id * PAGE_SIZE`; a gap before it reads as zeros. */
  function Written(d: Disk, id: nat, src: Data): (r: Disk)
    requires |src| == PAGE_SIZE && WholePages(d)
    ensures WholePages(r) && r.next == d.next
    ensures forall p :: PageOnDisk(r, p) == if p == id then src else PageOnDisk(d, p)
  {
    d.(file := Extended(d.file, id)[id := src])
  }

  function Extended(file: seq<Data>, id: nat): (r: seq<Data>)
    ensures |r| == if id < |file| then |file| else id + 1
    ensures forall i :: 0 <= i < |r| ==> r[i] == if i < |file| then file[i] else Zeros(PAGE_SIZE)
  {
    if id < |file| then file else file + seq(id + 1 - |file|, i => Zeros(PAGE_SIZE))
  }

  /** `next_page_id_ - 1` on `size_t`. */
  function CurrentPid(d: Disk): nat
  {
    if d.next == 0 then INVALID_ID else d.next - 1
  }

  class DiskManager {
    var file: seq<Data>
    var next: nat

    ghost function View(): Disk
      reads this
    {
      Disk(file, next)
    }

    ghost predicate Valid()
      reads this
    {
      WholePages(View())
    }

    constructor (existing: seq<Data>, start: nat)
      requires WholePages(Disk(existing, start))
      ensures Valid() && View() == Disk(existing, start)
    {
      file, next := existing, start;
    }

    /** Leaves `dst` alone when the page lies beyond the end of the file. */
    method ReadPage(id: nat, dst: array<Byte>)
      requires Valid() && dst.Length == PAGE_SIZE
      modifies dst
      ensures dst[..] == if id < |file| then PageOnDisk(View(), id) else old(dst[..])
    {
      if id < |file| {
        CopyInto(dst, 0, file[id]);
        assert dst[..] == file[id];
      }
    }

    method WritePage(id: nat, src: array<Byte>)
      requires Valid() && src.Length == PAGE_SIZE
      modifies this
      ensures Valid() && View() == Written(old(View()), id, src[..])
    {
      while |file| <= id
        invariant |file| <= |Extended(old(file), id)| && file == Extended(old(file), id)[..|file|]
        invariant old(|file|) <= |file|
        invariant next == old(next)
        decreases id - |file|
      {
        file := file + [Zeros(PAGE_SIZE)];
      }
      file := file[id := src[..]];
    }

    method NextPageId() returns (id: nat)
      requires Valid()
      modifies this
      ensures Valid() && id == old(next) && View() == old(View()).(next := id + 1)
      ensures CurrentPid(View()) == id
    {
      id := next;
      next := next + 1;
    }

    method SetNextPageId(id: nat)
      requires Valid()
      modifies this
      ensures Valid() && View() == old(View()).(next := id)
      ensures id > 0 ==> CurrentPid(View()) == id - 1
    {
      next := id;
    }

    method CurrentPageId() returns (id: nat)
      ensures id == CurrentPid(View())
      ensures next < 0x1_0000_0000_0000_0000 ==> (id + 1) % 0x1_0000_0000_0000_0000 == next
    {
      id := if next == 0 then INVALID_ID else next - 1;
    }
  }
}
