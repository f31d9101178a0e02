/** The slotted page object over a page of the pool. */
module RecordPages {
  import opened Bytes
  import opened Options
  import opened SlottedPage
  import opened BufferPools

  datatype Contained = Present | Deleted | BeyondEnd

  class RecordPage {
    var freeAddrStart: nat
    var freeAddrEnd: nat
    var recIdxCount: nat
    var recIdx: seq<nat>
    var page: Page?

    ghost function View(): Head
      reads this
    {
      Head(freeAddrStart, freeAddrEnd, recIdxCount, recIdx)
    }

    constructor ()
      ensures View() == Head(0, PAGE_SIZE, 0, []) && page == null
    {
      freeAddrStart, freeAddrEnd, recIdxCount, recIdx, page := 0, PAGE_SIZE, 0, [], null;
    }

    /** Rebuilds the members from the page's bytes. */
    method Init(p: Page)
      requires Readable(p.buffer[..])
      modifies this, p.buffer
      ensures page == p
      ensures Opened(View(), p.buffer[..]) == Open(old(p.buffer[..]))
    {
      ghost var b := p.buffer[..];
      hide Decode, Encode;
      ReadHead(p);
      if freeAddrEnd == 0 {
        freeAddrEnd := PAGE_SIZE;
        PutWord(p.buffer, END_AT, freeAddrEnd);
      }
      page := p;
    }

    method ReadHead(p: Page)
      requires Readable(p.buffer[..])
      modifies this
      ensures var b := p.buffer[..];
        var count := ReadWord(b, COUNT_AT);
        View() == Head(ReadWord(b, START_AT), ReadWord(b, END_AT), count, SlotWords(b, count))
    {
      var start := GetWord(p.buffer, START_AT);
      var end := GetWord(p.buffer, END_AT);
      var count := GetWord(p.buffer, COUNT_AT);
      var idx: seq<nat> := [];
      var i := 0;
      while i < count
        invariant i <= count && |idx| == i
        invariant forall j :: 0 <= j < i ==> idx[j] == ReadWord(p.buffer[..], SlotOffset(j))
      {
        var at := GetWord(p.buffer, SlotOffset(i));
        idx := idx + [at];
        i := i + 1;
      }
      freeAddrStart, freeAddrEnd, recIdxCount, recIdx := start, end, count, idx;
      assert idx == SlotWords(p.buffer[..], count);
    }

    /** `enough`, on 64-bit words. */
    method HasRoom(size: nat) returns (enough: bool)
      ensures enough == Enough(View(), size)
    {
      var startIdx := (freeAddrEnd - (size + 1)) % 0x1_0000_0000_0000_0000;
      var offset := 8 * (3 + |recIdx|);
      enough := offset + WORD < startIdx;
    }

    /** Adds `rec` if there is room and says in which slot; a refused record changes nothing. */
    method Insert(rec: Data) returns (slot: Option<nat>)
      requires page != null && page.buffer.Length == PAGE_SIZE && Layout(View())
      requires |rec| < freeAddrEnd
      modifies this, page.buffer
      ensures page == old(page)
      ensures slot == if Enough(old(View()), |rec|) then Some(|old(recIdx)|) else None
      ensures slot.Some? ==>
        && Fits(old(View()), |rec|)
        && View() == HeadAfterInsert(old(View()), |rec|)
        && page.buffer[..] == BytesAfterInsert(old(View()), old(page.buffer[..]), rec)
      ensures slot.None? ==> View() == old(View()) && page.buffer[..] == old(page.buffer[..])
    {
      var enough := HasRoom(|rec|);
      EnoughFits(View(), |rec|);
      hide Enough, BytesAfterInsert, HeadAfterInsert, Layout;
      if !enough {
        return None;
      }
      slot := Some(|recIdx|);
      Accept(rec);
    }

    method Accept(rec: Data)
      requires page != null && page.buffer.Length == PAGE_SIZE && Layout(View()) && Fits(View(), |rec|)
      modifies this, page.buffer
      ensures page == old(page)
      ensures View() == HeadAfterInsert(old(View()), |rec|)
      ensures page.buffer[..] == BytesAfterInsert(old(View()), old(page.buffer[..]), rec)
    {
      hide Splice, WriteHead, Layout;
      var slot := |recIdx|;
      var startIdx := freeAddrEnd - |rec| - 1;
      WriteRecord(startIdx, rec);
      freeAddrStart := freeAddrStart + 1;
      freeAddrEnd := startIdx;
      recIdxCount := recIdxCount + 1;
      recIdx := recIdx + [startIdx];
      WriteHeadWords(slot, startIdx);
    }

    /** The delete mark and the record, below the free region's end. */
    method WriteRecord(at: nat, rec: Data)
      requires page != null && at + |rec| + 1 <= page.buffer.Length
      modifies page.buffer
      ensures page.buffer[..] == Splice(Splice(old(page.buffer[..]), at, [0]), at + 1, rec)
    {
      hide Splice;
      CopyInto(page.buffer, at, [0]);
      CopyInto(page.buffer, at + 1, rec);
    }

    /** `write_head(rid, idx)`. */
    method WriteHeadWords(slot: nat, at: nat)
      requires page != null && page.buffer.Length == PAGE_SIZE && SlotOffset(slot + 1) <= PAGE_SIZE
      modifies page.buffer
      ensures page.buffer[..] == WriteHead(old(page.buffer[..]), View(), slot, at)
    {
      hide Encode, Splice, WriteWord;
      PutWord(page.buffer, START_AT, freeAddrStart);
      PutWord(page.buffer, END_AT, freeAddrEnd);
      PutWord(page.buffer, COUNT_AT, recIdxCount);
      PutWord(page.buffer, SlotOffset(slot), at);
    }

    /** Marks the record deleted; false if there is no such slot. */
    method Remove(slot: nat) returns (ok: bool)
      requires page != null && page.buffer.Length == PAGE_SIZE && Layout(View())
      modifies page.buffer
      ensures ok == (slot < |recIdx|)
      ensures page.buffer[..] ==
        if ok then BytesAfterRemove(View(), old(page.buffer[..]), slot) else old(page.buffer[..])
    {
      if recIdx == [] || |recIdx| <= slot {
        return false;
      }
      page.buffer[recIdx[slot]] := 1;
      assert page.buffer[..] == BytesAfterRemove(View(), old(page.buffer[..]), slot);
      ok := true;
    }

    method Contain(slot: nat) returns (c: Contained)
      requires page != null && page.buffer.Length == PAGE_SIZE && Layout(View())
      ensures c == if slot >= |recIdx| then BeyondEnd
                   else if SlotAt(View(), page.buffer[..], slot).deleted then Deleted else Present
    {
      if recIdx == [] || |recIdx| <= slot {
        return BeyondEnd;
      }
      c := if page.buffer[recIdx[slot]] == 1 then Deleted else Present;
    }

    /** The bytes of a live record; None if the slot is deleted or does not exist. */
    method Get(slot: nat) returns (rec: Option<Data>)
      requires page != null && page.buffer.Length == PAGE_SIZE && Layout(View())
      ensures rec == if slot < |recIdx| && !SlotAt(View(), page.buffer[..], slot).deleted
                     then Some(SlotAt(View(), page.buffer[..], slot).bytes) else None
    {
      if recIdx == [] || |recIdx| <= slot {
        return None;
      }
      var startIdx := recIdx[slot];
      var endIdx := if slot == 0 then PAGE_SIZE else recIdx[slot - 1];
      if page.buffer[startIdx] == 1 {
        return None;
      }
      rec := Some(page.buffer[startIdx + 1..endIdx]);
      assert page.buffer[startIdx + 1..endIdx] == page.buffer[..][startIdx + 1..endIdx];
    }
  }
}
