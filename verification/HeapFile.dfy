// A table's heap file: every method reads a page, changes it in memory and writes
// it back, and does to the file what the heap model says, write for write.
module HeapFileStore {
  import opened Wrappers
  import opened Bytes
  import H = HeapModel
  import opened PageLayout
  import opened SlottedPage

  // From heap h0 and write log l0, operation op led to h and l and returned r.
  ghost predicate Did(h0: H.Heap, l0: seq<H.PageWrite>, op: H.Op, pageSize: nat, h: H.Heap, l: seq<H.PageWrite>,
                      r: Result<Rid>)
  {
    var (ws, result) := H.Perform(h0, op, pageSize);
    h == H.ApplyAll(h0, ws) && l == l0 + ws && r == result
  }

  // The page sizes `Page.new` accepts.
  predicate PageSizeOk(pageSize: nat) {
    H.HEADER_SIZE < pageSize < U16_LIMIT
  }

  class HeapFile {
    var pages: seq<bytes>             // the heap file, page by page
    const pageSize: nat
    ghost var heap: H.Heap            // the slots its pages show
    ghost var log: seq<H.PageWrite>   // the page writes made so far, oldest first

    ghost predicate Valid()
      reads this
    {
      |pages| == |heap| && forall i :: 0 <= i < |pages| ==> |pages[i]| == pageSize && Shows(pages[i], heap[i])
    }

    constructor (pageSize: nat)
      ensures Valid() && this.pageSize == pageSize && pages == [] && heap == [] && log == []
    {
      this.pageSize, pages, heap, log := pageSize, [], [], [];
    }

    // One atomic page write; a page id equal to the page count appends.
    method WritePage(pid: nat, data: bytes, ghost slots: seq<H.Slot>)
      requires Valid() && pid <= |pages| && |data| == pageSize && Shows(data, slots)
      modifies this
      ensures Valid() && heap == H.Apply(old(heap), H.PageWrite(pid, slots))
      ensures log == old(log) + [H.PageWrite(pid, slots)]
    {
      pages := if pid < |pages| then pages[pid := data] else pages + [data];
      heap := H.Apply(heap, H.PageWrite(pid, slots));
      log := log + [H.PageWrite(pid, slots)];
    }

    method Insert(record: bytes) returns (r: Result<Rid>)
      requires Valid()
      modifies this
      ensures Valid()
      ensures PageSizeOk(pageSize) ==> Did(old(heap), old(log), H.Insert(record), pageSize, heap, log, r)
      ensures 8 < pageSize <= 65535 ==>
        var h, n := old(heap), |old(heap)|;
        if 8 + 6 + |record| > pageSize then r == Err(PageFull) && heap == h
        else if n > 0 && 8 + 6 * (|h[n - 1]| + 1) + H.RecordSizes(h[n - 1]) + |record| <= pageSize
          then r == Ok(Rid(n - 1, |h[n - 1]|)) && heap == h[n - 1 := h[n - 1] + [H.Slot(record, true)]]
        else r == Ok(Rid(n, 0)) && heap == h + [[H.Slot(record, true)]]
      ensures !(8 < pageSize <= 65535) ==> r == Err(StorageError) && heap == old(heap) && log == old(log)
      ensures r.Err? ==> pages == old(pages)
    {
      hide Shows;
      H.InsertPlace(heap, record, pageSize);
      var empty := Page.New(pageSize);
      if empty.Err? {
        return Err(StorageError);
      }
      var fitsEmpty := empty.value.CanFit(|record|);
      if !fitsEmpty {
        return Err(PageFull);
      }
      var pid, page := |pages|, empty.value;
      ghost var slots: seq<H.Slot> := [];
      if |pages| > 0 {
        var last := Page.FromBytes(pages[|pages| - 1], pageSize);
        var fits := last.value.CanFit(|record|);
        if fits {
          pid, page, slots := |pages| - 1, last.value, heap[|pages| - 1];
        }
      }
      ghost var w := H.InsertWrite(heap, record, pageSize);
      H.ApplyTwo(heap, w, w);
      var slotId := AppendRecord(pid, page, record, slots);
      return Ok(Rid(pid, slotId));
    }

    // Adds the record to a page that fits it and writes the page.
    method AppendRecord(pid: nat, page: Page, record: bytes, ghost slots: seq<H.Slot>) returns (slotId: nat)
      requires Valid() && pid <= |pages| && page.pageSize == page.buf.Length == pageSize && H.HEADER_SIZE <= pageSize
      requires Shows(page.buf[..], slots) && H.CanFit(slots, |record|, pageSize)
      modifies this, page.buf
      ensures Valid() && slotId == |slots|
      ensures heap == H.Apply(old(heap), H.PageWrite(pid, slots + [H.Slot(record, true)]))
      ensures log == old(log) + [H.PageWrite(pid, slots + [H.Slot(record, true)])]
    {
      hide Shows, H.CanFit, WithRecord, Inserted, Writable, H.Apply;
      var r := page.InsertTuple(record);
      slotId := r.value;
      var data := page.ToBytes();
      WritePage(pid, data, slots + [H.Slot(record, true)]);
    }

    // Tombstones a slot on its page as read and writes the page.
    method KillSlot(rid: Rid, page: Page)
      requires Valid() && H.Allocated(heap, rid)
      requires page.pageSize == page.buf.Length == pageSize && page.buf[..] == pages[rid.page]
      modifies this, page.buf
      ensures Valid() && heap == H.Apply(old(heap), H.DeleteWrite(old(heap), rid))
      ensures log == old(log) + [H.DeleteWrite(old(heap), rid)]
    {
      assert Shows(pages[rid.page], heap[rid.page]);
      hide Tombstoned, H.Apply;
      assert pageSize >= H.HEADER_SIZE;
      ghost var w := H.DeleteWrite(heap, rid);
      var r := page.TombstoneSlot(rid.slot);
      hide Shows;
      var data := page.ToBytes();
      WritePage(rid.page, data, w.slots);
    }

    // The page holding a live row; anything else is not found.
    method ReadLivePage(rid: Rid) returns (r: Result<Page>)
      requires Valid()
      ensures r.Ok? <==> H.Live(heap, rid)
      ensures r.Err? ==> r == Err(RecordNotFound)
      ensures r.Ok? ==> fresh(r.value) && fresh(r.value.buf)
      ensures r.Ok? ==> r.value.pageSize == pageSize && r.value.buf[..] == pages[rid.page]
    {
      if rid.page >= |pages| {
        return Err(RecordNotFound);
      }
      var page := Page.FromBytes(pages[rid.page], pageSize);
      ReadsSlots(pages[rid.page], heap[rid.page], rid.slot);
      var h := page.value.ReadHeader();
      if rid.slot >= h.slotCount {
        return Err(RecordNotFound);
      }
      var live := page.value.IsLive(rid.slot);
      if !live.value {
        return Err(RecordNotFound);
      }
      return page;
    }

    method Get(rid: Rid) returns (r: Result<bytes>)
      requires Valid()
      ensures r == H.Get(heap, rid)
    {
      var page := ReadLivePage(rid);
      if page.Err? {
        return Err(page.error);
      }
      ReadsSlots(pages[rid.page], heap[rid.page], rid.slot);
      r := page.value.GetTuple(rid.slot);
    }

    method Delete(rid: Rid) returns (r: Result<Rid>)
      requires Valid()
      modifies this
      ensures Valid() && Did(old(heap), old(log), H.Delete(rid), pageSize, heap, log, r)
      ensures r.Err? ==> pages == old(pages)
    {
      var page := ReadLivePage(rid);
      if page.Err? {
        return Err(page.error);
      }
      ghost var w := H.DeleteWrite(heap, rid);
      H.ApplyTwo(heap, w, w);
      KillSlot(rid, page.value);
      return Ok(rid);
    }

    // In place when the length stays, otherwise insert first and tombstone the old
    // row on a page read again after the insert.
    method Update(rid: Rid, record: bytes) returns (r: Result<Rid>)
      requires Valid()
      modifies this
      ensures Valid() && Did(old(heap), old(log), H.Update(rid, record), pageSize, heap, log, r)
      ensures r.Err? ==> pages == old(pages)
    {
      var page := ReadLivePage(rid);
      if page.Err? {
        return Err(page.error);
      }
      ReadsSlots(pages[rid.page], heap[rid.page], rid.slot);
      var was := page.value.GetTuple(rid.slot);
      if |record| == |was.value| {
        ghost var w := H.OverwriteWrite(heap, rid, record);
        H.ApplyTwo(heap, w, w);
        var done := page.value.OverwriteTuple(rid.slot, record);
        var data := page.value.ToBytes();
        WritePage(rid.page, data, w.slots);
        return Ok(rid);
      }
      r := Relocate(rid, record);
    }

    method Relocate(rid: Rid, record: bytes) returns (r: Result<Rid>)
      requires Valid() && H.Live(heap, rid) && |record| != |heap[rid.page][rid.slot].data|
      modifies this
      ensures Valid() && Did(old(heap), old(log), H.Update(rid, record), pageSize, heap, log, r)
      ensures r.Err? ==> pages == old(pages)
    {
      ghost var h := heap;
      assert PageSizeOk(pageSize) by {
        assert Shows(pages[rid.page], heap[rid.page]);
      }
      hide Shows, H.CanFit, H.ApplyAll, H.Apply, H.InsertWrite, H.InsertRid, H.DeleteWrite;
      ghost var w := H.InsertWrite(h, record, pageSize);
      H.InsertKeeps(h, record, pageSize, rid);
      H.ApplyTwo(h, w, H.DeleteWrite(H.Apply(h, w), rid));
      r := Insert(record);
      if r.Err? {
        H.RaisingChangesNothing(h, H.Insert(record), pageSize);
        return;
      }
      assert heap == H.Apply(h, w);
      var page := Page.FromBytes(pages[rid.page], pageSize);
      KillSlot(rid, page.value);
    }
  }
}
