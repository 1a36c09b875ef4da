// The in-memory page buffer: methods that read and change its bytes in place.
module SlottedPage {
  import opened Wrappers
  import opened Bytes
  import opened HeapModel
  import opened PageLayout

  // The ids of a page's live slots, in increasing order.
  ghost predicate LiveList(slots: seq<Slot>, ids: seq<nat>) {
    LiveUpTo(slots, ids, |slots|)
  }

  ghost predicate LiveUpTo(slots: seq<Slot>, ids: seq<nat>, n: nat)
    requires n <= |slots|
  {
    && (forall i, j :: 0 <= i < j < |ids| ==> ids[i] < ids[j])
    && (forall i :: 0 <= i < |ids| ==> ids[i] < n)
    && (forall k: nat :: k in ids <==> k < n && slots[k].live)
  }

  lemma LiveStep(slots: seq<Slot>, ids: seq<nat>, n: nat)
    requires n < |slots| && LiveUpTo(slots, ids, n)
    ensures LiveUpTo(slots, if slots[n].live then ids + [n] else ids, n + 1)
  {
    var js := if slots[n].live then ids + [n] else ids;
    forall k: nat ensures k in js <==> k < n + 1 && slots[k].live {
      assert k in js <==> k in ids || (slots[n].live && k == n);
    }
  }

  class Page {
    const buf: array<Byte>
    const pageSize: nat

    constructor (buf: array<Byte>)
      ensures this.buf == buf && pageSize == buf.Length
    {
      this.buf, pageSize := buf, buf.Length;
    }

    static method New(pageSize: nat) returns (r: Result<Page>)
      ensures r.Ok? <==> HEADER_SIZE < pageSize < U16_LIMIT
      ensures r.Err? ==> r == Err(StorageError)
      ensures r.Ok? ==> fresh(r.value) && fresh(r.value.buf) && r.value.pageSize == r.value.buf.Length == pageSize
      ensures r.Ok? ==> Shows(r.value.buf[..], [])
    {
      if !(HEADER_SIZE < pageSize < U16_LIMIT) {
        return Err(StorageError);
      }
      var buf := new Byte[pageSize](_ => 0);
      NewShows(buf[..]);
      Put(buf, 0, HeaderBytes(Header(FORMAT_VERSION, 0, HEADER_SIZE, pageSize)));
      var page := new Page(buf);
      return Ok(page);
    }

    static method FromBytes(data: bytes, pageSize: nat) returns (r: Result<Page>)
      ensures r.Ok? <==> |data| == pageSize
      ensures r.Err? ==> r == Err(StorageError)
      ensures r.Ok? ==> fresh(r.value) && fresh(r.value.buf) && r.value.pageSize == pageSize && r.value.buf[..] == data
    {
      if |data| != pageSize {
        return Err(StorageError);
      }
      var buf := new Byte[pageSize](i requires 0 <= i < |data| => data[i]);
      var page := new Page(buf);
      return Ok(page);
    }

    method ToBytes() returns (data: bytes)
      ensures data == buf[..]
    {
      data := buf[..];
    }

    method ReadHeader() returns (h: Header)
      requires buf.Length >= HEADER_SIZE
      ensures h == HeaderOf(buf[..])
    {
      h := HeaderOf(buf[..HEADER_SIZE]);
    }

    // Whether a record of that length and its entry go into the free space.
    method CanFit(len: nat) returns (b: bool)
      requires buf.Length >= HEADER_SIZE
      ensures b <==> HeaderOf(buf[..]).freeStart + len + SLOT_ENTRY_SIZE <= HeaderOf(buf[..]).freeEnd
      ensures forall ss :: Shows(buf[..], ss) ==> b == HeapModel.CanFit(ss, len, buf.Length)
    {
      var h := ReadHeader();
      b := h.freeEnd - h.freeStart >= len + SLOT_ENTRY_SIZE;
    }

    // Whether the first two writes of an insert lie inside the page.
    method InPage(record: bytes, h: Header) returns (b: bool)
      requires buf.Length >= HEADER_SIZE && h == HeaderOf(buf[..])
      requires h.freeStart + SLOT_ENTRY_SIZE + |record| <= h.freeEnd
      ensures b <==> Writable(buf[..], record)
    {
      b := if record == [] then h.freeStart + SLOT_ENTRY_SIZE <= buf.Length else h.freeEnd <= buf.Length;
    }

    // The record and its directory entry.
    method WriteRecord(record: bytes, h: Header)
      requires buf.Length >= HEADER_SIZE && h == HeaderOf(buf[..]) && Writable(buf[..], record)
      modifies buf
      ensures buf[..] == WithRecord(old(buf[..]), record)
    {
      hide Spliced, HeaderOf;
      var freeEnd := h.freeEnd - |record|;
      if record != [] {
        Put(buf, freeEnd, record);
      }
      Put(buf, h.freeStart, EntryBytes(Entry(freeEnd, |record|, FLAG_LIVE)));
    }

    // Adds a live slot with the record. On any bytes: a page too full by its own header
    // is left alone, and so is one whose free space does not lie inside it; when the
    // slot count cannot be raised the record and its entry are there but not the header.
    method InsertTuple(record: bytes) returns (r: Result<nat>)
      requires buf.Length >= HEADER_SIZE
      modifies buf
      ensures var p := old(buf[..]);
        var h := HeaderOf(p);
        if h.freeStart + |record| + SLOT_ENTRY_SIZE > h.freeEnd then r == Err(PageFull) && buf[..] == p
        else if !Writable(p, record) then r == Err(StorageError) && buf[..] == p
        else if h.slotCount + 1 == U16_LIMIT then r == Err(StorageError) && buf[..] == WithRecord(p, record)
        else r == Ok(h.slotCount) && buf[..] == Inserted(p, record)
      ensures forall ss: seq<Slot> :: Shows(old(buf[..]), ss) ==>
        && r == (if HeapModel.CanFit(ss, |record|, buf.Length) then Ok(|ss|) else Err(PageFull))
        && (r.Ok? ==> Shows(buf[..], ss + [Slot(record, true)]))
    {
      hide WithRecord, Shows;
      var fits := CanFit(|record|);
      if !fits {
        return Err(PageFull);
      }
      forall ss: seq<Slot> | Shows(buf[..], ss)
        ensures Writable(buf[..], record) && HeaderOf(buf[..]).slotCount + 1 < U16_LIMIT
        ensures HeaderOf(buf[..]).slotCount == |ss| && Shows(Inserted(buf[..], record), ss + [Slot(record, true)])
      {
        InsertShows(buf[..], ss, record);
        CountsSlots(buf[..], ss);
      }
      var h := ReadHeader();
      var inPage := InPage(record, h);
      if !inPage {
        return Err(StorageError);
      }
      WriteRecord(record, h);
      if h.slotCount + 1 == U16_LIMIT {
        return Err(StorageError);
      }
      Put(buf, 0, HeaderBytes(NextHeader(h, record)));
      return Ok(h.slotCount);
    }

    method GetSlot(slotId: nat) returns (r: Result<Entry>)
      requires buf.Length >= HEADER_SIZE
      ensures r == SlotIn(buf[..], slotId)
    {
      var h := ReadHeader();
      if !(slotId < h.slotCount) {
        return Err(StorageError);
      }
      var base := HEADER_SIZE + slotId * SLOT_ENTRY_SIZE;
      if base + SLOT_ENTRY_SIZE > buf.Length {
        return Err(StorageError);
      }
      return Ok(EntryOf(buf[..], slotId));
    }

    method GetTuple(slotId: nat) returns (r: Result<bytes>)
      requires buf.Length >= HEADER_SIZE
      ensures r == TupleIn(buf[..], slotId)
    {
      var slot := GetSlot(slotId);
      if slot.Err? {
        return Err(slot.error);
      }
      var off, ln := slot.value.offset, slot.value.length;
      if off < HEADER_SIZE || off + ln > buf.Length {
        return Err(StorageError);
      }
      return Ok(buf[off..off + ln]);
    }

    method IsLive(slotId: nat) returns (r: Result<bool>)
      requires buf.Length >= HEADER_SIZE
      ensures r.Ok? <==> SlotIn(buf[..], slotId).Ok?
      ensures r.Ok? ==> (r.value <==> SlotIn(buf[..], slotId).value.flags % 2 == FLAG_LIVE)
    {
      var slot := GetSlot(slotId);
      r := if slot.Err? then Err(slot.error) else Ok(slot.value.flags % 2 == FLAG_LIVE);
    }

    // Clears the live flag in the slot's entry, on any bytes.
    method TombstoneSlot(slotId: nat) returns (r: Result<()>)
      requires buf.Length >= HEADER_SIZE
      modifies buf
      ensures r == if SlotIn(old(buf[..]), slotId).Ok? then Ok(()) else Err(StorageError)
      ensures r.Ok? ==> buf[..] == Tombstoned(old(buf[..]), slotId)
      ensures r.Err? ==> buf[..] == old(buf[..])
      ensures forall ss: seq<Slot> :: Shows(old(buf[..]), ss) ==>
        && (r.Ok? <==> slotId < |ss|)
        && (r.Ok? ==> Shows(buf[..], ss[slotId := ss[slotId].(live := false)]))
    {
      hide Shows, Spliced;
      forall ss: seq<Slot> | Shows(buf[..], ss) ensures SlotIn(buf[..], slotId).Ok? <==> slotId < |ss| {
        ReadsSlots(buf[..], ss, slotId);
      }
      var slot := GetSlot(slotId);
      if slot.Err? {
        return Err(StorageError);
      }
      forall ss: seq<Slot> | Shows(buf[..], ss)
        ensures slotId < |ss| && Shows(Tombstoned(buf[..], slotId), ss[slotId := ss[slotId].(live := false)])
      {
        TombstoneShows(buf[..], ss, slotId);
      }
      var e := slot.value;
      var base := HEADER_SIZE + slotId * SLOT_ENTRY_SIZE;
      Put(buf, base, EntryBytes(e.(flags := e.flags - e.flags % 2)));
      return Ok(());
    }

    // Replaces the record's bytes by as many others, on any bytes.
    method OverwriteTuple(slotId: nat, record: bytes) returns (r: Result<()>)
      requires buf.Length >= HEADER_SIZE
      modifies buf
      ensures r == if Overwritable(old(buf[..]), slotId, record) then Ok(()) else Err(StorageError)
      ensures r.Ok? ==> buf[..] == Spliced(old(buf[..]), SlotIn(old(buf[..]), slotId).value.offset, record)
      ensures r.Err? ==> buf[..] == old(buf[..])
      ensures forall ss: seq<Slot> :: Shows(old(buf[..]), ss) ==>
        && (r.Ok? <==> slotId < |ss| && |record| == |ss[slotId].data|)
        && (r.Ok? ==> Shows(buf[..], ss[slotId := ss[slotId].(data := record)]))
    {
      hide Shows, Spliced;
      forall ss: seq<Slot> | Shows(buf[..], ss)
        ensures Overwritable(buf[..], slotId, record) <==> slotId < |ss| && |record| == |ss[slotId].data|
        ensures Overwritable(buf[..], slotId, record) ==>
          Shows(Spliced(buf[..], SlotIn(buf[..], slotId).value.offset, record),
              ss[slotId := ss[slotId].(data := record)])
      {
        OverwriteFits(buf[..], ss, slotId, record);
      }
      var slot := GetSlot(slotId);
      if slot.Err? {
        return Err(StorageError);
      }
      var off, ln := slot.value.offset, slot.value.length;
      if |record| != ln {
        return Err(StorageError);
      }
      if off < HEADER_SIZE || off + ln > buf.Length {
        return Err(StorageError);
      }
      Put(buf, off, record);
      return Ok(());
    }

    // The live slots whose record lies inside the page: of any page, slots that can
    // be read; of a page that shows slots, exactly the live ones.
    method LiveSlots() returns (r: Result<seq<nat>>)
      requires buf.Length >= HEADER_SIZE
      ensures r.Ok? ==> forall k :: k in r.value ==> TupleIn(buf[..], k).Ok?
      ensures forall ss :: Shows(buf[..], ss) ==> r.Ok? && LiveList(ss, r.value)
    {
      var h := ReadHeader();
      var ids: seq<nat> := [];
      var sid := 0;
      while sid < h.slotCount
        invariant sid <= h.slotCount
        invariant forall k :: k in ids ==> TupleIn(buf[..], k).Ok?
        invariant forall ss :: Shows(buf[..], ss) ==> |ss| == h.slotCount && LiveUpTo(ss, ids, sid)
      {
        var slot := GetSlot(sid);
        forall ss: seq<Slot> | Shows(buf[..], ss)
          ensures slot.Ok? && (slot.value.flags % 2 == FLAG_LIVE <==> ss[sid].live) && InBounds(buf[..], slot.value)
          ensures LiveUpTo(ss, if ss[sid].live then ids + [sid] else ids, sid + 1)
        {
          ReadsSlots(buf[..], ss, sid);
          LiveStep(ss, ids, sid);
        }
        if slot.Err? {
          return Err(slot.error);
        }
        var e := slot.value;
        if e.flags % 2 == FLAG_LIVE && e.offset >= HEADER_SIZE && e.offset + e.length <= buf.Length {
          ids := ids + [sid];
        }
        sid := sid + 1;
      }
      return Ok(ids);
    }
  }
}
