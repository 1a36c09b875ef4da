// The bytes of a slotted page: what its fields say, when it shows a list of slots,
// and what the writes of insert, tombstone and overwrite do to it.
//
// Header, slot directory growing up, free space, records growing down.
module PageLayout {
  import opened Wrappers
  import opened Bytes
  import opened HeapModel

  const FORMAT_VERSION := 1
  const FLAG_LIVE := 1

  // ------------------------------------------------------------------
  // Reading
  // ------------------------------------------------------------------

  function U16At(page: bytes, p: nat): (x: nat)
    requires p + 2 <= |page|
    ensures x < U16_LIMIT
  {
    page[p] as int + 256 * page[p + 1] as int
  }

  // format version, slot count, free start, free end
  datatype Header = Header(version: nat, slotCount: nat, freeStart: nat, freeEnd: nat)

  function HeaderOf(page: bytes): Header
    requires |page| >= HEADER_SIZE
  {
    Header(U16At(page, 0), U16At(page, 2), U16At(page, 4), U16At(page, 6))
  }

  datatype Entry = Entry(offset: nat, length: nat, flags: nat)

  function EntryAt(slotId: nat): nat {
    HEADER_SIZE + DirectorySize(slotId)
  }

  function EntryOf(page: bytes, slotId: nat): Entry
    requires EntryAt(slotId) + SLOT_ENTRY_SIZE <= |page|
  {
    var b := EntryAt(slotId);
    Entry(U16At(page, b), U16At(page, b + 2), U16At(page, b + 4))
  }

  function HeaderBytes(h: Header): (r: bytes)
    ensures |r| == HEADER_SIZE
  {
    U16(h.version) + U16(h.slotCount) + U16(h.freeStart) + U16(h.freeEnd)
  }

  function EntryBytes(e: Entry): (r: bytes)
    ensures |r| == SLOT_ENTRY_SIZE
  {
    U16(e.offset) + U16(e.length) + U16(e.flags)
  }

  // ------------------------------------------------------------------
  // Pages that show slots
  // ------------------------------------------------------------------

  function Flags(s: Slot): nat {
    if s.live then FLAG_LIVE else 0
  }

  // Where record i starts: records are laid down from the page's end.
  function OffsetOf(slots: seq<Slot>, i: nat, pageSize: nat): int
    requires i < |slots|
  {
    pageSize - Span(slots, i + 1)
  }

  function HeaderFor(slots: seq<Slot>, pageSize: nat): Header
    requires Used(slots) <= pageSize
  {
    Header(FORMAT_VERSION, |slots|, EntryAt(|slots|), pageSize - Total(slots))
  }

  // Directory entry i points at record i, and the record's bytes are there.
  ghost predicate SlotShows(page: bytes, slots: seq<Slot>, i: nat)
    requires i < |slots|
  {
    var off, n := OffsetOf(slots, i, |page|), |slots[i].data|;
    && EntryAt(|slots|) <= off && off + n <= |page|
    && EntryOf(page, i) == Entry(off, n, Flags(slots[i]))
    && page[off..off + n] == slots[i].data
  }

  ghost predicate Shows(page: bytes, slots: seq<Slot>) {
    && HEADER_SIZE < |page| < U16_LIMIT && Used(slots) <= |page|
    && HeaderOf(page) == HeaderFor(slots, |page|)
    && forall i :: 0 <= i < |slots| ==> SlotShows(page, slots, i)
  }

  // Record i ends where record i - 1 starts, the first ends with the page, the last
  // starts at free_end, and free_start is right behind the directory: header,
  // directory, free space and records tile the page.
  lemma PageTiles(page: bytes, slots: seq<Slot>, i: nat)
    requires Shows(page, slots) && i < |slots|
    ensures var h, e := HeaderOf(page), EntryOf(page, i);
      && e.offset + e.length == (if i == 0 then |page| else EntryOf(page, i - 1).offset)
      && (i + 1 == |slots| ==> e.offset == h.freeEnd)
      && h.freeStart == HEADER_SIZE + SLOT_ENTRY_SIZE * h.slotCount <= h.freeEnd <= e.offset
      && h.freeStart + (h.freeEnd - h.freeStart) + Total(slots) == |page|
  {
    assert SlotShows(page, slots, i);
    SpanGrows(slots, i + 1, |slots|);
    if i > 0 {
      assert SlotShows(page, slots, i - 1);
    }
  }

  lemma CountsSlots(page: bytes, slots: seq<Slot>)
    requires Shows(page, slots)
    ensures |page| >= HEADER_SIZE && HeaderOf(page).slotCount == |slots|
  {
  }

  // A page's bytes determine its slots.
  lemma ShowsOne(page: bytes, a: seq<Slot>, b: seq<Slot>)
    requires Shows(page, a) && Shows(page, b)
    ensures a == b
  {
    assert |a| == |b|;
    forall i | 0 <= i < |a| ensures a[i] == b[i] {
      assert SlotShows(page, a, i) && SlotShows(page, b, i);
    }
  }

  // The slot directory entry of a page with any bytes; reading past the page is an
  // error.
  function SlotIn(page: bytes, slotId: nat): Result<Entry>
    requires |page| >= HEADER_SIZE
  {
    if slotId < HeaderOf(page).slotCount && EntryAt(slotId) + SLOT_ENTRY_SIZE <= |page| then Ok(EntryOf(page, slotId))
    else Err(StorageError)
  }

  predicate InBounds(page: bytes, e: Entry) {
    e.offset >= HEADER_SIZE && e.offset + e.length <= |page|
  }

  function TupleIn(page: bytes, slotId: nat): Result<bytes>
    requires |page| >= HEADER_SIZE
  {
    match SlotIn(page, slotId)
    case Err(e) => Err(e)
    case Ok(e) => if InBounds(page, e) then Ok(page[e.offset..e.offset + e.length]) else Err(StorageError)
  }

  // A page that shows slots gives back exactly those.
  lemma ReadsSlots(page: bytes, slots: seq<Slot>, slotId: nat)
    requires Shows(page, slots)
    ensures SlotIn(page, slotId).Ok? <==> slotId < |slots|
    ensures slotId < |slots| ==>
      && TupleIn(page, slotId) == Ok(slots[slotId].data)
      && (SlotIn(page, slotId).value.flags % 2 == FLAG_LIVE <==> slots[slotId].live)
  {
    if slotId < |slots| {
      assert SlotShows(page, slots, slotId);
    }
  }

  // ------------------------------------------------------------------
  // Writing
  // ------------------------------------------------------------------

  lemma SplicedAt(buf: bytes, pos: nat, data: bytes, k: nat)
    requires pos + |data| <= |buf| && k < |buf|
    ensures Spliced(buf, pos, data)[k] == if pos <= k < pos + |data| then data[k - pos] else buf[k]
  {
  }

  // The two buffers agree from lo up to hi.
  ghost predicate Same(a: bytes, b: bytes, lo: int, hi: int) {
    |a| == |b| && forall k :: 0 <= k < |a| && lo <= k < hi ==> a[k] == b[k]
  }

  lemma SplicedSame(buf: bytes, pos: nat, data: bytes, lo: int, hi: int)
    requires pos + |data| <= |buf| && (hi <= pos || pos + |data| <= lo)
    ensures Same(buf, Spliced(buf, pos, data), lo, hi)
  {
  }

  lemma U16Spliced(buf: bytes, pos: nat, data: bytes, i: nat, x: nat)
    requires pos + |data| <= |buf| && i + 2 <= |data| && x < U16_LIMIT && data[i] == x % 256
    requires data[i + 1] == x / 256 % 256
    ensures U16At(Spliced(buf, pos, data), pos + i) == x
  {
    SplicedAt(buf, pos, data, pos + i);
    SplicedAt(buf, pos, data, pos + i + 1);
  }

  lemma EntrySpliced(buf: bytes, slotId: nat, e: Entry)
    requires EntryAt(slotId) + SLOT_ENTRY_SIZE <= |buf|
    requires e.offset < U16_LIMIT && e.length < U16_LIMIT && e.flags < U16_LIMIT
    ensures EntryOf(Spliced(buf, EntryAt(slotId), EntryBytes(e)), slotId) == e
  {
    U16Spliced(buf, EntryAt(slotId), EntryBytes(e), 0, e.offset);
    U16Spliced(buf, EntryAt(slotId), EntryBytes(e), 2, e.length);
    U16Spliced(buf, EntryAt(slotId), EntryBytes(e), 4, e.flags);
  }

  lemma HeaderSpliced(buf: bytes, h: Header)
    requires |buf| >= HEADER_SIZE
    requires h.version < U16_LIMIT && h.slotCount < U16_LIMIT && h.freeStart < U16_LIMIT && h.freeEnd < U16_LIMIT
    ensures HeaderOf(Spliced(buf, 0, HeaderBytes(h))) == h
  {
    U16Spliced(buf, 0, HeaderBytes(h), 0, h.version);
    U16Spliced(buf, 0, HeaderBytes(h), 2, h.slotCount);
    U16Spliced(buf, 0, HeaderBytes(h), 4, h.freeStart);
    U16Spliced(buf, 0, HeaderBytes(h), 6, h.freeEnd);
  }

  lemma DataSpliced(buf: bytes, pos: nat, data: bytes)
    requires pos + |data| <= |buf|
    ensures Spliced(buf, pos, data)[pos..pos + |data|] == data
  {
  }

  lemma SameSlice(a: bytes, b: bytes, lo: nat, hi: nat)
    requires Same(a, b, lo, hi) && lo <= hi <= |a|
    ensures a[lo..hi] == b[lo..hi]
  {
  }

  lemma SameEntry(a: bytes, b: bytes, slotId: nat)
    requires EntryAt(slotId) + SLOT_ENTRY_SIZE <= |a| && Same(a, b, EntryAt(slotId), EntryAt(slotId) + SLOT_ENTRY_SIZE)
    ensures EntryOf(a, slotId) == EntryOf(b, slotId)
  {
  }

  lemma SameHeader(a: bytes, b: bytes)
    requires |a| >= HEADER_SIZE && Same(a, b, 0, HEADER_SIZE)
    ensures HeaderOf(a) == HeaderOf(b)
  {
  }

  // A slot shows on any page that keeps its entry and its record.
  lemma SlotKept(a: bytes, b: bytes, slots: seq<Slot>, ss: seq<Slot>, i: nat)
    requires i < |slots| && i < |ss| && ss[i] == slots[i] && SlotShows(a, slots, i)
    requires Span(ss, i + 1) == Span(slots, i + 1) && EntryAt(|ss|) <= OffsetOf(slots, i, |a|)
    requires Same(a, b, EntryAt(i), EntryAt(i) + SLOT_ENTRY_SIZE)
    requires Same(a, b, OffsetOf(slots, i, |a|), OffsetOf(slots, i, |a|) + |slots[i].data|)
    ensures SlotShows(b, ss, i)
  {
    SameEntry(a, b, i);
    SameSlice(a, b, OffsetOf(slots, i, |a|), OffsetOf(slots, i, |a|) + |slots[i].data|);
  }

  lemma SameTrans(a: bytes, b: bytes, c: bytes, lo: int, hi: int)
    requires Same(a, b, lo, hi) && Same(b, c, lo, hi)
    ensures Same(a, c, lo, hi)
  {
  }

  // A new page shows no slots.
  lemma NewShows(page: bytes)
    requires HEADER_SIZE < |page| < U16_LIMIT
    ensures Shows(Spliced(page, 0, HeaderBytes(Header(FORMAT_VERSION, 0, HEADER_SIZE, |page|))), [])
  {
    HeaderSpliced(page, Header(FORMAT_VERSION, 0, HEADER_SIZE, |page|));
  }

  // The free space a page's header gives takes a record and its entry, and both lie
  // inside the page. An empty record takes no bytes wherever it would lie.
  predicate Writable(page: bytes, rec: bytes)
    requires |page| >= HEADER_SIZE
  {
    var h := HeaderOf(page);
    && h.freeStart + SLOT_ENTRY_SIZE + |rec| <= h.freeEnd
    && (h.freeEnd <= |page| || (rec == [] && h.freeStart + SLOT_ENTRY_SIZE <= |page|))
  }

  // The page after the first two writes of insert_tuple: the record below free_end and
  // its entry at free_start.
  function WithRecord(page: bytes, rec: bytes): (p: bytes)
    requires |page| >= HEADER_SIZE && Writable(page, rec)
    ensures |p| == |page|
  {
    var h := HeaderOf(page);
    var off := h.freeEnd - |rec|;
    Spliced(if rec == [] then page else Spliced(page, off, rec), h.freeStart, EntryBytes(Entry(off, |rec|, FLAG_LIVE)))
  }

  function NextHeader(h: Header, rec: bytes): Header
    requires |rec| <= h.freeEnd
  {
    Header(h.version, h.slotCount + 1, h.freeStart + SLOT_ENTRY_SIZE, h.freeEnd - |rec|)
  }

  // And after the third, the header.
  function Inserted(page: bytes, rec: bytes): bytes
    requires |page| >= HEADER_SIZE && Writable(page, rec)
  {
    Spliced(WithRecord(page, rec), 0, HeaderBytes(NextHeader(HeaderOf(page), rec)))
  }

  lemma RecordSame(page: bytes, off: nat, rec: bytes, lo: int, hi: int)
    requires off + |rec| <= |page| && (hi <= off || off + |rec| <= lo)
    ensures Same(page, if rec == [] then page else Spliced(page, off, rec), lo, hi)
  {
    hide Spliced;
    SplicedSame(page, off, rec, lo, hi);
  }

  // What the record and its entry leave alone.
  lemma WithRecordSame(page: bytes, rec: bytes, lo: int, hi: int)
    requires |page| >= HEADER_SIZE && Writable(page, rec) && HeaderOf(page).freeEnd <= |page|
    requires hi <= HeaderOf(page).freeStart || HeaderOf(page).freeEnd <= lo
    ensures Same(page, WithRecord(page, rec), lo, hi)
  {
    hide Spliced, HeaderOf, EntryBytes;
    var h := HeaderOf(page);
    var off := h.freeEnd - |rec|;
    var a := if rec == [] then page else Spliced(page, off, rec);
    RecordSame(page, off, rec, lo, hi);
    SplicedSame(a, h.freeStart, EntryBytes(Entry(off, |rec|, FLAG_LIVE)), lo, hi);
    SameTrans(page, a, WithRecord(page, rec), lo, hi);
  }

  // What an insert leaves alone: directory and records.
  lemma InsertedSame(page: bytes, rec: bytes, lo: int, hi: int)
    requires |page| >= HEADER_SIZE && Writable(page, rec) && HeaderOf(page).freeEnd <= |page|
    requires HEADER_SIZE <= lo && (hi <= HeaderOf(page).freeStart || HeaderOf(page).freeEnd <= lo)
    ensures Same(page, Inserted(page, rec), lo, hi)
  {
    hide Spliced, HeaderOf, HeaderBytes, WithRecord, NextHeader;
    WithRecordSame(page, rec, lo, hi);
    SplicedSame(WithRecord(page, rec), 0, HeaderBytes(NextHeader(HeaderOf(page), rec)), lo, hi);
    SameTrans(page, WithRecord(page, rec), Inserted(page, rec), lo, hi);
  }

  // The record and its entry read back after the second write.
  lemma WithRecordReads(page: bytes, rec: bytes)
    requires HEADER_SIZE <= |page| < U16_LIMIT && Writable(page, rec) && HeaderOf(page).freeEnd <= |page|
    requires HeaderOf(page).freeStart == EntryAt(HeaderOf(page).slotCount)
    ensures var h, b := HeaderOf(page), WithRecord(page, rec);
      var off := h.freeEnd - |rec|;
      EntryOf(b, h.slotCount) == Entry(off, |rec|, FLAG_LIVE) && b[off..off + |rec|] == rec
  {
    hide Spliced, HeaderOf;
    var h := HeaderOf(page);
    var off := h.freeEnd - |rec|;
    var e := Entry(off, |rec|, FLAG_LIVE);
    var a := if rec == [] then page else Spliced(page, off, rec);
    var b := WithRecord(page, rec);
    EntrySpliced(a, h.slotCount, e);
    assert b[off..off + |rec|] == rec by {
      if rec != [] {
        DataSpliced(page, off, rec);
        SplicedSame(a, h.freeStart, EntryBytes(e), off, off + |rec|);
        SameSlice(a, b, off, off + |rec|);
      }
    }
  }

  // What an insert writes reads back.
  lemma InsertedReads(page: bytes, rec: bytes)
    requires HEADER_SIZE <= |page| < U16_LIMIT && Writable(page, rec) && HeaderOf(page).freeEnd <= |page|
    requires HeaderOf(page).freeStart == EntryAt(HeaderOf(page).slotCount) && HeaderOf(page).slotCount + 1 < U16_LIMIT
    ensures var h, p := HeaderOf(page), Inserted(page, rec);
      var off := h.freeEnd - |rec|;
      && |p| == |page| && HeaderOf(p) == NextHeader(h, rec)
      && EntryOf(p, h.slotCount) == Entry(off, |rec|, FLAG_LIVE) && p[off..off + |rec|] == rec
  {
    hide Spliced, HeaderBytes, WithRecord, EntryOf;
    var h := HeaderOf(page);
    var off := h.freeEnd - |rec|;
    var b, next := WithRecord(page, rec), NextHeader(h, rec);
    var c := Spliced(b, 0, HeaderBytes(next));
    HeaderSpliced(b, next);
    WithRecordReads(page, rec);
    SplicedSame(b, 0, HeaderBytes(next), h.freeStart, h.freeStart + SLOT_ENTRY_SIZE);
    SameEntry(b, c, h.slotCount);
    SplicedSame(b, 0, HeaderBytes(next), off, off + |rec|);
    SameSlice(b, c, off, off + |rec|);
  }

  // A page that shows slots and can fit a record is one insert can write.
  lemma FitIsWritable(page: bytes, slots: seq<Slot>, rec: bytes)
    requires Shows(page, slots) && CanFit(slots, |rec|, |page|)
    ensures Writable(page, rec) && HeaderOf(page).freeEnd <= |page| && HeaderOf(page).slotCount + 1 < U16_LIMIT
    ensures HeaderOf(page).freeStart == EntryAt(HeaderOf(page).slotCount)
    ensures HeaderOf(page).slotCount == |slots| && HeaderOf(page).freeEnd == |page| - Total(slots)
  {
  }

  // Inserting on a page that shows slots shows one live slot more.
  lemma InsertShows(page: bytes, slots: seq<Slot>, rec: bytes)
    requires Shows(page, slots) && CanFit(slots, |rec|, |page|)
    ensures Writable(page, rec) && HeaderOf(page).freeEnd <= |page| && HeaderOf(page).slotCount + 1 < U16_LIMIT
    ensures Shows(Inserted(page, rec), slots + [Slot(rec, true)])
  {
    hide Writable, Inserted, SlotShows, EntryOf;
    var ss := slots + [Slot(rec, true)];
    FitIsWritable(page, slots, rec);
    InsertedReads(page, rec);
    TotalAppend(slots, Slot(rec, true));
    forall i | 0 <= i < |ss| ensures SlotShows(Inserted(page, rec), ss, i) {
      if i < |slots| {
        OldSlotShows(page, slots, rec, i);
      } else {
        NewSlotShows(page, slots, rec);
      }
    }
  }

  lemma FitMeans(page: bytes, slots: seq<Slot>, rec: bytes)
    requires Shows(page, slots) && CanFit(slots, |rec|, |page|)
    ensures HEADER_SIZE < |page| < U16_LIMIT && EntryAt(|slots| + 1) <= |page| - Total(slots) - |rec|
  {
  }

  lemma NewSlotShows(page: bytes, slots: seq<Slot>, rec: bytes)
    requires Shows(page, slots) && CanFit(slots, |rec|, |page|)
    ensures Writable(page, rec) && SlotShows(Inserted(page, rec), slots + [Slot(rec, true)], |slots|)
  {
    hide Inserted, Writable, HeaderBytes, EntryOf, HeaderOf, Shows, Span, CanFit, U16At;
    FitMeans(page, slots, rec);
    FitIsWritable(page, slots, rec);
    InsertedReads(page, rec);
    TotalAppend(slots, Slot(rec, true));
    var ss := slots + [Slot(rec, true)];
    assert OffsetOf(ss, |slots|, |page|) == |page| - Total(ss);
  }

  lemma OldSlotShows(page: bytes, slots: seq<Slot>, rec: bytes, i: nat)
    requires Shows(page, slots) && CanFit(slots, |rec|, |page|) && i < |slots|
    ensures Writable(page, rec) && SlotShows(Inserted(page, rec), slots + [Slot(rec, true)], i)
  {
    hide Inserted, Writable, EntryOf;
    FitIsWritable(page, slots, rec);
    PageTiles(page, slots, i);
    assert SlotShows(page, slots, i);
    SpanAppend(slots, Slot(rec, true), i + 1);
    InsertedSame(page, rec, EntryAt(i), EntryAt(i) + SLOT_ENTRY_SIZE);
    InsertedSame(page, rec, OffsetOf(slots, i, |page|), OffsetOf(slots, i, |page|) + |slots[i].data|);
    SlotKept(page, Inserted(page, rec), slots, slots + [Slot(rec, true)], i);
  }

  // Slot j off the record of slot i: records do not overlap.
  lemma RecordsApart(slots: seq<Slot>, i: nat, j: nat, pageSize: nat)
    requires i < j < |slots|
    ensures OffsetOf(slots, j, pageSize) + |slots[j].data| <= OffsetOf(slots, i, pageSize)
  {
    SpanGrows(slots, i + 1, j);
  }

  // A page with the live flag of slot i cleared in its entry.
  function Tombstoned(page: bytes, i: nat): bytes
    requires EntryAt(i) + SLOT_ENTRY_SIZE <= |page|
  {
    var e := EntryOf(page, i);
    Spliced(page, EntryAt(i), EntryBytes(e.(flags := e.flags - e.flags % 2)))
  }

  // Clearing a slot's live flag rewrites its directory entry, and kills that slot
  // and no other.
  lemma TombstoneShows(page: bytes, slots: seq<Slot>, i: nat)
    requires Shows(page, slots) && i < |slots|
    ensures EntryAt(i) + SLOT_ENTRY_SIZE <= |page|
    ensures Shows(Tombstoned(page, i), slots[i := slots[i].(live := false)])
  {
    hide SlotShows, HeaderOf, EntryOf, EntryBytes, Spliced;
    TombstoneReads(page, slots, i);
    var p, ss := Tombstoned(page, i), slots[i := slots[i].(live := false)];
    TotalUpdate(slots, i, ss[i]);
    forall j | 0 <= j < |ss| ensures SlotShows(p, ss, j) {
      if i != j {
        var e := EntryOf(page, i);
        EntryWriteKeeps(page, slots, i, EntryBytes(e.(flags := e.flags - e.flags % 2)), ss[i], j);
      }
    }
  }

  // The header is as before, and slot i shows dead.
  lemma TombstoneReads(page: bytes, slots: seq<Slot>, i: nat)
    requires Shows(page, slots) && i < |slots|
    ensures EntryAt(i) + SLOT_ENTRY_SIZE <= |page|
    ensures |Tombstoned(page, i)| == |page| && HeaderOf(Tombstoned(page, i)) == HeaderOf(page)
    ensures SlotShows(Tombstoned(page, i), slots[i := slots[i].(live := false)], i)
  {
    assert SlotShows(page, slots, i);
    hide HeaderOf, EntryOf, Tombstoned;
    TombstoneWrites(page, i);
    TombstoneKeeps(page, i, 0, HEADER_SIZE);
    SameHeader(page, Tombstoned(page, i));
    var off, ss := OffsetOf(slots, i, |page|), slots[i := slots[i].(live := false)];
    SpanUpdate(slots, i, ss[i], i + 1);
    TombstoneKeeps(page, i, off, off + |slots[i].data|);
    SameSlice(page, Tombstoned(page, i), off, off + |slots[i].data|);
  }

  lemma TombstoneWrites(page: bytes, i: nat)
    requires EntryAt(i) + SLOT_ENTRY_SIZE <= |page|
    requires EntryOf(page, i).offset < U16_LIMIT && EntryOf(page, i).length < U16_LIMIT
    requires EntryOf(page, i).flags < U16_LIMIT
    ensures var e := EntryOf(page, i);
      |Tombstoned(page, i)| == |page| && EntryOf(Tombstoned(page, i), i) == e.(flags := e.flags - e.flags % 2)
  {
    hide EntryOf;
    var e := EntryOf(page, i);
    EntrySpliced(page, i, e.(flags := e.flags - e.flags % 2));
  }

  lemma TombstoneKeeps(page: bytes, i: nat, lo: int, hi: int)
    requires EntryAt(i) + SLOT_ENTRY_SIZE <= |page| && (hi <= EntryAt(i) || EntryAt(i) + SLOT_ENTRY_SIZE <= lo)
    ensures Same(page, Tombstoned(page, i), lo, hi)
  {
    hide EntryOf, Same, Spliced;
    var e := EntryOf(page, i);
    SplicedSame(page, EntryAt(i), EntryBytes(e.(flags := e.flags - e.flags % 2)), lo, hi);
  }

  // Writing over directory entry i leaves every other slot as it was.
  lemma EntryWriteKeeps(page: bytes, slots: seq<Slot>, i: nat, entry: bytes, s: Slot, j: nat)
    requires Shows(page, slots) && i < |slots| && j < |slots| && i != j && |entry| == SLOT_ENTRY_SIZE
    requires |s.data| == |slots[i].data|
    ensures EntryAt(i) + SLOT_ENTRY_SIZE <= |page| && SlotShows(Spliced(page, EntryAt(i), entry), slots[i := s], j)
  {
    assert SlotShows(page, slots, j);
    assert SlotShows(page, slots, i);
    var off := OffsetOf(slots, j, |page|);
    SpanUpdate(slots, i, s, j + 1);
    SplicedSame(page, EntryAt(i), entry, off, off + |slots[j].data|);
    SplicedSame(page, EntryAt(i), entry, EntryAt(j), EntryAt(j) + SLOT_ENTRY_SIZE);
    SlotKept(page, Spliced(page, EntryAt(i), entry), slots, slots[i := s], j);
  }

  // Overwriting a record with one of the same length changes that record and
  // nothing else.
  lemma OverwriteShows(page: bytes, slots: seq<Slot>, i: nat, rec: bytes)
    requires Shows(page, slots) && i < |slots| && |rec| == |slots[i].data|
    ensures EntryAt(i) + SLOT_ENTRY_SIZE <= |page| && EntryOf(page, i).offset + |rec| <= |page|
    ensures Shows(Spliced(page, EntryOf(page, i).offset, rec), slots[i := slots[i].(data := rec)])
  {
    assert SlotShows(page, slots, i);
    var at := EntryOf(page, i).offset;
    var p, ss := Spliced(page, at, rec), slots[i := slots[i].(data := rec)];
    TotalUpdate(slots, i, ss[i]);
    SplicedSame(page, at, rec, 0, HEADER_SIZE);
    SameHeader(page, p);
    forall j | 0 <= j < |ss| ensures SlotShows(p, ss, j) {
      RecordWriteKeeps(page, slots, i, rec, j);
    }
  }

  // Every slot shows after record i has been overwritten.
  lemma RecordWriteKeeps(page: bytes, slots: seq<Slot>, i: nat, rec: bytes, j: nat)
    requires Shows(page, slots) && i < |slots| && |rec| == |slots[i].data| && j < |slots|
    requires EntryAt(i) + SLOT_ENTRY_SIZE <= |page| && EntryOf(page, i).offset + |rec| <= |page|
    ensures SlotShows(Spliced(page, EntryOf(page, i).offset, rec), slots[i := slots[i].(data := rec)], j)
  {
    hide EntryOf, Spliced, CanFit, HeaderOf;
    assert SlotShows(page, slots, i) && SlotShows(page, slots, j);
    var at, off := EntryOf(page, i).offset, OffsetOf(slots, j, |page|);
    var p, ss := Spliced(page, at, rec), slots[i := slots[i].(data := rec)];
    SpanUpdate(slots, i, ss[i], j + 1);
    SplicedSame(page, at, rec, EntryAt(j), EntryAt(j) + SLOT_ENTRY_SIZE);
    if i == j {
      SameEntry(page, p, i);
      DataSpliced(page, at, rec);
    } else {
      if i < j {
        RecordsApart(slots, i, j, |page|);
      } else {
        RecordsApart(slots, j, i, |page|);
      }
      SplicedSame(page, at, rec, off, off + |slots[j].data|);
      SlotKept(page, p, slots, ss, j);
    }
  }

  // A slot whose record lies inside the page and is as long as another.
  predicate Overwritable(page: bytes, slotId: nat, rec: bytes)
    requires |page| >= HEADER_SIZE
  {
    var e := SlotIn(page, slotId);
    e.Ok? && InBounds(page, e.value) && |rec| == e.value.length
  }

  lemma OverwriteFits(page: bytes, slots: seq<Slot>, i: nat, rec: bytes)
    requires Shows(page, slots)
    ensures Overwritable(page, i, rec) <==> i < |slots| && |rec| == |slots[i].data|
    ensures Overwritable(page, i, rec) ==>
      Shows(Spliced(page, SlotIn(page, i).value.offset, rec), slots[i := slots[i].(data := rec)])
  {
    ReadsSlots(page, slots, i);
    if i < |slots| {
      assert SlotShows(page, slots, i);
      if |rec| == |slots[i].data| {
        OverwriteShows(page, slots, i, rec);
      }
    }
  }
}
