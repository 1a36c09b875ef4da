// A heap file as a value: pages of slots, each slot a record with a live flag.
// What insert, get, delete and update do to it, write by write.
module HeapModel {
  import opened Wrappers
  import opened Bytes

  const HEADER_SIZE := 8
  const SLOT_ENTRY_SIZE := 6

  datatype Slot = Slot(data: bytes, live: bool)

  type Heap = seq<seq<Slot>>

  datatype PageWrite = PageWrite(pid: nat, slots: seq<Slot>)

  // Bytes the first n records of a page take.
  function Span(slots: seq<Slot>, n: nat): nat
    requires n <= |slots|
  {
    if n == 0 then 0 else Span(slots, n - 1) + |slots[n - 1].data|
  }

  // Bytes the records of a page take.
  function Total(slots: seq<Slot>): nat {
    Span(slots, |slots|)
  }

  // Bytes n directory entries take.
  function DirectorySize(n: nat): nat {
    6 * n
  }

  function Used(slots: seq<Slot>): nat {
    HEADER_SIZE + DirectorySize(|slots|) + Total(slots)
  }

  predicate CanFit(slots: seq<Slot>, len: nat, pageSize: nat) {
    Used(slots) + len + SLOT_ENTRY_SIZE <= pageSize
  }

  // Every page fits its page size.
  predicate Fits(h: Heap, pageSize: nat) {
    forall i :: 0 <= i < |h| ==> Used(h[i]) <= pageSize
  }

  function Apply(h: Heap, w: PageWrite): Heap {
    if w.pid < |h| then h[w.pid := w.slots] else h + [w.slots]
  }

  function ApplyAll(h: Heap, ws: seq<PageWrite>): Heap
    decreases ws
  {
    if ws == [] then h else ApplyAll(Apply(h, ws[0]), ws[1..])
  }

  // ------------------------------------------------------------------
  // The operations
  // ------------------------------------------------------------------

  predicate Allocated(h: Heap, rid: Rid) {
    rid.page < |h| && rid.slot < |h[rid.page]|
  }

  predicate Live(h: Heap, rid: Rid) {
    Allocated(h, rid) && h[rid.page][rid.slot].live
  }

  function Get(h: Heap, rid: Rid): Result<bytes> {
    if Live(h, rid) then Ok(h[rid.page][rid.slot].data) else Err(RecordNotFound)
  }

  // The page an insert goes to: the last one if the record fits, else a new one.
  function InsertPage(h: Heap, len: nat, pageSize: nat): (pid: nat)
    ensures pid <= |h|
  {
    if h != [] && CanFit(h[|h| - 1], len, pageSize) then |h| - 1 else |h|
  }

  function SlotsAt(h: Heap, pid: nat): seq<Slot> {
    if pid < |h| then h[pid] else []
  }

  function InsertWrite(h: Heap, rec: bytes, pageSize: nat): PageWrite {
    var pid := InsertPage(h, |rec|, pageSize);
    PageWrite(pid, SlotsAt(h, pid) + [Slot(rec, true)])
  }

  function InsertRid(h: Heap, rec: bytes, pageSize: nat): Rid {
    var pid := InsertPage(h, |rec|, pageSize);
    Rid(pid, |SlotsAt(h, pid)|)
  }

  function DeleteWrite(h: Heap, rid: Rid): PageWrite
    requires Allocated(h, rid)
  {
    var slots := h[rid.page];
    PageWrite(rid.page, slots[rid.slot := slots[rid.slot].(live := false)])
  }

  function OverwriteWrite(h: Heap, rid: Rid, rec: bytes): PageWrite
    requires Allocated(h, rid)
  {
    var slots := h[rid.page];
    PageWrite(rid.page, slots[rid.slot := slots[rid.slot].(data := rec)])
  }

  datatype Op = Insert(rec: bytes) | Update(rid: Rid, rec: bytes) | Delete(rid: Rid)

  // The page writes an operation makes, in order, and what it returns or raises.
  function Perform(h: Heap, op: Op, pageSize: nat): (seq<PageWrite>, Result<Rid>) {
    match op
    case Insert(rec) =>
      if !CanFit([], |rec|, pageSize) then ([], Err(PageFull))
      else ([InsertWrite(h, rec, pageSize)], Ok(InsertRid(h, rec, pageSize)))
    case Delete(rid) =>
      if !Live(h, rid) then ([], Err(RecordNotFound)) else ([DeleteWrite(h, rid)], Ok(rid))
    case Update(rid, rec) =>
      if !Live(h, rid) then ([], Err(RecordNotFound))
      else if |rec| == |h[rid.page][rid.slot].data| then ([OverwriteWrite(h, rid, rec)], Ok(rid))
      else if !CanFit([], |rec|, pageSize) then ([], Err(PageFull))
      else
        var w := InsertWrite(h, rec, pageSize);
        InsertKeeps(h, rec, pageSize, rid);
        ([w, DeleteWrite(Apply(h, w), rid)], Ok(InsertRid(h, rec, pageSize)))
  }

  function After(h: Heap, op: Op, pageSize: nat): Heap {
    ApplyAll(h, Perform(h, op, pageSize).0)
  }

  // ------------------------------------------------------------------
  // One operation
  // ------------------------------------------------------------------

  // Row ids in the order they are handed out.
  predicate Before(a: Rid, b: Rid) {
    a.page < b.page || (a.page == b.page && a.slot < b.slot)
  }

  lemma InsertKeeps(h: Heap, rec: bytes, pageSize: nat, rid: Rid)
    ensures var g, n := Apply(h, InsertWrite(h, rec, pageSize)), InsertRid(h, rec, pageSize);
      && !Allocated(h, n) && (Allocated(h, rid) ==> Before(rid, n))
      && (Allocated(g, rid) <==> Allocated(h, rid) || rid == n)
      && Get(g, rid) == (if rid == n then Ok(rec) else Get(h, rid))
      && (Allocated(h, rid) ==> g[rid.page][rid.slot] == h[rid.page][rid.slot])
  {
  }

  lemma DeleteKeeps(h: Heap, from: Rid, rid: Rid)
    requires Allocated(h, from)
    ensures var g := Apply(h, DeleteWrite(h, from));
      && (Allocated(g, rid) <==> Allocated(h, rid))
      && Get(g, rid) == if rid == from then Err(RecordNotFound) else Get(h, rid)
  {
  }

  lemma OverwriteKeeps(h: Heap, from: Rid, rec: bytes, rid: Rid)
    requires Live(h, from)
    ensures var g := Apply(h, OverwriteWrite(h, from, rec));
      && (Allocated(g, rid) <==> Allocated(h, rid))
      && Get(g, rid) == if rid == from then Ok(rec) else Get(h, rid)
  {
  }

  lemma ApplyTwo(h: Heap, v: PageWrite, w: PageWrite)
    ensures ApplyAll(h, [v, w]) == Apply(Apply(h, v), w) && ApplyAll(h, [v]) == Apply(h, v)
  {
    assert ApplyAll(h, [v]) == Apply(h, v) by {
      assert [v][1..] == [];
    }
    assert [v, w][1..] == [w] && [w][1..] == [];
    assert ApplyAll(Apply(h, v), [w]) == ApplyAll(Apply(Apply(h, v), w), []);
  }

  // An operation that raises leaves the heap as it was: an update whose larger
  // record fits no page included.
  lemma RaisingChangesNothing(h: Heap, op: Op, pageSize: nat)
    requires Perform(h, op, pageSize).1.Err?
    ensures After(h, op, pageSize) == h
  {
  }

  // The bytes of a page's records, added up.
  function RecordSizes(slots: seq<Slot>): nat {
    if slots == [] then 0 else |slots[0].data| + RecordSizes(slots[1..])
  }

  lemma {:induction false} SizesSplit(slots: seq<Slot>, n: nat)
    requires n <= |slots|
    ensures RecordSizes(slots) == Span(slots, n) + RecordSizes(slots[n..])
  {
    if n == 0 {
      assert slots[0..] == slots;
    } else {
      SizesSplit(slots, n - 1);
      assert slots[n - 1..][1..] == slots[n..];
    }
  }

  // Where an insert puts a record: behind the last page's records if an entry and the
  // record still fit under the page size, else first on a new page. What fits no page at
  // all is refused.
  lemma InsertPlace(h: Heap, rec: bytes, pageSize: nat)
    ensures var r, g, n := Perform(h, Insert(rec), pageSize).1, After(h, Insert(rec), pageSize), |h|;
      if 8 + 6 + |rec| > pageSize then r == Err(PageFull) && g == h
      else if n > 0 && 8 + 6 * (|h[n - 1]| + 1) + RecordSizes(h[n - 1]) + |rec| <= pageSize
        then r == Ok(Rid(n - 1, |h[n - 1]|)) && g == h[n - 1 := h[n - 1] + [Slot(rec, true)]]
      else r == Ok(Rid(n, 0)) && g == h + [[Slot(rec, true)]]
  {
    var w := InsertWrite(h, rec, pageSize);
    ApplyTwo(h, w, w);
    assert [] + [Slot(rec, true)] == [Slot(rec, true)];
    if h != [] {
      var last := h[|h| - 1];
      SizesSplit(last, |last|);
      assert last[|last|..] == [];
    }
  }

  // Where an update leaves a record: in place when the length stays, else where an insert
  // puts it, and the old slot is dead.
  lemma UpdatePlace(h: Heap, from: Rid, rec: bytes, pageSize: nat)
    ensures var (ws, r) := Perform(h, Update(from, rec), pageSize);
      var g, inserted := After(h, Update(from, rec), pageSize), Perform(h, Insert(rec), pageSize).1;
      if from.page >= |h| || from.slot >= |h[from.page]| || !h[from.page][from.slot].live
        then r == Err(RecordNotFound) && g == h
      else if |rec| == |h[from.page][from.slot].data|
        then r == Ok(from) && g == h[from.page := h[from.page][from.slot := Slot(rec, true)]]
      else
        && r == inserted && (r.Err? ==> g == h)
        && (r.Ok? ==>
              var i := After(h, Insert(rec), pageSize);
              && from.page < |i| && from.slot < |i[from.page]|
              && g == i[from.page := i[from.page][from.slot := Slot(h[from.page][from.slot].data, false)]])
  {
    var (ws, r) := Perform(h, Update(from, rec), pageSize);
    if |ws| == 1 {
      ApplyTwo(h, ws[0], ws[0]);
    } else if |ws| == 2 {
      InsertKeeps(h, rec, pageSize, from);
      ApplyTwo(h, ws[0], ws[1]);
    }
  }

  // A delete kills its slot and nothing else.
  lemma DeletePlace(h: Heap, rid: Rid, pageSize: nat)
    ensures var r, g := Perform(h, Delete(rid), pageSize).1, After(h, Delete(rid), pageSize);
      if rid.page >= |h| || rid.slot >= |h[rid.page]| || !h[rid.page][rid.slot].live
        then r == Err(RecordNotFound) && g == h
      else r == Ok(rid) && g == h[rid.page := h[rid.page][rid.slot := Slot(h[rid.page][rid.slot].data, false)]]
  {
    if Live(h, rid) {
      ApplyTwo(h, DeleteWrite(h, rid), DeleteWrite(h, rid));
    }
  }

  // What get sees of any row id after an operation.
  lemma AfterGet(h: Heap, op: Op, pageSize: nat, rid: Rid)
    ensures var (_, r) := Perform(h, op, pageSize);
      Get(After(h, op, pageSize), rid) ==
      if r.Err? then Get(h, rid)
      else match op
        case Insert(rec) => if rid == r.value then Ok(rec) else Get(h, rid)
        case Delete(gone) => if rid == gone then Err(RecordNotFound) else Get(h, rid)
        case Update(from, rec) =>
          if rid == r.value then Ok(rec) else if rid == from then Err(RecordNotFound) else Get(h, rid)
  {
    var (ws, r) := Perform(h, op, pageSize);
    if r.Ok? {
      match op
      case Insert(rec) =>
        ApplyTwo(h, ws[0], ws[0]);
        InsertKeeps(h, rec, pageSize, rid);
      case Delete(gone) =>
        ApplyTwo(h, ws[0], ws[0]);
        DeleteKeeps(h, gone, rid);
      case Update(from, rec) =>
        if |ws| == 1 {
          ApplyTwo(h, ws[0], ws[0]);
          OverwriteKeeps(h, from, rec, rid);
        } else {
          RelocationSteps(h, from, rec, pageSize, rid);
        }
    }
  }

  // Relocation: insert first, then tombstone the old row, even in the same page.
  lemma RelocationSteps(h: Heap, from: Rid, rec: bytes, pageSize: nat, rid: Rid)
    requires Live(h, from) && |rec| != |h[from.page][from.slot].data| && CanFit([], |rec|, pageSize)
    ensures var (ws, r) := Perform(h, Update(from, rec), pageSize);
      && |ws| == 2 && r == Ok(InsertRid(h, rec, pageSize)) && !Allocated(h, r.value)
      && ApplyAll(h, ws) == Apply(Apply(h, ws[0]), ws[1])
      && Get(Apply(h, ws[0]), rid) == (if rid == r.value then Ok(rec) else Get(h, rid))
      && Get(ApplyAll(h, ws), rid) == (if rid == r.value then Ok(rec) else if rid == from then Err(RecordNotFound)
                                                                           else Get(h, rid))
  {
    var (ws, r) := Perform(h, Update(from, rec), pageSize);
    ApplyTwo(h, ws[0], ws[1]);
    InsertKeeps(h, rec, pageSize, rid);
    InsertKeeps(h, rec, pageSize, from);
    DeleteKeeps(Apply(h, ws[0]), from, rid);
  }

  // After any prefix of an update's writes the record is there as the old bytes
  // at the old row id, or as the new bytes at the returned one, and every other
  // row id reads as before.
  lemma UpdateCrash(h: Heap, from: Rid, rec: bytes, pageSize: nat, p: nat, rid: Rid)
    requires Perform(h, Update(from, rec), pageSize).1.Ok? && p <= |Perform(h, Update(from, rec), pageSize).0|
    ensures var (ws, r) := Perform(h, Update(from, rec), pageSize);
      var g := ApplyAll(h, ws[..p]);
      && (Get(g, from) == Get(h, from) || Get(g, r.value) == Ok(rec))
      && (rid != from && rid != r.value ==> Get(g, rid) == Get(h, rid))
  {
    var (ws, r) := Perform(h, Update(from, rec), pageSize);
    if p == |ws| {
      assert ws[..p] == ws;
      AfterGet(h, Update(from, rec), pageSize, rid);
      AfterGet(h, Update(from, rec), pageSize, r.value);
    } else if p == 1 {
      assert ws[..1] == [ws[0]];
      ApplyTwo(h, ws[0], ws[0]);
      RelocationSteps(h, from, rec, pageSize, rid);
      RelocationSteps(h, from, rec, pageSize, from);
    }
  }

  // Every page still fits.
  lemma AfterFits(h: Heap, op: Op, pageSize: nat)
    requires Fits(h, pageSize)
    ensures Fits(After(h, op, pageSize), pageSize)
  {
    var (ws, r) := Perform(h, op, pageSize);
    if r.Ok? {
      match op
      case Insert(rec) =>
        ApplyTwo(h, ws[0], ws[0]);
        InsertFits(h, rec, pageSize);
      case Delete(gone) =>
        ApplyTwo(h, ws[0], ws[0]);
        DeleteFits(h, gone, pageSize);
      case Update(from, rec) =>
        if |ws| == 1 {
          ApplyTwo(h, ws[0], ws[0]);
          TotalUpdate(h[from.page], from.slot, Slot(rec, true));
        } else {
          ApplyTwo(h, ws[0], ws[1]);
          InsertFits(h, rec, pageSize);
          InsertKeeps(h, rec, pageSize, from);
          DeleteFits(Apply(h, ws[0]), from, pageSize);
        }
    }
  }

  lemma InsertFits(h: Heap, rec: bytes, pageSize: nat)
    requires Fits(h, pageSize) && CanFit([], |rec|, pageSize)
    ensures Fits(Apply(h, InsertWrite(h, rec, pageSize)), pageSize)
  {
    TotalAppend(SlotsAt(h, InsertPage(h, |rec|, pageSize)), Slot(rec, true));
  }

  lemma DeleteFits(h: Heap, rid: Rid, pageSize: nat)
    requires Fits(h, pageSize) && Allocated(h, rid)
    ensures Fits(Apply(h, DeleteWrite(h, rid)), pageSize)
  {
    TotalUpdate(h[rid.page], rid.slot, h[rid.page][rid.slot].(live := false));
  }

  lemma {:induction false} SpanAppend(slots: seq<Slot>, s: Slot, n: nat)
    requires n <= |slots|
    ensures Span(slots + [s], n) == Span(slots, n)
  {
    if n == 0 {
    } else {
      SpanAppend(slots, s, n - 1);
    }
  }

  lemma TotalAppend(slots: seq<Slot>, s: Slot)
    ensures Total(slots + [s]) == Total(slots) + |s.data|
  {
    SpanAppend(slots, s, |slots|);
  }

  lemma {:induction false} SpanUpdate(slots: seq<Slot>, i: nat, s: Slot, n: nat)
    requires i < |slots| && n <= |slots|
    ensures Span(slots[i := s], n) == Span(slots, n) + if i < n then |s.data| - |slots[i].data| else 0
  {
    if n == 0 {
    } else {
      SpanUpdate(slots, i, s, n - 1);
    }
  }

  lemma TotalUpdate(slots: seq<Slot>, i: nat, s: Slot)
    requires i < |slots|
    ensures Total(slots[i := s]) + |slots[i].data| == Total(slots) + |s.data|
  {
    SpanUpdate(slots, i, s, |slots|);
  }

  lemma {:induction false} SpanGrows(slots: seq<Slot>, m: nat, n: nat)
    requires m <= n <= |slots|
    ensures Span(slots, m) <= Span(slots, n)
  {
    if m == n {
    } else {
      SpanGrows(slots, m, n - 1);
    }
  }

  // ------------------------------------------------------------------
  // Runs: the heap refines an append-only map with tombstones
  // ------------------------------------------------------------------

  // What was ever stored under a row id; None once deleted or moved away.
  type Log = map<Rid, Option<bytes>>

  // The abstract map after an operation that returned r.
  function Record(m: Log, op: Op, r: Result<Rid>): Log {
    if r.Err? then m
    else match op
      case Insert(rec) => m[r.value := Some(rec)]
      case Delete(gone) => m[gone := None]
      case Update(from, rec) => m[from := None][r.value := Some(rec)]
  }

  function Read(m: Log, rid: Rid): Result<bytes> {
    if rid in m && m[rid].Some? then Ok(m[rid].value) else Err(RecordNotFound)
  }

  ghost predicate Agrees(h: Heap, m: Log) {
    forall rid: Rid :: Get(h, rid) == Read(m, rid) && (Allocated(h, rid) <==> rid in m)
  }

  lemma AfterAllocated(h: Heap, op: Op, pageSize: nat, rid: Rid)
    ensures var (_, r) := Perform(h, op, pageSize);
      Allocated(After(h, op, pageSize), rid) <==> Allocated(h, rid) || (r.Ok? && !op.Delete? && rid == r.value)
  {
    var (ws, r) := Perform(h, op, pageSize);
    if r.Ok? {
      match op
      case Insert(rec) =>
        ApplyTwo(h, ws[0], ws[0]);
        InsertKeeps(h, rec, pageSize, rid);
      case Delete(gone) =>
        ApplyTwo(h, ws[0], ws[0]);
        DeleteKeeps(h, gone, rid);
      case Update(from, rec) =>
        if |ws| == 1 {
          ApplyTwo(h, ws[0], ws[0]);
          OverwriteKeeps(h, from, rec, rid);
        } else {
          ApplyTwo(h, ws[0], ws[1]);
          InsertKeeps(h, rec, pageSize, rid);
          InsertKeeps(h, rec, pageSize, from);
          DeleteKeeps(Apply(h, ws[0]), from, rid);
        }
    }
  }

  lemma AfterAgrees(h: Heap, m: Log, op: Op, pageSize: nat)
    requires Agrees(h, m)
    ensures Agrees(After(h, op, pageSize), Record(m, op, Perform(h, op, pageSize).1))
  {
    var g := After(h, op, pageSize);
    var n := Record(m, op, Perform(h, op, pageSize).1);
    forall rid: Rid ensures Get(g, rid) == Read(n, rid) && (Allocated(g, rid) <==> rid in n) {
      AfterGet(h, op, pageSize, rid);
      AfterAllocated(h, op, pageSize, rid);
    }
  }

  // The heap and the abstract map after a list of operations on an empty file.
  function Run(ops: seq<Op>, pageSize: nat): (Heap, Log) {
    if ops == [] then ([], map[])
    else
      var (h, m) := Run(ops[..|ops| - 1], pageSize);
      var op := ops[|ops| - 1];
      (After(h, op, pageSize), Record(m, op, Perform(h, op, pageSize).1))
  }

  // After any run, get is lookup in the abstract map, and every page fits.
  lemma {:induction false} RunRefinesMap(ops: seq<Op>, pageSize: nat)
    ensures var (h, m) := Run(ops, pageSize); Agrees(h, m) && Fits(h, pageSize)
    decreases ops
  {
    if ops == [] {
    } else {
      var (h, m) := Run(ops[..|ops| - 1], pageSize);
      RunRefinesMap(ops[..|ops| - 1], pageSize);
      AfterAgrees(h, m, ops[|ops| - 1], pageSize);
      AfterFits(h, ops[|ops| - 1], pageSize);
    }
  }

  // A row id handed out is new, and after all row ids handed out before it.
  lemma FreshRid(h: Heap, op: Op, pageSize: nat, rid: Rid)
    requires Perform(h, op, pageSize).1.Ok? && Allocated(h, rid)
    ensures var r := Perform(h, op, pageSize).1.value;
      (op.Insert? || (op.Update? && r != op.rid)) ==> rid != r && Before(rid, r)
  {
    if !op.Delete? {
      InsertKeeps(h, op.rec, pageSize, rid);
    }
  }

  // A row id whose record is gone stays gone: it is never handed out again.
  lemma GoneStaysGone(h: Heap, op: Op, pageSize: nat, rid: Rid)
    requires Allocated(h, rid) && !Live(h, rid)
    ensures var g := After(h, op, pageSize); Allocated(g, rid) && !Live(g, rid)
  {
    AfterGet(h, op, pageSize, rid);
    AfterAllocated(h, op, pageSize, rid);
    if Perform(h, op, pageSize).1.Ok? {
      FreshRid(h, op, pageSize, rid);
    }
  }
}
