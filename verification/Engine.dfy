// The storage engine over one table: its heap file and, once built, an index on
// one column that inserts keep in step with the heap.
module StorageEngine {
  import opened Wrappers
  import opened Bytes
  import opened KeyCodec
  import opened TupleCodec
  import opened NodeLayout
  import opened TextOrder
  import opened BPlusTreeFile
  import opened HeapFileStore
  import H = HeapModel
  import M = BTreeModel
  import F = BTreeFile
  import Formats
  import IndexPages
  import PageLayout
  import SlottedPage

  datatype Row = Row(rid: Rid, values: seq<Value>)

  // ------------------------------------------------------------------
  // Rows of a heap
  // ------------------------------------------------------------------

  // The row at a row id, decoded.
  function GetRow(h: H.Heap, cols: seq<Column>, rid: Rid): (r: Result<seq<Value>>)
    ensures r.Ok? ==> H.Live(h, rid) && |r.value| == |cols|
  {
    match H.Get(h, rid)
    case Err(e) => Err(e)
    case Ok(rec) =>
      SpansAreSafe(rec, cols);
      DecodeTuple(rec, cols)
  }

  // Every live record is one of the table's rows.
  ghost predicate Typed(h: H.Heap, cols: seq<Column>) {
    forall rid :: H.Live(h, rid) ==> GetRow(h, cols, rid).Ok?
  }

  predicate InOrder(rows: seq<Row>) {
    forall i, j :: 0 <= i < j < |rows| ==> H.Before(rows[i].rid, rows[j].rid)
  }

  // The live rows in row id order, each once, with the values get returns for them.
  ghost predicate IsScan(h: H.Heap, cols: seq<Column>, rows: seq<Row>) {
    ScanUpTo(h, cols, rows, Rid(|h|, 0))
  }

  // The same for the row ids below a bound.
  ghost predicate ScanUpTo(h: H.Heap, cols: seq<Column>, rows: seq<Row>, bound: Rid) {
    && InOrder(rows)
    && (forall i :: 0 <= i < |rows| ==>
      H.Before(rows[i].rid, bound) && GetRow(h, cols, rows[i].rid) == Ok(rows[i].values))
    && (forall rid :: H.Live(h, rid) && H.Before(rid, bound) ==> exists i :: 0 <= i < |rows| && rows[i].rid == rid)
  }

  // A record's columns in schema order; a missing one is an error.
  function RecordValues(cols: seq<Column>, record: map<string, Value>): Result<seq<Value>> {
    if exists i :: 0 <= i < |cols| && cols[i].name !in record then Err(StorageError)
    else Ok(seq(|cols|, i requires 0 <= i < |cols| && cols[i].name in record => record[cols[i].name]))
  }

  function RecordBytes(cols: seq<Column>, record: map<string, Value>): Result<bytes> {
    match RecordValues(cols, record)
    case Err(e) => Err(e)
    case Ok(values) => TupleBytes(cols, values)
  }

  // A record is taken in schema order, and encodes exactly when it has a suitable value for
  // every column, to the null bits and its fields.
  lemma RecordExact(cols: seq<Column>, record: map<string, Value>)
    ensures var values, raw := RecordValues(cols, record), RecordBytes(cols, record);
      && (values.Ok? <==> forall i :: 0 <= i < |cols| ==> cols[i].name in record)
      && (values.Err? ==> values == Err(StorageError)) && (raw.Err? ==> raw == Err(StorageError))
      && (values.Ok? ==> |values.value| == |cols|
                         && forall i :: 0 <= i < |cols| ==> values.value[i] == record[cols[i].name])
      && (raw.Ok? <==>
            forall i :: 0 <= i < |cols| ==> cols[i].name in record && Suits(cols[i], record[cols[i].name]))
      && (raw.Ok? ==> |raw.value| == (|cols| + 7) / 8 + Formats.FieldSizes(values.value))
  {
    hide TupleBytes, Suits, Formats.FieldSizes;
    var values := RecordValues(cols, record);
    if values.Ok? {
      Accepted(cols, values.value);
      if TupleBytes(cols, values.value).Ok? {
        RecordLength(cols, values.value);
      }
    }
  }

  lemma RecordLength(cols: seq<Column>, values: seq<Value>)
    requires TupleBytes(cols, values).Ok?
    ensures |TupleBytes(cols, values).value| == (|cols| + 7) / 8 + Formats.FieldSizes(values)
  {
    if cols == [] {
      assert values == [];
    } else {
      Formats.Record(cols, values, 0);
    }
  }

  lemma RowAfter(h: H.Heap, cols: seq<Column>, op: H.Op, pageSize: nat, rid: Rid)
    ensures var (_, r) := H.Perform(h, op, pageSize);
      var g := H.After(h, op, pageSize);
      GetRow(g, cols, rid) ==
      if r.Err? then GetRow(h, cols, rid)
      else if !op.Delete? && rid == r.value then DecodeTuple(op.rec, cols)
      else if !op.Insert? && rid == op.rid then Err(RecordNotFound)
      else GetRow(h, cols, rid)
  {
    H.AfterGet(h, op, pageSize, rid);
  }

  // Heap operations with encoded rows keep every live record a row.
  lemma TypedAfter(h: H.Heap, cols: seq<Column>, op: H.Op, pageSize: nat)
    requires Typed(h, cols) && (!op.Delete? ==> DecodeTuple(op.rec, cols).Ok?)
    ensures Typed(H.After(h, op, pageSize), cols)
  {
    var g := H.After(h, op, pageSize);
    forall rid | H.Live(g, rid) ensures GetRow(g, cols, rid).Ok? {
      RowAfter(h, cols, op, pageSize, rid);
      H.AfterGet(h, op, pageSize, rid);
    }
  }

  // ------------------------------------------------------------------
  // Rows and index keys
  // ------------------------------------------------------------------

  function KeyTypeFor(t: ColumnType): KeyType {
    if t == IntType then IntKey else TextKey(TEXT_KEY_CAP_DEFAULT)
  }

  function RankOf(kt: KeyType, v: Value): Result<int> {
    if kt.TextKey? && kt.cap >= U16_LIMIT then Err(StorageError) else KeyRank(kt, v)
  }

  // Whether a row's index key has rank k.
  predicate Carries(kt: KeyType, kc: nat, row: Result<seq<Value>>, k: int) {
    row.Ok? && kc < |row.value| && RankOf(kt, row.value[kc]) == Ok(k)
  }

  // Whatever the index finds is a live row that carries the key.
  ghost predicate Sound(t: M.Tree, h: H.Heap, cols: seq<Column>, kt: KeyType, kc: nat) {
    M.Shaped(t) && forall k, rid :: M.Lookup(t, k) == Some(rid) ==> Carries(kt, kc, GetRow(h, cols, rid), k)
  }

  // Every live row is in the index under its key.
  ghost predicate Complete(t: M.Tree, h: H.Heap, cols: seq<Column>, kt: KeyType, kc: nat) {
    && M.Shaped(t) && kc < |cols|
    && forall rid :: GetRow(h, cols, rid).Ok? ==>
         var k := RankOf(kt, GetRow(h, cols, rid).value[kc]); k.Ok? && M.Lookup(t, k.value) == Some(rid)
  }

  // A heap insert keeps a sound index sound: no live row moves.
  lemma SoundAfterInsert(t: M.Tree, h: H.Heap, cols: seq<Column>, kt: KeyType, kc: nat, rec: bytes, pageSize: nat)
    requires Sound(t, h, cols, kt, kc)
    ensures Sound(t, H.After(h, H.Insert(rec), pageSize), cols, kt, kc)
  {
    var g := H.After(h, H.Insert(rec), pageSize);
    forall k, rid | M.Lookup(t, k) == Some(rid) ensures Carries(kt, kc, GetRow(g, cols, rid), k) {
      assert Carries(kt, kc, GetRow(h, cols, rid), k);
      RowAfter(h, cols, H.Insert(rec), pageSize, rid);
      if H.Perform(h, H.Insert(rec), pageSize).1.Ok? {
        H.FreshRid(h, H.Insert(rec), pageSize, rid);
      }
    }
  }

  // The index of the old rows with the new row's key added is that of the new rows.
  lemma BothAfterInsert(t: M.Tree, u: M.Tree, h: H.Heap, cols: seq<Column>, kt: KeyType, kc: nat, rec: bytes,
                        values: seq<Value>, pageSize: nat, k: int)
    requires Sound(t, h, cols, kt, kc) && M.Shaped(u) && kc < |values| == |cols|
    requires H.Perform(h, H.Insert(rec), pageSize).1.Ok? && DecodeTuple(rec, cols) == Ok(values)
    requires RankOf(kt, values[kc]) == Ok(k)
    requires var rid := H.Perform(h, H.Insert(rec), pageSize).1.value;
      forall x :: M.Lookup(u, x) == if x == k then Some(rid) else M.Lookup(t, x)
    requires M.Lookup(t, k).None?
    ensures Sound(u, H.After(h, H.Insert(rec), pageSize), cols, kt, kc)
    ensures Complete(t, h, cols, kt, kc) ==> Complete(u, H.After(h, H.Insert(rec), pageSize), cols, kt, kc)
  {
    var n := H.Perform(h, H.Insert(rec), pageSize).1.value;
    var g := H.After(h, H.Insert(rec), pageSize);
    SoundAfterInsert(t, h, cols, kt, kc, rec, pageSize);
    RowAfter(h, cols, H.Insert(rec), pageSize, n);
    forall x, rid | M.Lookup(u, x) == Some(rid) ensures Carries(kt, kc, GetRow(g, cols, rid), x) {
    }
    if Complete(t, h, cols, kt, kc) {
      forall rid | GetRow(g, cols, rid).Ok?
        ensures var r := RankOf(kt, GetRow(g, cols, rid).value[kc]); r.Ok? && M.Lookup(u, r.value) == Some(rid)
      {
        RowAfter(h, cols, H.Insert(rec), pageSize, rid);
      }
    }
  }

  // The index binds each key to the row id beside it and finds nothing else.
  ghost predicate Binds(t: M.Tree, keys: seq<int>, rids: seq<Rid>) {
    && M.Shaped(t) && |keys| == |rids|
    && (forall j :: 0 <= j < |keys| ==> M.Lookup(t, keys[j]) == Some(rids[j]))
    && (forall k :: M.Lookup(t, k).Some? ==> k in keys)
  }

  lemma BindsOneMore(t: M.Tree, u: M.Tree, keys: seq<int>, rids: seq<Rid>, k: int, rid: Rid)
    requires Binds(t, keys, rids) && M.Shaped(u) && M.Lookup(t, k).None?
    requires forall x :: M.Lookup(u, x) == if x == k then Some(rid) else M.Lookup(t, x)
    ensures Binds(u, keys + [k], rids + [rid])
  {
    var ks := keys + [k];
    forall x | M.Lookup(u, x).Some? ensures x in ks {
      if x == k {
        assert ks[|keys|] == k;
      } else {
        assert x in keys;
      }
    }
  }

  function RidsOf(rows: seq<Row>): (r: seq<Rid>)
    ensures |r| == |rows|
  {
    seq(|rows|, i requires 0 <= i < |rows| => rows[i].rid)
  }

  ghost predicate KeysOf(rows: seq<Row>, kt: KeyType, kc: nat, keys: seq<int>) {
    |keys| == |rows| && forall j :: 0 <= j < |rows| ==> Carries(kt, kc, Ok(rows[j].values), keys[j])
  }

  // An index of the rows of a scan is sound and complete.
  lemma BindsScan(t: M.Tree, rows: seq<Row>, keys: seq<int>, h: H.Heap, cols: seq<Column>, kt: KeyType, kc: nat)
    requires IsScan(h, cols, rows) && KeysOf(rows, kt, kc, keys) && Binds(t, keys, RidsOf(rows)) && kc < |cols|
    ensures Sound(t, h, cols, kt, kc) && Complete(t, h, cols, kt, kc)
  {
    forall k, rid | M.Lookup(t, k) == Some(rid) ensures Carries(kt, kc, GetRow(h, cols, rid), k) {
      var j :| 0 <= j < |keys| && keys[j] == k;
      BoundRow(rows, keys, h, cols, kt, kc, j);
      assert rid == RidsOf(rows)[j];
    }
    forall rid | GetRow(h, cols, rid).Ok?
      ensures var k := RankOf(kt, GetRow(h, cols, rid).value[kc]); k.Ok? && M.Lookup(t, k.value) == Some(rid)
    {
      assert H.Before(rid, Rid(|h|, 0));
      var j :| 0 <= j < |rows| && rows[j].rid == rid;
      BoundRow(rows, keys, h, cols, kt, kc, j);
      assert RidsOf(rows)[j] == rid;
    }
  }

  lemma BoundRow(rows: seq<Row>, keys: seq<int>, h: H.Heap, cols: seq<Column>, kt: KeyType, kc: nat, j: nat)
    requires IsScan(h, cols, rows) && KeysOf(rows, kt, kc, keys) && j < |rows|
    ensures Carries(kt, kc, GetRow(h, cols, rows[j].rid), keys[j])
  {
    assert GetRow(h, cols, rows[j].rid) == Ok(rows[j].values);
  }

  // Two different live rows with the same index key.
  ghost predicate SharedKey(h: H.Heap, cols: seq<Column>, kc: nat) {
    exists r, s :: r != s && GetRow(h, cols, r).Ok? && GetRow(h, cols, s).Ok? && kc < |cols|
      && GetRow(h, cols, r).value[kc] == GetRow(h, cols, s).value[kc]
  }

  // What adding a key to an index tree gives: a null, a key the index cannot hold and a
  // key already bound are refused.
  function AddAnswer(kt: KeyType, t: M.Tree, v: Value): Result<()>
    requires kt.TextKey? ==> kt.cap < U16_LIMIT
  {
    if v.NullValue? then Err(StorageError)
    else if !HasKey(kt, v) then Err(Refusal(kt, v))
    else if M.Lookup(t, KeyRank(kt, v).value).Some? then Err(DuplicateKey)
    else Ok(())
  }

  // A value an index over a column of its type holds: any number, or a text of at most
  // 128 bytes.
  predicate HasIndexKey(v: Value) {
    match v
    case NullValue => false
    case IntValue(_) => true
    case TextValue(s) => Utf8Size(s) <= 128
  }

  // Every live row has a key an index can hold, and no two rows share one.
  ghost predicate Indexable(h: H.Heap, cols: seq<Column>, kc: nat)
    requires kc < |cols|
  {
    !SharedKey(h, cols, kc) && forall rid :: GetRow(h, cols, rid).Ok? ==> HasIndexKey(GetRow(h, cols, rid).value[kc])
  }

  // What the record codec accepts in a column has a key in an index over it, but for
  // nulls and long texts.
  lemma AcceptedHasKey(col: Column, v: Value)
    requires Suits(col, v)
    ensures HasKey(KeyTypeFor(col.colType), v) <==> HasIndexKey(v)
  {
  }

  // So does what a row reads back.
  lemma RowHasKey(h: H.Heap, cols: seq<Column>, rid: Rid, kc: nat)
    requires kc < |cols| && GetRow(h, cols, rid).Ok?
    ensures var v := GetRow(h, cols, rid).value[kc]; HasKey(KeyTypeFor(cols[kc].colType), v) <==> HasIndexKey(v)
  {
    DecodedTypes(H.Get(h, rid).value, cols, kc);
  }

  // An index that holds every live row shows that they were indexable.
  lemma CompleteIsIndexable(t: M.Tree, h: H.Heap, cols: seq<Column>, kc: nat)
    requires kc < |cols| && Complete(t, h, cols, KeyTypeFor(cols[kc].colType), kc)
    ensures Indexable(h, cols, kc)
  {
    var kt := KeyTypeFor(cols[kc].colType);
    forall rid | GetRow(h, cols, rid).Ok? ensures HasIndexKey(GetRow(h, cols, rid).value[kc]) {
      RowHasKey(h, cols, rid, kc);
      assert RankOf(kt, GetRow(h, cols, rid).value[kc]).Ok?;
    }
    forall r, s | GetRow(h, cols, r).Ok? && GetRow(h, cols, s).Ok?
                  && GetRow(h, cols, r).value[kc] == GetRow(h, cols, s).value[kc]
      ensures r == s
    {
      var k := RankOf(kt, GetRow(h, cols, r).value[kc]).value;
      assert M.Lookup(t, k) == Some(r) && M.Lookup(t, k) == Some(s);
    }
  }

  // ------------------------------------------------------------------
  // Page ids while an index is built
  // ------------------------------------------------------------------

  ghost predicate Encodable(rows: seq<Row>, kt: KeyType, kc: nat) {
    forall i :: 0 <= i < |rows| ==> kc < |rows[i].values| && RankOf(kt, rows[i].values[kc]).Ok?
  }

  // The entries of rows, in their order.
  ghost function EntriesOf(rows: seq<Row>, kt: KeyType, kc: nat): (es: seq<M.Entry>)
    requires Encodable(rows, kt, kc)
    ensures |es| == |rows|
    ensures forall i :: 0 <= i < |es| ==> RankLow(kt) <= es[i].key < RankHigh(kt)
  {
    seq(|rows|, i requires 0 <= i < |rows| => M.Entry(RankOf(kt, rows[i].values[kc]).value, rows[i].rid))
  }

  // The index file and its tree after the rows' keys have been inserted in order.
  ghost function IndexOf(rows: seq<Row>, kt: KeyType, kc: nat, fan: M.Fan): (seq<M.Page>, M.Tree)
    requires Encodable(rows, kt, kc) && fan.leafMax >= 1 && fan.innerMax >= 1
  {
    RanksExist(kt);
    F.Run(EntriesOf(rows, kt, kc), fan, RankLow(kt), RankHigh(kt))
  }

  // The u32 page ids last while the rows' keys are inserted one after the other.
  ghost predicate RoomFor(rows: seq<Row>, kt: KeyType, kc: nat, fan: M.Fan)
    requires fan.leafMax >= 1 && fan.innerMax >= 1
  {
    forall i :: 0 <= i < |rows| && Encodable(rows[..i], kt, kc) ==>
      var (f, t) := IndexOf(rows[..i], kt, kc, fan);
      |f| + F.Height(t) + 2 <= U32_LIMIT
  }

  lemma EncodableMore(rows: seq<Row>, i: nat, kt: KeyType, kc: nat)
    requires i < |rows| && Encodable(rows[..i], kt, kc)
    requires kc < |rows[i].values| && RankOf(kt, rows[i].values[kc]).Ok?
    ensures Encodable(rows[..i + 1], kt, kc)
  {
    hide RankOf;
    var more := rows[..i + 1];
    forall j | 0 <= j < |more| ensures kc < |more[j].values| && RankOf(kt, more[j].values[kc]).Ok? {
      assert j < i ==> more[j] == rows[..i][j];
    }
  }

  lemma IndexOfMore(rows: seq<Row>, i: nat, kt: KeyType, kc: nat, fan: M.Fan)
    requires i < |rows| && Encodable(rows[..i], kt, kc) && Encodable(rows[..i + 1], kt, kc)
    requires fan.leafMax >= 1 && fan.innerMax >= 1
    ensures var (f, t) := IndexOf(rows[..i], kt, kc, fan);
      M.Shaped(t) && IndexOf(rows[..i + 1], kt, kc, fan)
                     == F.Step(f, t, M.Entry(RankOf(kt, rows[i].values[kc]).value, rows[i].rid), fan)
  {
    RanksExist(kt);
    var es, fs := EntriesOf(rows[..i], kt, kc), EntriesOf(rows[..i + 1], kt, kc);
    assert fs[..|fs| - 1] == es;
  }

  // ------------------------------------------------------------------
  // The engine
  // ------------------------------------------------------------------

  class Engine {
    const heap: HeapFile
    const cols: seq<Column>
    var index: BPlusTree?         // the attached index
    var keycol: nat               // the column it is on
    var indexFile: bool           // whether its file is still there, header and all
    ghost var tracked: bool       // no update or delete since it was built
    ghost var complete: bool      // and every insert since then returned normally

    ghost function Kt(): KeyType
      reads this
      requires keycol < |cols|
    {
      KeyTypeFor(cols[keycol].colType)
    }

    ghost predicate Attached()
      reads this, index
    {
      && index != null && keycol < |cols|
      && index.Valid() && index.pageSize == heap.pageSize && index.Kt() == Kt()
    }

    ghost predicate Valid()
      reads this, heap, index
    {
      && heap.Valid() && Typed(heap.heap, cols)
      && (index != null ==> Attached())
      && (index != null && indexFile && tracked ==> Sound(index.tree, heap.heap, cols, Kt(), keycol))
      && (index != null && indexFile && tracked && complete ==> Complete(index.tree, heap.heap, cols, Kt(), keycol))
    }

    // The u32 page ids last for one more row and its key.
    ghost predicate Room()
      reads this, heap, index
    {
      index != null && indexFile ==> index.Room() && |heap.heap| < U32_LIMIT
    }

    constructor (cols: seq<Column>, pageSize: nat)
      ensures Valid() && this.cols == cols && index == null && fresh(heap) && heap.pageSize == pageSize
      ensures heap.heap == []
    {
      this.cols, index, keycol, indexFile, tracked, complete := cols, null, 0, false, false, false;
      heap := new HeapFile(pageSize);
    }

    // A row by its row id.
    method Get(rid: Rid) returns (r: Result<seq<Value>>)
      requires Valid()
      ensures r == GetRow(heap.heap, cols, rid)
      ensures r.Ok? <==> H.Live(heap.heap, rid)
    {
      var raw := heap.Get(rid);
      match raw {
        case Err(e) => return Err(e);
        case Ok(rec) => return DecodeTuple(rec, cols);
      }
    }

    // All live rows, read page by page and slot by slot.
    method Scan() returns (r: Result<seq<Row>>)
      requires heap.Valid()
      ensures r.Ok? ==> IsScan(heap.heap, cols, r.value)
      ensures r.Ok? <==> Typed(heap.heap, cols)
    {
      var rows: seq<Row> := [];
      for pid := 0 to |heap.pages|
        invariant ScanUpTo(heap.heap, cols, rows, Rid(pid, 0))
      {
        var more := ScanPage(pid, rows);
        if more.Err? {
          return more;
        }
        rows := more.value;
      }
      forall rid | H.Live(heap.heap, rid) ensures GetRow(heap.heap, cols, rid).Ok? {
        assert H.Before(rid, Rid(|heap.heap|, 0));
      }
      return Ok(rows);
    }

    // The rows so far and those of one more page.
    method ScanPage(pid: nat, before: seq<Row>) returns (r: Result<seq<Row>>)
      requires heap.Valid() && pid < |heap.pages| && ScanUpTo(heap.heap, cols, before, Rid(pid, 0))
      ensures r.Ok? ==> ScanUpTo(heap.heap, cols, r.value, Rid(pid + 1, 0))
      ensures r.Err? ==> !Typed(heap.heap, cols)
    {
      hide ScanUpTo, DecodeTuple, PageLayout.EntryOf;
      ghost var h, slots := heap.heap, heap.heap[pid];
      var rows := before;
      var page := SlottedPage.Page.FromBytes(heap.pages[pid], heap.pageSize);
      var live := page.value.LiveSlots();
      assert PageLayout.Shows(page.value.buf[..], slots);
      var ids := live.value;
      for j := 0 to |ids|
        invariant page.value.buf[..] == heap.pages[pid]
        invariant ScanUpTo(h, cols, rows, Rid(pid, NextSlot(ids, j)))
      {
        var slotId := ids[j];
        assert slotId in ids;
        PageLayout.ReadsSlots(heap.pages[pid], slots, slotId);
        var rec := page.value.GetTuple(slotId);
        var values := DecodeTuple(rec.value, cols);
        assert H.Live(h, Rid(pid, slotId)) && GetRow(h, cols, Rid(pid, slotId)) == values;
        if values.Err? {
          return Err(values.error);
        }
        NoLiveBetween(h, pid, ids, j);
        ScanStep(h, cols, rows, Rid(pid, NextSlot(ids, j)), Row(Rid(pid, slotId), values.value));
        rows := rows + [Row(Rid(pid, slotId), values.value)];
      }
      NoLiveBetween(h, pid, ids, |ids|);
      ScanPast(h, cols, rows, Rid(pid, NextSlot(ids, |ids|)), Rid(pid + 1, 0));
      return Ok(rows);
    }

    // One key more in an index.
    static method AddKey(tree: BPlusTree, v: Value, rid: Rid, ghost kt: KeyType) returns (r: Result<()>)
      requires tree.Valid() && tree.Kt() == kt && tree.Room() && rid.page < U32_LIMIT && rid.slot < U32_LIMIT
      modifies tree
      ensures tree.Valid() && M.Shaped(tree.tree) && M.Shaped(old(tree.tree))
      ensures r == AddAnswer(kt, old(tree.tree), v)
      ensures r.Err? ==> tree.tree == old(tree.tree) && tree.pages == old(tree.pages)
      ensures r.Ok? ==> forall x ::
        M.Lookup(tree.tree, x) == if x == RankOf(kt, v).value then Some(rid) else M.Lookup(old(tree.tree), x)
      ensures r.Ok? ==>
        (tree.View(), tree.tree) == F.Step(old(tree.View()), old(tree.tree), M.Entry(RankOf(kt, v).value, rid),
            tree.Fanout())
    {
      hide F.TreeFile, M.InsertAtRoot, M.Lookup, M.Shaped, F.Height, Effect, KeyRank, LeafMax, InnerMax;
      tree.ValidShape();
      tree.HeaderDecodes();
      ghost var p0, l0, t0 := tree.pages, tree.log, tree.tree;
      r := tree.Insert(v, rid);
      tree.ValidShape();
      if r.Ok? {
        ghost var c := M.InsertAtRoot(t0, RankOf(kt, v).value, rid, |p0|, tree.Fanout());
        EffectView(tree.meta, p0, l0, c.ws, tree.pages, tree.log);
      }
    }

    // A record as bytes that decode to its columns.
    method EncodeRecord(record: map<string, Value>) returns (r: Result<bytes>)
      ensures r == RecordBytes(cols, record)
      ensures r.Err? ==> r == Err(StorageError)
      ensures r.Ok? ==> RecordValues(cols, record).Ok? && DecodeTuple(r.value, cols) == RecordValues(cols, record)
      ensures r.Ok? ==>
        && |RecordValues(cols, record).value| == |cols|
        && forall i :: 0 <= i < |cols| ==>
             cols[i].name in record && RecordValues(cols, record).value[i] == record[cols[i].name]
    {
      var values := RecordValues(cols, record);
      if values.Err? {
        return Err(StorageError);
      }
      Accepted(cols, values.value);
      r := TupleBytes(cols, values.value);
      if r.Ok? {
        DecodeUndoesEncode(cols, values.value);
      }
    }

    // Appends an encoded row to the heap; the rows there stay as they are.
    method AddRow(raw: bytes, ghost values: seq<Value>) returns (r: Result<Rid>)
      requires heap.Valid() && Typed(heap.heap, cols) && DecodeTuple(raw, cols) == Ok(values)
      modifies heap
      ensures heap.Valid() && Typed(heap.heap, cols)
      ensures forall rid :: H.Live(old(heap.heap), rid) ==>
        GetRow(heap.heap, cols, rid) == GetRow(old(heap.heap), cols, rid)
      ensures r == if !PageSizeOk(heap.pageSize) then Err(StorageError)
                   else H.Perform(old(heap.heap), H.Insert(raw), heap.pageSize).1
      ensures r.Ok? <==> PageSizeOk(heap.pageSize) && H.CanFit([], |raw|, heap.pageSize)
      ensures r.Err? ==> heap.heap == old(heap.heap) && (PageSizeOk(heap.pageSize) ==> r == Err(PageFull))
      ensures r.Ok? ==> heap.heap == H.After(old(heap.heap), H.Insert(raw), heap.pageSize)
      ensures r.Ok? ==> !H.Allocated(old(heap.heap), r.value) && GetRow(heap.heap, cols, r.value) == Ok(values)
      ensures r.Ok? && |old(heap.heap)| < U32_LIMIT ==> r.value.page < U32_LIMIT && r.value.slot < U32_LIMIT
    {
      ghost var h, op := heap.heap, H.Insert(raw);
      SlotsBelow(heap);
      r := heap.Insert(raw);
      if r.Ok? {
        TypedAfter(h, cols, op, heap.pageSize);
        RowAfter(h, cols, op, heap.pageSize, r.value);
        H.InsertKeeps(h, raw, heap.pageSize, r.value);
        forall rid | H.Live(h, rid) ensures GetRow(heap.heap, cols, rid) == GetRow(h, cols, rid) {
          KeepsRows(h, cols, op, heap.pageSize, rid);
        }
      }
    }

    // What the attached index answers to a key.
    ghost function IndexAnswer(v: Value): Result<()>
      requires Attached()
      reads this, index
    {
      if !indexFile then Err(StorageError) else AddAnswer(Kt(), index.tree, v)
    }

    // Adds the key of a row just appended to heap h.
    method IndexRow(v: Value, rid: Rid, ghost raw: bytes, ghost values: seq<Value>, ghost h: H.Heap)
        returns (r: Result<()>)
      requires Attached() && |values| == |cols| && v == values[keycol] && DecodeTuple(raw, cols) == Ok(values)
      requires indexFile ==> index.Room() && rid.page < U32_LIMIT && rid.slot < U32_LIMIT
      requires H.Perform(h, H.Insert(raw), heap.pageSize).1 == Ok(rid)
      requires heap.heap == H.After(h, H.Insert(raw), heap.pageSize)
      requires indexFile && tracked ==> Sound(index.tree, h, cols, Kt(), keycol)
      requires indexFile && tracked && complete ==> Complete(index.tree, h, cols, Kt(), keycol)
      modifies index
      ensures Attached()
      ensures indexFile && tracked ==> Sound(index.tree, heap.heap, cols, Kt(), keycol)
      ensures r.Ok? ==> (indexFile && tracked && complete ==> Complete(index.tree, heap.heap, cols, Kt(), keycol))
      ensures r == old(IndexAnswer(v))
      ensures r.Err? ==> index.tree == old(index.tree) && index.pages == old(index.pages)
      ensures r.Ok? ==> forall x ::
        M.Lookup(index.tree, x) == if Ok(x) == RankOf(Kt(), v) then Some(rid) else M.Lookup(old(index.tree), x)
    {
      hide Sound, Complete, F.TreeFile, F.Step, M.Lookup;
      if !indexFile {
        return Err(StorageError);
      }
      ghost var t := index.tree;
      r := AddKey(index, v, rid, Kt());
      if tracked {
        if r.Ok? {
          BothAfterInsert(t, index.tree, h, cols, Kt(), keycol, raw, values, heap.pageSize, RankOf(Kt(), v).value);
        } else {
          SoundAfterInsert(t, h, cols, Kt(), keycol, raw, heap.pageSize);
        }
      }
    }

    // A record the heap takes: it encodes and fits an empty page.
    ghost predicate Appends(record: map<string, Value>) {
      && RecordBytes(cols, record).Ok? && PageSizeOk(heap.pageSize)
      && H.CanFit([], |RecordBytes(cols, record).value|, heap.pageSize)
    }

    // It has a suitable value for every column, and its bytes and an entry fit under a
    // page size the heap accepts.
    lemma AppendsExact(record: map<string, Value>)
      ensures Appends(record) <==>
        && (forall i :: 0 <= i < |cols| ==> cols[i].name in record && Suits(cols[i], record[cols[i].name]))
        && 8 < heap.pageSize <= 65535
        && 8 + 6 + (|cols| + 7) / 8
           + Formats.FieldSizes(seq(|cols|, i requires 0 <= i < |cols| => ValueFor(i, record))) <= heap.pageSize
    {
      hide Suits, Formats.FieldSizes, RecordBytes, RecordValues;
      RecordExact(cols, record);
      if RecordBytes(cols, record).Ok? {
        assert RecordValues(cols, record).value == seq(|cols|, i requires 0 <= i < |cols| => ValueFor(i, record)) by {
          assert RecordValues(cols, record).Ok?;
        }
      }
    }

    // The record's value for column i.
    function ValueFor(i: nat, record: map<string, Value>): Value
      requires i < |cols|
    {
      if cols[i].name in record then record[cols[i].name] else NullValue
    }

    // The value the index takes its key from.
    function KeyValue(record: map<string, Value>): Value
      reads this
    {
      if keycol < |cols| && cols[keycol].name in record then record[cols[keycol].name] else NullValue
    }

    // Encodes the record, appends it to the heap, then adds its key to the index. It
    // returns normally exactly when the heap takes the record and the index, if there
    // is one, the key. A refused key leaves the row in the heap and out of the index.
    method Insert(record: map<string, Value>) returns (r: Result<Rid>)
      requires Valid() && Room()
      modifies heap, index, this`complete
      ensures Valid()
      ensures r.Ok? <==> Appends(record) && (index == null || old(IndexAnswer(KeyValue(record))).Ok?)
      ensures heap.heap ==
        if Appends(record) then H.After(old(heap.heap), H.Insert(RecordBytes(cols, record).value), heap.pageSize)
        else old(heap.heap)
      ensures RecordBytes(cols, record).Err? || !PageSizeOk(heap.pageSize) ==> r == Err(StorageError)
      ensures RecordBytes(cols, record).Ok? && PageSizeOk(heap.pageSize) && !Appends(record) ==> r == Err(PageFull)
      ensures Appends(record) && r.Err? ==> index != null && r == Err(old(IndexAnswer(KeyValue(record))).error)
      ensures r.Err? && index != null ==> index.tree == old(index.tree) && index.pages == old(index.pages)
      ensures r.Ok? && index != null ==> forall x ::
        M.Lookup(index.tree, x) == if Ok(x) == RankOf(Kt(), KeyValue(record)) then Some(r.value)
                                   else M.Lookup(old(index.tree), x)
      ensures forall rid :: H.Live(old(heap.heap), rid) ==>
        GetRow(heap.heap, cols, rid) == GetRow(old(heap.heap), cols, rid)
      ensures r.Ok? ==>
        && !H.Allocated(old(heap.heap), r.value)
        && r == H.Perform(old(heap.heap), H.Insert(RecordBytes(cols, record).value), heap.pageSize).1
        && GetRow(heap.heap, cols, r.value) == RecordValues(cols, record)
        && complete == old(complete)
    {
      hide Sound, Complete, Typed, GetRow, RecordValues, RecordBytes, H.Perform, H.ApplyAll, F.TreeFile,
           PageLayout.Shows, AddAnswer, M.Lookup, PageSizeOk, H.CanFit, H.Allocated, H.Live, H.After, DecodeTuple,
           HeapFile.Valid, BPlusTree.Valid, BPlusTree.Room;
      ghost var was := complete;
      complete := false;
      var raw := EncodeRecord(record);
      if raw.Err? {
        return Err(StorageError);
      }
      ghost var values := RecordValues(cols, record).value;
      ghost var h := heap.heap;
      r := AddRow(raw.value, values);
      if r.Err? {
        return;
      }
      complete := was;
      if index != null {
        var done := IndexRow(record[cols[keycol].name], r.value, raw.value, values, h);
        if done.Err? {
          complete := false;
          return Err(done.error);
        }
      }
    }

    // Overwrites or relocates a row. The index is not told.
    method Update(rid: Rid, record: map<string, Value>) returns (r: Result<Rid>)
      requires Valid()
      modifies heap, this`tracked
      ensures Valid()
      ensures RecordBytes(cols, record).Err? ==> r == Err(StorageError) && heap.heap == old(heap.heap)
      ensures RecordBytes(cols, record).Ok? ==>
        Did(old(heap.heap), old(heap.log), H.Update(rid, RecordBytes(cols, record).value), heap.pageSize, heap.heap,
            heap.log, r)
      ensures r.Ok? ==> GetRow(heap.heap, cols, r.value) == RecordValues(cols, record)
      ensures tracked == (old(tracked) && r.Err?)
    {
      hide Sound, Complete, Typed, GetRow, RecordValues, RecordBytes, H.Perform, H.ApplyAll, F.TreeFile,
           PageLayout.Shows,
           HeapFileStore.Did;
      var raw := EncodeRecord(record);
      if raw.Err? {
        return Err(StorageError);
      }
      ghost var h := heap.heap;
      r := heap.Update(rid, raw.value);
      TypedAfter(h, cols, H.Update(rid, raw.value), heap.pageSize);
      if r.Err? {
        H.RaisingChangesNothing(h, H.Update(rid, raw.value), heap.pageSize);
      } else {
        tracked := false;
        RowAfter(h, cols, H.Update(rid, raw.value), heap.pageSize, r.value);
      }
    }

    // Tombstones a row. The index is not told.
    method Delete(rid: Rid) returns (r: Result<Rid>)
      requires Valid()
      modifies heap, this`tracked
      ensures Valid()
      ensures Did(old(heap.heap), old(heap.log), H.Delete(rid), heap.pageSize, heap.heap, heap.log, r)
      ensures tracked == (old(tracked) && r.Err?)
    {
      ghost var h := heap.heap;
      r := heap.Delete(rid);
      TypedAfter(h, cols, H.Delete(rid), heap.pageSize);
      if r.Err? {
        H.RaisingChangesNothing(h, H.Delete(rid), heap.pageSize);
      } else {
        tracked := false;
      }
    }

    // The first column of a name.
    ghost predicate IsColumn(kc: nat, name: string) {
      kc < |cols| && cols[kc].name == name && forall i :: 0 <= i < kc ==> cols[i].name != name
    }

    // The position of the named column.
    method FindColumn(name: string) returns (r: Option<nat>)
      ensures r.Some? ==> IsColumn(r.value, name)
      ensures r.None? ==> forall i :: 0 <= i < |cols| ==> cols[i].name != name
    {
      for i := 0 to |cols|
        invariant forall j :: 0 <= j < i ==> cols[j].name != name
      {
        if cols[i].name == name {
          return Some(i);
        }
      }
      return None;
    }

    // The header of a new index over a column.
    function NewHeader(kc: nat): Header
      requires kc < |cols|
    {
      Header(if cols[kc].colType == IntType then KEY_TYPE_INT
             else KEY_TYPE_TEXT, TEXT_KEY_CAP_DEFAULT, 1, cols[kc].name)
    }

    ghost function NewFanout(kc: nat): M.Fan
      requires kc < |cols|
    {
      var width := SlotWidth(KeyTypeFor(cols[kc].colType));
      M.Fan(LeafMax(heap.pageSize, width), InnerMax(heap.pageSize, width))
    }

    // One leaf entry fits a page, and the u32 page ids last for the rows there are.
    ghost predicate CanIndex(kc: nat)
      requires kc < |cols|
      reads heap
    {
      var fan := NewFanout(kc);
      && fan.leafMax >= 1 && fan.innerMax >= 1 && |heap.heap| < U32_LIMIT
      && forall rows :: IsScan(heap.heap, cols, rows) ==> RoomFor(rows, KeyTypeFor(cols[kc].colType), kc, fan)
    }

    // Builds an index over a column from a scan, replacing the old index file first. It
    // returns normally exactly when the column is there, its header fits a page and the
    // keys of the live rows encode and are pairwise distinct. When it fails past the
    // name, the old index has lost its file.
    method BuildIndex(name: string) returns (r: Result<()>)
      requires Valid() && heap.pageSize < U16_LIMIT
      requires forall kc :: IsColumn(kc, name) ==> CanIndex(kc)
      modifies this
      ensures Valid()
      ensures r.Ok? ==> index != null && fresh(index) && IsColumn(keycol, name) && indexFile && tracked && complete
      ensures r.Ok? ==>
        index.meta == IndexPages.Meta(if cols[keycol].colType == IntType then 0 else 1, 128, name, heap.pageSize)
      ensures r.Err? ==> index == old(index) && keycol == old(keycol)
      ensures (forall i :: 0 <= i < |cols| ==> cols[i].name != name) ==>
        r == Err(StorageError) && indexFile == old(indexFile)
      ensures forall kc :: IsColumn(kc, name) ==>
        && (r.Ok? <==> Utf8Size(name) <= 255 && 19 + Utf8Size(name) <= heap.pageSize
                       && Indexable(heap.heap, cols, kc))
        && (r.Err? ==> !indexFile)
        && (r == Err(DuplicateKey) ==> SharedKey(heap.heap, cols, kc))
    {
      hide IsScan, Sound, Complete, SharedKey, Indexable, F.TreeFile, PageLayout.Shows, GetRow, LeafMax, InnerMax,
           EncodeHeader, RoomFor, Typed;
      var col := FindColumn(name);
      if col.None? {
        return Err(StorageError);
      }
      var kc := col.value;
      assert forall k :: IsColumn(k, name) ==> k == kc;
      indexFile := false;
      var built := NewIndex(kc);
      if built.Err? {
        return Err(built.error);
      }
      index, keycol, indexFile, tracked, complete := built.value, kc, true, true, true;
      return Ok(());
    }

    // A new index holding the key of every live row.
    method NewIndex(kc: nat) returns (r: Result<BPlusTree>)
      requires heap.Valid() && Typed(heap.heap, cols) && heap.pageSize < U16_LIMIT && kc < |cols| && CanIndex(kc)
      ensures r.Ok? <==>
        && Utf8Size(cols[kc].name) <= 255 && 19 + Utf8Size(cols[kc].name) <= heap.pageSize
        && Indexable(heap.heap, cols, kc)
      ensures r == Err(DuplicateKey) ==> SharedKey(heap.heap, cols, kc)
      ensures r.Ok? ==>
        var t, kt := r.value, KeyTypeFor(cols[kc].colType);
        && fresh(t) && t.Valid() && t.pageSize == heap.pageSize && t.Kt() == kt
        && t.meta == IndexPages.Meta(if cols[kc].colType == IntType then 0 else 1, 128, cols[kc].name, heap.pageSize)
        && Sound(t.tree, heap.heap, cols, kt, kc) && Complete(t.tree, heap.heap, cols, kt, kc)
    {
      hide IsScan, Sound, Complete, SharedKey, Indexable, F.TreeFile, PageLayout.Shows, GetRow, LeafMax, InnerMax,
           EncodeHeader, RoomFor, Typed;
      var kt := KeyTypeFor(cols[kc].colType);
      var header := NewHeader(kc);
      var created := BPlusTree.Create(heap.pageSize, header.keyType, header.cap, header.col);
      if created.Err? {
        return Err(StorageError);
      }
      var tree := created.value;
      var rows := Scan();
      var filled := Populate(tree, rows.value, kt, kc);
      if filled.Err? {
        return Err(filled.error);
      }
      return Ok(tree);
    }

    // Inserts the key of every row into a new index.
    method Populate(tree: BPlusTree, rows: seq<Row>, kt: KeyType, kc: nat) returns (r: Result<()>)
      requires heap.Valid() && kc < |cols| && kt == KeyTypeFor(cols[kc].colType) && IsScan(heap.heap, cols, rows)
      requires tree.Valid() && tree.Kt() == kt && tree.tree == F.EMPTY_TREE && tree.View() == F.EmptyFile()
      requires |heap.heap| < U32_LIMIT && RoomFor(rows, kt, kc, tree.Fanout())
      modifies tree
      ensures tree.Valid()
      ensures r.Ok? <==> Indexable(heap.heap, cols, kc)
      ensures r.Ok? ==> Sound(tree.tree, heap.heap, cols, kt, kc) && Complete(tree.tree, heap.heap, cols, kt, kc)
      ensures r.Ok? ==> Encodable(rows, kt, kc) && (tree.View(), tree.tree) == IndexOf(rows, kt, kc, tree.Fanout())
      ensures r == Err(DuplicateKey) ==> SharedKey(heap.heap, cols, kc)
    {
      hide IsScan, Sound, Complete, SharedKey, F.TreeFile, Binds, KeysOf, GetRow, RoomFor, Encodable, IndexOf, F.Step,
           Indexable,
           M.Lookup, H.Live;
      ghost var keys: seq<int> := [];
      NoRowsYet(rows, kt, kc, tree.Fanout());
      for i := 0 to |rows|
        invariant tree.Valid() && tree.Kt() == kt
        invariant |keys| == i && KeysOf(rows[..i], kt, kc, keys) && Binds(tree.tree, keys, RidsOf(rows[..i]))
        invariant Encodable(rows[..i], kt, kc) && (tree.View(), tree.tree) == IndexOf(rows[..i], kt, kc, tree.Fanout())
      {
        var row := rows[i];
        ScanRow(heap, cols, rows, i);
        RoomAt(rows, i, kt, kc, tree.Fanout());
        ghost var t := tree.tree;
        var done := AddKey(tree, row.values[kc], row.rid, kt);
        if done.Err? {
          AddRefused(heap, cols, rows, i, t, keys, kc);
          return Err(done.error);
        }
        ghost var k := RankOf(kt, row.values[kc]).value;
        OneMoreRow(t, tree.tree, rows, i, kt, kc, keys, k);
        EncodableMore(rows, i, kt, kc);
        IndexOfMore(rows, i, kt, kc, tree.Fanout());
        keys := keys + [k];
      }
      assert rows[..|rows|] == rows;
      BindsScan(tree.tree, rows, keys, heap.heap, cols, kt, kc);
      CompleteIsIndexable(tree.tree, heap.heap, cols, kc);
      return Ok(());
    }

    // The row id the attached index gives a key. On a tracked index it is a live
    // row that carries the key; on a complete one, every such row is found: the
    // index is exactly the key to row id map of the scan.
    method Search(v: Value) returns (r: Result<Rid>)
      requires Valid() && index != null
      ensures !indexFile ==> r == Err(StorageError)
      ensures indexFile && tracked && r.Ok? ==>
        GetRow(heap.heap, cols, r.value).Ok? && GetRow(heap.heap, cols, r.value).value[keycol] == v
      ensures indexFile && tracked && complete ==> forall rid ::
        r == Ok(rid) <==> GetRow(heap.heap, cols, rid).Ok? && GetRow(heap.heap, cols, rid).value[keycol] == v
    {
      if !indexFile {
        return Err(StorageError);
      }
      r := index.Search(v);
      if tracked && r.Ok? {
        ghost var k := KeyRank(Kt(), v).value;
        assert Carries(Kt(), keycol, GetRow(heap.heap, cols, r.value), k);
        KeyRankInjective(Kt(), v, GetRow(heap.heap, cols, r.value).value[keycol]);
      }
    }
  }

  // A page has few enough slots for their ids to fit their u32.
  lemma SlotsBelow(heap: HeapFile)
    requires heap.Valid()
    ensures forall i :: 0 <= i < |heap.heap| ==> |heap.heap[i]| < U16_LIMIT
  {
    forall i | 0 <= i < |heap.heap| ensures |heap.heap[i]| < U16_LIMIT {
      assert PageLayout.Shows(heap.pages[i], heap.heap[i]);
    }
  }

  lemma NoRowsYet(rows: seq<Row>, kt: KeyType, kc: nat, fan: M.Fan)
    requires fan.leafMax >= 1 && fan.innerMax >= 1
    ensures KeysOf(rows[..0], kt, kc, []) && Binds(F.EMPTY_TREE, [], RidsOf(rows[..0]))
    ensures Encodable(rows[..0], kt, kc) && IndexOf(rows[..0], kt, kc, fan) == (F.EmptyFile(), F.EMPTY_TREE)
  {
  }

  lemma RoomAt(rows: seq<Row>, i: nat, kt: KeyType, kc: nat, fan: M.Fan)
    requires fan.leafMax >= 1 && fan.innerMax >= 1 && RoomFor(rows, kt, kc, fan) && i < |rows|
    requires Encodable(rows[..i], kt, kc)
    ensures var (f, t) := IndexOf(rows[..i], kt, kc, fan); |f| + F.Height(t) + 2 <= U32_LIMIT
  {
  }

  lemma OneMoreRow(t: M.Tree, u: M.Tree, rows: seq<Row>, i: nat, kt: KeyType, kc: nat, keys: seq<int>, k: int)
    requires i < |rows| && KeysOf(rows[..i], kt, kc, keys) && Binds(t, keys, RidsOf(rows[..i])) && M.Shaped(t)
    requires M.Shaped(u)
    requires Carries(kt, kc, Ok(rows[i].values), k) && M.Lookup(t, k).None?
    requires forall x :: M.Lookup(u, x) == if x == k then Some(rows[i].rid) else M.Lookup(t, x)
    ensures KeysOf(rows[..i + 1], kt, kc, keys + [k]) && Binds(u, keys + [k], RidsOf(rows[..i + 1]))
  {
    hide Carries, Binds, M.Lookup, M.Shaped;
    BindsOneMore(t, u, keys, RidsOf(rows[..i]), k, rows[i].rid);
    assert rows[..i + 1] == rows[..i] + [rows[i]];
    assert RidsOf(rows[..i + 1]) == RidsOf(rows[..i]) + [rows[i].rid];
  }

  lemma ScanRow(heap: HeapFile, cols: seq<Column>, rows: seq<Row>, i: nat)
    requires heap.Valid() && IsScan(heap.heap, cols, rows) && i < |rows|
    ensures GetRow(heap.heap, cols, rows[i].rid) == Ok(rows[i].values) && |rows[i].values| == |cols|
    ensures rows[i].rid.page < |heap.heap| && rows[i].rid.slot < U32_LIMIT
  {
    SlotsBelow(heap);
    assert H.Live(heap.heap, rows[i].rid);
  }

  // A key the index refuses shows that the rows were not indexable.
  lemma AddRefused(heap: HeapFile, cols: seq<Column>, rows: seq<Row>, i: nat, t: M.Tree, keys: seq<int>, kc: nat)
    requires heap.Valid() && kc < |cols| && IsScan(heap.heap, cols, rows) && i < |rows| && |rows[i].values| == |cols|
    requires var kt := KeyTypeFor(cols[kc].colType);
      && KeysOf(rows[..i], kt, kc, keys) && Binds(t, keys, RidsOf(rows[..i]))
      && AddAnswer(kt, t, rows[i].values[kc]).Err?
    ensures !Indexable(heap.heap, cols, kc)
    ensures AddAnswer(KeyTypeFor(cols[kc].colType), t, rows[i].values[kc]) == Err(DuplicateKey) ==>
      SharedKey(heap.heap, cols, kc)
  {
    hide IsScan, KeysOf, Binds, SharedKey, GetRow;
    var kt, v := KeyTypeFor(cols[kc].colType), rows[i].values[kc];
    ScanRow(heap, cols, rows, i);
    RowHasKey(heap.heap, cols, rows[i].rid, kc);
    if RankOf(kt, v).Ok? {
      SharesKey(rows, i, t, keys, heap.heap, cols, kc, RankOf(kt, v).value);
    }
  }

  // A key already bound when row i of a scan comes is that of an earlier row.
  lemma SharesKey(rows: seq<Row>, i: nat, t: M.Tree, keys: seq<int>, h: H.Heap, cols: seq<Column>, kc: nat, k: int)
    requires kc < |cols| && i < |rows| && IsScan(h, cols, rows)
    requires var kt := KeyTypeFor(cols[kc].colType);
      KeysOf(rows[..i], kt, kc, keys) && Binds(t, keys, RidsOf(rows[..i])) && RankOf(kt, rows[i].values[kc]) == Ok(k)
    requires M.Lookup(t, k).Some?
    ensures SharedKey(h, cols, kc)
  {
    var kt := KeyTypeFor(cols[kc].colType);
    var j :| 0 <= j < |keys| && keys[j] == k;
    assert Carries(kt, kc, Ok(rows[..i][j].values), k);
    KeyRankInjective(kt, rows[i].values[kc], rows[j].values[kc]);
    assert H.Before(rows[j].rid, rows[i].rid);
    assert GetRow(h, cols, rows[i].rid) == Ok(rows[i].values) && GetRow(h, cols, rows[j].rid) == Ok(rows[j].values);
  }

  // A heap insert leaves the rows that are there.
  lemma KeepsRows(h: H.Heap, cols: seq<Column>, op: H.Op, pageSize: nat, rid: Rid)
    requires op.Insert? && H.Live(h, rid)
    ensures GetRow(H.After(h, op, pageSize), cols, rid) == GetRow(h, cols, rid)
  {
    RowAfter(h, cols, op, pageSize, rid);
    if H.Perform(h, op, pageSize).1.Ok? {
      H.FreshRid(h, op, pageSize, rid);
    }
  }

  // The slot behind the first j of a page's live slots.
  function NextSlot(ids: seq<nat>, j: nat): nat
    requires j <= |ids|
  {
    if j == 0 then 0 else ids[j - 1] + 1
  }

  // Between one live slot and the next, and behind the last one, nothing is live.
  lemma NoLiveBetween(h: H.Heap, pid: nat, ids: seq<nat>, j: nat)
    requires pid < |h| && SlottedPage.LiveList(h[pid], ids) && j <= |ids|
    ensures var lo, hi := NextSlot(ids, j), (if j == |ids| then |h[pid]| else ids[j]);
      lo <= hi && forall k: nat :: lo <= k < hi ==> !H.Live(h, Rid(pid, k))
  {
    var lo, hi := NextSlot(ids, j), (if j == |ids| then |h[pid]| else ids[j]);
    forall i | 0 <= i < |ids| ensures ids[i] < lo || hi <= ids[i] {
      if i < j - 1 {
        assert ids[i] < ids[j - 1];
      } else if j < i {
        assert ids[j] < ids[i];
      }
    }
  }

  lemma ScanStep(h: H.Heap, cols: seq<Column>, rows: seq<Row>, bound: Rid, row: Row)
    requires ScanUpTo(h, cols, rows, bound) && row.rid.page == bound.page && bound.slot <= row.rid.slot
    requires GetRow(h, cols, row.rid) == Ok(row.values)
    requires forall k: nat :: bound.slot <= k < row.rid.slot ==> !H.Live(h, Rid(bound.page, k))
    ensures ScanUpTo(h, cols, rows + [row], Rid(bound.page, row.rid.slot + 1))
  {
    var all := rows + [row];
    forall rid | H.Live(h, rid) && H.Before(rid, Rid(bound.page, row.rid.slot + 1))
      ensures exists i :: 0 <= i < |all| && all[i].rid == rid
    {
      if H.Before(rid, bound) {
        var i :| 0 <= i < |rows| && rows[i].rid == rid;
        assert all[i].rid == rid;
      } else {
        assert rid == Rid(bound.page, rid.slot);
        assert all[|rows|].rid == rid;
      }
    }
  }

  lemma ScanPast(h: H.Heap, cols: seq<Column>, rows: seq<Row>, bound: Rid, next: Rid)
    requires ScanUpTo(h, cols, rows, bound) && bound.page < |h| && next == Rid(bound.page + 1, 0)
    requires forall k: nat :: bound.slot <= k < |h[bound.page]| ==> !H.Live(h, Rid(bound.page, k))
    ensures ScanUpTo(h, cols, rows, next)
  {
    forall rid | H.Live(h, rid) && H.Before(rid, next) ensures H.Before(rid, bound) {
      if rid.page == bound.page {
        assert rid == Rid(bound.page, rid.slot);
      }
    }
  }
}
