// The B+Tree over raw pages: create, search and insert, each proved to do on
// bytes what the tree model does on decoded pages, write for write.
module BPlusTreeFile {
  import opened Wrappers
  import opened Arithmetic
  import opened Bytes
  import opened KeyCodec
  import opened NodeLayout
  import opened TextOrder
  import opened IndexPages
  import M = BTreeModel
  import BTreeMap
  import BTreePages
  import BTreeShape
  import F = BTreeFile

  // Going from pages p0 and write log l0 to p and l took the raw writes logged since,
  // which are exactly the writes ws.
  ghost predicate Effect(meta: Meta, p0: seq<bytes>, l0: seq<RawWrite>, ws: seq<M.Write>, p: seq<bytes>,
                         l: seq<RawWrite>)
  {
    && |l0| <= |l| && l[..|l0|] == l0 && LogView(meta, l[|l0|..]) == ws
    && p == Replay(p0, l[|l0|..])
  }

  lemma EffectNone(meta: Meta, p: seq<bytes>, l: seq<RawWrite>)
    ensures Effect(meta, p, l, [], p, l)
  {
  }

  lemma EffectMore(meta: Meta, p0: seq<bytes>, l0: seq<RawWrite>, ws: seq<M.Write>, p: seq<bytes>, l: seq<RawWrite>,
                   raw: RawWrite)
    requires Effect(meta, p0, l0, ws, p, l)
    ensures Effect(meta, p0, l0, ws + [M.Write(raw.pid, ViewOf(meta, raw.pid, raw.data))],
                   if raw.pid < |p| then p[raw.pid := raw.data] else p + [raw.data], l + [raw])
  {
    assert (l + [raw])[|l0|..] == l[|l0|..] + [raw];
    ReplayOneMore(p0, l[|l0|..], raw);
    LogViewAppend(meta, l[|l0|..], [raw]);
  }

  // Replaying raw writes on a file shows the writes replayed on what it shows.
  lemma {:induction false} ReplayView(meta: Meta, pages: seq<bytes>, log: seq<RawWrite>)
    requires pages != []
    ensures FileView(meta, Replay(pages, log)) == BTreePages.ApplyAll(FileView(meta, pages), LogView(meta, log))
  {
    if log == [] {
    } else {
      var before, w := log[..|log| - 1], log[|log| - 1];
      ReplayView(meta, pages, before);
      assert LogView(meta, log)[..|log| - 1] == LogView(meta, before);
      PageReplayed(meta, Replay(pages, before), w);
    }
  }

  lemma PageReplayed(meta: Meta, pages: seq<bytes>, w: RawWrite)
    requires pages != []
    ensures FileView(meta, if w.pid < |pages| then pages[w.pid := w.data] else pages + [w.data])
            == BTreePages.Apply(FileView(meta, pages), M.Write(w.pid, ViewOf(meta, w.pid, w.data)))
  {
    hide HeaderView, PageView;
  }

  // So the file reached shows the model's writes replayed.
  lemma EffectView(meta: Meta, p0: seq<bytes>, l0: seq<RawWrite>, ws: seq<M.Write>, p: seq<bytes>, l: seq<RawWrite>)
    requires Effect(meta, p0, l0, ws, p, l) && p0 != []
    ensures FileView(meta, p) == BTreePages.ApplyAll(FileView(meta, p0), ws)
  {
    ReplayView(meta, p0, l[|l0|..]);
  }

  // What search raises or returns for what the tree binds a key to.
  function Answer(o: Option<Rid>): Result<Rid> {
    match o
    case Some(rid) => Ok(rid)
    case None => Err(KeyNotFound)
  }

  lemma AddedItems(kt: KeyType, es: seq<Item>, e: Item, width: nat)
    requires ItemsCanonical(kt, es) && Canonical(kt, e.key) && PackableItems(es + [e], width)
    ensures var p := M.LowerBound(Entries(kt, es), Rank(kt, e.key));
      var fs := es[..p] + [e] + es[p..];
      && PackableItems(fs, width) && ItemsCanonical(kt, fs)
      && Entries(kt, fs) == M.Added(Entries(kt, es), Rank(kt, e.key), e.rid)
  {
    var p := M.LowerBound(Entries(kt, es), Rank(kt, e.key));
    EntriesInsert(kt, es, p, e);
    var fs := es[..p] + [e] + es[p..];
    forall i | 0 <= i < |fs|
      ensures |fs[i].key| == width && fs[i].rid.page < U32_LIMIT && fs[i].rid.slot < U32_LIMIT
    {
      assert fs[i] == if i < p then (es + [e])[i] else if i == p then (es + [e])[|es|] else (es + [e])[i - 1];
    }
  }

  lemma RanksExist(kt: KeyType)
    ensures RankLow(kt) <= RankHigh(kt)
  {
    if kt.TextKey? {
      PowPositive(257, kt.cap);
    }
  }

  // The two pages a new index writes.
  lemma FirstHeader(keyType: Byte, cap: nat, col: string, pageSize: nat)
    requires EncodeHeader(Header(keyType, cap, 1, col), pageSize).Ok?
    ensures var data := EncodeHeader(Header(keyType, cap, 1, col), pageSize).value;
      |data| == pageSize && ViewOf(Meta(keyType, cap, col, pageSize), 0, data) == M.HeaderPage(1)
  {
    hide DecodeHeader;
    HeaderRoundTrip(Header(keyType, cap, 1, col), pageSize);
  }

  lemma FirstLeaf(keyType: Byte, cap: nat, col: string, pageSize: nat)
    requires EncodeHeader(Header(keyType, cap, 1, col), pageSize).Ok?
    ensures var leaf, kt := LeafNode([], 0), KeyTypeOf(keyType, cap);
      && Fits(leaf, SlotWidth(kt), pageSize) && |PageBytes(leaf, pageSize)| == pageSize
      && ViewOf(Meta(keyType, cap, col, pageSize), 1, PageBytes(leaf, pageSize)) == M.LeafPage([], 0)
  {
    hide DecodeNode;
    NodeRoundTrip(LeafNode([], 0), SlotWidth(KeyTypeOf(keyType, cap)), pageSize);
  }

  lemma ReplayTwo(a: bytes, b: bytes)
    ensures Replay([], [RawWrite(0, a), RawWrite(1, b)]) == [a, b]
  {
    var log := [RawWrite(0, a), RawWrite(1, b)];
    assert log[..1] == [RawWrite(0, a)] && log[..1][..0] == [];
    assert Replay([], log[..1]) == [a];
  }

  class BPlusTree {
    var pages: seq<bytes>           // the index file, page by page
    const pageSize: nat
    ghost const meta: Meta          // what the header says besides the root
    ghost var log: seq<RawWrite>    // the page writes made so far, oldest first
    ghost var tree: M.Tree          // the tree the header reaches

    ghost function Kt(): KeyType {
      KeyTypeOf(meta.keyType, meta.cap)
    }

    ghost function Width(): nat {
      SlotWidth(Kt())
    }

    ghost function Fanout(): M.Fan {
      M.Fan(LeafMax(pageSize, Width()), InnerMax(pageSize, Width()))
    }

    ghost function View(): seq<M.Page>
      reads this
    {
      FileView(meta, pages)
    }

    // One leaf entry fits a page.
    ghost predicate Sized() {
      meta.pageSize == pageSize < U16_LIMIT && meta.cap < U16_LIMIT && LeafMax(pageSize, Width()) >= 1
    }

    ghost predicate Valid()
      reads this
    {
      Sized() && F.TreeFile(View(), tree, Fanout(), RankLow(Kt()), RankHigh(Kt()))
    }

    constructor Blank(pageSize: nat, ghost meta: Meta)
      ensures this.pageSize == pageSize && this.meta == meta && pages == [] && log == [] && tree == F.EMPTY_TREE
    {
      this.pageSize, this.meta, pages, log := pageSize, meta, [], [];
      tree := F.EMPTY_TREE;
    }

    // A new index: the header page, then one empty leaf, which is its root.
    static method Create(pageSize: nat, keyType: Byte, cap: nat, col: string) returns (r: Result<BPlusTree>)
      ensures r.Ok? <==> cap <= 65535 && Utf8Size(col) <= 255 && 19 + Utf8Size(col) <= pageSize
      ensures r.Err? ==> r == Err(StorageError)
      ensures r.Ok? ==>
        var t := r.value;
        && fresh(t) && t.pageSize == pageSize && t.meta == Meta(keyType, cap, col, pageSize)
        && t.View() == F.EmptyFile() && t.tree == F.EMPTY_TREE
        && t.pages == Replay([], t.log)
        && LogView(t.meta, t.log) == [M.Write(0, M.HeaderPage(1)), M.Write(1, M.LeafPage([], 0))]
        && (t.Sized() ==> t.Valid())
    {
      hide F.TreeFile, ViewOf, EncodeHeader, PageBytes, Fits, Replay;
      HeaderEncodes(Header(keyType, cap, 1, col), pageSize);
      var header := EncodeHeader(Header(keyType, cap, 1, col), pageSize);
      if header.Err? {
        return Err(StorageError);
      }
      FirstHeader(keyType, cap, col, pageSize);
      FirstLeaf(keyType, cap, col, pageSize);
      var t := new BPlusTree.Blank(pageSize, Meta(keyType, cap, col, pageSize));
      t.WritePage(0, header.value);
      var leaf := EncodeNode(LeafNode([], 0), SlotWidth(KeyTypeOf(keyType, cap)), pageSize);
      t.WritePage(1, leaf.value);
      ReplayTwo(header.value, leaf.value);
      assert t.log == [RawWrite(0, header.value), RawWrite(1, leaf.value)];
      assert t.View() == F.EmptyFile();
      assert LogView(t.meta, t.log) == [M.Write(0, M.HeaderPage(1)), M.Write(1, M.LeafPage([], 0))];
      t.EmptyIsValid();
      return Ok(t);
    }

    // A file of the two first pages is an empty index.
    lemma EmptyIsValid()
      ensures Sized() && View() == F.EmptyFile() && tree == F.EMPTY_TREE ==> Valid()
    {
      hide F.TreeFile;
      if Sized() {
        LeafFitMeansInnerFit(pageSize, Width());
        RanksExist(Kt());
        F.EmptyIsTreeFile(Fanout(), RankLow(Kt()), RankHigh(Kt()));
      }
    }

    // One atomic page write; a page id equal to the page count appends.
    method WritePage(pid: nat, data: bytes)
      requires |data| == pageSize && pid <= |pages|
      modifies this`pages, this`log
      ensures pages == if pid < |old(pages)| then old(pages)[pid := data] else old(pages) + [data]
      ensures log == old(log) + [RawWrite(pid, data)]
      ensures View() == BTreePages.Apply(old(View()), M.Write(pid, ViewOf(meta, pid, data)))
    {
      FileViewUpdate(meta, pages, pid, data);
      pages := if pid < |pages| then pages[pid := data] else pages + [data];
      log := log + [RawWrite(pid, data)];
    }

    method ReadHeader() returns (r: Result<Header>)
      ensures r == if pages == [] then Err(StorageError) else DecodeHeader(pages[0])
    {
      r := if pages == [] then Err(StorageError) else DecodeHeader(pages[0]);
    }

    method ReadPage(pid: nat, width: nat) returns (r: Result<Node>)
      ensures r == if pid < |pages| then DecodeNode(pages[pid], width) else Err(StorageError)
    {
      if pid < |pages| {
        r := ReadNode(pages[pid], width);
      } else {
        r := Err(StorageError);
      }
    }

    // A page of the tree decodes, to the node the tree has there.
    lemma PageDecodes(t: M.Tree)
      requires BTreePages.Holds(View(), t) && t.pid > 0
      ensures t.pid < |pages| && DecodeNode(pages[t.pid], Width()).Ok?
      ensures var n := DecodeNode(pages[t.pid], Width()).value;
        NodeCanonical(Kt(), n) && NodeView(Kt(), n) == M.PageOf(t) && Packable(n, Width())
    {
      assert View()[t.pid] == ViewOf(meta, t.pid, pages[t.pid]);
      DecodedPackable(pages[t.pid], Width());
    }

    lemma HeaderDecodes()
      requires Valid()
      ensures pages != [] && |pages[0]| == pageSize
      ensures DecodeHeader(pages[0]) == Ok(Header(meta.keyType, meta.cap, tree.pid, meta.col))
    {
      assert View()[0] == ViewOf(meta, 0, pages[0]);
    }

    // Encodes a node and writes its page, after the writes ws made since p0 and l0.
    method WriteNode(pid: nat, node: Node, kt: KeyType, ghost p0: seq<bytes>, ghost l0: seq<RawWrite>,
                     ghost ws: seq<M.Write>)
      requires kt == Kt() && 0 < pid <= |pages|
      requires Fits(node, Width(), pageSize) && NodeCanonical(kt, node)
      requires Effect(meta, p0, l0, ws, pages, log)
      modifies this`pages, this`log
      ensures Effect(meta, p0, l0, ws + [M.Write(pid, NodeView(kt, node))], pages, log)
      ensures |pages| == |old(pages)| + if pid == |old(pages)| then 1 else 0
    {
      var r := EncodeNode(node, SlotWidth(kt), pageSize);
      NodeRoundTrip(node, SlotWidth(kt), pageSize);
      EffectMore(meta, p0, l0, ws, pages, log, RawWrite(pid, r.value));
      WritePage(pid, r.value);
    }

    // ----------------------------------------------------------------
    // Search
    // ----------------------------------------------------------------

    // The first child whose separator is above the key.
    method ChildIndex(key: bytes, keys: seq<bytes>, kt: KeyType) returns (i: nat)
      requires Canonical(kt, key) && KeysCanonical(kt, keys)
      ensures i <= |keys| && i == M.ChildIndex(Ranks(kt, keys), Rank(kt, key))
    {
      ghost var ranks, k := Ranks(kt, keys), Rank(kt, key);
      i := 0;
      while i < |keys|
        invariant 0 <= i <= |keys| && M.ChildIndex(ranks, k) == M.ChildIndex(ranks, k, i)
      {
        CompareIsRank(kt, key, keys[i]);
        if Compare(kt, key, keys[i]) < 0 {
          return;
        }
        i := i + 1;
      }
    }

    method SearchRecursive(key: bytes, pid: nat, kt: KeyType, ghost t: M.Tree) returns (r: Result<Rid>)
      requires kt == Kt() && Canonical(kt, key) && pid == t.pid
      requires BTreePages.Holds(View(), t) && M.Shaped(t) && BTreePages.Uses(t, 0) == 0
      ensures r == Answer(M.Lookup(t, Rank(kt, key)))
      decreases t
    {
      PageDecodes(t);
      var read := ReadPage(pid, SlotWidth(kt));
      match read.value {
        case LeafNode(es, _) =>
          r := FindInLeaf(key, es, kt);
        case InnerNode(keys, children) =>
          var i := ChildIndex(key, keys, kt);
          BTreePages.ChildUses(t, i, 0);
          r := SearchRecursive(key, children[i], kt, t.kids[i]);
      }
    }

    // Scan for an exact match of the key's bytes.
    method FindInLeaf(key: bytes, es: seq<Item>, kt: KeyType) returns (r: Result<Rid>)
      requires Canonical(kt, key) && ItemsCanonical(kt, es)
      ensures r == Answer(M.LeafFind(Entries(kt, es), Rank(kt, key)))
    {
      hide Rank, Compare;
      ghost var all, k := Entries(kt, es), Rank(kt, key);
      assert all[0..] == all;
      for i := 0 to |es|
        invariant M.LeafFind(all, k) == M.LeafFind(all[i..], k)
      {
        CompareIsRank(kt, key, es[i].key);
        if es[i].key == key {
          return Ok(es[i].rid);
        }
      }
      assert all[|es|..] == [];
      return Err(KeyNotFound);
    }

    // The row id search gives a key is the one the tree binds it to. An INT key is
    // bound as the number it is.
    method Search(v: Value) returns (r: Result<Rid>)
      requires Valid()
      ensures !HasKey(Kt(), v) ==> r == Err(Refusal(Kt(), v))
      ensures HasKey(Kt(), v) ==>
        r == match M.Lookup(tree, KeyRank(Kt(), v).value) case Some(rid) => Ok(rid) case None => Err(KeyNotFound)
      ensures Kt().IntKey? && v.IntValue? && -2147483648 <= v.i <= 2147483647 ==>
        r == match M.Lookup(tree, v.i) case Some(rid) => Ok(rid) case None => Err(KeyNotFound)
    {
      EncodesKeys(Kt(), v);
      if Kt().IntKey? && HasKey(Kt(), v) {
        IntKeyRank(v.i);
      }
      HeaderDecodes();
      var read := ReadHeader();
      var hdr := read.value;
      var kt := KeyTypeOf(hdr.keyType, hdr.cap);
      match EncodeKey(kt, v) {
        case Err(e) => return Err(e);
        case Ok(key) =>
          EncodedIsCanonical(kt, v);
          F.TreeFileShape(View(), tree, Fanout(), RankLow(kt), RankHigh(kt));
          r := SearchRecursive(key, hdr.root, kt, tree);
      }
    }

    // ----------------------------------------------------------------
    // Insert
    // ----------------------------------------------------------------

    // The first entry not below the key, and whether it is the key itself.
    method InsertPosition(key: bytes, es: seq<Item>, kt: KeyType) returns (p: nat, dup: bool)
      requires Canonical(kt, key) && ItemsCanonical(kt, es)
      ensures p <= |es| && p == M.LowerBound(Entries(kt, es), Rank(kt, key))
      ensures dup <==> p < |es| && Entries(kt, es)[p].key == Rank(kt, key)
    {
      ghost var all, k := Entries(kt, es), Rank(kt, key);
      p, dup := 0, false;
      while p < |es|
        invariant 0 <= p <= |es| && !dup && M.LowerBound(all, k) == M.LowerBound(all, k, p)
      {
        CompareIsRank(kt, key, es[p].key);
        var c := Compare(kt, key, es[p].key);
        if c == 0 {
          dup := true;
          return;
        }
        if c < 0 {
          return;
        }
        p := p + 1;
      }
    }

    // What an insertion outcome of the model means for the raw file.
    ghost predicate Did(c: M.Ins, p0: seq<bytes>, l0: seq<RawWrite>, kt: KeyType, r: Result<Option<(bytes, nat)>>)
      reads this
    {
      match c
      case Dup => r == Err(DuplicateKey) && pages == p0 && log == l0
      case Done(_, _, ws) => r == Ok(None) && Effect(meta, p0, l0, ws, pages, log)
      case Split(_, sep, right, _, ws) =>
        && r.Ok? && r.value.Some? && Canonical(kt, r.value.value.0) && Rank(kt, r.value.value.0) == sep
        && r.value.value.1 == right.pid
        && Effect(meta, p0, l0, ws, pages, log)
    }

    method LeafInsert(es: seq<Item>, next: nat, key: bytes, rid: Rid, pid: nat, kt: KeyType, ghost t: M.Tree)
        returns (r: Result<Option<(bytes, nat)>>)
      requires Sized() && kt == Kt() && Canonical(kt, key) && rid.page < U32_LIMIT && rid.slot < U32_LIMIT
      requires t.Leaf? && pid == t.pid && 0 < pid < |pages| < U32_LIMIT
      requires Packable(LeafNode(es, next), Width()) && ItemsCanonical(kt, es)
      requires Entries(kt, es) == t.entries && next == t.next && |es| <= Fanout().leafMax
      modifies this`pages, this`log
      ensures Did(M.LeafInsert(t, Rank(kt, key), rid, |old(pages)|, Fanout()), old(pages), old(log), kt, r)
      ensures r.Err? ==> pages == old(pages)
    {
      var p, dup := InsertPosition(key, es, kt);
      if dup {
        return Err(DuplicateKey);
      }
      var fs := es[..p] + [Item(key, rid)] + es[p..];
      AddedItems(kt, es, Item(key, rid), Width());
      if |fs| <= LeafMax(pageSize, SlotWidth(kt)) {
        LeafStay(fs, next, pid, kt);
        return Ok(None);
      }
      r := LeafSplit(fs, next, pid, kt, M.Leaf(pid, Entries(kt, fs), next));
    }

    // The leaf still fits its page: it is rewritten in place.
    method LeafStay(fs: seq<Item>, next: nat, pid: nat, kt: KeyType)
      requires Sized() && kt == Kt() && 0 < pid < |pages|
      requires PackableItems(fs, Width()) && next < U32_LIMIT && ItemsCanonical(kt, fs) && |fs| <= Fanout().leafMax
      modifies this`pages, this`log
      ensures Effect(meta, old(pages), old(log), [M.Write(pid, M.LeafPage(Entries(kt, fs), next))], pages, log)
    {
      FanoutIsU16(pageSize, Width());
      FanoutFits(LeafNode(fs, next), Width(), pageSize);
      EffectNone(meta, pages, log);
      WriteNode(pid, LeafNode(fs, next), kt, pages, log, []);
      assert [] + [M.Write(pid, M.LeafPage(Entries(kt, fs), next))]
        == [M.Write(pid, M.LeafPage(Entries(kt, fs), next))];
    }

    // Copy-up split of an overfull leaf: the right half goes to a new page first,
    // then the left half over the old one.
    method LeafSplit(fs: seq<Item>, next: nat, pid: nat, kt: KeyType, ghost full: M.Tree)
        returns (r: Result<Option<(bytes, nat)>>)
      requires Sized() && kt == Kt() && 0 < pid < |pages| < U32_LIMIT
      requires PackableItems(fs, Width()) && next < U32_LIMIT && ItemsCanonical(kt, fs)
      requires |fs| == Fanout().leafMax + 1 && full == M.Leaf(pid, Entries(kt, fs), next)
      modifies this`pages, this`log
      ensures var mid, n := |fs| / 2, |old(pages)|;
        var right, left := M.Leaf(n, full.entries[mid..], next), M.Leaf(pid, full.entries[..mid], n);
        && r.Ok? && r.value.Some? && r.value.value == (fs[mid].key, n)
        && Effect(meta, old(pages), old(log), [M.Write(n, M.PageOf(right)), M.Write(pid, M.PageOf(left))], pages, log)
    {
      var mid := |fs| / 2;
      var rightPid := |pages|;
      var right, left := LeafNode(fs[mid..], next), LeafNode(fs[..mid], rightPid);
      EntriesSplit(kt, fs, mid);
      FanoutIsU16(pageSize, Width());
      FanoutFits(right, Width(), pageSize);
      FanoutFits(left, Width(), pageSize);
      EffectNone(meta, pages, log);
      ghost var p0, l0 := pages, log;
      ghost var v, w := M.Write(rightPid, NodeView(kt, right)), M.Write(pid, NodeView(kt, left));
      WriteNode(rightPid, right, kt, p0, l0, []);
      WriteNode(pid, left, kt, p0, l0, [v]);
      assert [] + [v] == [v] && [v] + [w] == [v, w];
      return Ok(Some((fs[mid].key, rightPid)));
    }

    // Puts a split child's separator and right page into its parent, splitting
    // the parent in turn (push-up) when it overflows.
    method InnerInsert(keys: seq<bytes>, children: seq<nat>, sep: bytes, rightPid: nat, i: nat, pid: nat, kt: KeyType,
                       ghost t: M.Tree, ghost d: M.Ins, ghost p0: seq<bytes>, ghost l0: seq<RawWrite>)
        returns (r: Result<Option<(bytes, nat)>>)
      requires Sized() && kt == Kt() && Canonical(kt, sep) && rightPid < U32_LIMIT
      requires t.Node? && i < |t.kids| == |t.keys| + 1 && pid == t.pid && 0 < pid < |pages| < U32_LIMIT
      requires Packable(InnerNode(keys, children), Width()) && KeysCanonical(kt, keys) && |keys| <= Fanout().innerMax
      requires Ranks(kt, keys) == t.keys && children == M.KidPids(t.kids)
      requires d.Split? && Rank(kt, sep) == d.sep && rightPid == d.right.pid && d.left.pid == t.kids[i].pid
      requires |pages| == d.size && Effect(meta, p0, l0, d.ws, pages, log)
      modifies this`pages, this`log
      ensures Did(M.InnerInsert(t, i, d, Fanout()), p0, l0, kt, r)
    {
      hide BTreePages.ApplyAll, LeafMax, InnerMax;
      var ks := keys[..i] + [sep] + keys[i..];
      var cs := children[..i + 1] + [rightPid] + children[i + 1..];
      ghost var u := M.Widened(t, i, d.left, d.sep, d.right);
      WidenedNode(kt, keys, children, sep, t, i, d, Width());
      if |ks| <= InnerMax(pageSize, SlotWidth(kt)) {
        InnerStay(ks, cs, pid, kt, p0, l0, d.ws);
        return Ok(None);
      }
      r := InnerSplit(ks, cs, pid, kt, u, p0, l0, d.ws);
    }

    method InnerStay(ks: seq<bytes>, cs: seq<nat>, pid: nat, kt: KeyType,
                     ghost p0: seq<bytes>, ghost l0: seq<RawWrite>, ghost ws: seq<M.Write>)
      requires Sized() && kt == Kt() && 0 < pid <= |pages|
      requires OfWidth(ks, Width()) && AllU32(cs) && |cs| == |ks| + 1 && KeysCanonical(kt, ks)
      requires |ks| <= Fanout().innerMax
      requires Effect(meta, p0, l0, ws, pages, log)
      modifies this`pages, this`log
      ensures Effect(meta, p0, l0, ws + [M.Write(pid, M.InnerPage(Ranks(kt, ks), cs))], pages, log)
    {
      FanoutIsU16(pageSize, Width());
      LeafFitMeansInnerFit(pageSize, Width());
      FanoutFits(InnerNode(ks, cs), Width(), pageSize);
      WriteNode(pid, InnerNode(ks, cs), kt, p0, l0, ws);
    }

    // Push-up split of an overfull internal node, right half first.
    method InnerSplit(ks: seq<bytes>, cs: seq<nat>, pid: nat, kt: KeyType, ghost u: M.Tree,
                      ghost p0: seq<bytes>, ghost l0: seq<RawWrite>, ghost ws: seq<M.Write>)
        returns (r: Result<Option<(bytes, nat)>>)
      requires Sized() && kt == Kt() && 0 < pid < |pages| < U32_LIMIT
      requires OfWidth(ks, Width()) && AllU32(cs) && |cs| == |ks| + 1 && KeysCanonical(kt, ks)
      requires |ks| == Fanout().innerMax + 1
      requires u.Node? && u.pid == pid && |u.kids| == |u.keys| + 1 && M.PageOf(u) == M.InnerPage(Ranks(kt, ks), cs)
      requires Effect(meta, p0, l0, ws, pages, log)
      modifies this`pages, this`log
      ensures var mid, n := |ks| / 2, |old(pages)|;
        && r.Ok? && r.value.Some? && r.value.value == (ks[mid], n)
        && Effect(meta, p0, l0, ws + [M.Write(n, M.PageOf(M.RightHalf(u, n))), M.Write(pid, M.PageOf(M.LeftHalf(u)))],
            pages, log)
    {
      hide Effect, LeafMax, InnerMax;
      var mid := |ks| / 2;
      var newPid := |pages|;
      var left, right := InnerNode(ks[..mid], cs[..mid + 1]), InnerNode(ks[mid + 1..], cs[mid + 1..]);
      LeafFitMeansInnerFit(pageSize, Width());
      FanoutIsU16(pageSize, Width());
      HalvesNodes(kt, ks, cs, u, newPid);
      FanoutFits(right, Width(), pageSize);
      FanoutFits(left, Width(), pageSize);
      ghost var v, w := M.Write(newPid, NodeView(kt, right)), M.Write(pid, NodeView(kt, left));
      WriteNode(newPid, right, kt, p0, l0, ws);
      WriteNode(pid, left, kt, p0, l0, ws + [v]);
      assert ws + [v] + [w] == ws + [v, w];
      return Ok(Some((ks[mid], newPid)));
    }

    method InsertRecursive(key: bytes, rid: Rid, pid: nat, kt: KeyType, ghost t: M.Tree, ghost root: bool)
        returns (r: Result<Option<(bytes, nat)>>)
      requires Sized() && kt == Kt() && Canonical(kt, key) && rid.page < U32_LIMIT && rid.slot < U32_LIMIT
      requires pid == t.pid && M.Shaped(t) && BTreePages.Uses(t, 0) == 0
      requires BTreePages.Holds(View(), t) && BTreePages.Disjoint(t) && BTreeShape.Filled(t, Fanout(), root)
      requires |pages| < U32_LIMIT
      requires var c := M.Insert(t, Rank(kt, key), rid, |pages|, Fanout()); c.Dup? || c.size < U32_LIMIT
      modifies this`pages, this`log
      ensures Did(M.Insert(t, Rank(kt, key), rid, |old(pages)|, Fanout()), old(pages), old(log), kt, r)
      ensures r.Err? ==> pages == old(pages)
      decreases t
    {
      PageDecodes(t);
      var read := ReadPage(pid, SlotWidth(kt));
      match read.value {
        case LeafNode(es, next) =>
          r := LeafInsert(es, next, key, rid, pid, kt, t);
        case InnerNode(keys, children) =>
          var i := ChildIndex(key, keys, kt);
          ghost var n := |pages|;
          ghost var d := M.Insert(t.kids[i], Rank(kt, key), rid, n, Fanout());
          BTreePages.ChildDisjoint(t, i);
          BTreePages.ChildUses(t, i, 0);
          ChildSize(t, Rank(kt, key), rid, n, Fanout());
          var below := InsertRecursive(key, rid, children[i], kt, t.kids[i], false);
          if below.Err? || below.value.None? {
            return below;
          }
          var (sep, rightPid) := below.value.value;
          SplitPages(old(View()), t.kids[i], Rank(kt, key), rid, Fanout());
          EffectView(meta, old(pages), old(log), d.ws, pages, log);
          r := InnerInsert(keys, children, sep, rightPid, i, pid, kt, t, d, old(pages), old(log));
      }
    }

    // The u32 page ids last for one page a level and a new root, the most an insert
    // can append.
    ghost predicate Room()
      reads this
    {
      |pages| + F.Height(tree) + 2 <= U32_LIMIT
    }

    // They do while half of them are free.
    lemma HalfIsRoom()
      requires Valid() && 2 * |pages| <= U32_LIMIT
      ensures Room()
    {
      F.HeightBelowPages(View(), tree, Fanout(), RankLow(Kt()), RankHigh(Kt()));
    }

    // What insert k -> rid did to tree t0, pages p0 and write log l0: a present
    // key is refused and nothing written. Otherwise the writes are those of the
    // model in its order, and search sees the old map with one binding more.
    ghost predicate Inserted(k: int, rid: Rid, t0: M.Tree, p0: seq<bytes>, l0: seq<RawWrite>, r: Result<()>)
      requires M.Shaped(t0)
      reads this
    {
      if M.Lookup(t0, k).Some? then r == Err(DuplicateKey) && pages == p0 && log == l0 && tree == t0
      else
        var c := M.InsertAtRoot(t0, k, rid, |p0|, Fanout());
        && r == Ok(()) && c.RootDone? && tree == c.t
        && Effect(meta, p0, l0, c.ws, pages, log)
        && forall x :: M.Lookup(tree, x) == if x == k then Some(rid) else M.Lookup(t0, x)
    }

    lemma ValidShape()
      requires Valid()
      ensures M.Shaped(tree) && BTreePages.Disjoint(tree) && BTreePages.Uses(tree, 0) == 0
    {
      F.TreeFileShape(View(), tree, Fanout(), RankLow(Kt()), RankHigh(Kt()));
    }

    method Insert(v: Value, rid: Rid) returns (r: Result<()>)
      requires Valid() && Room() && rid.page < U32_LIMIT && rid.slot < U32_LIMIT
      modifies this`pages, this`log, this`tree
      ensures Valid() && M.Shaped(old(tree))
      ensures v.NullValue? ==> r == Err(StorageError)
      ensures !v.NullValue? && !HasKey(Kt(), v) ==> r == Err(Refusal(Kt(), v))
      ensures HasKey(Kt(), v) ==> Inserted(KeyRank(Kt(), v).value, rid, old(tree), old(pages), old(log), r)
      ensures Kt().IntKey? && v.IntValue? && -2147483648 <= v.i <= 2147483647 ==>
        Inserted(v.i, rid, old(tree), old(pages), old(log), r)
      ensures r.Err? ==> pages == old(pages) && log == old(log) && tree == old(tree)
    {
      ValidShape();
      EncodesKeys(Kt(), v);
      if Kt().IntKey? && HasKey(Kt(), v) {
        IntKeyRank(v.i);
      }
      if v.NullValue? {
        return Err(StorageError);
      }
      HeaderDecodes();
      var read := ReadHeader();
      var kt := KeyTypeOf(read.value.keyType, read.value.cap);
      match EncodeKey(kt, v) {
        case Err(e) => return Err(e);
        case Ok(key) =>
          EncodedIsCanonical(kt, v);
          RankBounds(kt, key);
          forall x: nat | x < U32_LIMIT ensures EncodeHeader(read.value.(root := x), pageSize).Ok? {
            HeaderFits(pages[0], x);
          }
          r := InsertEncoded(key, rid, read.value, kt);
      }
    }

    method InsertEncoded(key: bytes, rid: Rid, hdr: Header, kt: KeyType) returns (r: Result<()>)
      requires Valid() && Room() && rid.page < U32_LIMIT && rid.slot < U32_LIMIT
      requires M.Shaped(tree) && BTreePages.Disjoint(tree) && BTreePages.Uses(tree, 0) == 0
      requires kt == Kt() && Canonical(kt, key) && RankLow(kt) <= Rank(kt, key) < RankHigh(kt)
      requires hdr == Header(meta.keyType, meta.cap, tree.pid, meta.col)
      requires forall x: nat :: x < U32_LIMIT ==> EncodeHeader(hdr.(root := x), pageSize).Ok?
      modifies this`pages, this`log, this`tree
      ensures Valid() && Inserted(Rank(kt, key), rid, old(tree), old(pages), old(log), r)
      ensures r.Err? ==> pages == old(pages)
    {
      hide FileView, LogView, BTreePages.ApplyAll, EncodeHeader, LeafMax, InnerMax, M.PageOf, M.Insert, Effect;
      ghost var k, t, f := Rank(kt, key), tree, View();
      F.CompletedInsert(f, t, k, rid, Fanout(), RankLow(kt), RankHigh(kt));
      F.InsertGrowth(t, k, rid, |f|, Fanout(), F.Height(t), RankLow(kt), RankHigh(kt));
      var below := InsertRecursive(key, rid, hdr.root, kt, tree, true);
      if below.Err? {
        return Err(below.error);
      }
      if below.value.Some? {
        SplitPages(f, t, k, rid, Fanout());
        ghost var d := M.Insert(t, k, rid, |f|, Fanout());
        EffectView(meta, old(pages), old(log), d.ws, pages, log);
        GrowRoot(below.value.value.0, below.value.value.1, hdr, kt, d, old(pages), old(log));
      }
      EffectView(meta, old(pages), old(log), M.InsertAtRoot(t, k, rid, |f|, Fanout()).ws, pages, log);
      tree := M.InsertAtRoot(t, k, rid, |f|, Fanout()).t;
      return Ok(());
    }

    // A new root over a split one, then the header, last, as the commit point.
    method GrowRoot(sep: bytes, rightPid: nat, hdr: Header, kt: KeyType,
                    ghost d: M.Ins, ghost p0: seq<bytes>, ghost l0: seq<RawWrite>)
      requires Sized() && kt == Kt() && Canonical(kt, sep) && rightPid < U32_LIMIT && 0 < |pages| < U32_LIMIT
      requires d.Split? && Rank(kt, sep) == d.sep && d.right.pid == rightPid && d.left.pid == hdr.root < U32_LIMIT
      requires |pages| == d.size && Effect(meta, p0, l0, d.ws, pages, log)
      requires hdr.keyType == meta.keyType && hdr.cap == meta.cap && hdr.col == meta.col
      requires forall x: nat :: x < U32_LIMIT ==> EncodeHeader(hdr.(root := x), pageSize).Ok?
      modifies this`pages, this`log
      ensures Effect(meta, p0, l0, M.GrowRoot(d).ws, pages, log)
    {
      var newRoot := |pages|;
      LeafFitMeansInnerFit(pageSize, Width());
      NewRootNode(kt, sep, hdr.root, rightPid, d);
      InnerStay([sep], [hdr.root, rightPid], newRoot, kt, p0, l0, d.ws);
      CommitRoot(newRoot, hdr, p0, l0, d.ws + [M.Write(newRoot, M.PageOf(M.GrowRoot(d).t))]);
      assert d.ws + [M.Write(newRoot, M.PageOf(M.GrowRoot(d).t))] + [M.Write(0, M.HeaderPage(newRoot))]
        == M.GrowRoot(d).ws;
    }

    method CommitRoot(newRoot: nat, hdr: Header, ghost p0: seq<bytes>, ghost l0: seq<RawWrite>, ghost ws: seq<M.Write>)
      requires Sized() && |pages| > 0 && newRoot < U32_LIMIT && Effect(meta, p0, l0, ws, pages, log)
      requires hdr.keyType == meta.keyType && hdr.cap == meta.cap && hdr.col == meta.col
      requires EncodeHeader(hdr.(root := newRoot), pageSize).Ok?
      modifies this`pages, this`log
      ensures Effect(meta, p0, l0, ws + [M.Write(0, M.HeaderPage(newRoot))], pages, log)
    {
      var h := hdr.(root := newRoot);
      var data := EncodeHeader(h, pageSize);
      HeaderRoundTrip(h, pageSize);
      EffectMore(meta, p0, l0, ws, pages, log, RawWrite(0, data.value));
      WritePage(0, data.value);
    }
  }

  lemma NewRootNode(kt: KeyType, sep: bytes, left: nat, right: nat, d: M.Ins)
    requires d.Split? && Canonical(kt, sep) && Rank(kt, sep) == d.sep && d.left.pid == left && d.right.pid == right
    ensures KeysCanonical(kt, [sep]) && M.PageOf(M.GrowRoot(d).t) == M.InnerPage(Ranks(kt, [sep]), [left, right])
  {
    assert Ranks(kt, [sep]) == [d.sep];
    assert M.KidPids([d.left, d.right]) == [left, right];
  }

  // Allocation below a node stays within what the node's insertion ends with.
  lemma ChildSize(t: M.Tree, k: int, r: Rid, n: nat, fan: M.Fan)
    requires t.Node? && M.Shaped(t)
    ensures var d := M.Insert(t.kids[M.ChildIndex(t.keys, k)], k, r, n, fan);
      var c := M.Insert(t, k, r, n, fan);
      (d.Dup? <==> c.Dup?) && (!d.Dup? ==> d.size <= c.size)
  {
  }

  lemma SplitPages(f: seq<M.Page>, t: M.Tree, k: int, r: Rid, fan: M.Fan)
    requires M.Shaped(t) && BTreePages.Holds(f, t) && BTreePages.Disjoint(t) && M.Insert(t, k, r, |f|, fan).Split?
    ensures var d := M.Insert(t, k, r, |f|, fan);
      |BTreePages.ApplyAll(f, d.ws)| == d.size && d.left.pid == t.pid && |f| <= d.right.pid < d.size
  {
    BTreePages.InsertWrites(f, t, k, r, fan);
    BTreePages.InsertSize(t, k, r, |f|, fan);
    if t.Node? {
      BTreePages.InsertSize(t.kids[M.ChildIndex(t.keys, k)], k, r, |f|, fan);
    }
  }

  // The edited lists of a node are the widened node of the model.
  lemma WidenedNode(kt: KeyType, keys: seq<bytes>, children: seq<nat>, sep: bytes, t: M.Tree, i: nat, d: M.Ins,
                    width: nat)
    requires t.Node? && i < |t.kids| == |t.keys| + 1 && d.Split? && d.left.pid == t.kids[i].pid
    requires KeysCanonical(kt, keys) && Canonical(kt, sep) && width == SlotWidth(kt)
    requires Ranks(kt, keys) == t.keys && children == M.KidPids(t.kids) && Rank(kt, sep) == d.sep
    requires OfWidth(keys, width) && AllU32(children) && d.right.pid < U32_LIMIT
    ensures var ks := keys[..i] + [sep] + keys[i..];
      var cs := children[..i + 1] + [d.right.pid] + children[i + 1..];
      var u := M.Widened(t, i, d.left, d.sep, d.right);
      && KeysCanonical(kt, ks) && OfWidth(ks, width) && AllU32(cs) && |cs| == |ks| + 1
      && M.PageOf(u) == M.InnerPage(Ranks(kt, ks), cs)
  {
    RanksInsert(kt, keys, i, sep);
    WidenedPids(children, t, i, d);
  }

  lemma WidenedPids(children: seq<nat>, t: M.Tree, i: nat, d: M.Ins)
    requires t.Node? && i < |t.kids| == |t.keys| + 1 && d.Split? && d.left.pid == t.kids[i].pid
    requires children == M.KidPids(t.kids)
    ensures var cs := children[..i + 1] + [d.right.pid] + children[i + 1..];
      M.KidPids(M.Widened(t, i, d.left, d.sep, d.right).kids) == cs
  {
    var u := M.Widened(t, i, d.left, d.sep, d.right);
    var cs := children[..i + 1] + [d.right.pid] + children[i + 1..];
    forall j | 0 <= j < |u.kids| ensures u.kids[j].pid == cs[j] {
      BTreeMap.WidenedAt(t, i, d.left, d.sep, d.right, j);
    }
  }

  lemma HalvesNodes(kt: KeyType, ks: seq<bytes>, cs: seq<nat>, u: M.Tree, n: nat)
    requires KeysCanonical(kt, ks) && |cs| == |ks| + 1 && ks != []
    requires u.Node? && |u.kids| == |u.keys| + 1 && M.PageOf(u) == M.InnerPage(Ranks(kt, ks), cs)
    ensures var mid := |ks| / 2;
      && mid < |ks| && KeysCanonical(kt, ks[..mid]) && KeysCanonical(kt, ks[mid + 1..])
      && M.PageOf(M.LeftHalf(u)) == NodeView(kt, InnerNode(ks[..mid], cs[..mid + 1]))
      && M.PageOf(M.RightHalf(u, n)) == NodeView(kt, InnerNode(ks[mid + 1..], cs[mid + 1..]))
  {
    var mid := |ks| / 2;
    RanksSplit(kt, ks, mid);
    assert M.KidPids(u.kids[..mid + 1]) == cs[..mid + 1];
    assert M.KidPids(u.kids[mid + 1..]) == cs[mid + 1..];
  }
}
