// Raw index pages read as the pages of the tree model: what a page's bytes mean,
// and that list edits on decoded nodes are the model's edits.
module IndexPages {
  import opened Wrappers
  import opened Bytes
  import opened KeyCodec
  import opened NodeLayout
  import M = BTreeModel

  predicate ItemsCanonical(kt: KeyType, es: seq<Item>) {
    forall i :: 0 <= i < |es| ==> Canonical(kt, es[i].key)
  }

  predicate KeysCanonical(kt: KeyType, keys: seq<bytes>) {
    forall i :: 0 <= i < |keys| ==> Canonical(kt, keys[i])
  }

  predicate NodeCanonical(kt: KeyType, n: Node) {
    match n
    case LeafNode(es, _) => ItemsCanonical(kt, es)
    case InnerNode(keys, _) => KeysCanonical(kt, keys)
  }

  function Entries(kt: KeyType, es: seq<Item>): (r: seq<M.Entry>)
    requires ItemsCanonical(kt, es)
    ensures |r| == |es|
  {
    seq(|es|, i requires 0 <= i < |es| => M.Entry(Rank(kt, es[i].key), es[i].rid))
  }

  function Ranks(kt: KeyType, keys: seq<bytes>): (r: seq<int>)
    requires KeysCanonical(kt, keys)
    ensures |r| == |keys|
  {
    seq(|keys|, i requires 0 <= i < |keys| => Rank(kt, keys[i]))
  }

  // A decoded node as a page of the model.
  function NodeView(kt: KeyType, n: Node): M.Page {
    if !NodeCanonical(kt, n) then M.BadPage
    else
      match n
      case LeafNode(es, next) => M.LeafPage(Entries(kt, es), next)
      case InnerNode(keys, children) => M.InnerPage(Ranks(kt, keys), children)
  }

  function PageView(kt: KeyType, data: bytes): M.Page {
    match DecodeNode(data, SlotWidth(kt))
    case Ok(n) => NodeView(kt, n)
    case Err(_) => M.BadPage
  }

  // What stays fixed about an index: the header fields apart from the root, and
  // the page size.
  datatype Meta = Meta(keyType: Byte, cap: nat, col: string, pageSize: nat)

  function KeyTypeOf(keyType: Byte, cap: nat): KeyType {
    if keyType == KEY_TYPE_INT then IntKey else TextKey(cap)
  }

  function HeaderView(meta: Meta, data: bytes): M.Page {
    match DecodeHeader(data)
    case Ok(h) => if Meta(h.keyType, h.cap, h.col, |data|) == meta then M.HeaderPage(h.root) else M.BadPage
    case Err(_) => M.BadPage
  }

  // One write of page pid: the header is read as a header, any other page as a node.
  function ViewOf(meta: Meta, pid: nat, data: bytes): M.Page {
    if pid == 0 then HeaderView(meta, data) else PageView(KeyTypeOf(meta.keyType, meta.cap), data)
  }

  function FileView(meta: Meta, pages: seq<bytes>): (f: seq<M.Page>)
    ensures |f| == |pages|
  {
    seq(|pages|, i requires 0 <= i < |pages| => ViewOf(meta, i, pages[i]))
  }

  datatype RawWrite = RawWrite(pid: nat, data: bytes)

  // Writes made on a file, oldest first. A page id past the end appends.
  function Replay(pages: seq<bytes>, log: seq<RawWrite>): (r: seq<bytes>)
    ensures |pages| <= |r|
  {
    if log == [] then pages
    else
      var before, w := Replay(pages, log[..|log| - 1]), log[|log| - 1];
      if w.pid < |before| then before[w.pid := w.data] else before + [w.data]
  }

  function LogView(meta: Meta, log: seq<RawWrite>): (ws: seq<M.Write>)
    ensures |ws| == |log|
  {
    seq(|log|, i requires 0 <= i < |log| => M.Write(log[i].pid, ViewOf(meta, log[i].pid, log[i].data)))
  }

  // ------------------------------------------------------------------
  // Decoded nodes are packable
  // ------------------------------------------------------------------

  lemma {:induction false} DecodedItemsPackable(data: bytes, width: nat, count: nat)
    requires count * (width + RID_PART) <= |data|
    ensures PackableItems(DecodeItems(data, width, count), width)
    decreases count
  {
    if count == 0 {
    } else {
      TimesStep(count, width + RID_PART);
      MoreFits(count - 1, width + RID_PART);
      DecodedItemsPackable(data[width + RID_PART..], width, count - 1);
    }
  }

  lemma {:induction false} DecodedPairsPackable(data: bytes, width: nat, count: nat)
    requires count * (width + CHILD) <= |data|
    ensures OfWidth(DecodeKeys(data, width, count), width) && AllU32(DecodeChildren(data, width, count))
    decreases count
  {
    if count == 0 {
    } else {
      TimesStep(count, width + CHILD);
      MoreFits(count - 1, width + CHILD);
      DecodedPairsPackable(data[width + CHILD..], width, count - 1);
    }
  }

  lemma DecodedPackable(data: bytes, width: nat)
    requires DecodeNode(data, width).Ok?
    ensures Packable(DecodeNode(data, width).value, width)
  {
    var count := FromU16(data[1..3]);
    if data[0] == NODE_TYPE_LEAF {
      DecodedItemsPackable(data[LEAF_HDR..], width, count);
    } else {
      MoreFits(count, width + CHILD);
      DecodedPairsPackable(data[INNER_HDR + CHILD..], width, count);
    }
  }

  // ------------------------------------------------------------------
  // Edits
  // ------------------------------------------------------------------

  lemma EntriesInsert(kt: KeyType, es: seq<Item>, p: nat, e: Item)
    requires p <= |es| && ItemsCanonical(kt, es) && Canonical(kt, e.key)
    ensures var fs := es[..p] + [e] + es[p..];
      && ItemsCanonical(kt, fs)
      && Entries(kt, fs) == Entries(kt, es)[..p] + [M.Entry(Rank(kt, e.key), e.rid)] + Entries(kt, es)[p..]
  {
  }

  lemma EntriesSplit(kt: KeyType, es: seq<Item>, mid: nat)
    requires mid <= |es| && ItemsCanonical(kt, es)
    ensures ItemsCanonical(kt, es[..mid]) && ItemsCanonical(kt, es[mid..])
    ensures Entries(kt, es[..mid]) == Entries(kt, es)[..mid] && Entries(kt, es[mid..]) == Entries(kt, es)[mid..]
  {
  }

  lemma RanksInsert(kt: KeyType, keys: seq<bytes>, p: nat, k: bytes)
    requires p <= |keys| && KeysCanonical(kt, keys) && Canonical(kt, k)
    ensures var ks := keys[..p] + [k] + keys[p..];
      KeysCanonical(kt, ks) && Ranks(kt, ks) == Ranks(kt, keys)[..p] + [Rank(kt, k)] + Ranks(kt, keys)[p..]
  {
  }

  lemma RanksSplit(kt: KeyType, keys: seq<bytes>, mid: nat)
    requires mid < |keys| && KeysCanonical(kt, keys)
    ensures KeysCanonical(kt, keys[..mid]) && KeysCanonical(kt, keys[mid + 1..])
    ensures Ranks(kt, keys[..mid]) == Ranks(kt, keys)[..mid] && Ranks(kt, keys[mid + 1..]) == Ranks(kt, keys)[mid + 1..]
  {
  }

  lemma FileViewUpdate(meta: Meta, pages: seq<bytes>, pid: nat, data: bytes)
    requires pid <= |pages|
    ensures var f := FileView(meta, pages);
      FileView(meta, if pid < |pages| then pages[pid := data] else pages + [data]) ==
      if pid < |f| then f[pid := ViewOf(meta, pid, data)] else f + [ViewOf(meta, pid, data)]
  {
  }

  lemma ReplayOneMore(pages: seq<bytes>, log: seq<RawWrite>, w: RawWrite)
    ensures var before := Replay(pages, log);
      Replay(pages, log + [w]) == if w.pid < |before| then before[w.pid := w.data] else before + [w.data]
  {
    assert (log + [w])[..|log|] == log;
  }

  lemma LogViewAppend(meta: Meta, a: seq<RawWrite>, b: seq<RawWrite>)
    ensures LogView(meta, a + b) == LogView(meta, a) + LogView(meta, b)
  {
  }
}
