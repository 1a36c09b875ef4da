// Index pages as bytes: node and header layouts, their encoders and decoders, and
// the fanout a page size allows.
//
// INT and TEXT nodes share one layout, which differs only in the width of a key
// slot, so both are written here once, over that width.
module NodeLayout {
  import opened Wrappers
  import opened Arithmetic
  import opened Bytes
  import opened KeyCodec
  import opened TextOrder
  import Utf8

  const NODE_TYPE_LEAF: Byte := 0
  const NODE_TYPE_INTERNAL: Byte := 1
  const NODE_TYPE_HEADER: Byte := 0xFF
  const IDX_MAGIC: bytes := [0x53, 0x55, 0x50, 0x45, 0x52, 0x49, 0x44, 0x58]  // SUPERIDX
  const INDEX_FORMAT_VERSION := 1
  const KEY_TYPE_INT: Byte := 0
  const KEY_TYPE_TEXT: Byte := 1
  const TEXT_KEY_CAP_DEFAULT := 128

  const HDR_FIXED := 18
  const LEAF_HDR := 7
  const INNER_HDR := 3
  const CHILD := 4
  const RID_PART := 8

  datatype Item = Item(key: bytes, rid: Rid)

  datatype Node =
    | LeafNode(entries: seq<Item>, next: nat)
    | InnerNode(keys: seq<bytes>, children: seq<nat>)

  datatype Header = Header(keyType: Byte, cap: nat, root: nat, col: string)

  // ------------------------------------------------------------------
  // Layout
  // ------------------------------------------------------------------

  function ItemBytes(e: Item): bytes {
    e.key + U32(e.rid.page) + U32(e.rid.slot)
  }

  function ItemsBytes(es: seq<Item>): bytes {
    if es == [] then [] else ItemBytes(es[0]) + ItemsBytes(es[1..])
  }

  // key 0, child 1, key 1, child 2, ..: each separator with the child right of it
  function PairsBytes(keys: seq<bytes>, children: seq<nat>): bytes
    requires |keys| == |children|
  {
    if keys == [] then [] else keys[0] + U32(children[0]) + PairsBytes(keys[1..], children[1..])
  }

  function LeafHeader(count: nat, next: nat): (r: bytes)
    ensures |r| == LEAF_HDR
  {
    [NODE_TYPE_LEAF] + U16(count) + U32(next)
  }

  function InnerHeader(count: nat): (r: bytes)
    ensures |r| == INNER_HDR
  {
    [NODE_TYPE_INTERNAL] + U16(count)
  }

  function NodeBytes(n: Node): bytes
    requires n.InnerNode? ==> |n.children| == |n.keys| + 1
  {
    match n
    case LeafNode(es, next) => LeafHeader(|es|, next) + ItemsBytes(es)
    case InnerNode(keys, children) => InnerHeader(|keys|) + U32(children[0]) + PairsBytes(keys, children[1..])
  }

  predicate PackableItems(es: seq<Item>, width: nat) {
    forall i :: 0 <= i < |es| ==> |es[i].key| == width && es[i].rid.page < U32_LIMIT && es[i].rid.slot < U32_LIMIT
  }

  predicate OfWidth(keys: seq<bytes>, width: nat) {
    forall i :: 0 <= i < |keys| ==> |keys[i]| == width
  }

  predicate AllU32(cs: seq<nat>) {
    forall i :: 0 <= i < |cs| ==> cs[i] < U32_LIMIT
  }

  // Field values the struct formats can hold, and keys of the slot width.
  predicate Packable(n: Node, width: nat) {
    match n
    case LeafNode(es, next) =>
      |es| < U16_LIMIT && next < U32_LIMIT && PackableItems(es, width)
    case InnerNode(keys, children) =>
      |keys| < U16_LIMIT && |children| == |keys| + 1 && OfWidth(keys, width) && AllU32(children)
  }

  predicate Fits(n: Node, width: nat, pageSize: nat) {
    Packable(n, width) && |NodeBytes(n)| <= pageSize
  }

  // A node as a full page, zero-padded.
  function PageBytes(n: Node, pageSize: nat): (r: bytes)
    requires (n.InnerNode? ==> |n.children| == |n.keys| + 1) && |NodeBytes(n)| <= pageSize
    ensures |r| == pageSize
  {
    NodeBytes(n) + Zeros(pageSize - |NodeBytes(n)|)
  }

  lemma TimesStep(n: nat, u: nat)
    requires n > 0
    ensures n * u == (n - 1) * u + u
  {
  }

  lemma {:induction false} ItemsLength(es: seq<Item>, width: nat)
    requires PackableItems(es, width)
    ensures |ItemsBytes(es)| == |es| * (width + RID_PART)
  {
    if es == [] {
    } else {
      ItemsLength(es[1..], width);
      TimesStep(|es|, width + RID_PART);
    }
  }

  lemma {:induction false} PairsLength(keys: seq<bytes>, children: seq<nat>, width: nat)
    requires |keys| == |children| && OfWidth(keys, width)
    ensures |PairsBytes(keys, children)| == |keys| * (width + CHILD)
  {
    if keys == [] {
    } else {
      PairsLength(keys[1..], children[1..], width);
      TimesStep(|keys|, width + CHILD);
    }
  }

  // The parts of a concatenation, by position.
  lemma Parts<T>(a: seq<T>, b: seq<T>, c: seq<T>, rest: seq<T>)
    ensures var s := a + b + c + rest;
      var i, j := |a| + |b|, |a| + |b| + |c|;
      s[..|a|] == a && s[|a|..i] == b && s[i..j] == c && s[j..] == rest
  {
  }

  // ------------------------------------------------------------------
  // Decoding
  // ------------------------------------------------------------------

  function DecodeItems(data: bytes, width: nat, count: nat): (es: seq<Item>)
    requires count * (width + RID_PART) <= |data|
    ensures |es| == count
    decreases count
  {
    if count == 0 then []
    else
      TimesStep(count, width + RID_PART);
      [Item(data[..width], Rid(FromU32(data[width..width + 4]), FromU32(data[width + 4..width + RID_PART])))]
      + DecodeItems(data[width + RID_PART..], width, count - 1)
  }

  function DecodeKeys(data: bytes, width: nat, count: nat): (keys: seq<bytes>)
    requires count * (width + CHILD) <= |data|
    ensures |keys| == count
    decreases count
  {
    if count == 0 then []
    else
      TimesStep(count, width + CHILD);
      [data[..width]] + DecodeKeys(data[width + CHILD..], width, count - 1)
  }

  function DecodeChildren(data: bytes, width: nat, count: nat): (cs: seq<nat>)
    requires count * (width + CHILD) <= |data|
    ensures |cs| == count
    decreases count
  {
    if count == 0 then []
    else
      TimesStep(count, width + CHILD);
      [FromU32(data[width..width + CHILD])] + DecodeChildren(data[width + CHILD..], width, count - 1)
  }

  function DecodeLeaf(data: bytes, width: nat): Result<Node> {
    if |data| < LEAF_HDR || data[0] != NODE_TYPE_LEAF then Err(StorageError)
    else
      var count := FromU16(data[1..3]);
      if LEAF_HDR + count * (width + RID_PART) > |data| then Err(StorageError)
      else Ok(LeafNode(DecodeItems(data[LEAF_HDR..], width, count), FromU32(data[3..LEAF_HDR])))
  }

  function DecodeInner(data: bytes, width: nat): Result<Node> {
    if |data| < INNER_HDR || data[0] != NODE_TYPE_INTERNAL then Err(StorageError)
    else
      var count := FromU16(data[1..3]);
      if INNER_HDR + CHILD + count * (width + CHILD) > |data| then Err(StorageError)
      else
        var body := data[INNER_HDR + CHILD..];
        var first := FromU32(data[INNER_HDR..INNER_HDR + CHILD]);
        Ok(InnerNode(DecodeKeys(body, width, count), [first] + DecodeChildren(body, width, count)))
  }

  function DecodeNode(data: bytes, width: nat): Result<Node> {
    if data == [] then Err(StorageError)
    else if data[0] == NODE_TYPE_LEAF then DecodeLeaf(data, width)
    else if data[0] == NODE_TYPE_INTERNAL then DecodeInner(data, width)
    else Err(StorageError)
  }

  // ------------------------------------------------------------------
  // Decoding undoes encoding
  // ------------------------------------------------------------------

  lemma NothingDecoded(data: bytes, width: nat)
    ensures DecodeItems(data, width, 0) == [] && DecodeKeys(data, width, 0) == []
    ensures DecodeChildren(data, width, 0) == []
  {
  }

  lemma {:induction false} ItemsRoundTrip(es: seq<Item>, width: nat, rest: bytes)
    requires PackableItems(es, width)
    ensures |es| * (width + RID_PART) <= |ItemsBytes(es) + rest|
    ensures DecodeItems(ItemsBytes(es) + rest, width, |es|) == es
  {
    hide DecodeItems, ItemsBytes, ItemBytes;
    ItemsLength(es, width);
    if es == [] {
      NothingDecoded(ItemsBytes(es) + rest, width);
    } else {
      ItemsRoundTrip(es[1..], width, rest);
      FirstItem(es, rest);
      DecodeOneItem(es[0], width, ItemsBytes(es[1..]) + rest, |es|);
      assert es == [es[0]] + es[1..];
    }
  }

  lemma FirstItem(es: seq<Item>, rest: bytes)
    requires es != []
    ensures ItemsBytes(es) + rest == ItemBytes(es[0]) + (ItemsBytes(es[1..]) + rest)
  {
  }

  lemma DecodeOneItem(e: Item, width: nat, tail: bytes, count: nat)
    requires |e.key| == width && e.rid.page < U32_LIMIT && e.rid.slot < U32_LIMIT && count > 0
    requires (count - 1) * (width + RID_PART) <= |tail|
    ensures count * (width + RID_PART) <= |ItemBytes(e) + tail|
    ensures DecodeItems(ItemBytes(e) + tail, width, count) == [e] + DecodeItems(tail, width, count - 1)
  {
    TimesStep(count, width + RID_PART);
    U32RoundTrip(e.rid.page);
    U32RoundTrip(e.rid.slot);
    Parts(e.key, U32(e.rid.page), U32(e.rid.slot), tail);
  }

  lemma {:induction false} PairsRoundTrip(keys: seq<bytes>, children: seq<nat>, width: nat, rest: bytes)
    requires |children| == |keys| && OfWidth(keys, width) && AllU32(children)
    ensures var data := PairsBytes(keys, children) + rest;
      && |keys| * (width + CHILD) <= |data|
      && DecodeKeys(data, width, |keys|) == keys && DecodeChildren(data, width, |keys|) == children
  {
    hide DecodeKeys, DecodeChildren, PairsBytes, U32;
    PairsLength(keys, children, width);
    if keys == [] {
      NothingDecoded(PairsBytes(keys, children) + rest, width);
    } else {
      PairsRoundTrip(keys[1..], children[1..], width, rest);
      FirstPair(keys, children, rest);
      DecodeOnePair(keys[0], children[0], width, PairsBytes(keys[1..], children[1..]) + rest, |keys|);
      assert keys == [keys[0]] + keys[1..] && children == [children[0]] + children[1..];
    }
  }

  lemma FirstPair(keys: seq<bytes>, children: seq<nat>, rest: bytes)
    requires keys != [] && |children| == |keys|
    ensures PairsBytes(keys, children) + rest
            == keys[0] + U32(children[0]) + (PairsBytes(keys[1..], children[1..]) + rest)
  {
  }

  lemma DecodeOnePair(k: bytes, c: nat, width: nat, tail: bytes, count: nat)
    requires |k| == width && c < U32_LIMIT && count > 0 && (count - 1) * (width + CHILD) <= |tail|
    ensures var data := k + U32(c) + tail;
      && count * (width + CHILD) <= |data|
      && DecodeKeys(data, width, count) == [k] + DecodeKeys(tail, width, count - 1)
      && DecodeChildren(data, width, count) == [c] + DecodeChildren(tail, width, count - 1)
  {
    TimesStep(count, width + CHILD);
    U32RoundTrip(c);
    Parts(k, U32(c), [], tail);
    assert k + U32(c) + tail == k + U32(c) + [] + tail;
  }

  lemma LeafRoundTrip(n: Node, width: nat, pageSize: nat)
    requires n.LeafNode? && Fits(n, width, pageSize)
    ensures DecodeNode(PageBytes(n, pageSize), width) == Ok(n)
  {
    var rest := ItemsBytes(n.entries) + Zeros(pageSize - |NodeBytes(n)|);
    U16RoundTrip(|n.entries|);
    U32RoundTrip(n.next);
    Parts([NODE_TYPE_LEAF], U16(|n.entries|), U32(n.next), rest);
    assert PageBytes(n, pageSize) == [NODE_TYPE_LEAF] + U16(|n.entries|) + U32(n.next) + rest;
    ItemsRoundTrip(n.entries, width, Zeros(pageSize - |NodeBytes(n)|));
  }

  lemma InnerRoundTrip(n: Node, width: nat, pageSize: nat)
    requires n.InnerNode? && Fits(n, width, pageSize)
    ensures DecodeNode(PageBytes(n, pageSize), width) == Ok(n)
  {
    hide PairsBytes, DecodeKeys, DecodeChildren, U16, U32, FromU16, FromU32;
    var rest := PairsBytes(n.keys, n.children[1..]) + Zeros(pageSize - |NodeBytes(n)|);
    U16RoundTrip(|n.keys|);
    U32RoundTrip(n.children[0]);
    Parts([NODE_TYPE_INTERNAL], U16(|n.keys|), U32(n.children[0]), rest);
    assert PageBytes(n, pageSize) == [NODE_TYPE_INTERNAL] + U16(|n.keys|) + U32(n.children[0]) + rest;
    PairsRoundTrip(n.keys, n.children[1..], width, Zeros(pageSize - |NodeBytes(n)|));
    assert n.children == [n.children[0]] + n.children[1..];
  }

  // decode(encode(node)) == node for every node that fits its page.
  lemma NodeRoundTrip(n: Node, width: nat, pageSize: nat)
    requires Fits(n, width, pageSize)
    ensures DecodeNode(PageBytes(n, pageSize), width) == Ok(n)
  {
    if n.LeafNode? {
      LeafRoundTrip(n, width, pageSize);
    } else {
      InnerRoundTrip(n, width, pageSize);
    }
  }

  // ------------------------------------------------------------------
  // Fanout
  // ------------------------------------------------------------------

  function LeafMax(pageSize: nat, width: nat): nat {
    if pageSize < LEAF_HDR then 0 else (pageSize - LEAF_HDR) / (width + RID_PART)
  }

  function InnerMax(pageSize: nat, width: nat): nat {
    if pageSize < INNER_HDR + CHILD then 0 else (pageSize - INNER_HDR - CHILD) / (width + CHILD)
  }

  lemma DivTimes(a: nat, b: nat, n: nat)
    requires b > 0 && n <= a / b
    ensures n * b <= a
  {
    assert a / b * b <= a;
    assert n * b <= a / b * b;
  }

  // Nodes within the fanout fit their page.
  lemma FanoutFits(n: Node, width: nat, pageSize: nat)
    requires pageSize < U16_LIMIT && Packable(n, width)
    requires LEAF_HDR <= pageSize
    requires if n.LeafNode? then |n.entries| <= LeafMax(pageSize, width)
             else |n.keys| <= InnerMax(pageSize, width) && InnerMax(pageSize, width) > 0
    ensures Fits(n, width, pageSize)
  {
    if n.LeafNode? {
      ItemsLength(n.entries, width);
      DivTimes(pageSize - LEAF_HDR, width + RID_PART, |n.entries|);
    } else {
      PairsLength(n.keys, n.children[1..], width);
      DivTimes(pageSize - INNER_HDR - CHILD, width + CHILD, |n.keys|);
    }
  }

  // A page that holds one leaf entry holds one separator.
  lemma LeafFitMeansInnerFit(pageSize: nat, width: nat)
    requires LeafMax(pageSize, width) >= 1
    ensures InnerMax(pageSize, width) >= 1 && pageSize >= LEAF_HDR + width + RID_PART
  {
    DivTimes(pageSize - LEAF_HDR, width + RID_PART, 1);
    var a, b := pageSize - INNER_HDR - CHILD, width + CHILD;
    assert a == a / b * b + a % b;
  }

  // No page can be filled past what its u16 count can say.
  lemma FanoutIsU16(pageSize: nat, width: nat)
    requires pageSize < U16_LIMIT
    ensures LeafMax(pageSize, width) < U16_LIMIT && InnerMax(pageSize, width) < U16_LIMIT
  {
    if pageSize >= LEAF_HDR {
      DivTimes(pageSize - LEAF_HDR, width + RID_PART, LeafMax(pageSize, width));
      MulMonotone(1, width + RID_PART, LeafMax(pageSize, width));
    }
    if pageSize >= INNER_HDR + CHILD {
      DivTimes(pageSize - INNER_HDR - CHILD, width + CHILD, InnerMax(pageSize, width));
      MulMonotone(1, width + CHILD, InnerMax(pageSize, width));
    }
  }

  // ------------------------------------------------------------------
  // Header page
  // ------------------------------------------------------------------

  function FixedHeader(h: Header): (r: bytes)
    ensures |r| == HDR_FIXED
  {
    IDX_MAGIC + U16(INDEX_FORMAT_VERSION) + [NODE_TYPE_HEADER, h.keyType] + U16(h.cap) + U32(h.root)
  }

  function EncodeHeader(h: Header, pageSize: nat): (r: Result<bytes>)
    ensures r.Ok? ==> |r.value| == pageSize
  {
    var col := Utf8.Encode(h.col);
    if h.cap >= U16_LIMIT || h.root >= U32_LIMIT || |col| > 255 || HDR_FIXED + 1 + |col| > pageSize
      then Err(StorageError)
    else Ok(FixedHeader(h) + [|col|] + col + Zeros(pageSize - HDR_FIXED - 1 - |col|))
  }

  // A header is written exactly when its numbers fit their fields and its column name
  // one length byte and the page.
  lemma HeaderEncodes(h: Header, pageSize: nat)
    ensures EncodeHeader(h, pageSize).Ok?
      <==> h.cap <= 65535 && h.root <= 4294967295 && Utf8Size(h.col) <= 255 && 19 + Utf8Size(h.col) <= pageSize
    ensures EncodeHeader(h, pageSize).Err? ==> EncodeHeader(h, pageSize) == Err(StorageError)
  {
    SizeOfEncoding(h.col);
  }

  function DecodeHeader(data: bytes): Result<Header> {
    if |data| <= HDR_FIXED || data[..8] != IDX_MAGIC || FromU16(data[8..10]) != INDEX_FORMAT_VERSION
      then Err(StorageError)
    else
      var n := data[HDR_FIXED] as int;
      if HDR_FIXED + 1 + n > |data| then Err(StorageError)
      else
        match Utf8.Decode(data[HDR_FIXED + 1..HDR_FIXED + 1 + n])
        case None => Err(StorageError)
        case Some(col) => Ok(Header(data[11], FromU16(data[12..14]), FromU32(data[14..HDR_FIXED]), col))
  }

  // Any bytes are a header exactly when they start with SUPERIDX and version 1 and the
  // column's name behind its length is UTF-8 inside them; else a storage error.
  lemma HeaderReads(data: bytes)
    ensures DecodeHeader(data).Ok? <==>
      && |data| >= 19 && data[..8] == [0x53, 0x55, 0x50, 0x45, 0x52, 0x49, 0x44, 0x58] && data[8] == 1 && data[9] == 0
      && 19 + data[18] as int <= |data| && Utf8.Decode(data[19..19 + data[18] as int]).Some?
    ensures DecodeHeader(data).Err? ==> DecodeHeader(data) == Err(StorageError)
  {
  }

  lemma HeaderRoundTrip(h: Header, pageSize: nat)
    requires EncodeHeader(h, pageSize).Ok?
    ensures DecodeHeader(EncodeHeader(h, pageSize).value) == Ok(h)
  {
    var col := Utf8.Encode(h.col);
    var data := EncodeHeader(h, pageSize).value;
    U16RoundTrip(INDEX_FORMAT_VERSION);
    U16RoundTrip(h.cap);
    U32RoundTrip(h.root);
    Utf8.DecodeEncode(h.col);
    assert data[..HDR_FIXED] == FixedHeader(h);
    assert data[..8] == IDX_MAGIC && data[8..10] == U16(INDEX_FORMAT_VERSION);
    assert data[12..14] == U16(h.cap) && data[14..HDR_FIXED] == U32(h.root);
    assert data[HDR_FIXED + 1..HDR_FIXED + 1 + |col|] == col;
  }

  // A header that was read can be written back with another root.
  lemma HeaderFits(data: bytes, root: nat)
    requires DecodeHeader(data).Ok? && root < U32_LIMIT
    ensures EncodeHeader(DecodeHeader(data).value.(root := root), |data|).Ok?
  {
    var n := data[HDR_FIXED] as int;
    Utf8.EncodeDecode(data[HDR_FIXED + 1..HDR_FIXED + 1 + n]);
  }

  // ------------------------------------------------------------------
  // The imperative encoders and decoders
  // ------------------------------------------------------------------

  // A zeroed page buffer with some bytes written from its front.
  ghost predicate Holding(buf: bytes, done: bytes) {
    |done| <= |buf| && buf == done + Zeros(|buf| - |done|)
  }

  lemma HoldingNothing(buf: bytes)
    requires forall i :: 0 <= i < |buf| ==> buf[i] == 0
    ensures Holding(buf, [])
  {
  }

  lemma HoldingNode(buf: bytes, n: Node)
    requires (n.InnerNode? ==> |n.children| == |n.keys| + 1) && Holding(buf, NodeBytes(n))
    ensures |NodeBytes(n)| <= |buf| && buf == PageBytes(n, |buf|)
  {
  }

  // Slice assignment right after what the buffer already holds.
  method Fill(buf: array<Byte>, ghost done: bytes, pos: nat, data: bytes)
    requires pos == |done| && pos + |data| <= buf.Length && Holding(buf[..], done)
    modifies buf
    ensures Holding(buf[..], done + data)
  {
    PutAtEnd(buf[..], done, data);
    Put(buf, pos, data);
  }

  // Writing at the end of what is filled extends it and leaves zeros behind.
  lemma PutAtEnd(buf: bytes, done: bytes, data: bytes)
    requires |done| + |data| <= |buf| && Holding(buf, done)
    ensures Holding(Spliced(buf, |done|, data), done + data)
  {
  }

  // Fills a zeroed page buffer from the front; refuses a node that does not fit.
  method EncodeLeaf(es: seq<Item>, next: nat, width: nat, pageSize: nat) returns (r: Result<bytes>)
    ensures var n := LeafNode(es, next);
      r == if Fits(n, width, pageSize) then Ok(PageBytes(n, pageSize)) else Err(StorageError)
  {
    hide U16, U32, LeafHeader, ItemBytes, Holding;
    if !Packable(LeafNode(es, next), width) || LEAF_HDR > pageSize {
      return Err(StorageError);
    }
    var buf := new Byte[pageSize](_ => 0);
    HoldingNothing(buf[..]);
    ghost var head := LeafHeader(|es|, next);
    Fill(buf, [], 0, LeafHeader(|es|, next));
    var pos := LEAF_HDR;
    assert [] + head == head + ItemsBytes(es[..0]);
    for i := 0 to |es|
      invariant pos == LEAF_HDR + |ItemsBytes(es[..i])| <= pageSize
      invariant Holding(buf[..], head + ItemsBytes(es[..i]))
    {
      ItemsStep(es, i);
      var e := ItemBytes(es[i]);
      if pos + |e| > pageSize {
        return Err(StorageError);
      }
      Fill(buf, head + ItemsBytes(es[..i]), pos, e);
      assert head + ItemsBytes(es[..i]) + e == head + ItemsBytes(es[..i + 1]);
      pos := pos + |e|;
    }
    assert es[..|es|] == es;
    HoldingNode(buf[..], LeafNode(es, next));
    return Ok(buf[..]);
  }

  lemma {:induction false} ItemsAppend(a: seq<Item>, b: seq<Item>)
    ensures ItemsBytes(a + b) == ItemsBytes(a) + ItemsBytes(b)
  {
    if a == [] {
      assert a + b == b;
    } else {
      assert (a + b)[1..] == a[1..] + b;
      ItemsAppend(a[1..], b);
    }
  }

  lemma ItemsStep(es: seq<Item>, i: nat)
    requires i < |es|
    ensures ItemsBytes(es[..i + 1]) == ItemsBytes(es[..i]) + ItemBytes(es[i])
    ensures |ItemsBytes(es[..i + 1])| <= |ItemsBytes(es)|
  {
    assert es[..i + 1] == es[..i] + [es[i]] && es == es[..i + 1] + es[i + 1..];
    ItemsAppend(es[..i], [es[i]]);
    ItemsAppend(es[..i + 1], es[i + 1..]);
    assert ItemsBytes([es[i]]) == ItemBytes(es[i]) + ItemsBytes([]);
  }

  lemma {:induction false} PairsAppend(a: seq<bytes>, b: seq<bytes>, c: seq<nat>, d: seq<nat>)
    requires |a| == |c| && |b| == |d|
    ensures PairsBytes(a + b, c + d) == PairsBytes(a, c) + PairsBytes(b, d)
  {
    if a == [] {
      assert a + b == b && c + d == d;
    } else {
      assert (a + b)[1..] == a[1..] + b && (c + d)[1..] == c[1..] + d;
      PairsAppend(a[1..], b, c[1..], d);
    }
  }

  lemma PairsStep(keys: seq<bytes>, cs: seq<nat>, i: nat)
    requires i < |keys| == |cs|
    ensures PairsBytes(keys[..i + 1], cs[..i + 1]) == PairsBytes(keys[..i], cs[..i]) + keys[i] + U32(cs[i])
    ensures |PairsBytes(keys[..i + 1], cs[..i + 1])| <= |PairsBytes(keys, cs)|
  {
    assert keys[..i + 1] == keys[..i] + [keys[i]] && keys == keys[..i + 1] + keys[i + 1..];
    assert cs[..i + 1] == cs[..i] + [cs[i]] && cs == cs[..i + 1] + cs[i + 1..];
    PairsAppend(keys[..i], [keys[i]], cs[..i], [cs[i]]);
    PairsAppend(keys[..i + 1], keys[i + 1..], cs[..i + 1], cs[i + 1..]);
    assert PairsBytes([keys[i]], [cs[i]]) == keys[i] + U32(cs[i]) + PairsBytes([], []);
  }

  // Children and separators alternate, a child first.
  method EncodeInner(keys: seq<bytes>, children: seq<nat>, width: nat, pageSize: nat) returns (r: Result<bytes>)
    ensures var n := InnerNode(keys, children);
      r == if Fits(n, width, pageSize) then Ok(PageBytes(n, pageSize)) else Err(StorageError)
  {
    hide U16, U32, InnerHeader, Holding;
    if !Packable(InnerNode(keys, children), width) || INNER_HDR + CHILD > pageSize {
      return Err(StorageError);
    }
    var buf := new Byte[pageSize](_ => 0);
    HoldingNothing(buf[..]);
    ghost var head := InnerHeader(|keys|) + U32(children[0]);
    ghost var cs := children[1..];
    Fill(buf, [], 0, InnerHeader(|keys|));
    Fill(buf, [] + InnerHeader(|keys|), INNER_HDR, U32(children[0]));
    var pos := INNER_HDR + CHILD;
    assert [] + InnerHeader(|keys|) + U32(children[0]) == head + PairsBytes(keys[..0], cs[..0]);
    for i := 0 to |keys|
      invariant pos == INNER_HDR + CHILD + |PairsBytes(keys[..i], cs[..i])| <= pageSize
      invariant Holding(buf[..], head + PairsBytes(keys[..i], cs[..i]))
    {
      PairsStep(keys, cs, i);
      var p := keys[i] + U32(children[i + 1]);
      if pos + |p| > pageSize {
        return Err(StorageError);
      }
      Fill(buf, head + PairsBytes(keys[..i], cs[..i]), pos, p);
      assert head + PairsBytes(keys[..i], cs[..i]) + p == head + PairsBytes(keys[..i + 1], cs[..i + 1]);
      pos := pos + |p|;
    }
    assert keys[..|keys|] == keys && cs[..|keys|] == cs;
    HoldingNode(buf[..], InnerNode(keys, children));
    return Ok(buf[..]);
  }

  method EncodeNode(n: Node, width: nat, pageSize: nat) returns (r: Result<bytes>)
    ensures r == if Fits(n, width, pageSize) then Ok(PageBytes(n, pageSize)) else Err(StorageError)
  {
    match n
    case LeafNode(es, next) => r := EncodeLeaf(es, next, width, pageSize);
    case InnerNode(keys, children) => r := EncodeInner(keys, children, width, pageSize);
  }

  // One step of the decoders, at a position of the page.
  lemma DecodeItemAt(data: bytes, width: nat, pos: nat, n: nat)
    requires n > 0 && pos <= |data| && n * (width + RID_PART) <= |data| - pos
    ensures var next := pos + width + RID_PART;
      && next <= |data| && (n - 1) * (width + RID_PART) <= |data| - next
      && DecodeItems(data[pos..], width, n) ==
           [Item(data[pos..pos + width],
                 Rid(FromU32(data[pos + width..pos + width + 4]), FromU32(data[pos + width + 4..next])))]
           + DecodeItems(data[next..], width, n - 1)
  {
    TimesStep(n, width + RID_PART);
    MoreFits(n - 1, width + RID_PART);
    var d, next := data[pos..], pos + width + RID_PART;
    assert d[..width] == data[pos..pos + width] && d[width + RID_PART..] == data[next..];
    assert d[width..width + 4] == data[pos + width..pos + width + 4];
    assert d[width + 4..width + RID_PART] == data[pos + width + 4..next];
  }

  lemma DecodePairAt(data: bytes, width: nat, pos: nat, n: nat)
    requires n > 0 && pos <= |data| && n * (width + CHILD) <= |data| - pos
    ensures var next := pos + width + CHILD;
      && next <= |data| && (n - 1) * (width + CHILD) <= |data| - next
      && DecodeKeys(data[pos..], width, n) == [data[pos..pos + width]] + DecodeKeys(data[next..], width, n - 1)
      && DecodeChildren(data[pos..], width, n)
        == [FromU32(data[pos + width..next])] + DecodeChildren(data[next..], width, n - 1)
  {
    TimesStep(n, width + CHILD);
    MoreFits(n - 1, width + CHILD);
    var d, next := data[pos..], pos + width + CHILD;
    assert d[..width] == data[pos..pos + width] && d[width + CHILD..] == data[next..];
    assert d[width..width + CHILD] == data[pos + width..next];
  }

  lemma MoreFits(n: nat, u: nat)
    ensures n * u >= 0
  {
  }

  lemma Regroup<T>(a: seq<T>, x: T, b: seq<T>)
    ensures a + ([x] + b) == (a + [x]) + b
  {
  }

  // Reads count entries from the front, checking first that they fit.
  method ReadLeaf(data: bytes, width: nat) returns (r: Result<Node>)
    ensures r == DecodeLeaf(data, width)
  {
    hide DecodeItems;
    if |data| < LEAF_HDR || data[0] != NODE_TYPE_LEAF {
      return Err(StorageError);
    }
    var count := FromU16(data[1..3]);
    if LEAF_HDR + count * (width + RID_PART) > |data| {
      return Err(StorageError);
    }
    MoreFits(count, width + RID_PART);
    var es: seq<Item> := [];
    var pos, left := LEAF_HDR, count;
    ghost var all := DecodeItems(data[LEAF_HDR..], width, count);
    while left > 0
      invariant 0 <= left && 0 <= pos <= |data| && left * (width + RID_PART) <= |data| - pos
      invariant all == es + DecodeItems(data[pos..], width, left)
    {
      DecodeItemAt(data, width, pos, left);
      var next := pos + width + RID_PART;
      var rid := Rid(FromU32(data[pos + width..pos + width + 4]), FromU32(data[pos + width + 4..next]));
      var e := Item(data[pos..pos + width], rid);
      Regroup(es, e, DecodeItems(data[next..], width, left - 1));
      es, pos, left := es + [e], next, left - 1;
    }
    assert es == all;
    return Ok(LeafNode(es, FromU32(data[3..LEAF_HDR])));
  }

  method ReadInner(data: bytes, width: nat) returns (r: Result<Node>)
    ensures r == DecodeInner(data, width)
  {
    if |data| < INNER_HDR || data[0] != NODE_TYPE_INTERNAL {
      return Err(StorageError);
    }
    var count := FromU16(data[1..3]);
    if INNER_HDR + CHILD + count * (width + CHILD) > |data| {
      return Err(StorageError);
    }
    MoreFits(count, width + CHILD);
    var pos, left := INNER_HDR + CHILD, count;
    var first := FromU32(data[INNER_HDR..pos]);
    var keys: seq<bytes>, children: seq<nat> := [], [];
    ghost var allKeys, allChildren := DecodeKeys(data[pos..], width, count), DecodeChildren(data[pos..], width, count);
    while left > 0
      invariant 0 <= left && 0 <= pos <= |data| && left * (width + CHILD) <= |data| - pos
      invariant allKeys == keys + DecodeKeys(data[pos..], width, left)
      invariant allChildren == children + DecodeChildren(data[pos..], width, left)
    {
      DecodePairAt(data, width, pos, left);
      var next := pos + width + CHILD;
      var key, child := data[pos..pos + width], FromU32(data[pos + width..next]);
      Regroup(keys, key, DecodeKeys(data[next..], width, left - 1));
      Regroup(children, child, DecodeChildren(data[next..], width, left - 1));
      keys, children, pos, left := keys + [key], children + [child], next, left - 1;
    }
    assert keys + [] == keys && children + [] == children;
    return Ok(InnerNode(keys, [first] + children));
  }

  method ReadNode(data: bytes, width: nat) returns (r: Result<Node>)
    ensures r == DecodeNode(data, width)
  {
    if data == [] {
      return Err(StorageError);
    } else if data[0] == NODE_TYPE_LEAF {
      r := ReadLeaf(data, width);
    } else if data[0] == NODE_TYPE_INTERNAL {
      r := ReadInner(data, width);
    } else {
      return Err(StorageError);
    }
  }
}
