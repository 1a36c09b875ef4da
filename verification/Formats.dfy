// Where every field lies on disk: pages of an index file, pages of a heap file, records.
// Positions and sizes are in bytes, numbers least significant byte first.
module Formats {
  import opened Wrappers
  import opened Arithmetic
  import opened Bytes
  import opened TextOrder
  import Utf8
  import N = NodeLayout
  import H = HeapModel
  import P = PageLayout
  import T = TupleCodec

  // The number in w bytes at a position.
  function NumberAt(b: bytes, at: int, w: nat): nat
    requires 0 <= at && at + w <= |b|
  {
    FromLE(b[at..at + w])
  }

  lemma NumberTwo(b: bytes, at: nat)
    requires at + 2 <= |b|
    ensures NumberAt(b, at, 2) == FromU16(b[at..at + 2]) == b[at] as int + 256 * b[at + 1] as int
  {
    var s := b[at..at + 2];
    assert s[1..] == [s[1]] && s[1..][1..] == [];
    assert FromLE(s[1..]) == s[1] as int;
  }

  lemma NumberFour(b: bytes, at: nat)
    requires at + 4 <= |b|
    ensures NumberAt(b, at, 4) == FromU32(b[at..at + 4])
  {
    var s := b[at..at + 4];
    var s1, s2, s3 := s[1..], s[2..], s[3..];
    assert s1[1..] == s2 && s2[1..] == s3 && s3[1..] == [] && s1[0] == s[1] && s2[0] == s[2] && s3[0] == s[3];
    assert FromLE(s3) == s[3] as int;
    assert FromLE(s2) == s[2] as int + 256 * FromLE(s3);
    assert FromLE(s1) == s[1] as int + 256 * FromLE(s2);
  }

  lemma WrittenTwo(b: bytes, at: nat, x: nat)
    requires at + 2 <= |b| && x < 65536 && b[at..at + 2] == U16(x)
    ensures NumberAt(b, at, 2) == x
  {
    NumberTwo(b, at);
    U16RoundTrip(x);
  }

  lemma WrittenFour(b: bytes, at: nat, x: nat)
    requires at + 4 <= |b| && x < 4294967296 && b[at..at + 4] == U32(x)
    ensures NumberAt(b, at, 4) == x
  {
    NumberFour(b, at);
    U32RoundTrip(x);
  }

  // ------------------------------------------------------------------
  // Index pages
  // ------------------------------------------------------------------

  lemma ItemSize(e: N.Item)
    ensures |N.ItemBytes(e)| == |e.key| + 8
  {
  }

  // Part i of parts of one size lies i sizes from the start.
  lemma {:induction false} ItemAt(es: seq<N.Item>, width: nat, i: nat)
    requires N.PackableItems(es, width) && i < |es|
    ensures i * (width + 8) + width + 8 <= |N.ItemsBytes(es)|
    ensures var at := i * (width + 8); N.ItemsBytes(es)[at..at + width + 8] == N.ItemBytes(es[i])
  {
    hide N.ItemBytes;
    var all, u := N.ItemsBytes(es), width + 8;
    ItemSize(es[0]);
    ItemSize(es[i]);
    assert all == N.ItemBytes(es[0]) + N.ItemsBytes(es[1..]);
    if i == 0 {
    } else {
      ItemAt(es[1..], width, i - 1);
      N.TimesStep(i, u);
      Shifted(N.ItemBytes(es[0]), N.ItemsBytes(es[1..]), (i - 1) * u, u);
    }
  }

  lemma Shifted(a: bytes, b: bytes, at: nat, n: nat)
    requires at + n <= |b|
    ensures (a + b)[|a| + at..|a| + at + n] == b[at..at + n]
  {
  }

  lemma {:induction false} PairAt(keys: seq<bytes>, children: seq<nat>, width: nat, i: nat)
    requires |keys| == |children| && N.OfWidth(keys, width) && i < |keys|
    ensures i * (width + 4) + width + 4 <= |N.PairsBytes(keys, children)|
    ensures var at := i * (width + 4);
      N.PairsBytes(keys, children)[at..at + width + 4] == keys[i] + U32(children[i])
  {
    var all, u := N.PairsBytes(keys, children), width + 4;
    var first, rest := keys[0] + U32(children[0]), N.PairsBytes(keys[1..], children[1..]);
    assert all == first + rest;
    if i == 0 {
    } else {
      PairAt(keys[1..], children[1..], width, i - 1);
      N.TimesStep(i, u);
      Shifted(first, rest, (i - 1) * u, u);
    }
  }

  // A leaf page: byte 0 is 0, then the entry count in two bytes and the next leaf in
  // four; entry i is a key slot and the page and slot of its row id, four bytes each.
  lemma LeafPage(es: seq<N.Item>, next: nat, width: nat, pageSize: nat, i: nat)
    requires N.Fits(N.LeafNode(es, next), width, pageSize) && i < |es|
    ensures var page, at := N.PageBytes(N.LeafNode(es, next), pageSize), 7 + i * (width + 8);
      && |page| == pageSize && at + width + 8 <= pageSize && page[0] == 0
      && NumberAt(page, 1, 2) == |es| && NumberAt(page, 3, 4) == next
      && page[at..at + width] == es[i].key
      && NumberAt(page, at + width, 4) == es[i].rid.page && NumberAt(page, at + width + 4, 4) == es[i].rid.slot
  {
    hide NumberAt, N.ItemsBytes, N.ItemBytes, N.PageBytes, N.NodeBytes;
    LeafHead(es, next, width, pageSize);
    LeafEntry(es, next, width, pageSize, i);
    EntryParts(N.PageBytes(N.LeafNode(es, next), pageSize), 7 + i * (width + 8), width, es[i]);
  }

  lemma LeafHead(es: seq<N.Item>, next: nat, width: nat, pageSize: nat)
    requires N.Fits(N.LeafNode(es, next), width, pageSize)
    ensures var page := N.PageBytes(N.LeafNode(es, next), pageSize);
      |page| == pageSize >= 7 && page[0] == 0 && NumberAt(page, 1, 2) == |es| && NumberAt(page, 3, 4) == next
  {
    hide U16, U32, N.ItemsBytes, NumberAt;
    var page := N.PageBytes(N.LeafNode(es, next), pageSize);
    assert page[..7] == N.LeafHeader(|es|, next);
    assert page[1..3] == page[..7][1..3] == U16(|es|) && page[3..7] == page[..7][3..7] == U32(next);
    WrittenTwo(page, 1, |es|);
    WrittenFour(page, 3, next);
  }

  lemma LeafEntry(es: seq<N.Item>, next: nat, width: nat, pageSize: nat, i: nat)
    requires N.Fits(N.LeafNode(es, next), width, pageSize) && i < |es|
    ensures var page, at := N.PageBytes(N.LeafNode(es, next), pageSize), 7 + i * (width + 8);
      at + width + 8 <= pageSize && page[at..at + width + 8] == N.ItemBytes(es[i])
  {
    hide N.ItemsBytes, N.ItemBytes, N.LeafHeader;
    ItemAt(es, width, i);
    var items := N.ItemsBytes(es);
    Behind(N.LeafHeader(|es|, next), items, Zeros(pageSize - |N.NodeBytes(N.LeafNode(es, next))|), i * (width + 8),
           width + 8);
  }

  // A stretch of the middle of three parts.
  lemma Behind(a: bytes, b: bytes, c: bytes, at: nat, n: nat)
    requires at + n <= |b|
    ensures (a + b + c)[|a| + at..|a| + at + n] == b[at..at + n]
  {
    Shifted(a, b, at, n);
    assert (a + b + c)[..|a + b|] == a + b;
  }

  lemma SubSpan(s: bytes, at: nat, n: nat, i: nat, j: nat)
    requires at + n <= |s| && i <= j <= n
    ensures s[at..at + n][i..j] == s[at + i..at + j]
  {
    var x, y := s[at..at + n][i..j], s[at + i..at + j];
    forall k | 0 <= k < |x| ensures x[k] == y[k] {
      assert x[k] == s[at..at + n][i + k] && y[k] == s[at + i + k];
    }
  }

  lemma EntryParts(page: bytes, at: nat, width: nat, e: N.Item)
    requires at + width + 8 <= |page| && page[at..at + width + 8] == N.ItemBytes(e) && |e.key| == width
    requires e.rid.page < 4294967296 && e.rid.slot < 4294967296
    ensures page[at..at + width] == e.key
    ensures NumberAt(page, at + width, 4) == e.rid.page && NumberAt(page, at + width + 4, 4) == e.rid.slot
  {
    hide U32;
    var b := page[at..at + width + 8];
    N.Parts(e.key, U32(e.rid.page), U32(e.rid.slot), []);
    assert b == e.key + U32(e.rid.page) + U32(e.rid.slot) + [];
    SubSpan(page, at, width + 8, 0, width);
    SubSpan(page, at, width + 8, width, width + 4);
    SubSpan(page, at, width + 8, width + 4, width + 8);
    WrittenFour(page, at + width, e.rid.page);
    WrittenFour(page, at + width + 4, e.rid.slot);
  }

  // An internal page: byte 0 is 1, then the key count in two bytes and the first child in
  // four; key i is a key slot with the child right of it in four bytes behind it.
  lemma InnerPage(keys: seq<bytes>, children: seq<nat>, width: nat, pageSize: nat, i: nat)
    requires N.Fits(N.InnerNode(keys, children), width, pageSize) && i < |keys|
    ensures var page, at := N.PageBytes(N.InnerNode(keys, children), pageSize), 7 + i * (width + 4);
      && |page| == pageSize && at + width + 4 <= pageSize && page[0] == 1
      && NumberAt(page, 1, 2) == |keys| && NumberAt(page, 3, 4) == children[0]
      && page[at..at + width] == keys[i] && NumberAt(page, at + width, 4) == children[i + 1]
  {
    hide NumberAt, N.PairsBytes, N.PageBytes, N.NodeBytes, U32;
    InnerHead(keys, children, width, pageSize);
    InnerPair(keys, children, width, pageSize, i);
    PairParts(N.PageBytes(N.InnerNode(keys, children), pageSize), 7 + i * (width + 4), width, keys[i], children[i + 1]);
  }

  lemma PairParts(page: bytes, at: nat, width: nat, key: bytes, child: nat)
    requires at + width + 4 <= |page| && page[at..at + width + 4] == key + U32(child) && |key| == width
    requires child < 4294967296
    ensures page[at..at + width] == key && NumberAt(page, at + width, 4) == child
  {
    hide U32;
    N.Parts(key, U32(child), [], []);
    assert page[at..at + width + 4] == key + U32(child) + [] + [];
    SubSpan(page, at, width + 4, 0, width);
    SubSpan(page, at, width + 4, width, width + 4);
    WrittenFour(page, at + width, child);
  }

  lemma InnerHead(keys: seq<bytes>, children: seq<nat>, width: nat, pageSize: nat)
    requires N.Fits(N.InnerNode(keys, children), width, pageSize)
    ensures var page := N.PageBytes(N.InnerNode(keys, children), pageSize);
      |page| == pageSize >= 7 && page[0] == 1 && NumberAt(page, 1, 2) == |keys| && NumberAt(page, 3, 4) == children[0]
  {
    hide U16, U32, N.PairsBytes, NumberAt;
    var page := N.PageBytes(N.InnerNode(keys, children), pageSize);
    assert page[..7] == N.InnerHeader(|keys|) + U32(children[0]);
    assert page[1..3] == page[..7][1..3] == U16(|keys|) && page[3..7] == page[..7][3..7] == U32(children[0]);
    WrittenTwo(page, 1, |keys|);
    WrittenFour(page, 3, children[0]);
  }

  lemma InnerPair(keys: seq<bytes>, children: seq<nat>, width: nat, pageSize: nat, i: nat)
    requires N.Fits(N.InnerNode(keys, children), width, pageSize) && i < |keys|
    ensures var page, at := N.PageBytes(N.InnerNode(keys, children), pageSize), 7 + i * (width + 4);
      at + width + 4 <= pageSize && page[at..at + width + 4] == keys[i] + U32(children[i + 1])
  {
    hide N.PairsBytes, N.InnerHeader, U32;
    PairAt(keys, children[1..], width, i);
    Behind(N.InnerHeader(|keys|) + U32(children[0]), N.PairsBytes(keys, children[1..]),
           Zeros(pageSize - |N.NodeBytes(N.InnerNode(keys, children))|), i * (width + 4), width + 4);
  }

  // The header page: SUPERIDX, format version 1, the tag 255, the key type, the cap of
  // TEXT keys, the root page and the column's name behind its length.
  lemma HeaderPage(h: N.Header, pageSize: nat)
    requires N.EncodeHeader(h, pageSize).Ok?
    ensures var page, col := N.EncodeHeader(h, pageSize).value, Utf8.Encode(h.col);
      && |page| == pageSize && 19 + |col| <= pageSize
      && page[..8] == [0x53, 0x55, 0x50, 0x45, 0x52, 0x49, 0x44, 0x58]
      && NumberAt(page, 8, 2) == 1 && page[10] == 255 && page[11] == h.keyType && NumberAt(page, 12, 2) == h.cap
      && NumberAt(page, 14, 4) == h.root && page[18] as int == |col| && page[19..19 + |col|] == col
  {
    hide U16, U32, Utf8.Encode;
    var page, col := N.EncodeHeader(h, pageSize).value, Utf8.Encode(h.col);
    assert page[..18] == N.FixedHeader(h);
    assert page[8..10] == U16(1) && page[12..14] == U16(h.cap) && page[14..18] == U32(h.root);
    WrittenTwo(page, 8, 1);
    WrittenTwo(page, 12, h.cap);
    WrittenFour(page, 14, h.root);
  }

  // The most entries a leaf of a page size holds, and the most keys an internal page: one
  // more does not fit.
  lemma LeafFanout(es: seq<N.Item>, next: nat, width: nat, pageSize: nat)
    requires pageSize < 65536 && N.Packable(N.LeafNode(es, next), width) && pageSize >= 7
    ensures 7 + |es| * (width + 8) <= pageSize <==> |es| <= N.LeafMax(pageSize, width)
    ensures N.Fits(N.LeafNode(es, next), width, pageSize) <==> |es| <= N.LeafMax(pageSize, width)
  {
    N.ItemsLength(es, width);
    AtMostQuotient(pageSize - 7, width + 8, |es|);
  }

  lemma InnerFanout(keys: seq<bytes>, children: seq<nat>, width: nat, pageSize: nat)
    requires pageSize < 65536 && N.Packable(N.InnerNode(keys, children), width) && pageSize >= 7
    ensures 7 + |keys| * (width + 4) <= pageSize <==> |keys| <= N.InnerMax(pageSize, width)
    ensures N.Fits(N.InnerNode(keys, children), width, pageSize) <==> |keys| <= N.InnerMax(pageSize, width)
  {
    N.PairsLength(keys, children[1..], width);
    AtMostQuotient(pageSize - 7, width + 4, |keys|);
  }

  lemma AtMostQuotient(a: nat, u: nat, n: nat)
    requires u > 0
    ensures n * u <= a <==> n <= a / u
  {
    var q := a / u;
    assert q * u <= a < (q + 1) * u;
    if n <= q {
      MulMonotone(n, q, u);
    } else {
      MulMonotone(q + 1, n, u);
    }
  }

  // ------------------------------------------------------------------
  // Heap pages
  // ------------------------------------------------------------------

  // A heap page: format version 1, slot count, free start and free end in two bytes each;
  // entry i is the offset, length and flags of a record in two bytes each, its flags 1
  // while it is live and else 0; records lie from the page's end down.
  lemma HeapPage(page: bytes, slots: seq<H.Slot>, i: nat)
    requires P.Shows(page, slots) && i < |slots|
    ensures var at, n := 8 + 6 * i, |slots[i].data|;
      && |page| >= 8 && at + 6 <= |page|
      && NumberAt(page, 0, 2) == 1 && NumberAt(page, 2, 2) == |slots| && NumberAt(page, 4, 2) == 8 + 6 * |slots|
      && NumberAt(page, 6, 2) == |page| - H.RecordSizes(slots)
      && var off := NumberAt(page, at, 2);
        && off == |page| - H.RecordSizes(slots[..i + 1])
        && NumberAt(page, at + 2, 2) == n && NumberAt(page, at + 4, 2) == (if slots[i].live then 1 else 0)
        && off + n <= |page| && page[off..off + n] == slots[i].data
  {
    hide NumberAt, P.U16At, H.RecordSizes, H.Span;
    assert P.SlotShows(page, slots, i);
    HeapHeader(page, slots);
    var at := 8 + 6 * i;
    FieldAt(page, at);
    FieldAt(page, at + 2);
    FieldAt(page, at + 4);
    PrefixSizes(slots, i + 1);
  }

  lemma HeapHeader(page: bytes, slots: seq<H.Slot>)
    requires P.Shows(page, slots)
    ensures |page| >= 8 && NumberAt(page, 0, 2) == 1 && NumberAt(page, 2, 2) == |slots|
    ensures NumberAt(page, 4, 2) == 8 + 6 * |slots| && NumberAt(page, 6, 2) == |page| - H.RecordSizes(slots)
  {
    hide NumberAt, P.U16At, H.RecordSizes, H.Span, P.SlotShows;
    FieldAt(page, 0);
    FieldAt(page, 2);
    FieldAt(page, 4);
    FieldAt(page, 6);
    PrefixSizes(slots, |slots|);
    assert slots[..|slots|] == slots;
  }

  lemma FieldAt(page: bytes, at: nat)
    requires at + 2 <= |page|
    ensures NumberAt(page, at, 2) == P.U16At(page, at)
  {
    NumberTwo(page, at);
  }

  lemma {:induction false} PrefixSizes(slots: seq<H.Slot>, n: nat)
    requires n <= |slots|
    ensures H.RecordSizes(slots[..n]) == H.Span(slots, n)
  {
    H.SizesSplit(slots[..n], n);
    assert slots[..n][n..] == [];
    SamePrefix(slots, n, n);
  }

  lemma {:induction false} SamePrefix(slots: seq<H.Slot>, n: nat, m: nat)
    requires m <= n <= |slots|
    ensures H.Span(slots[..n], m) == H.Span(slots, m)
  {
    if m == 0 {
    } else {
      SamePrefix(slots, n, m - 1);
    }
  }

  // ------------------------------------------------------------------
  // Records
  // ------------------------------------------------------------------

  // The bytes a value's field takes: none for null, four for a number, two more than its
  // text's.
  function FieldSize(v: Value): nat {
    match v
    case NullValue => 0
    case IntValue(_) => 4
    case TextValue(s) => 2 + Utf8Size(s)
  }

  function FieldSizes(values: seq<Value>): nat {
    if values == [] then 0 else FieldSize(values[0]) + FieldSizes(values[1..])
  }

  // A field: a number in two's complement, a text's length in two bytes and its UTF-8.
  lemma Field(col: T.Column, v: Value)
    requires T.EncodeField(col, v).Ok?
    ensures var b := T.EncodeField(col, v).value;
      && |b| == FieldSize(v)
      && (v.IntValue? ==> NumberAt(b, 0, 4) == if v.i < 0 then v.i + 4294967296 else v.i)
      && (v.TextValue? ==> NumberAt(b, 0, 2) == Utf8Size(v.s) && b[2..] == Utf8.Encode(v.s))
  {
    var b := T.EncodeField(col, v).value;
    match v
    case NullValue =>
    case IntValue(i) =>
      assert b[0..4] == b;
      WrittenFour(b, 0, if i < 0 then i + 4294967296 else i);
    case TextValue(s) =>
      SizeOfEncoding(s);
      assert b[0..2] == U16(|Utf8.Encode(s)|);
      WrittenTwo(b, 0, |Utf8.Encode(s)|);
  }

  lemma {:induction false} FieldsFrom(cols: seq<T.Column>, values: seq<Value>, from: nat, i: nat)
    requires |cols| == |values| && from <= i < |cols| && T.FieldsFrom(cols, values, from).Ok?
    ensures T.EncodeField(cols[i], values[i]).Ok?
    ensures var at, b := FieldSizes(values[from..i]), T.FieldsFrom(cols, values, from).value;
      && |b| == FieldSizes(values[from..]) && at + FieldSize(values[i]) <= |b|
      && b[at..at + FieldSize(values[i])] == T.EncodeField(cols[i], values[i]).value
    decreases |cols| - from
  {
    hide T.EncodeField, T.FieldsFrom, FieldSize;
    T.FieldsStep(cols, values, from);
    Field(cols[from], values[from]);
    var first, rest := T.EncodeField(cols[from], values[from]).value, T.FieldsFrom(cols, values, from + 1).value;
    assert values[from..][0] == values[from] && values[from..][1..] == values[from + 1..];
    if from + 1 == |cols| {
      NoFields(cols, values);
      assert values[from..i] == [];
    } else if from == i {
      FieldsFrom(cols, values, from + 1, from + 1);
      assert values[from..i] == [];
    } else {
      FieldsFrom(cols, values, from + 1, i);
      assert values[from..i][0] == values[from] && values[from..i][1..] == values[from + 1..i];
      Shifted(first, rest, FieldSizes(values[from + 1..i]), FieldSize(values[i]));
    }
  }

  lemma NoFields(cols: seq<T.Column>, values: seq<Value>)
    requires |cols| == |values|
    ensures T.FieldsFrom(cols, values, |cols|) == Ok([]) && FieldSizes(values[|cols|..]) == 0
  {
  }

  lemma {:induction false} BitIs(bm: nat, i: nat)
    ensures T.HasBit(bm, i) <==> bm / Pow2(i) % 2 == 1
  {
    if i == 0 {
    } else {
      BitIs(bm / 2, i - 1);
      DivTwice(bm, Pow2(i - 1));
    }
  }

  lemma DivTwice(a: nat, p: nat)
    requires p > 0
    ensures a / (2 * p) == a / 2 / p
  {
    var q, r := a / 2 / p, a / 2 % p;
    assert a / 2 == q * p + r;
    assert a == q * (2 * p) + (2 * r + a % 2);
    Quotient(a, 2 * p, q, 2 * r + a % 2);
  }

  lemma Quotient(a: nat, b: nat, q: nat, r: nat)
    requires r < b && a == q * b + r
    ensures a / b == q
  {
    AtMostQuotient(a, b, q);
    AtMostQuotient(a, b, q + 1);
    assert (q + 1) * b == q * b + b;
  }

  function Pow2(i: nat): (p: nat)
    ensures p > 0
  {
    if i == 0 then 1 else 2 * Pow2(i - 1)
  }

  // A record: one bit a column in as many bytes as that takes, set for null; then the
  // fields in schema order, one right behind the other.
  lemma Record(cols: seq<T.Column>, values: seq<Value>, i: nat)
    requires T.TupleBytes(cols, values).Ok? && i < |cols|
    ensures |cols| == |values| && T.EncodeField(cols[i], values[i]).Ok?
    ensures var b, at := T.TupleBytes(cols, values).value, (|cols| + 7) / 8 + FieldSizes(values[..i]);
      && |b| == (|cols| + 7) / 8 + FieldSizes(values) && at + FieldSize(values[i]) <= |b|
      && (NumberAt(b, 0, (|cols| + 7) / 8) / Pow2(i) % 2 == 1 <==> values[i].NullValue?)
      && b[at..at + FieldSize(values[i])] == T.EncodeField(cols[i], values[i]).value
  {
    hide T.TupleBytes, T.FieldsFrom, T.EncodeField, FieldSizes, FieldSize, NumberAt, Pow2;
    var b, bits, fields := TupleParts(cols, values);
    FieldsFrom(cols, values, 0, i);
    assert values[0..i] == values[..i] && values[0..] == values;
    Shifted(bits, fields, FieldSizes(values[..i]), FieldSize(values[i]));
    NullBit(values, b, bits, fields, i);
  }

  lemma NullBit(values: seq<Value>, b: bytes, bits: bytes, fields: bytes, i: nat)
    requires i < |values| && b == bits + fields && bits == ToLE(T.BitmapOf(values, |values|), (|values| + 7) / 8)
    ensures NumberAt(b, 0, (|values| + 7) / 8) / Pow2(i) % 2 == 1 <==> values[i].NullValue?
  {
    hide T.HasBit, T.BitmapOf, FromLE, ToLE, Pow2;
    assert b[0..(|values| + 7) / 8] == bits;
    T.BitmapRoundTrip(values);
    T.BitmapBits(values, |values|, i);
    BitIs(T.BitmapOf(values, |values|), i);
  }

  lemma TupleParts(cols: seq<T.Column>, values: seq<Value>) returns (b: bytes, bits: bytes, fields: bytes)
    requires T.TupleBytes(cols, values).Ok?
    ensures |cols| == |values| && T.FieldsFrom(cols, values, 0) == Ok(fields)
    ensures bits == ToLE(T.BitmapOf(values, |values|), (|cols| + 7) / 8)
    ensures b == T.TupleBytes(cols, values).value == bits + fields
  {
    hide T.FieldsFrom, ToLE, T.BitmapOf;
    b, bits := T.TupleBytes(cols, values).value, ToLE(T.BitmapOf(values, |values|), (|cols| + 7) / 8);
    fields := T.FieldsFrom(cols, values, 0).value;
  }
}
