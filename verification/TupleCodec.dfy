// Records as bytes: a bitmap of null columns, then the other columns' fields in
// schema order.
module TupleCodec {
  import opened Wrappers
  import opened Arithmetic
  import opened Bytes
  import opened TextOrder
  import Utf8

  datatype ColumnType = IntType | TextType

  datatype Column = Column(name: string, colType: ColumnType, nullable: bool)

  // Where a column's field lies in a record and what it holds.
  datatype FieldSpan = FieldSpan(col: Column, isNull: bool, offset: nat, length: nat, value: Value)

  function BitmapWidth(n: nat): nat {
    (n + 7) / 8
  }

  // ------------------------------------------------------------------
  // The bitmap, an integer of any number of bits
  // ------------------------------------------------------------------

  predicate HasBit(bm: nat, i: nat) {
    if i == 0 then bm % 2 == 1 else HasBit(bm / 2, i - 1)
  }

  function WithBit(bm: nat, i: nat): nat {
    if HasBit(bm, i) then bm else bm + Pow(2, i)
  }

  // Bit j is set for each null among the first i values.
  function BitmapOf(values: seq<Value>, i: nat): nat
    requires i <= |values|
  {
    if i == 0 then 0
    else if values[i - 1].NullValue? then WithBit(BitmapOf(values, i - 1), i - 1)
    else BitmapOf(values, i - 1)
  }

  lemma {:induction false} HighBitsClear(bm: nat, i: nat)
    requires bm < Pow(2, i)
    ensures !HasBit(bm, i)
  {
    if i == 0 {
    } else {
      HighBitsClear(bm / 2, i - 1);
    }
  }

  lemma {:induction false} SetHighBit(bm: nat, i: nat, j: nat)
    requires bm < Pow(2, i)
    ensures HasBit(bm + Pow(2, i), j) <==> j == i || HasBit(bm, j)
    decreases i
  {
    if i == 0 {
      if j > 0 {
        ZeroHasNoBits(j);
        ZeroHasNoBits(j - 1);
      }
    } else if j > 0 {
      var p := Pow(2, i - 1);
      assert Pow(2, i) == 2 * p && bm / 2 < p;
      hide Pow;
      AddEven(bm, p);
      SetHighBit(bm / 2, i - 1, j - 1);
    } else {
      AddEven(bm, Pow(2, i - 1));
    }
  }

  lemma AddEven(bm: nat, p: nat)
    ensures (bm + 2 * p) / 2 == bm / 2 + p && (bm + 2 * p) % 2 == bm % 2
  {
  }

  lemma {:induction false} ZeroHasNoBits(j: nat)
    ensures !HasBit(0, j)
  {
    if j == 0 {
    } else {
      ZeroHasNoBits(j - 1);
    }
  }

  // The bitmap says of every column whether it is null, however many columns.
  lemma {:induction false} BitmapBits(values: seq<Value>, i: nat, j: nat)
    requires i <= |values|
    ensures BitmapOf(values, i) < Pow(2, i)
    ensures HasBit(BitmapOf(values, i), j) <==> j < i && values[j].NullValue?
  {
    if i == 0 {
      ZeroHasNoBits(j);
    } else {
      BitmapBits(values, i - 1, j);
      HighBitsClear(BitmapOf(values, i - 1), i - 1);
      SetHighBit(BitmapOf(values, i - 1), i - 1, j);
    }
  }

  lemma {:induction false} BytesOfBits(w: nat)
    ensures Pow(256, w) == Pow(2, 8 * w)
  {
    if w == 0 {
    } else {
      BytesOfBits(w - 1);
      var k := 8 * w - 8;
      assert Pow(2, k + 1) == 2 * Pow(2, k) && Pow(2, k + 2) == 4 * Pow(2, k);
      assert Pow(2, k + 3) == 8 * Pow(2, k) && Pow(2, k + 4) == 16 * Pow(2, k);
      assert Pow(2, k + 5) == 32 * Pow(2, k) && Pow(2, k + 6) == 64 * Pow(2, k);
      assert Pow(2, k + 7) == 128 * Pow(2, k);
    }
  }

  // The bitmap fits its bytes and comes back out of them.
  lemma BitmapRoundTrip(values: seq<Value>)
    ensures FromLE(ToLE(BitmapOf(values, |values|), BitmapWidth(|values|))) == BitmapOf(values, |values|)
  {
    var n, w := |values|, BitmapWidth(|values|);
    BitmapBits(values, n, 0);
    BytesOfBits(w);
    PowGrows(2, n, 8 * w);
    FromToLE(BitmapOf(values, n), w);
  }

  // ------------------------------------------------------------------
  // Encoding
  // ------------------------------------------------------------------

  // One column's field: nothing for null.
  function EncodeField(col: Column, v: Value): Result<bytes> {
    match v
    case NullValue => if col.nullable then Ok([]) else Err(StorageError)
    case IntValue(i) =>
      if col.colType == IntType && I32_MIN <= i < I32_LIMIT then Ok(I32(i)) else Err(StorageError)
    case TextValue(s) =>
      if col.colType == TextType && |Utf8.Encode(s)| < U16_LIMIT then Ok(U16(|Utf8.Encode(s)|) + Utf8.Encode(s))
      else Err(StorageError)
  }

  function Prepend<T>(a: seq<T>, r: Result<seq<T>>): Result<seq<T>> {
    match r
    case Ok(b) => Ok(a + b)
    case Err(e) => Err(e)
  }

  // The fields of columns i and on.
  function FieldsFrom(cols: seq<Column>, values: seq<Value>, i: nat): Result<bytes>
    requires |cols| == |values| && i <= |cols|
    decreases |cols| - i
  {
    if i == |cols| then Ok([])
    else
      match EncodeField(cols[i], values[i])
      case Ok(b) => Prepend(b, FieldsFrom(cols, values, i + 1))
      case Err(e) => Err(e)
  }

  function TupleBytes(cols: seq<Column>, values: seq<Value>): Result<bytes> {
    if |values| != |cols| then Err(StorageError)
    else Prepend(ToLE(BitmapOf(values, |values|), BitmapWidth(|cols|)), FieldsFrom(cols, values, 0))
  }

  lemma PrependTwice<T>(a: seq<T>, b: seq<T>, r: Result<seq<T>>)
    ensures Prepend(a, Prepend(b, r)) == Prepend(a + b, r)
  {
    if r.Ok? {
      assert a + (b + r.value) == (a + b) + r.value;
    }
  }

  lemma PrependNone<T>(r: Result<seq<T>>)
    ensures Prepend([], r) == r
  {
    if r.Ok? {
      assert [] + r.value == r.value;
    }
  }

  // Builds the bitmap in one loop and the fields in a second one.
  method EncodeTuple(cols: seq<Column>, values: seq<Value>) returns (r: Result<bytes>)
    ensures r == TupleBytes(cols, values)
  {
    if |values| != |cols| {
      return Err(StorageError);
    }
    var bm: nat := 0;
    for i := 0 to |values|
      invariant bm == BitmapOf(values, i)
    {
      if values[i].NullValue? {
        bm := WithBit(bm, i);
      }
    }
    var record: bytes := ToLE(bm, BitmapWidth(|cols|));
    for i := 0 to |cols|
      invariant TupleBytes(cols, values) == Prepend(record, FieldsFrom(cols, values, i))
    {
      var col, v := cols[i], values[i];
      match v
      case NullValue =>
        if !col.nullable {
          return Err(StorageError);
        }
        PrependTwice(record, [], FieldsFrom(cols, values, i + 1));
        assert record + [] == record;
      case IntValue(x) =>
        if col.colType != IntType || !(I32_MIN <= x < I32_LIMIT) {
          return Err(StorageError);
        }
        PrependTwice(record, I32(x), FieldsFrom(cols, values, i + 1));
        record := record + I32(x);
      case TextValue(s) =>
        if col.colType != TextType {
          return Err(StorageError);
        }
        var b := Utf8.Encode(s);
        if |b| >= U16_LIMIT {
          return Err(StorageError);
        }
        PrependTwice(record, U16(|b|) + b, FieldsFrom(cols, values, i + 1));
        record := record + (U16(|b|) + b);
    }
    return Ok(record);
  }

  // ------------------------------------------------------------------
  // Walking a record
  // ------------------------------------------------------------------

  // The field of a column that is not null, at pos; running past the record's end
  // or bytes that are not UTF-8 are errors.
  function ReadField(record: bytes, col: Column, pos: nat): Result<FieldSpan> {
    match col.colType
    case IntType =>
      if pos + 4 > |record| then Err(StorageError)
      else Ok(FieldSpan(col, false, pos, 4, IntValue(FromI32(record[pos..pos + 4]))))
    case TextType =>
      if pos + 2 > |record| then Err(StorageError)
      else
        var ln := FromU16(record[pos..pos + 2]);
        if pos + 2 + ln > |record| then Err(StorageError)
        else
          match Utf8.Decode(record[pos + 2..pos + 2 + ln])
          case None => Err(StorageError)
          case Some(s) => Ok(FieldSpan(col, false, pos, 2 + ln, TextValue(s)))
  }

  // The spans of columns i and on, the first of them at pos.
  function WalkFrom(record: bytes, cols: seq<Column>, bm: nat, i: nat, pos: nat): Result<seq<FieldSpan>>
    requires i <= |cols|
    decreases |cols| - i
  {
    if i == |cols| then Ok([])
    else if HasBit(bm, i)
      then Prepend([FieldSpan(cols[i], true, pos, 0, NullValue)], WalkFrom(record, cols, bm, i + 1, pos))
    else
      match ReadField(record, cols[i], pos)
      case Err(e) => Err(e)
      case Ok(f) => Prepend([f], WalkFrom(record, cols, bm, i + 1, pos + f.length))
  }

  function Spans(record: bytes, cols: seq<Column>): Result<seq<FieldSpan>> {
    var w := BitmapWidth(|cols|);
    if |record| < w then Err(StorageError) else WalkFrom(record, cols, FromLE(record[..w]), 0, w)
  }

  function ValuesOf(spans: seq<FieldSpan>): (r: seq<Value>)
    ensures |r| == |spans|
  {
    seq(|spans|, i requires 0 <= i < |spans| => spans[i].value)
  }

  function DecodeTuple(record: bytes, cols: seq<Column>): Result<seq<Value>> {
    match Spans(record, cols)
    case Ok(spans) => Ok(ValuesOf(spans))
    case Err(e) => Err(e)
  }

  method DescribeTuple(record: bytes, cols: seq<Column>) returns (r: Result<seq<FieldSpan>>)
    ensures r == Spans(record, cols)
  {
    var w := BitmapWidth(|cols|);
    if |record| < w {
      return Err(StorageError);
    }
    var bm := FromLE(record[..w]);
    var pos: nat := w;
    var spans: seq<FieldSpan> := [];
    PrependNone(WalkFrom(record, cols, bm, 0, w));
    for i := 0 to |cols|
      invariant Spans(record, cols) == Prepend(spans, WalkFrom(record, cols, bm, i, pos))
    {
      var col := cols[i];
      var span := FieldSpan(col, true, pos, 0, NullValue);
      if !HasBit(bm, i) {
        var read := ReadField(record, col, pos);
        if read.Err? {
          return Err(read.error);
        }
        span := read.value;
      }
      PrependTwice(spans, [span], WalkFrom(record, cols, bm, i + 1, pos + span.length));
      spans := spans + [span];
      pos := pos + span.length;
    }
    assert spans + [] == spans;
    return Ok(spans);
  }

  // ------------------------------------------------------------------
  // Properties
  // ------------------------------------------------------------------

  // Spans that follow each other without gap or overlap from pos to end.
  ghost predicate Tile(spans: seq<FieldSpan>, pos: int, end: int) {
    && (spans == [] ==> pos == end)
    && (spans != [] ==> spans[0].offset == pos && spans[|spans| - 1].offset + spans[|spans| - 1].length == end)
    && forall i :: 0 <= i < |spans| - 1 ==> spans[i + 1].offset == spans[i].offset + spans[i].length
  }

  lemma TileOneMore(s: FieldSpan, spans: seq<FieldSpan>, end: int)
    requires Tile(spans, s.offset + s.length, end)
    ensures Tile([s] + spans, s.offset, end)
  {
    var all := [s] + spans;
    forall i | 0 <= i < |all| - 1 ensures all[i + 1].offset == all[i].offset + all[i].length {
      if i > 0 {
        assert all[i + 1] == spans[i] && all[i] == spans[i - 1];
      }
    }
  }

  // On any bytes at all the walk reports a storage error, or gives one span a
  // column, which tile a stretch inside the record.
  lemma {:induction false} WalkIsSafe(record: bytes, cols: seq<Column>, bm: nat, i: nat, pos: nat)
    requires i <= |cols| && pos <= |record|
    ensures var r := WalkFrom(record, cols, bm, i, pos);
      && (r.Err? ==> r == Err(StorageError))
      && (r.Ok? ==> |r.value| == |cols| - i && exists end :: pos <= end <= |record| && Tile(r.value, pos, end))
    decreases |cols| - i
  {
    if i == |cols| {
      assert Tile([], pos, pos);
    } else {
      var f := if HasBit(bm, i) then Ok(FieldSpan(cols[i], true, pos, 0, NullValue))
               else ReadField(record, cols[i], pos);
      if f.Ok? {
        var next := pos + f.value.length;
        WalkIsSafe(record, cols, bm, i + 1, next);
        var r := WalkFrom(record, cols, bm, i + 1, next);
        if r.Ok? {
          var end :| next <= end <= |record| && Tile(r.value, next, end);
          TileOneMore(f.value, r.value, end);
        }
      }
    }
  }

  lemma SpansAreSafe(record: bytes, cols: seq<Column>)
    ensures var r, w := Spans(record, cols), BitmapWidth(|cols|);
      && (r.Err? ==> r == Err(StorageError))
      && (r.Ok? ==> |r.value| == |cols| && exists end :: w <= end <= |record| && Tile(r.value, w, end))
  {
    var w := BitmapWidth(|cols|);
    if |record| >= w {
      WalkIsSafe(record, cols, FromLE(record[..w]), 0, w);
    }
  }

  lemma SliceOfTail<T>(s: seq<T>, pos: nat, a: seq<T>, b: seq<T>)
    requires pos <= |s| && s[pos..] == a + b
    ensures pos + |a| <= |s| && s[pos..pos + |a|] == a && s[pos + |a|..] == b
  {
    assert s[pos..pos + |a|] == s[pos..][..|a|];
    assert s[pos + |a|..] == s[pos..][|a|..];
  }

  // Reading a field that was encoded at pos.
  lemma FieldRoundTrip(record: bytes, col: Column, v: Value, pos: nat, rest: bytes)
    requires !v.NullValue? && EncodeField(col, v).Ok?
    requires pos <= |record| && record[pos..] == EncodeField(col, v).value + rest
    ensures var b := EncodeField(col, v).value;
      && ReadField(record, col, pos) == Ok(FieldSpan(col, false, pos, |b|, v))
      && pos + |b| <= |record| && record[pos + |b|..] == rest
  {
    hide Utf8.Encode, Utf8.Decode;
    var b := EncodeField(col, v).value;
    SliceOfTail(record, pos, b, rest);
    match v
    case IntValue(i) =>
      I32RoundTrip(i);
    case TextValue(s) =>
      var raw := Utf8.Encode(s);
      assert b == U16(|raw|) + raw;
      assert record[pos..] == U16(|raw|) + (raw + rest);
      SliceOfTail(record, pos, U16(|raw|), raw + rest);
      SliceOfTail(record, pos + 2, raw, rest);
      U16RoundTrip(|raw|);
      Utf8.DecodeEncode(s);
  }

  lemma FieldsStep(cols: seq<Column>, values: seq<Value>, i: nat)
    requires |cols| == |values| && i < |cols| && FieldsFrom(cols, values, i).Ok?
    ensures EncodeField(cols[i], values[i]).Ok? && FieldsFrom(cols, values, i + 1).Ok?
    ensures FieldsFrom(cols, values, i).value
            == EncodeField(cols[i], values[i]).value + FieldsFrom(cols, values, i + 1).value
  {
  }

  // What the walk reads for column i of an encoded record.
  lemma WalkStep(record: bytes, cols: seq<Column>, bm: nat, i: nat, pos: nat, v: Value, rest: bytes)
    requires i < |cols| && pos <= |record| && EncodeField(cols[i], v).Ok?
    requires HasBit(bm, i) <==> v.NullValue?
    requires record[pos..] == EncodeField(cols[i], v).value + rest
    ensures var n := |EncodeField(cols[i], v).value|;
      && pos + n <= |record| && record[pos + n..] == rest
      && WalkFrom(record, cols, bm, i, pos) ==
         Prepend([FieldSpan(cols[i], v.NullValue?, pos, n, v)], WalkFrom(record, cols, bm, i + 1, pos + n))
  {
    if v.NullValue? {
      assert [] + rest == rest;
    } else {
      FieldRoundTrip(record, cols[i], v, pos, rest);
    }
  }

  lemma WalkEnds(record: bytes, cols: seq<Column>, values: seq<Value>, bm: nat, pos: nat)
    requires |cols| == |values| && pos <= |record| && FieldsFrom(cols, values, |cols|) == Ok(record[pos..])
    ensures var r := WalkFrom(record, cols, bm, |cols|, pos);
      r.Ok? && ValuesOf(r.value) == [] && Tile(r.value, pos, |record|)
  {
  }

  lemma {:induction false} WalkUndoesFields(record: bytes, cols: seq<Column>, values: seq<Value>, bm: nat, i: nat,
                                            pos: nat)
    requires |cols| == |values| && i <= |cols| && pos <= |record|
    requires forall j :: i <= j < |cols| ==> (HasBit(bm, j) <==> values[j].NullValue?)
    requires FieldsFrom(cols, values, i) == Ok(record[pos..])
    ensures var r := WalkFrom(record, cols, bm, i, pos);
      r.Ok? && ValuesOf(r.value) == values[i..] && Tile(r.value, pos, |record|)
    decreases |cols| - i
  {
    hide WalkFrom, FieldsFrom, EncodeField, HasBit, Tile, ValuesOf;
    if i == |cols| {
      WalkEnds(record, cols, values, bm, pos);
    } else {
      FieldsStep(cols, values, i);
      var rest := FieldsFrom(cols, values, i + 1).value;
      var n := |EncodeField(cols[i], values[i]).value|;
      WalkStep(record, cols, bm, i, pos, values[i], rest);
      WalkUndoesFields(record, cols, values, bm, i + 1, pos + n);
      var r := WalkFrom(record, cols, bm, i + 1, pos + n).value;
      OneMoreSpan(FieldSpan(cols[i], values[i].NullValue?, pos, n, values[i]), r, values, i, |record|);
    }
  }

  lemma OneMoreSpan(f: FieldSpan, spans: seq<FieldSpan>, values: seq<Value>, i: nat, end: nat)
    requires i < |values| && f.value == values[i] && ValuesOf(spans) == values[i + 1..]
    requires Tile(spans, f.offset + f.length, end)
    ensures ValuesOf([f] + spans) == values[i..] && Tile([f] + spans, f.offset, end)
  {
    TileOneMore(f, spans, end);
    assert values[i..] == [values[i]] + values[i + 1..];
    assert ValuesOf([f] + spans) == [f.value] + ValuesOf(spans);
  }

  // Decoding undoes encoding for every schema of any width, and the described
  // spans tile the record from the bitmap's end to its last byte.
  lemma DecodeUndoesEncode(cols: seq<Column>, values: seq<Value>)
    requires TupleBytes(cols, values).Ok?
    ensures var record := TupleBytes(cols, values).value;
      && DecodeTuple(record, cols) == Ok(values)
      && Tile(Spans(record, cols).value, BitmapWidth(|cols|), |record|)
  {
    var record, w := TupleBytes(cols, values).value, BitmapWidth(|cols|);
    var bm := BitmapOf(values, |values|);
    var fields := FieldsFrom(cols, values, 0).value;
    assert record == ToLE(bm, w) + fields;
    assert record[..w] == ToLE(bm, w) && record[w..] == fields;
    BitmapRoundTrip(values);
    forall j | 0 <= j < |cols| ensures HasBit(bm, j) <==> values[j].NullValue? {
      BitmapBits(values, |values|, j);
    }
    WalkUndoesFields(record, cols, values, bm, 0, w);
    assert values[0..] == values;
  }

  // A record is accepted exactly when it has a value a column and every value
  // suits its column.
  lemma {:induction false} FieldsAccepted(cols: seq<Column>, values: seq<Value>, i: nat)
    requires |cols| == |values| && i <= |cols|
    ensures FieldsFrom(cols, values, i).Ok? <==> forall j :: i <= j < |cols| ==> Suits(cols[j], values[j])
    ensures FieldsFrom(cols, values, i).Err? ==> FieldsFrom(cols, values, i) == Err(StorageError)
    decreases |cols| - i
  {
    if i == |cols| {
    } else {
      FieldAccepted(cols[i], values[i]);
      FieldsAccepted(cols, values, i + 1);
    }
  }

  predicate Suits(col: Column, v: Value) {
    match v
    case NullValue => col.nullable
    case IntValue(i) => col.colType == IntType && -2147483648 <= i <= 2147483647
    case TextValue(s) => col.colType == TextType && Utf8Size(s) <= 65535
  }

  // A column's field is accepted exactly when the value suits the column.
  lemma FieldAccepted(col: Column, v: Value)
    ensures EncodeField(col, v).Ok? <==> Suits(col, v)
    ensures EncodeField(col, v).Err? ==> EncodeField(col, v) == Err(StorageError)
  {
    if v.TextValue? {
      SizeOfEncoding(v.s);
    }
  }

  lemma Accepted(cols: seq<Column>, values: seq<Value>)
    ensures TupleBytes(cols, values).Ok? <==> |cols| == |values| && forall j :: 0 <= j < |cols| ==>
      Suits(cols[j], values[j])
    ensures TupleBytes(cols, values).Err? ==> TupleBytes(cols, values) == Err(StorageError)
  {
    if |cols| == |values| {
      FieldsAccepted(cols, values, 0);
    }
  }

  // A decoded value is null or of its column's type.
  predicate OfColumn(col: Column, v: Value) {
    match v
    case NullValue => true
    case IntValue(i) => col.colType == IntType && -2147483648 <= i <= 2147483647
    case TextValue(_) => col.colType == TextType
  }

  lemma {:induction false} WalkTypes(record: bytes, cols: seq<Column>, bm: nat, i: nat, pos: nat, j: nat)
    requires i <= j < |cols| && WalkFrom(record, cols, bm, i, pos).Ok?
    ensures var spans := WalkFrom(record, cols, bm, i, pos).value;
      j - i < |spans| && OfColumn(cols[j], spans[j - i].value)
    decreases |cols| - i
  {
    var next := pos;
    if !HasBit(bm, i) {
      next := pos + ReadField(record, cols[i], pos).value.length;
    }
    if i < j {
      WalkTypes(record, cols, bm, i + 1, next, j);
    }
  }

  lemma DecodedTypes(record: bytes, cols: seq<Column>, j: nat)
    requires j < |cols| && DecodeTuple(record, cols).Ok?
    ensures var values := DecodeTuple(record, cols).value;
      j < |values| && OfColumn(cols[j], values[j])
  {
    var w := BitmapWidth(|cols|);
    WalkTypes(record, cols, FromLE(record[..w]), 0, w, j);
  }
}
