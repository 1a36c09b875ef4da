// Index keys as fixed-width byte slots, how slots compare, and the integers they
// compare as.
module KeyCodec {
  import opened Wrappers
  import opened Arithmetic
  import opened Bytes
  import opened TextOrder
  import Utf8

  // An INT key slot holds an int32; a TEXT key slot a length and cap bytes of payload.
  datatype KeyType = IntKey | TextKey(cap: nat)

  function SlotWidth(kt: KeyType): nat {
    match kt
    case IntKey => 4
    case TextKey(cap) => 2 + cap
  }

  function EncodeIntKey(i: int): Result<bytes> {
    if I32_MIN <= i < I32_LIMIT then Ok(I32(i)) else Err(StorageError)
  }

  function EncodeTextKey(s: string, cap: nat): Result<bytes> {
    var raw := Utf8.Encode(s);
    if |raw| > cap then Err(KeyTooLong) else Ok(U16(|raw|) + raw + Zeros(cap - |raw|))
  }

  function EncodeKey(kt: KeyType, v: Value): Result<bytes> {
    match kt
    case IntKey => if v.IntValue? then EncodeIntKey(v.i) else Err(StorageError)
    case TextKey(cap) => if v.TextValue? then EncodeTextKey(v.s, cap) else Err(TypeError)
  }

  // The keys an index of a type holds: int32 numbers, or texts of at most cap bytes.
  predicate HasKey(kt: KeyType, v: Value) {
    match kt
    case IntKey => v.IntValue? && -2147483648 <= v.i <= 2147483647
    case TextKey(cap) => v.TextValue? && Utf8Size(v.s) <= cap
  }

  // The error any other key raises.
  function Refusal(kt: KeyType, v: Value): Error {
    match kt
    case IntKey => StorageError
    case TextKey(_) => if v.TextValue? then KeyTooLong else TypeError
  }

  // A key encodes exactly when an index of the type holds it.
  lemma EncodesKeys(kt: KeyType, v: Value)
    ensures EncodeKey(kt, v).Ok? <==> HasKey(kt, v)
    ensures !HasKey(kt, v) ==> EncodeKey(kt, v) == Err(Refusal(kt, v))
  {
    if v.TextValue? {
      SizeOfEncoding(v.s);
    }
  }

  // An INT slot is the number's two's complement, least significant byte first.
  lemma IntSlot(i: int)
    requires -2147483648 <= i <= 2147483647
    ensures var r := EncodeKey(IntKey, IntValue(i));
      && r.Ok? && |r.value| == 4
      && r.value[0] as int + 256 * r.value[1] as int + 65536 * r.value[2] as int + 16777216 * r.value[3] as int
         == if i < 0 then i + 4294967296 else i
  {
    U32RoundTrip(if i < 0 then i + U32_LIMIT else i);
  }

  // The bytes of a TEXT slot that count, cut short as a Python slice would be.
  function Payload(slot: bytes): bytes
    requires |slot| >= 2
  {
    var n := FromU16(slot[..2]);
    if 2 + n <= |slot| then slot[2..2 + n] else slot[2..]
  }

  function CompareIntKeys(a: bytes, b: bytes): int
    requires |a| == 4 == |b|
  {
    var x, y := FromI32(a), FromI32(b);
    if x > y then 1 else if x < y then -1 else 0
  }

  function CompareTextKeys(a: bytes, b: bytes): int
    requires |a| >= 2 && |b| >= 2
  {
    LexCompare(Payload(a), Payload(b))
  }

  function Compare(kt: KeyType, a: bytes, b: bytes): int
    requires |a| == SlotWidth(kt) == |b|
  {
    match kt
    case IntKey => CompareIntKeys(a, b)
    case TextKey(_) => CompareTextKeys(a, b)
  }

  // ------------------------------------------------------------------
  // Slots as integers
  // ------------------------------------------------------------------

  // A slot as encoders produce it: full width, padded with zeros.
  predicate Canonical(kt: KeyType, slot: bytes) {
    && |slot| == SlotWidth(kt)
    && (kt.TextKey? ==>
          var n := FromU16(slot[..2]);
          n <= kt.cap && kt.cap < U16_LIMIT && slot[2 + n..] == Zeros(kt.cap - n))
  }

  // Payloads of up to w bytes in lexicographic order, as base-257 fractions
  // scaled to integers: digit 0 is "no byte here".
  function TextRank(p: seq<int>, w: nat): int {
    if w == 0 then 0
    else if p == [] then 0
    else (p[0] + 1) * Pow(257, w - 1) + TextRank(p[1..], w - 1)
  }

  function Rank(kt: KeyType, slot: bytes): int
    requires |slot| == SlotWidth(kt)
  {
    match kt
    case IntKey => FromI32(slot)
    case TextKey(cap) => TextRank(Payload(slot), cap)
  }

  function RankLow(kt: KeyType): int {
    match kt
    case IntKey => I32_MIN
    case TextKey(_) => 0
  }

  function RankHigh(kt: KeyType): int {
    match kt
    case IntKey => I32_LIMIT
    case TextKey(cap) => Pow(257, cap)
  }

  lemma {:induction false} TextRankBounds(p: bytes, w: nat)
    requires |p| <= w
    ensures 0 <= TextRank(p, w) < Pow(257, w)
  {
    if w > 0 && p != [] {
      TextRankBounds(p[1..], w - 1);
      DigitBounds(p[0], Pow(257, w - 1), TextRank(p[1..], w - 1));
    } else {
      PowPositive(257, w);
    }
  }

  lemma DigitBounds(d: int, u: nat, r: int)
    requires 0 <= d < 256 && 0 <= r < u
    ensures u <= (d + 1) * u + r < 257 * u
  {
    MulMonotone(1, d + 1, u);
    MulMonotone(d + 2, 257, u);
    assert (d + 2) * u == (d + 1) * u + u;
  }

  // A smaller leading digit outweighs the rest.
  lemma DigitOrder(d: int, e: int, u: nat, r: int, s: int)
    requires d < e && 0 <= r < u && 0 <= s < u
    ensures (d + 1) * u + r < (e + 1) * u + s
  {
    MulMonotone(d + 2, e + 1, u);
    assert (d + 2) * u == (d + 1) * u + u;
  }

  lemma RankBounds(kt: KeyType, slot: bytes)
    requires Canonical(kt, slot)
    ensures RankLow(kt) <= Rank(kt, slot) < RankHigh(kt)
  {
    if kt.TextKey? {
      TextRankBounds(Payload(slot), kt.cap);
    }
  }

  // Lexicographic order of payloads is the order of their ranks.
  lemma {:induction false} TextRankOrder(p: bytes, q: bytes, w: nat)
    requires |p| <= w && |q| <= w
    ensures LexCompare(p, q) < 0 <==> TextRank(p, w) < TextRank(q, w)
    ensures LexCompare(p, q) == 0 <==> TextRank(p, w) == TextRank(q, w)
  {
    if p == [] || q == [] {
      RankOfEmpty(p, w);
      RankOfEmpty(q, w);
    } else {
      var u, r, s := Pow(257, w - 1), TextRank(p[1..], w - 1), TextRank(q[1..], w - 1);
      TextRankBounds(p[1..], w - 1);
      TextRankBounds(q[1..], w - 1);
      if p[0] < q[0] {
        DigitOrder(p[0], q[0], u, r, s);
      } else if q[0] < p[0] {
        DigitOrder(q[0], p[0], u, s, r);
      } else {
        TextRankOrder(p[1..], q[1..], w - 1);
        assert TextRank(p, w) == (p[0] as int + 1) * u + r && TextRank(q, w) == (p[0] as int + 1) * u + s;
      }
    }
  }

  lemma RankOfEmpty(p: bytes, w: nat)
    requires |p| <= w
    ensures TextRank(p, w) >= 0 && (TextRank(p, w) == 0 <==> p == [])
  {
    if p != [] {
      TextRankBounds(p[1..], w - 1);
      DigitBounds(p[0], Pow(257, w - 1), TextRank(p[1..], w - 1));
    }
  }

  lemma TextSlot(slot: bytes, cap: nat)
    requires Canonical(TextKey(cap), slot)
    ensures slot == U16(|Payload(slot)|) + Payload(slot) + Zeros(cap - |Payload(slot)|) && |Payload(slot)| <= cap
  {
    FromU16RoundTrip(slot[..2]);
    var n := FromU16(slot[..2]);
    assert slot == slot[..2] + slot[2..2 + n] + slot[2 + n..];
  }

  // The comparators order slots as their ranks, and call two slots equal only
  // when they are the same bytes, embedded zeros included. So a search that
  // tests slots for byte equality agrees with an insert that compares them.
  lemma CompareIsRank(kt: KeyType, a: bytes, b: bytes)
    requires Canonical(kt, a) && Canonical(kt, b)
    ensures Compare(kt, a, b) < 0 <==> Rank(kt, a) < Rank(kt, b)
    ensures Compare(kt, a, b) == 0 <==> Rank(kt, a) == Rank(kt, b)
    ensures Rank(kt, a) == Rank(kt, b) <==> a == b
  {
    match kt
    case IntKey =>
      FromI32RoundTrip(a);
      FromI32RoundTrip(b);
    case TextKey(cap) =>
      TextSlot(a, cap);
      TextSlot(b, cap);
      TextRankOrder(Payload(a), Payload(b), cap);
      LexEqual(Payload(a), Payload(b));
  }

  lemma EncodedTextSlot(s: string, cap: nat)
    requires cap < U16_LIMIT && EncodeTextKey(s, cap).Ok?
    ensures var slot := EncodeTextKey(s, cap).value;
      Canonical(TextKey(cap), slot) && Payload(slot) == Utf8.Encode(s)
  {
    var raw := Utf8.Encode(s);
    var slot := EncodeTextKey(s, cap).value;
    U16RoundTrip(|raw|);
    assert slot[..2] == U16(|raw|);
    assert slot[2..2 + |raw|] == raw;
    assert slot[2 + |raw|..] == Zeros(cap - |raw|);
  }

  lemma EncodedIsCanonical(kt: KeyType, v: Value)
    requires EncodeKey(kt, v).Ok? && (kt.TextKey? ==> kt.cap < U16_LIMIT)
    ensures Canonical(kt, EncodeKey(kt, v).value)
  {
    if kt.TextKey? {
      EncodedTextSlot(v.s, kt.cap);
    }
  }

  // INT slots compare as the signed integers they encode.
  lemma IntKeyOrder(i: int, j: int)
    requires -2147483648 <= i <= 2147483647 && -2147483648 <= j <= 2147483647
    ensures var a, b := EncodeIntKey(i), EncodeIntKey(j);
      && a.Ok? && b.Ok?
      && CompareIntKeys(a.value, b.value) == if i < j then -1 else if i > j then 1 else 0
  {
    I32RoundTrip(i);
    I32RoundTrip(j);
  }

  // TEXT slots compare as the texts do, code point by code point.
  lemma TextKeyOrder(s: string, t: string, cap: nat)
    requires cap < U16_LIMIT && Utf8Size(s) <= cap && Utf8Size(t) <= cap
    ensures var a, b := EncodeTextKey(s, cap), EncodeTextKey(t, cap);
      && a.Ok? && b.Ok? && |a.value| >= 2 && |b.value| >= 2
      && (CompareTextKeys(a.value, b.value) < 0 <==> TextLess(s, t))
      && (CompareTextKeys(a.value, b.value) == 0 <==> s == t)
  {
    EncodesKeys(TextKey(cap), TextValue(s));
    EncodesKeys(TextKey(cap), TextValue(t));
    CompareIsLess(s, t);
    EncodedTextSlot(s, cap);
    EncodedTextSlot(t, cap);
    Utf8.EncodeOrder(s, t);
  }

  // Different keys of one type have different slots.
  lemma EncodeKeyInjective(kt: KeyType, v: Value, w: Value)
    requires (kt.TextKey? ==> kt.cap < U16_LIMIT) && HasKey(kt, v) && HasKey(kt, w)
    ensures EncodeKey(kt, v) == EncodeKey(kt, w) <==> v == w
  {
    EncodesKeys(kt, v);
    EncodesKeys(kt, w);
    match kt
    case IntKey =>
      I32RoundTrip(v.i);
      I32RoundTrip(w.i);
    case TextKey(cap) =>
      EncodedTextSlot(v.s, cap);
      EncodedTextSlot(w.s, cap);
      Utf8.DecodeEncode(v.s);
      Utf8.DecodeEncode(w.s);
  }

  // The integer a key compares as, or the error its encoding raises.
  function KeyRank(kt: KeyType, v: Value): (r: Result<int>)
    requires kt.TextKey? ==> kt.cap < U16_LIMIT
    ensures r.Ok? <==> HasKey(kt, v)
    ensures r.Err? ==> r.error == Refusal(kt, v)
    ensures r.Ok? ==> RankLow(kt) <= r.value < RankHigh(kt)
  {
    EncodesKeys(kt, v);
    match EncodeKey(kt, v)
    case Err(e) => Err(e)
    case Ok(slot) =>
      EncodedIsCanonical(kt, v);
      RankBounds(kt, slot);
      Ok(Rank(kt, slot))
  }

  // Keys are the same exactly when their ranks are.
  lemma KeyRankInjective(kt: KeyType, v: Value, w: Value)
    requires (kt.TextKey? ==> kt.cap < U16_LIMIT) && HasKey(kt, v) && HasKey(kt, w)
    ensures KeyRank(kt, v) == KeyRank(kt, w) <==> v == w
  {
    EncodesKeys(kt, v);
    EncodesKeys(kt, w);
    EncodedIsCanonical(kt, v);
    EncodedIsCanonical(kt, w);
    CompareIsRank(kt, EncodeKey(kt, v).value, EncodeKey(kt, w).value);
    EncodeKeyInjective(kt, v, w);
  }

  // The rank of an INT key is the number itself.
  lemma IntKeyRank(i: int)
    requires -2147483648 <= i <= 2147483647
    ensures KeyRank(IntKey, IntValue(i)) == Ok(i)
  {
    I32RoundTrip(i);
  }

  // The ranks of TEXT keys are ordered as the texts.
  lemma TextKeyRank(s: string, t: string, cap: nat)
    requires cap < U16_LIMIT && Utf8Size(s) <= cap && Utf8Size(t) <= cap
    ensures var a, b := KeyRank(TextKey(cap), TextValue(s)), KeyRank(TextKey(cap), TextValue(t));
      a.Ok? && b.Ok? && (a.value < b.value <==> TextLess(s, t))
  {
    TextKeyOrder(s, t, cap);
    EncodedTextSlot(s, cap);
    EncodedTextSlot(t, cap);
    CompareIsRank(TextKey(cap), EncodeTextKey(s, cap).value, EncodeTextKey(t, cap).value);
  }
}
