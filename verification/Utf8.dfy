// UTF-8 (RFC 3629): encoding of text, strict decoding, and the order of encodings.
// A char is a Unicode scalar value, so no surrogates occur.
module Utf8 {
  import opened Wrappers
  import opened Bytes

  function EncodeChar(c: char): (r: bytes)
    ensures 1 <= |r| <= 4
  {
    var x := c as int;
    if x < 0x80 then [x]
    else if x < 0x800 then [0xC0 + x / 64, 0x80 + x % 64]
    else if x < 0x10000 then [0xE0 + x / 4096, 0x80 + x / 64 % 64, 0x80 + x % 64]
    else [0xF0 + x / 262144, 0x80 + x / 4096 % 64, 0x80 + x / 64 % 64, 0x80 + x % 64]
  }

  function Encode(s: string): bytes {
    if s == [] then [] else EncodeChar(s[0]) + Encode(s[1..])
  }

  predicate Tail(b: Byte) {
    0x80 <= b < 0xC0
  }

  predicate IsScalar(x: int) {
    0 <= x < 0xD800 || 0xE000 <= x < 0x110000
  }

  // The length a lead byte announces; 0 for a byte that starts no character.
  function LeadLength(b: Byte): (n: nat)
    ensures n <= 4
  {
    if b < 0x80 then 1 else if b < 0xC0 then 0 else if b < 0xE0 then 2 else if b < 0xF0 then 3 else if b < 0xF8 then 4
                                                                                                    else 0
  }

  // The code point a lead byte and its tail bytes spell.
  function Spelled(b: seq<int>): int
    requires 1 <= |b| <= 4
  {
    if |b| == 1 then b[0]
    else if |b| == 2 then (b[0] - 0xC0) * 64 + (b[1] - 0x80)
    else if |b| == 3 then ((b[0] - 0xE0) * 64 + (b[1] - 0x80)) * 64 + (b[2] - 0x80)
    else (((b[0] - 0xF0) * 64 + (b[1] - 0x80)) * 64 + (b[2] - 0x80)) * 64 + (b[3] - 0x80)
  }

  // The least code point that needs n bytes: anything below is an overlong form.
  function LeastOf(n: nat): nat {
    if n <= 1 then 0 else if n == 2 then 0x80 else if n == 3 then 0x800 else 0x10000
  }

  // The first character of b, if b starts with a well-formed one.
  function DecodeChar(b: bytes): (r: Option<char>)
    requires b != []
    ensures r.Some? ==> LeadLength(b[0]) <= |b|
  {
    var n := LeadLength(b[0]);
    if n == 0 || n > |b| || exists i :: 1 <= i < n && !Tail(b[i]) then None
    else
      var x := Spelled(b[..n]);
      if IsScalar(x) && LeastOf(n) <= x then Some(x as char) else None
  }

  function Decode(b: bytes): Option<string> {
    if b == [] then Some([])
    else
      match DecodeChar(b)
      case None => None
      case Some(c) =>
        var n := LeadLength(b[0]);
        if n == 0 then None
        else match Decode(b[n..])
          case None => None
          case Some(s) => Some([c] + s)
  }

  lemma DecodeEncodeChar(c: char, rest: bytes)
    ensures var e := EncodeChar(c); LeadLength(e[0]) == |e| && DecodeChar(e + rest) == Some(c)
  {
    var e := EncodeChar(c);
    assert (e + rest)[..|e|] == e;
    assert forall i :: 1 <= i < |e| ==> Tail((e + rest)[i]);
    SpelledEncode(c);
  }

  lemma SpelledEncode(c: char)
    ensures var e := EncodeChar(c);
      && LeadLength(e[0]) == |e| && (forall i :: 1 <= i < |e| ==> Tail(e[i]))
      && Spelled(e) == c as int && LeastOf(|e|) <= c as int
  {
    var x := c as int;
    assert x / 4096 == x / 64 / 64 && x / 262144 == x / 64 / 64 / 64;
    Base64(x);
    Base64(x / 64);
    Base64(x / 64 / 64);
  }

  lemma Base64(x: nat)
    ensures x == x / 64 * 64 + x % 64
  {
  }

  // Decoding undoes encoding, for every text.
  lemma {:induction false} DecodeEncode(s: string)
    ensures Decode(Encode(s)) == Some(s)
  {
    if s == [] {
    } else {
      DecodeEncodeChar(s[0], Encode(s[1..]));
      DecodeEncode(s[1..]);
      assert Encode(s)[|EncodeChar(s[0])|..] == Encode(s[1..]);
      assert s == [s[0]] + s[1..];
    }
  }

  // What a well-formed sequence spells is encoded as that sequence.
  lemma EncodeSpelled(d: bytes)
    requires 1 <= |d| <= 4 && LeadLength(d[0]) == |d| && forall i :: 1 <= i < |d| ==> Tail(d[i])
    requires IsScalar(Spelled(d)) && LeastOf(|d|) <= Spelled(d)
    ensures EncodeChar(Spelled(d) as char) == d
  {
    var e: seq<int> := d;
    if |e| == 2 {
      Digits(e[0] - 0xC0, e[1] - 0x80);
    } else if |e| == 3 {
      Digits(e[0] - 0xE0, e[1] - 0x80);
      Digits((e[0] - 0xE0) * 64 + (e[1] - 0x80), e[2] - 0x80);
    } else if |e| == 4 {
      EncodeFour(d);
    }
  }

  lemma EncodeFour(d: bytes)
    requires |d| == 4 && LeadLength(d[0]) == 4 && Tail(d[1]) && Tail(d[2]) && Tail(d[3])
    requires IsScalar(Spelled(d)) && LeastOf(4) <= Spelled(d)
    ensures EncodeChar(Spelled(d) as char) == d
  {
    var e: seq<int> := d;
    FourDigits(e[0] - 0xF0, e[1] - 0x80, e[2] - 0x80, e[3] - 0x80);
  }

  // The digits of a number of four digits in base 64.
  lemma FourDigits(h: int, i: int, j: int, k: int)
    requires 0 <= i < 64 && 0 <= j < 64 && 0 <= k < 64
    ensures var x := ((h * 64 + i) * 64 + j) * 64 + k;
            x / 262144 == h && x / 4096 % 64 == i && x / 64 % 64 == j && x % 64 == k
  {
    Digits(h, i);
    Digits(h * 64 + i, j);
    Digits((h * 64 + i) * 64 + j, k);
    Nested(((h * 64 + i) * 64 + j) * 64 + k);
  }

  lemma Nested(x: int)
    ensures x / 4096 == x / 64 / 64 && x / 262144 == x / 64 / 64 / 64
  {
  }

  lemma EncodeDecodeChar(b: bytes)
    requires b != [] && DecodeChar(b).Some?
    ensures EncodeChar(DecodeChar(b).value) == b[..LeadLength(b[0])] && LeadLength(b[0]) > 0
  {
    var d := b[..LeadLength(b[0])];
    assert forall i :: 1 <= i < |d| ==> d[i] == b[i] && Tail(b[i]);
    EncodeSpelled(d);
  }

  lemma Digits(hi: int, lo: int)
    requires 0 <= lo < 64
    ensures (hi * 64 + lo) / 64 == hi && (hi * 64 + lo) % 64 == lo
  {
  }

  lemma NothingDecodes()
    ensures Decode([]) == Some([]) && Encode([]) == []
  {
  }

  lemma DecodeOneMore(b: bytes)
    requires b != [] && Decode(b).Some?
    ensures DecodeChar(b).Some? && 0 < LeadLength(b[0]) <= |b| && Decode(b[LeadLength(b[0])..]).Some?
    ensures Decode(b).value == [DecodeChar(b).value] + Decode(b[LeadLength(b[0])..]).value
  {
  }

  lemma EncodeOneMore(c: char, s: string)
    ensures Encode([c] + s) == EncodeChar(c) + Encode(s)
  {
    hide EncodeChar;
    assert ([c] + s)[1..] == s;
  }

  // ... and the only bytes that decode to a text are its encoding.
  lemma {:induction false} EncodeDecode(b: bytes)
    requires Decode(b).Some?
    ensures Encode(Decode(b).value) == b
    decreases |b|
  {
    hide Encode, Decode, EncodeChar, DecodeChar, LeadLength;
    if b == [] {
      NothingDecodes();
    } else {
      var n := LeadLength(b[0]);
      DecodeOneMore(b);
      EncodeDecodeChar(b);
      EncodeDecode(b[n..]);
      EncodeOneMore(DecodeChar(b).value, Decode(b[n..]).value);
      assert b == b[..n] + b[n..];
    }
  }

  // ------------------------------------------------------------------
  // Order
  // ------------------------------------------------------------------

  function CodePoints(s: string): (r: seq<int>)
    ensures |r| == |s|
  {
    seq(|s|, i requires 0 <= i < |s| => s[i] as int)
  }

  lemma CodePointsInjective(s: string, t: string)
    ensures CodePoints(s) == CodePoints(t) <==> s == t
  {
    if CodePoints(s) == CodePoints(t) {
      assert forall i :: 0 <= i < |s| ==> s[i] as int == CodePoints(s)[i] == CodePoints(t)[i] == t[i] as int;
      assert s == t;
    }
  }

  // A smaller character's encoding is smaller at a byte both encodings have.
  lemma CharOrder(c: char, d: char, x: bytes, y: bytes)
    requires c < d
    ensures LexCompare(EncodeChar(c) + x, EncodeChar(d) + y) == -1
  {
    var e, f := EncodeChar(c), EncodeChar(d);
    if e[0] < f[0] {
    } else {
      LengthsAgree(c, d);
      FirstDifference(c, d);
      var j := if e[1] < f[1] then 1 else if e[2] < f[2] then 2 else 3;
      var p := e[..j];
      assert e + x == p + (e[j..] + x) && f + y == p + (f[j..] + y);
      LexSamePrefix(p, e[j..] + x, f[j..] + y);
    }
  }

  lemma LengthsAgree(c: char, d: char)
    requires c < d && EncodeChar(c)[0] >= EncodeChar(d)[0]
    ensures |EncodeChar(c)| == |EncodeChar(d)| >= 2 && EncodeChar(c)[0] == EncodeChar(d)[0]
  {
  }

  lemma FirstDifference(c: char, d: char)
    requires c < d && |EncodeChar(c)| == |EncodeChar(d)| >= 2 && EncodeChar(c)[0] == EncodeChar(d)[0]
    ensures var e, f := EncodeChar(c), EncodeChar(d);
      || e[1] < f[1]
      || (|e| > 2 && e[1] == f[1] && e[2] < f[2])
      || (|e| > 3 && e[1] == f[1] && e[2] == f[2] && e[3] < f[3])
  {
    SpelledEncode(c);
    SpelledEncode(d);
    assert forall i :: 1 <= i < |EncodeChar(c)| ==> Tail(EncodeChar(c)[i]) && Tail(EncodeChar(d)[i]);
  }

  // Comparing encodings is comparing code points.
  lemma {:induction false} EncodeOrder(s: string, t: string)
    ensures LexCompare(Encode(s), Encode(t)) == LexCompare(CodePoints(s), CodePoints(t))
  {
    if s == [] || t == [] {
    } else {
      if s[0] < t[0] {
        CharOrder(s[0], t[0], Encode(s[1..]), Encode(t[1..]));
      } else if t[0] < s[0] {
        CharOrder(t[0], s[0], Encode(t[1..]), Encode(s[1..]));
        LexFlip(Encode(s), Encode(t));
      } else {
        LexSamePrefix(EncodeChar(s[0]), Encode(s[1..]), Encode(t[1..]));
        EncodeOrder(s[1..], t[1..]);
        assert CodePoints(s)[1..] == CodePoints(s[1..]) && CodePoints(t)[1..] == CodePoints(t[1..]);
      }
    }
  }
}
