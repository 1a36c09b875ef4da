// Bytes and the little-endian integers of the on-disk formats.
module Bytes {
  import opened Wrappers
  import opened Arithmetic

  type Byte = x: int | 0 <= x < 256

  type bytes = seq<Byte>

  // x in w bytes, least significant first.
  function ToLE(x: nat, w: nat): (r: bytes)
    ensures |r| == w
  {
    if w == 0 then [] else [x % 256] + ToLE(x / 256, w - 1)
  }

  function FromLE(b: bytes): nat {
    if b == [] then 0 else b[0] + 256 * FromLE(b[1..])
  }

  lemma {:induction false} FromToLE(x: nat, w: nat)
    requires x < Pow(256, w)
    ensures FromLE(ToLE(x, w)) == x
  {
    if w == 0 {
    } else {
      assert x / 256 < Pow(256, w - 1);
      FromToLE(x / 256, w - 1);
      assert ToLE(x, w)[1..] == ToLE(x / 256, w - 1);
    }
  }

  lemma {:induction false} ToFromLE(b: bytes)
    ensures ToLE(FromLE(b), |b|) == b && FromLE(b) < Pow(256, |b|)
  {
    if b == [] {
    } else {
      ToFromLE(b[1..]);
      assert FromLE(b) % 256 == b[0] && FromLE(b) / 256 == FromLE(b[1..]);
      assert b == [b[0]] + b[1..];
    }
  }

  const U16_LIMIT := 0x1_0000
  const U32_LIMIT := 0x1_0000_0000
  const I32_MIN := -0x8000_0000
  const I32_LIMIT := 0x8000_0000

  function U16(x: nat): (r: bytes)
    ensures |r| == 2
  {
    [x % 256, x / 256 % 256]
  }

  function U32(x: nat): (r: bytes)
    ensures |r| == 4
  {
    [x % 256, x / 256 % 256, x / 65536 % 256, x / 16777216 % 256]
  }

  function FromU16(b: bytes): (x: nat)
    requires |b| == 2
    ensures x < U16_LIMIT
  {
    b[0] as int + 256 * b[1] as int
  }

  function FromU32(b: bytes): (x: nat)
    requires |b| == 4
    ensures x < U32_LIMIT
  {
    b[0] as int + 256 * b[1] as int + 65536 * b[2] as int + 16777216 * b[3] as int
  }

  // Two's complement.
  function I32(x: int): (r: bytes)
    requires I32_MIN <= x < I32_LIMIT
    ensures |r| == 4
  {
    U32(if x < 0 then x + U32_LIMIT else x)
  }

  function FromI32(b: bytes): (x: int)
    requires |b| == 4
    ensures I32_MIN <= x < I32_LIMIT
  {
    var u := FromU32(b);
    if u < I32_LIMIT then u else u - U32_LIMIT
  }

  lemma U16RoundTrip(x: nat)
    requires x < U16_LIMIT
    ensures FromU16(U16(x)) == x
  {
  }

  lemma Base256(x: nat)
    ensures x == x % 256 + 256 * (x / 256)
  {
  }

  lemma U32RoundTrip(x: nat)
    requires x < U32_LIMIT
    ensures FromU32(U32(x)) == x
  {
    assert x / 65536 == x / 256 / 256 && x / 16777216 == x / 256 / 256 / 256;
    Base256(x);
    Base256(x / 256);
    Base256(x / 256 / 256);
  }

  lemma I32RoundTrip(x: int)
    requires I32_MIN <= x < I32_LIMIT
    ensures FromI32(I32(x)) == x
  {
    U32RoundTrip(if x < 0 then x + U32_LIMIT else x);
  }

  lemma FromU16RoundTrip(b: bytes)
    requires |b| == 2
    ensures U16(FromU16(b)) == b
  {
  }

  lemma Split256(lo: int, hi: int)
    requires 0 <= lo < 256
    ensures (lo + 256 * hi) % 256 == lo && (lo + 256 * hi) / 256 == hi
  {
  }

  lemma FromU32RoundTrip(b: bytes)
    requires |b| == 4
    ensures U32(FromU32(b)) == b
  {
    var w, x, y, z: int := b[0], b[1], b[2], b[3];
    var u := FromU32(b);
    Split256(w, x + 256 * (y + 256 * z));
    Split256(x, y + 256 * z);
    Split256(y, z);
    assert u == w + 256 * (x + 256 * (y + 256 * z));
    assert u / 65536 == u / 256 / 256 && u / 16777216 == u / 256 / 256 / 256;
  }

  lemma FromI32RoundTrip(b: bytes)
    requires |b| == 4
    ensures I32(FromI32(b)) == b
  {
    FromU32RoundTrip(b);
  }

  function Zeros(n: nat): (r: bytes)
    ensures |r| == n
  {
    seq(n, _ => 0)
  }

  // Order of byte strings and of code points, as Python compares bytes and
  // strings: -1, 0 or 1.
  function LexCompare(a: seq<int>, b: seq<int>): (c: int)
    ensures -1 <= c <= 1
  {
    if a == [] then (if b == [] then 0 else -1)
    else if b == [] then 1
    else if a[0] < b[0] then -1
    else if a[0] > b[0] then 1
    else LexCompare(a[1..], b[1..])
  }

  lemma {:induction false} LexEqual(a: seq<int>, b: seq<int>)
    ensures LexCompare(a, b) == 0 <==> a == b
  {
    if a == [] || b == [] {
    } else {
      LexEqual(a[1..], b[1..]);
      assert a == [a[0]] + a[1..] && b == [b[0]] + b[1..];
    }
  }

  lemma {:induction false} LexFlip(a: seq<int>, b: seq<int>)
    ensures LexCompare(a, b) == -LexCompare(b, a)
  {
    if a == [] || b == [] {
    } else {
      LexFlip(a[1..], b[1..]);
    }
  }

  lemma {:induction false} LexTransitive(a: seq<int>, b: seq<int>, c: seq<int>)
    requires LexCompare(a, b) <= 0 && LexCompare(b, c) <= 0
    ensures LexCompare(a, c) <= 0
  {
    if a == [] || b == [] || c == [] {
    } else if a[0] == b[0] == c[0] {
      LexTransitive(a[1..], b[1..], c[1..]);
    }
  }

  lemma {:induction false} LexSamePrefix(p: seq<int>, a: seq<int>, b: seq<int>)
    ensures LexCompare(p + a, p + b) == LexCompare(a, b)
  {
    if p == [] {
      assert p + a == a && p + b == b;
    } else {
      assert (p + a)[1..] == p[1..] + a && (p + b)[1..] == p[1..] + b;
      LexSamePrefix(p[1..], a, b);
    }
  }

  // data put over buf at pos
  function Spliced(buf: bytes, pos: nat, data: bytes): (r: bytes)
    requires pos + |data| <= |buf|
    ensures |r| == |buf|
  {
    buf[..pos] + data + buf[pos + |data|..]
  }

  // Slice assignment into a page buffer.
  method Put(buf: array<Byte>, pos: nat, data: bytes)
    requires pos + |data| <= buf.Length
    modifies buf
    ensures buf[..] == Spliced(old(buf[..]), pos, data)
  {
    forall i | 0 <= i < |data| {
      buf[pos + i] := data[i];
    }
  }
}
