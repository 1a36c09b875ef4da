// What the order of texts and their UTF-8 sizes are, said without the functions that
// compute them.
module TextOrder {
  import opened Bytes
  import opened Utf8

  // a and b agree before position k, and there a ends or has the smaller character.
  predicate LessAt(a: string, b: string, k: nat) {
    k <= |a| && k < |b| && a[..k] == b[..k] && (k == |a| || a[k] < b[k])
  }

  // a stands before b in code-point order.
  ghost predicate TextLess(a: string, b: string) {
    exists k: nat :: LessAt(a, b, k)
  }

  lemma LessCons(c: char, a: string, b: string)
    ensures TextLess([c] + a, [c] + b) <==> TextLess(a, b)
  {
    var x, y := [c] + a, [c] + b;
    if TextLess(a, b) {
      var k: nat :| LessAt(a, b, k);
      assert x[..k + 1] == [c] + a[..k] && y[..k + 1] == [c] + b[..k];
      assert LessAt(x, y, k + 1);
    }
    if TextLess(x, y) {
      var k: nat :| LessAt(x, y, k);
      assert k > 0;
      assert a[..k - 1] == x[..k][1..] && b[..k - 1] == y[..k][1..];
      assert LessAt(a, b, k - 1);
    }
  }

  lemma LessHere(a: string, b: string)
    requires a != "" && b != "" && a[0] != b[0]
    ensures TextLess(a, b) <==> a[0] < b[0]
  {
    if a[0] < b[0] {
      assert LessAt(a, b, 0);
    }
    if TextLess(a, b) {
      var k: nat :| LessAt(a, b, k);
      if k > 0 {
        assert a[..k][0] == b[..k][0];
      }
    }
  }

  // Comparing code points is comparing texts.
  lemma {:induction false} CompareIsLess(a: string, b: string)
    ensures LexCompare(CodePoints(a), CodePoints(b)) < 0 <==> TextLess(a, b)
    ensures LexCompare(CodePoints(a), CodePoints(b)) == 0 <==> a == b
    ensures LexCompare(CodePoints(a), CodePoints(b)) > 0 <==> TextLess(b, a)
  {
    if a == "" || b == "" {
      assert b != "" ==> LessAt("", b, 0);
      assert a != "" ==> LessAt("", a, 0);
    } else if a[0] == b[0] {
      assert a == [a[0]] + a[1..] && b == [b[0]] + b[1..];
      assert CodePoints(a)[1..] == CodePoints(a[1..]) && CodePoints(b)[1..] == CodePoints(b[1..]);
      LessCons(a[0], a[1..], b[1..]);
      LessCons(a[0], b[1..], a[1..]);
      CompareIsLess(a[1..], b[1..]);
    } else {
      LessHere(a, b);
      LessHere(b, a);
    }
  }

  // The bytes a text takes in UTF-8, section 3 of RFC 3629.
  function Utf8Size(s: string): nat {
    if s == "" then 0
    else
      var x := s[0] as int;
      (if x < 0x80 then 1 else if x < 0x800 then 2 else if x < 0x1_0000 then 3 else 4) + Utf8Size(s[1..])
  }

  lemma {:induction false} SizeOfEncoding(s: string)
    ensures |Encode(s)| == Utf8Size(s)
  {
    if s == "" {
    } else {
      SizeOfEncoding(s[1..]);
    }
  }
}
