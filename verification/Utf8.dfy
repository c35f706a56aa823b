/**
 UTF-8, against which the string order and the byte lengths of the program are stated: comparing code
 points is comparing encodings byte by byte, and the byte length is the length of the encoding.
 */
module Utf8 {
  import opened Order
  import Text

  /** Six bits to a continuation byte, the rest in the first. */
  function EncodeChar(c: char): seq<int>
  {
    var u := c as int;
    var v := u / 64;
    var w := v / 64;
    if u < 0x80 then [u]
    else if u < 0x800 then [0xC0 + v, 0x80 + u % 64]
    else if u < 0x1_0000 then [0xE0 + w, 0x80 + v % 64, 0x80 + u % 64]
    else [0xF0 + w / 64, 0x80 + w % 64, 0x80 + v % 64, 0x80 + u % 64]
  }

  function Encode(s: string): seq<int>
  {
    if s == [] then [] else EncodeChar(s[0]) + Encode(s[1..])
  }

  /** The byte length the program bounds is the length of the encoding. */
  lemma {:induction false} ByteLengthIs(s: string)
    ensures Text.ByteLength(s) == |Encode(s)|
  {
    if s != [] {
      ByteLengthIs(s[1..]);
    }
  }

  lemma DigitsPart(x: nat, y: nat)
    requires x < y
    ensures x / 64 < y / 64 || (x / 64 == y / 64 && x % 64 < y % 64)
  {
  }

  /** Encodings of different characters part within both, in the order of the code points. */
  lemma CharsPart(c: char, d: char) returns (k: nat)
    requires c < d
    ensures k < |EncodeChar(c)| && PartsAt(EncodeChar(c), EncodeChar(d), k)
  {
    var u, v := c as int, d as int;
    if |EncodeChar(c)| != |EncodeChar(d)| || |EncodeChar(c)| == 1 {
      k := 0;
    } else if |EncodeChar(c)| == 2 {
      k := TwoPart(c, d);
    } else if |EncodeChar(c)| == 3 {
      k := ThreePart(c, d);
    } else {
      k := FourPart(c, d);
    }
  }

  lemma TwoPart(c: char, d: char) returns (k: nat)
    requires 0x80 <= c as int < d as int < 0x800
    ensures k < 2 && PartsAt(EncodeChar(c), EncodeChar(d), k)
  {
    DigitsPart(c as int, d as int);
    k := if c as int / 64 < d as int / 64 then 0 else 1;
    assert EncodeChar(c)[..k] == EncodeChar(d)[..k];
  }

  lemma ThreePart(c: char, d: char) returns (k: nat)
    requires 0x800 <= c as int < d as int < 0x1_0000
    ensures k < 3 && PartsAt(EncodeChar(c), EncodeChar(d), k)
  {
    var x, y := c as int / 64, d as int / 64;
    DigitsPart(c as int, d as int);
    if x == y {
      k := 2;
    } else {
      DigitsPart(x, y);
      k := if x / 64 < y / 64 then 0 else 1;
    }
    assert EncodeChar(c)[..k] == EncodeChar(d)[..k];
  }

  lemma FourPart(c: char, d: char) returns (k: nat)
    requires 0x1_0000 <= c as int < d as int
    ensures k < 4 && PartsAt(EncodeChar(c), EncodeChar(d), k)
  {
    var x, y := c as int / 64, d as int / 64;
    DigitsPart(c as int, d as int);
    if x == y {
      k := 3;
    } else {
      DigitsPart(x, y);
      if x / 64 == y / 64 {
        k := 2;
      } else {
        DigitsPart(x / 64, y / 64);
        k := if x / 64 / 64 < y / 64 / 64 then 0 else 1;
      }
    }
    assert EncodeChar(c)[..k] == EncodeChar(d)[..k];
  }

  lemma CommonPrefix(p: seq<int>, a: seq<int>, b: seq<int>)
    ensures Precedes(p + a, p + b) <==> Precedes(a, b)
  {
    LessIsLexicographic(p + a, p + b);
    LessIsLexicographic(a, b);
    StripPrefix(p, a, b);
  }

  lemma {:induction false} StripPrefix(p: seq<int>, a: seq<int>, b: seq<int>)
    ensures Less(p + a, p + b) <==> Less(a, b)
  {
    if p == [] {
      assert p + a == a && p + b == b;
    } else {
      assert (p + a)[1..] == p[1..] + a && (p + b)[1..] == p[1..] + b;
      StripPrefix(p[1..], a, b);
    }
  }

  lemma PartedPrefix(p: seq<int>, q: seq<int>, k: nat, a: seq<int>, b: seq<int>)
    requires PartsAt(p, q, k) && k < |p|
    ensures Precedes(p + a, q + b)
  {
    assert (p + a)[..k] == p[..k] && (q + b)[..k] == q[..k];
    assert PartsAt(p + a, q + b, k);
  }

  /** The string order is the byte order of the encodings. */
  lemma {:induction false} OrderIsByteOrder(a: string, b: string)
    ensures Text.Less(a, b) <==> Precedes(Encode(a), Encode(b))
    decreases |a|
  {
    var s, t := Text.Codes(a), Text.Codes(b);
    LessIsLexicographic(Encode(a), Encode(b));
    if a == [] || b == [] {
      assert b != [] ==> Encode(b) != [];
      assert a != [] ==> Encode(a) != [];
    } else if a[0] == b[0] {
      assert Text.Codes(a[1..]) == s[1..] && Text.Codes(b[1..]) == t[1..];
      OrderIsByteOrder(a[1..], b[1..]);
      CommonPrefix(EncodeChar(a[0]), Encode(a[1..]), Encode(b[1..]));
    } else if a[0] < b[0] {
      var k := CharsPart(a[0], b[0]);
      PartedPrefix(EncodeChar(a[0]), EncodeChar(b[0]), k, Encode(a[1..]), Encode(b[1..]));
    } else {
      var k := CharsPart(b[0], a[0]);
      PartedPrefix(EncodeChar(b[0]), EncodeChar(a[0]), k, Encode(b[1..]), Encode(a[1..]));
      LessIsLexicographic(Encode(b), Encode(a));
      if Less(Encode(a), Encode(b)) {
        LessTransitive(Encode(a), Encode(b), Encode(a));
        LessIrreflexive(Encode(a));
      }
    }
  }

  /** A sorted distinct list is in strict byte order, every element before every later one. */
  lemma AscendingByBytes(s: seq<string>)
    ensures Text.Ascending(s) <==> forall i, j :: 0 <= i < j < |s| ==> Precedes(Encode(s[i]), Encode(s[j]))
  {
    forall i, j | 0 <= i < j < |s| ensures Text.Less(s[i], s[j]) <==> Precedes(Encode(s[i]), Encode(s[j])) {
      OrderIsByteOrder(s[i], s[j]);
    }
    if Text.Ascending(s) {
      forall i, j | 0 <= i < j < |s| ensures Text.Less(s[i], s[j]) {
        Text.AscendsBetween(s, i, j);
      }
    } else if forall i, j :: 0 <= i < j < |s| ==> Precedes(Encode(s[i]), Encode(s[j])) {
      Text.BetweenAscends(s);
    }
  }
}
