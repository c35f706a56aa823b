/** Strings of the program: code-point order, UTF-8 length, joining, and sorted distinct lists. */
module Text {
  import Order

  /** Unicode `White_Space`. */
  predicate IsWhitespace(c: char)
  {
    var u := c as int;
    || 0x09 <= u <= 0x0D || u == 0x20 || u == 0x85 || u == 0xA0 || u == 0x1680
    || 0x2000 <= u <= 0x200A || u == 0x2028 || u == 0x2029 || u == 0x202F || u == 0x205F || u == 0x3000
  }

  function Width(c: char): nat
  {
    var u := c as int;
    if u < 0x80 then 1 else if u < 0x800 then 2 else if u < 0x1_0000 then 3 else 4
  }

  /** The UTF-8 length, which is what the program's bounds count. */
  function ByteLength(s: string): nat
  {
    if s == [] then 0 else Width(s[0]) + ByteLength(s[1..])
  }

  function Codes(s: string): (codes: seq<int>)
    ensures |codes| == |s| && forall i :: 0 <= i < |s| ==> codes[i] == s[i] as int
  {
    seq(|s|, i requires 0 <= i < |s| => s[i] as int)
  }

  lemma CodesInjective(a: string, b: string)
    requires Codes(a) == Codes(b)
    ensures a == b
  {
    assert |Codes(a)| == |a| && |Codes(b)| == |b|;
    forall i | 0 <= i < |a| ensures a[i] == b[i] {
      assert Codes(a)[i] == Codes(b)[i];
    }
  }

  /** Code-point order, which is the byte order of the UTF-8 encodings. */
  predicate Less(a: string, b: string)
  {
    Order.Less(Codes(a), Codes(b))
  }

  predicate Ascending(s: seq<string>)
  {
    |s| >= 2 ==> Less(s[0], s[1]) && Ascending(s[1..])
  }

  predicate Below(x: string, s: seq<string>)
  {
    s != [] ==> Less(x, s[0])
  }

  lemma {:induction false} AscendsBetween(s: seq<string>, i: nat, j: nat)
    requires Ascending(s) && i < j < |s|
    ensures Less(s[i], s[j])
  {
    if i > 0 {
      AscendsBetween(s[1..], i - 1, j - 1);
    } else if j > 1 {
      AscendsBetween(s[1..], 0, j - 1);
      Order.LessTransitive(Codes(s[0]), Codes(s[1]), Codes(s[j]));
    }
  }

  lemma {:induction false} BetweenAscends(s: seq<string>)
    requires forall i, j :: 0 <= i < j < |s| ==> Less(s[i], s[j])
    ensures Ascending(s)
  {
    if |s| >= 2 {
      BetweenAscends(s[1..]);
    }
  }

  /** Insertion into an ascending list, dropping a duplicate. */
  function Insert(x: string, s: seq<string>): seq<string>
  {
    if s == [] || Less(x, s[0]) then [x] + s
    else if x == s[0] then s
    else [s[0]] + Insert(x, s[1..])
  }

  /** `sort` followed by `dedup`. */
  function SortDedup(s: seq<string>): seq<string>
  {
    if s == [] then [] else Insert(s[0], SortDedup(s[1..]))
  }

  lemma {:induction false} InsertSorted(x: string, s: seq<string>)
    requires Ascending(s)
    ensures Ascending(Insert(x, s)) && |Insert(x, s)| <= |s| + 1
    ensures forall y :: y in Insert(x, s) <==> y == x || y in s
    ensures forall y :: Below(y, s) && Less(y, x) ==> Below(y, Insert(x, s))
  {
    if s != [] && !Less(x, s[0]) && x != s[0] {
      var t := Insert(x, s[1..]);
      InsertSorted(x, s[1..]);
      if !Less(s[0], x) {
        Order.LessTotal(Codes(s[0]), Codes(x));
        CodesInjective(s[0], x);
      }
      assert Below(s[0], s[1..]);
      assert Below(s[0], t);
      assert ([s[0]] + t)[1..] == t;
    } else if s == [] || Less(x, s[0]) {
      assert ([x] + s)[1..] == s;
    }
  }

  /** The sorted distinct list: ascending, with exactly the same members. */
  lemma {:induction false} SortDedupCorrect(s: seq<string>)
    ensures Ascending(SortDedup(s)) && |SortDedup(s)| <= |s|
    ensures forall y :: y in SortDedup(s) <==> y in s
    ensures s != [] ==> SortDedup(s) != []
  {
    if s != [] {
      SortDedupCorrect(s[1..]);
      InsertSorted(s[0], SortDedup(s[1..]));
      assert s[0] in SortDedup(s);
    }
  }

  /** Sorting an ascending list changes nothing. */
  lemma {:induction false} SortDedupFixed(s: seq<string>)
    requires Ascending(s)
    ensures SortDedup(s) == s
  {
    if s != [] {
      SortDedupFixed(s[1..]);
    }
  }

  /** The first element of an ascending list is its least, and occurs once. */
  lemma {:induction false} LeastFirst(s: seq<string>, y: string)
    requires Ascending(s) && s != [] && y in s[1..]
    ensures Less(s[0], y) && y != s[0]
  {
    if y != s[1] {
      assert y in s[1..][1..];
      LeastFirst(s[1..], y);
      Order.LessTransitive(Codes(s[0]), Codes(s[1]), Codes(y));
    }
    Order.LessIrreflexive(Codes(y));
  }

  lemma SameFirst(s: seq<string>, t: seq<string>)
    requires Ascending(s) && Ascending(t) && s != [] && t != [] && s[0] in t && t[0] in s
    ensures s[0] == t[0]
  {
    if s[0] != t[0] {
      assert s[0] in t[1..] && t[0] in s[1..];
      LeastFirst(s, t[0]);
      LeastFirst(t, s[0]);
      Order.LessTransitive(Codes(s[0]), Codes(t[0]), Codes(s[0]));
      Order.LessIrreflexive(Codes(s[0]));
    }
  }

  lemma HasMember(s: seq<string>)
    requires s != []
    ensures exists y :: y in s
  {
    assert s[0] in s;
  }

  /** An ascending list is determined by its members. */
  lemma {:induction false} AscendingUnique(s: seq<string>, t: seq<string>)
    requires Ascending(s) && Ascending(t) && forall y :: y in s <==> y in t
    ensures s == t
  {
    if s == [] {
      if t != [] {
        HasMember(t);
      }
    } else {
      assert s[0] in t;
      assert t[0] in s;
      SameFirst(s, t);
      forall y ensures y in s[1..] <==> y in t[1..] {
        if y in s[1..] {
          LeastFirst(s, y);
          assert y in t;
        }
        if y in t[1..] {
          LeastFirst(t, y);
          assert y in s;
        }
      }
      AscendingUnique(s[1..], t[1..]);
      assert s == [s[0]] + s[1..] && t == [t[0]] + t[1..];
    }
  }

  function Join(s: seq<string>, separator: string): string
  {
    if s == [] then ""
    else if |s| == 1 then s[0]
    else s[0] + separator + Join(s[1..], separator)
  }
}
