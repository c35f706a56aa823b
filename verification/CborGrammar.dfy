/**
 The deterministic CBOR profile as a grammar: value trees, their one encoding
 (shortest arguments, definite lengths, keys in byte order), and the recursive
 parser that inverts it. This is the reference the stack machine of
 `CborValidator` is proved against.
 */
module CborGrammar {
  import opened Wrappers
  import opened Bytes
  import opened Order

  const U64_LIMIT: nat := 0x1_0000_0000_0000_0000
  type U64 = n: nat | n < U64_LIMIT

  /** The decoder limits, with text validity left open. */
  datatype Profile = Profile(maxDepth: nat, maxItems: U64, maxBody: nat, utf8: seq<Byte> -> bool)

  /** Why an input is refused. The last four report a broken frame stack. */
  datatype Failure =
    | Limits | TrailingData | UnreadableType | UnsupportedType
    | Header | IndefiniteLength | NonShortest
    | BadInteger | BadBytes | BadString | ItemLength
    | NestingDepth | CollectionLength | KeyOrder
    | ArrayState | MapState | KeyState | KeyRange

  datatype Value =
    | UInt(n: nat)
    | NInt(n: nat)
    | ByteString(bytes: seq<Byte>)
    | Text(bytes: seq<Byte>)
    | Array(items: List)
    | Map(entries: Entries)
    | Bool(truth: bool)
    | Null

  datatype List = Nil | Cons(head: Value, tail: List)

  datatype Entries = End | Entry(key: Value, value: Value, rest: Entries)

  function Length(items: List): nat
  {
    if items.Nil? then 0 else 1 + Length(items.tail)
  }

  function Count(entries: Entries): nat
  {
    if entries.End? then 0 else 1 + Count(entries.rest)
  }

  function Max(a: nat, b: nat): nat { if a < b then b else a }

  /** Container nesting: a scalar is 0, an empty array is 1. */
  function Depth(v: Value): nat
  {
    match v
    case Array(items) => 1 + ListDepth(items)
    case Map(entries) => 1 + EntriesDepth(entries)
    case _ => 0
  }

  function ListDepth(items: List): nat
  {
    if items.Nil? then 0 else Max(Depth(items.head), ListDepth(items.tail))
  }

  function EntriesDepth(entries: Entries): nat
  {
    if entries.End? then 0
    else Max(Max(Depth(entries.key), Depth(entries.value)), EntriesDepth(entries.rest))
  }

  /** The shortest head of section 3 of RFC 8949. */
  function Head(major: nat, n: nat): (s: seq<Byte>)
    requires major < 8
    ensures 1 <= |s| <= 9
  {
    if n < 24 then [32 * major + n]
    else if n < 0x100 then [32 * major + 24] + BigEndian(n, 1)
    else if n < 0x1_0000 then [32 * major + 25] + BigEndian(n, 2)
    else if n < 0x1_0000_0000 then [32 * major + 26] + BigEndian(n, 4)
    else [32 * major + 27] + BigEndian(n, 8)
  }

  function Encode(v: Value): (s: seq<Byte>)
    ensures |s| >= 1
  {
    match v
    case UInt(n) => Head(0, n)
    case NInt(n) => Head(1, n)
    case ByteString(bytes) => Head(2, |bytes|) + bytes
    case Text(bytes) => Head(3, |bytes|) + bytes
    case Array(items) => Head(4, Length(items)) + EncodeList(items)
    case Map(entries) => Head(5, Count(entries)) + EncodeEntries(entries)
    case Bool(truth) => if truth then [0xF5] else [0xF4]
    case Null => [0xF6]
  }

  function EncodeList(items: List): seq<Byte>
  {
    if items.Nil? then [] else Encode(items.head) + EncodeList(items.tail)
  }

  function EncodeEntries(entries: Entries): seq<Byte>
  {
    if entries.End? then []
    else Encode(entries.key) + Encode(entries.value) + EncodeEntries(entries.rest)
  }

  /** Keys strictly ascend in the byte order of their encodings. */
  predicate Ascending(entries: Entries)
  {
    entries.Entry? && entries.rest.Entry? ==>
      Less(Encode(entries.key), Encode(entries.rest.key)) && Ascending(entries.rest)
  }

  /** Everything the profile asks of a value except its nesting depth. */
  predicate Shaped(p: Profile, v: Value)
  {
    match v
    case UInt(n) => n < U64_LIMIT
    case NInt(n) => n < U64_LIMIT
    case ByteString(bytes) => |bytes| < U64_LIMIT
    case Text(bytes) => |bytes| < U64_LIMIT && p.utf8(bytes)
    case Array(items) => Length(items) <= p.maxItems && ShapedList(p, items)
    case Map(entries) =>
      Count(entries) <= p.maxItems && Ascending(entries) && ShapedEntries(p, entries)
    case _ => true
  }

  predicate ShapedList(p: Profile, items: List)
  {
    items.Cons? ==> Shaped(p, items.head) && ShapedList(p, items.tail)
  }

  predicate ShapedEntries(p: Profile, entries: Entries)
  {
    entries.Entry? ==>
      Shaped(p, entries.key) && Shaped(p, entries.value) && ShapedEntries(p, entries.rest)
  }

  predicate Conforms(p: Profile, v: Value)
  {
    Depth(v) <= p.maxDepth && Shaped(p, v)
  }

  /** What the initial byte announces; `Unsupported` covers tags, floats, simple values, undefined,
      break, indefinite lengths and the reserved additional values. */
  datatype Kind = KUInt | KNInt | KBytes | KText | KArray | KMap | KBool | KNull | Unsupported

  function KindOf(initial: Byte): Kind
  {
    if initial == 0xF4 || initial == 0xF5 then KBool
    else if initial == 0xF6 then KNull
    else if initial % 32 > 27 || initial >= 0xC0 then Unsupported
    else
      match initial / 32
      case 0 => KUInt
      case 1 => KNInt
      case 2 => KBytes
      case 3 => KText
      case 4 => KArray
      case _ => KMap
  }

  function ArgumentWidth(additional: nat): (w: nat)
    requires 24 <= additional <= 27
  {
    if additional == 24 then 1 else if additional == 25 then 2 else if additional == 26 then 4 else 8
  }

  /** The argument of the item at `start` in any definite form, with its header length. */
  function RawArgument(b: seq<Byte>, start: nat): (r: Result<(nat, nat), Failure>)
    ensures r.Err? ==> r.error in {Header, IndefiniteLength}
    ensures r.Ok? ==> 1 <= r.value.1 <= 9 && start + r.value.1 <= |b| && r.value.0 < U64_LIMIT
  {
    if start >= |b| then Err(Header) else
    var additional := b[start] % 32;
    if additional < 24 then Ok((additional, 1))
    else if additional > 27 then Err(IndefiniteLength)
    else
      var w := ArgumentWidth(additional);
      if start + 1 + w > |b| then Err(Header)
      else
        assert FromBigEndian(b[start + 1..start + 1 + w]) < U64_LIMIT by {
          ToFromBigEndian(b[start + 1..start + 1 + w]);
          Capacities();
        }
        Ok((FromBigEndian(b[start + 1..start + 1 + w]), 1 + w))
  }

  function ShortestHeaderLength(value: nat): nat
  {
    if value < 24 then 1
    else if value < 0x100 then 2
    else if value < 0x1_0000 then 3
    else if value < 0x1_0000_0000 then 5
    else 9
  }

  /** The argument of the item at `start`, accepted only in its shortest form. */
  function CanonicalArgument(b: seq<Byte>, start: nat): (r: Result<(nat, nat), Failure>)
    ensures r.Err? ==> r.error in {Header, IndefiniteLength, NonShortest}
    ensures r.Ok? ==> RawArgument(b, start) == r
  {
    match RawArgument(b, start)
    case Err(failure) => Err(failure)
    case Ok((value, headerLength)) =>
      if headerLength != ShortestHeaderLength(value) then Err(NonShortest)
      else Ok((value, headerLength))
  }

  /** `canonical_argument` reads exactly the shortest heads: soundness. */
  lemma ArgumentIsHead(b: seq<Byte>, start: nat)
    requires CanonicalArgument(b, start).Ok?
    ensures var (n, h) := CanonicalArgument(b, start).value;
            b[start..start + h] == Head(b[start] / 32, n)
  {
    hide BigEndian, FromBigEndian, Capacity;
    var (n, h) := CanonicalArgument(b, start).value;
    var first := b[start];
    assert first == 32 * (first / 32) + first % 32;
    assert b[start..start + h] == [first] + b[start + 1..start + h];
    if h > 1 {
      var argument := b[start + 1..start + h];
      assert n == FromBigEndian(argument) && |argument| == h - 1;
      ToFromBigEndian(argument);
      assert Head(first / 32, n) == [32 * (first / 32) + first % 32] + BigEndian(n, h - 1);
    }
  }

  /** `canonical_argument` reads exactly the shortest heads: completeness. */
  lemma HeadIsArgument(b: seq<Byte>, start: nat, major: nat, n: nat)
    requires major < 8 && n < U64_LIMIT
    requires start <= |b| && Head(major, n) <= b[start..]
    ensures b[start] / 32 == major && b[start] % 32 <= 27
    ensures CanonicalArgument(b, start) == Ok((n, |Head(major, n)|))
  {
    hide BigEndian, FromBigEndian, Capacity;
    var head := Head(major, n);
    var h := |head|;
    assert b[start..][..h] == b[start..start + h] == head;
    assert b[start] == head[0];
    if h > 1 {
      assert b[start + 1..start + h] == head[1..];
      Capacities();
      FromToBigEndian(n, h - 1);
    }
  }

  datatype Parsed<+T> = Stop | Got(value: T, end: nat)

  /** A key may follow `previous` only if it is strictly greater. */
  predicate InOrder(previous: Option<seq<Byte>>, key: seq<Byte>)
  {
    previous.None? || Less(previous.value, key)
  }

  /** What stands at `pos`: a whole scalar, or the header of a container whose contents begin at `end`. */
  datatype Token =
    | Reject
    | Scalar(value: Value, end: nat)
    | OpenArray(count: nat, end: nat)
    | OpenMap(count: nat, end: nat)

  function Scan(p: Profile, b: seq<Byte>, pos: nat, depth: nat): (t: Token)
    requires pos <= |b|
    ensures !t.Reject? ==> pos < t.end <= |b|
  {
    if pos == |b| then Reject else
    var kind := KindOf(b[pos]);
    if kind.Unsupported? then Reject
    else if kind.KBool? then Scalar(Bool(b[pos] == 0xF5), pos + 1)
    else if kind.KNull? then Scalar(Null, pos + 1)
    else
      var argument := CanonicalArgument(b, pos);
      if argument.Err? then Reject else
      var (n, h) := argument.value;
      if kind.KUInt? then Scalar(UInt(n), pos + h)
      else if kind.KNInt? then Scalar(NInt(n), pos + h)
      else if kind.KBytes? then
        if pos + h + n > |b| then Reject
        else Scalar(ByteString(b[pos + h..pos + h + n]), pos + h + n)
      else if kind.KText? then
        if pos + h + n > |b| || !p.utf8(b[pos + h..pos + h + n]) then Reject
        else Scalar(Text(b[pos + h..pos + h + n]), pos + h + n)
      else if depth >= p.maxDepth || n > p.maxItems then Reject
      else if kind.KArray? then OpenArray(n, pos + h)
      else OpenMap(n, pos + h)
  }

  /** The recursive descent parser of one item whose enclosing nesting is `depth`. */
  function ParseItem(p: Profile, b: seq<Byte>, pos: nat, depth: nat): (r: Parsed<Value>)
    requires pos <= |b|
    ensures r.Got? ==> pos < r.end <= |b|
    decreases |b| - pos, 0
  {
    match Scan(p, b, pos, depth)
    case Reject => Stop
    case Scalar(value, end) => Got(value, end)
    case OpenArray(n, start) =>
      var items := ParseList(p, b, start, n, depth + 1);
      if items.Stop? then Stop else Got(Array(items.value), items.end)
    case OpenMap(n, start) =>
      var entries := ParseEntries(p, b, start, n, depth + 1, None);
      if entries.Stop? then Stop else Got(Map(entries.value), entries.end)
  }

  function ParseList(p: Profile, b: seq<Byte>, pos: nat, n: nat, depth: nat): (r: Parsed<List>)
    requires pos <= |b|
    ensures r.Got? ==> pos <= r.end <= |b|
    decreases |b| - pos, 1
  {
    if n == 0 then Got(Nil, pos) else
    var head := ParseItem(p, b, pos, depth);
    if head.Stop? then Stop else
    var tail := ParseList(p, b, head.end, n - 1, depth);
    if tail.Stop? then Stop else Got(Cons(head.value, tail.value), tail.end)
  }

  function ParseEntries(p: Profile, b: seq<Byte>, pos: nat, n: nat, depth: nat, previous: Option<seq<Byte>>)
    : (r: Parsed<Entries>)
    requires pos <= |b|
    ensures r.Got? ==> pos <= r.end <= |b|
    decreases |b| - pos, 1
  {
    if n == 0 then Got(End, pos) else
    var key := ParseItem(p, b, pos, depth);
    if key.Stop? || !InOrder(previous, b[pos..key.end]) then Stop else
    var value := ParseItem(p, b, key.end, depth);
    if value.Stop? then Stop else
    var rest := ParseEntries(p, b, value.end, n - 1, depth, Some(b[pos..key.end]));
    if rest.Stop? then Stop else Got(Entry(key.value, value.value, rest.value), rest.end)
  }

  // ---- The parser accepts only encodings of conforming values ----

  lemma ScalarSound(p: Profile, b: seq<Byte>, pos: nat, depth: nat)
    requires pos <= |b| && Scan(p, b, pos, depth).Scalar?
    ensures var t := Scan(p, b, pos, depth);
            Shaped(p, t.value) && Depth(t.value) == 0 && Encode(t.value) == b[pos..t.end]
  {
    hide Head, RawArgument, CanonicalArgument;
    var t := Scan(p, b, pos, depth);
    var kind := KindOf(b[pos]);
    if !kind.KBool? && !kind.KNull? {
      var (n, h) := CanonicalArgument(b, pos).value;
      ArgumentFits(b, pos);
      ArgumentIsHead(b, pos);
      SliceSplit(b, pos, pos + h, t.end);
    }
  }

  lemma ArgumentFits(b: seq<Byte>, start: nat)
    requires CanonicalArgument(b, start).Ok?
    ensures var (n, h) := CanonicalArgument(b, start).value;
            1 <= h <= 9 && start + h <= |b| && n < U64_LIMIT
  {
  }

  lemma OpenSound(p: Profile, b: seq<Byte>, pos: nat, depth: nat)
    requires pos <= |b|
    requires Scan(p, b, pos, depth).OpenArray? || Scan(p, b, pos, depth).OpenMap?
    ensures var t := Scan(p, b, pos, depth);
            && depth < p.maxDepth && t.count <= p.maxItems
            && b[pos..t.end] == Head(if t.OpenArray? then 4 else 5, t.count)
  {
    ArgumentIsHead(b, pos);
  }

  lemma SliceSplit(b: seq<Byte>, i: nat, j: nat, k: nat)
    requires i <= j <= k <= |b|
    ensures b[i..k] == b[i..j] + b[j..k]
  {
  }

  lemma {:induction false} ParseItemSound(p: Profile, b: seq<Byte>, pos: nat, depth: nat)
    requires pos <= |b| && depth <= p.maxDepth
    requires ParseItem(p, b, pos, depth).Got?
    ensures var r := ParseItem(p, b, pos, depth);
            Shaped(p, r.value) && depth + Depth(r.value) <= p.maxDepth && Encode(r.value) == b[pos..r.end]
    decreases |b| - pos, 0
  {
    hide Head, Scan, ParseList, ParseEntries, EncodeList, EncodeEntries, ShapedList, ShapedEntries;
    var r := ParseItem(p, b, pos, depth);
    match Scan(p, b, pos, depth)
    case Scalar(_, _) => ScalarSound(p, b, pos, depth);
    case OpenArray(n, start) =>
      OpenSound(p, b, pos, depth);
      ParseListSound(p, b, start, n, depth + 1);
      SliceSplit(b, pos, start, r.end);
    case OpenMap(n, start) =>
      OpenSound(p, b, pos, depth);
      ParseEntriesSound(p, b, start, n, depth + 1, None);
      SliceSplit(b, pos, start, r.end);
  }

  lemma {:induction false} ParseListSound(p: Profile, b: seq<Byte>, pos: nat, n: nat, depth: nat)
    requires pos <= |b| && depth <= p.maxDepth
    requires ParseList(p, b, pos, n, depth).Got?
    ensures var r := ParseList(p, b, pos, n, depth);
            && Length(r.value) == n && ShapedList(p, r.value) && depth + ListDepth(r.value) <= p.maxDepth
            && EncodeList(r.value) == b[pos..r.end]
    decreases |b| - pos, 1
  {
    hide Head, Scan, ParseItem, Encode, Depth, Shaped;
    if n > 0 {
      var head := ParseItem(p, b, pos, depth);
      ParseItemSound(p, b, pos, depth);
      ParseListSound(p, b, head.end, n - 1, depth);
      var r := ParseList(p, b, pos, n, depth);
      SliceSplit(b, pos, head.end, r.end);
    }
  }

  lemma {:induction false} ParseEntriesSound(
    p: Profile, b: seq<Byte>, pos: nat, n: nat, depth: nat, previous: Option<seq<Byte>>)
    requires pos <= |b| && depth <= p.maxDepth
    requires ParseEntries(p, b, pos, n, depth, previous).Got?
    ensures var r := ParseEntries(p, b, pos, n, depth, previous);
            && Count(r.value) == n && ShapedEntries(p, r.value) && depth + EntriesDepth(r.value) <= p.maxDepth
            && EncodeEntries(r.value) == b[pos..r.end] && Ascending(r.value)
            && (r.value.Entry? ==> InOrder(previous, Encode(r.value.key)))
    decreases |b| - pos, 1
  {
    hide Head, Scan, Less, ParseItem, Encode, Depth, Shaped;
    if n > 0 {
      var key := ParseItem(p, b, pos, depth);
      ParseItemSound(p, b, pos, depth);
      var value := ParseItem(p, b, key.end, depth);
      ParseItemSound(p, b, key.end, depth);
      ParseEntriesSound(p, b, value.end, n - 1, depth, Some(b[pos..key.end]));
      var r := ParseEntries(p, b, pos, n, depth, previous);
      SliceSplit(b, pos, key.end, value.end);
      SliceSplit(b, pos, value.end, r.end);
    }
  }

  // ---- The parser finds every conforming value where its encoding stands ----

  /** `s` stands in `b` at `pos`. */
  predicate At(b: seq<Byte>, pos: nat, s: seq<Byte>)
  {
    pos + |s| <= |b| && b[pos..pos + |s|] == s
  }

  lemma AtSplit(b: seq<Byte>, pos: nat, s: seq<Byte>, t: seq<Byte>)
    requires At(b, pos, s + t)
    ensures At(b, pos, s) && At(b, pos + |s|, t)
  {
    assert b[pos..pos + |s|] == b[pos..pos + |s + t|][..|s|] == s;
    assert b[pos + |s|..pos + |s| + |t|] == b[pos..pos + |s + t|][|s|..] == t;
  }

  lemma HeadAt(b: seq<Byte>, pos: nat, major: nat, n: nat)
    requires major < 8 && n < U64_LIMIT && At(b, pos, Head(major, n))
    ensures b[pos] / 32 == major && b[pos] % 32 <= 27
    ensures CanonicalArgument(b, pos) == Ok((n, |Head(major, n)|))
  {
    assert b[pos..][..|Head(major, n)|] == Head(major, n);
    HeadIsArgument(b, pos, major, n);
  }

  lemma ScalarComplete(p: Profile, b: seq<Byte>, pos: nat, depth: nat, v: Value)
    requires pos <= |b| && At(b, pos, Encode(v))
    requires Shaped(p, v) && !v.Array? && !v.Map?
    ensures Scan(p, b, pos, depth) == Scalar(v, pos + |Encode(v)|)
  {
    match v
    case UInt(n) => NumberComplete(p, b, pos, depth, v);
    case NInt(n) => NumberComplete(p, b, pos, depth, v);
    case ByteString(s) => StringComplete(p, b, pos, depth, v);
    case Text(s) => StringComplete(p, b, pos, depth, v);
    case Bool(truth) => assert b[pos] == b[pos..pos + 1][0];
    case Null => assert b[pos] == b[pos..pos + 1][0];
  }

  lemma NumberComplete(p: Profile, b: seq<Byte>, pos: nat, depth: nat, v: Value)
    requires pos <= |b| && At(b, pos, Encode(v)) && Shaped(p, v) && (v.UInt? || v.NInt?)
    ensures Scan(p, b, pos, depth) == Scalar(v, pos + |Encode(v)|)
  {
    hide Head, RawArgument, CanonicalArgument;
    HeadAt(b, pos, if v.UInt? then 0 else 1, v.n);
  }

  lemma StringComplete(p: Profile, b: seq<Byte>, pos: nat, depth: nat, v: Value)
    requires pos <= |b| && At(b, pos, Encode(v)) && Shaped(p, v) && (v.ByteString? || v.Text?)
    ensures Scan(p, b, pos, depth) == Scalar(v, pos + |Encode(v)|)
  {
    hide Head, RawArgument, CanonicalArgument;
    var major := if v.ByteString? then 2 else 3;
    AtSplit(b, pos, Head(major, |v.bytes|), v.bytes);
    HeadAt(b, pos, major, |v.bytes|);
  }

  lemma OpenComplete(p: Profile, b: seq<Byte>, pos: nat, depth: nat, major: nat, n: nat)
    requires pos <= |b| && (major == 4 || major == 5) && At(b, pos, Head(major, n))
    requires depth < p.maxDepth && n <= p.maxItems
    ensures var start := pos + |Head(major, n)|;
            Scan(p, b, pos, depth) == if major == 4 then OpenArray(n, start) else OpenMap(n, start)
  {
    hide Head, RawArgument, CanonicalArgument;
    HeadAt(b, pos, major, n);
  }

  lemma {:induction false} ParseItemComplete(p: Profile, b: seq<Byte>, pos: nat, depth: nat, v: Value)
    requires pos <= |b| && At(b, pos, Encode(v))
    requires Shaped(p, v) && depth + Depth(v) <= p.maxDepth
    ensures ParseItem(p, b, pos, depth) == Got(v, pos + |Encode(v)|)
    decreases v, 0
  {
    match v
    case Array(items) => ParseArrayComplete(p, b, pos, depth, items);
    case Map(entries) => ParseMapComplete(p, b, pos, depth, entries);
    case _ =>
      hide Scan, ParseItem, Encode;
      ScalarComplete(p, b, pos, depth, v);
      OpenedItem(p, b, pos, depth);
  }

  lemma {:induction false} ParseArrayComplete(p: Profile, b: seq<Byte>, pos: nat, depth: nat, items: List)
    requires pos <= |b| && At(b, pos, Encode(Array(items)))
    requires Shaped(p, Array(items)) && depth + Depth(Array(items)) <= p.maxDepth
    ensures ParseItem(p, b, pos, depth) == Got(Array(items), pos + |Encode(Array(items))|)
    decreases items, 1
  {
    hide Head, Scan, ParseItem, ParseList;
    var head := Head(4, Length(items));
    AtSplit(b, pos, head, EncodeList(items));
    OpenComplete(p, b, pos, depth, 4, Length(items));
    ParseListComplete(p, b, pos + |head|, depth + 1, items);
    OpenedItem(p, b, pos, depth);
  }

  lemma {:induction false} ParseMapComplete(p: Profile, b: seq<Byte>, pos: nat, depth: nat, entries: Entries)
    requires pos <= |b| && At(b, pos, Encode(Map(entries)))
    requires Shaped(p, Map(entries)) && depth + Depth(Map(entries)) <= p.maxDepth
    ensures ParseItem(p, b, pos, depth) == Got(Map(entries), pos + |Encode(Map(entries))|)
    decreases entries, 1
  {
    hide Head, Scan, ParseItem, ParseEntries;
    var head := Head(5, Count(entries));
    AtSplit(b, pos, head, EncodeEntries(entries));
    OpenComplete(p, b, pos, depth, 5, Count(entries));
    ParseEntriesComplete(p, b, pos + |head|, depth + 1, entries, None);
    OpenedItem(p, b, pos, depth);
  }

  /** How an item continues from its first token. */
  lemma OpenedItem(p: Profile, b: seq<Byte>, pos: nat, depth: nat)
    requires pos <= |b|
    ensures match Scan(p, b, pos, depth)
            case Reject => ParseItem(p, b, pos, depth).Stop?
            case Scalar(v, end) => ParseItem(p, b, pos, depth) == Got(v, end)
            case OpenArray(n, start) =>
              var items := ParseList(p, b, start, n, depth + 1);
              items.Got? ==> ParseItem(p, b, pos, depth) == Got(Array(items.value), items.end)
            case OpenMap(n, start) =>
              var entries := ParseEntries(p, b, start, n, depth + 1, None);
              entries.Got? ==> ParseItem(p, b, pos, depth) == Got(Map(entries.value), entries.end)
  {
    hide Scan, ParseList, ParseEntries;
  }

  lemma {:induction false} ParseListComplete(p: Profile, b: seq<Byte>, pos: nat, depth: nat, items: List)
    requires pos <= |b| && At(b, pos, EncodeList(items))
    requires ShapedList(p, items) && depth + ListDepth(items) <= p.maxDepth
    ensures ParseList(p, b, pos, Length(items), depth) == Got(items, pos + |EncodeList(items)|)
    decreases items, 0
  {
    hide Head, Scan, ParseItem, Encode, Depth, Shaped;
    if items.Cons? {
      AtSplit(b, pos, Encode(items.head), EncodeList(items.tail));
      ParseItemComplete(p, b, pos, depth, items.head);
      ParseListComplete(p, b, pos + |Encode(items.head)|, depth, items.tail);
    }
  }

  lemma {:induction false} ParseEntriesComplete(
    p: Profile, b: seq<Byte>, pos: nat, depth: nat, entries: Entries, previous: Option<seq<Byte>>)
    requires pos <= |b| && At(b, pos, EncodeEntries(entries))
    requires ShapedEntries(p, entries) && depth + EntriesDepth(entries) <= p.maxDepth && Ascending(entries)
    requires entries.Entry? ==> InOrder(previous, Encode(entries.key))
    ensures ParseEntries(p, b, pos, Count(entries), depth, previous) == Got(entries, pos + |EncodeEntries(entries)|)
    decreases entries, 0
  {
    hide Head, Scan, Less, ParseItem, Encode, Depth, Shaped;
    if entries.Entry? {
      var key, value := Encode(entries.key), Encode(entries.value);
      AtSplit(b, pos, key + value, EncodeEntries(entries.rest));
      AtSplit(b, pos, key, value);
      ParseItemComplete(p, b, pos, depth, entries.key);
      ParseItemComplete(p, b, pos + |key|, depth, entries.value);
      ParseEntriesComplete(p, b, pos + |key| + |value|, depth, entries.rest, Some(key));
    }
  }

  // ---- The two directions together ----

  /** A byte string is the encoding of a conforming value exactly when the parser consumes all of it. */
  lemma ParserDecidesGrammar(p: Profile, b: seq<Byte>)
    ensures (exists v :: Conforms(p, v) && Encode(v) == b)
       <==> ParseItem(p, b, 0, 0).Got? && ParseItem(p, b, 0, 0).end == |b|
  {
    if v :| Conforms(p, v) && Encode(v) == b {
      ParseItemComplete(p, b, 0, 0, v);
    }
    var r := ParseItem(p, b, 0, 0);
    if r.Got? && r.end == |b| {
      ParseItemSound(p, b, 0, 0);
      assert b[0..|b|] == b;
    }
  }

  /** The encoding is self-delimiting and injective: a conforming encoding followed by anything
      decodes to one value only, so no accepted string is a proper prefix of another. */
  lemma SelfDelimiting(p: Profile, v: Value, w: Value, tail: seq<Byte>)
    requires Conforms(p, v) && Conforms(p, w)
    requires Encode(v) + tail == Encode(w)
    ensures v == w && tail == []
  {
    var b := Encode(w);
    ParseItemComplete(p, b, 0, 0, v);
    ParseItemComplete(p, b, 0, 0, w);
  }

  /** What the profile accepts: the encoding of a conforming value, within the limits. */
  ghost predicate Accepted(p: Profile, b: seq<Byte>)
  {
    && p.maxDepth > 0 && p.maxItems > 0 && 0 < |b| <= p.maxBody
    && exists v :: Conforms(p, v) && Encode(v) == b
  }

  /** No accepted string is a proper prefix of another, so the trailing-data check is exact. */
  lemma AcceptedPrefixFree(p: Profile, b: seq<Byte>, tail: seq<Byte>)
    requires Accepted(p, b) && Accepted(p, b + tail)
    ensures tail == []
  {
    var v :| Conforms(p, v) && Encode(v) == b;
    var w :| Conforms(p, w) && Encode(w) == b + tail;
    SelfDelimiting(p, v, w, tail);
  }

  // ---- Key order by position ----

  function KeyAt(entries: Entries, i: nat): Value
    requires i < Count(entries)
  {
    if i == 0 then entries.key else KeyAt(entries.rest, i - 1)
  }

  lemma {:induction false} FirstKeyLeast(entries: Entries, j: nat)
    requires Ascending(entries) && 0 < j < Count(entries)
    ensures Less(Encode(KeyAt(entries, 0)), Encode(KeyAt(entries, j)))
  {
    if j > 1 {
      FirstKeyLeast(entries.rest, j - 1);
      LessTransitive(Encode(entries.key), Encode(entries.rest.key), Encode(KeyAt(entries, j)));
    }
  }

  lemma {:induction false} KeysAscend(entries: Entries, i: nat, j: nat)
    requires Ascending(entries) && i < j < Count(entries)
    ensures Less(Encode(KeyAt(entries, i)), Encode(KeyAt(entries, j)))
  {
    if i == 0 {
      FirstKeyLeast(entries, j);
    } else {
      KeysAscend(entries.rest, i - 1, j - 1);
    }
  }

  /** Every key's encoding precedes every later one's, at the first byte where they part. */
  ghost predicate KeysInOrder(entries: Entries)
  {
    forall i, j :: 0 <= i < j < Count(entries) ==> Precedes(Encode(KeyAt(entries, i)), Encode(KeyAt(entries, j)))
  }

  lemma {:induction false} InOrderAscends(entries: Entries)
    requires KeysInOrder(entries)
    ensures Ascending(entries)
  {
    if entries.Entry? && entries.rest.Entry? {
      assert KeyAt(entries, 0) == entries.key && KeyAt(entries, 1) == entries.rest.key;
      assert Precedes(Encode(KeyAt(entries, 0)), Encode(KeyAt(entries, 1)));
      LessIsLexicographic(Encode(entries.key), Encode(entries.rest.key));
      forall i, j | 0 <= i < j < Count(entries.rest)
        ensures Precedes(Encode(KeyAt(entries.rest, i)), Encode(KeyAt(entries.rest, j)))
      {
        assert Precedes(Encode(KeyAt(entries, i + 1)), Encode(KeyAt(entries, j + 1)));
      }
      InOrderAscends(entries.rest);
    }
  }

  /** Map keys are in the bytewise lexicographic order of their encodings (section 4.2.1 of RFC 8949). */
  lemma AscendingByPosition(entries: Entries)
    ensures Ascending(entries) <==> KeysInOrder(entries)
  {
    if Ascending(entries) {
      forall i, j | 0 <= i < j < Count(entries)
        ensures Precedes(Encode(KeyAt(entries, i)), Encode(KeyAt(entries, j)))
      {
        KeysAscend(entries, i, j);
        LessIsLexicographic(Encode(KeyAt(entries, i)), Encode(KeyAt(entries, j)));
      }
    }
    if KeysInOrder(entries) {
      InOrderAscends(entries);
    }
  }
}
