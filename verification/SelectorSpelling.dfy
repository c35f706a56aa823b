/**
 The selector language as it is written, apart from how it is parsed: syntax trees for every way to spell a
 predicate, the text of each, and its meaning. Parsing finds the meaning of every well-formed text and
 accepts no other.
 */
module SelectorSpelling {
  import opened Wrappers
  import opened Text
  import opened SelectorTag
  import opened SelectorGrammar
  import RoundTrip = SelectorRoundTrip

  // ---- Syntax ----

  /** A character of a value, as itself or behind a backslash. */
  datatype Written = Plain(c: char) | Escaped(c: char)

  datatype Item = Item(before: string, value: seq<Written>, after: string)

  datatype Syntax =
    | Has(key: string)
    | Lacks(key: string)
    | Compare(key: string, before: string, equal: bool, after: string, value: seq<Written>)
    | Member(key: string, before: string, positive: bool, between: string, items: seq<Item>)

  predicate White(w: string)
  {
    forall i :: 0 <= i < |w| ==> IsWhitespace(w[i])
  }

  /** The characters that end a value or mean something in the grammar. */
  predicate Special(c: char)
  {
    IsWhitespace(c) || c in {'\\', ',', '(', ')', '=', '!'}
  }

  predicate WrittenOk(x: Written)
  {
    match x
    case Plain(c) => !Special(c)
    case Escaped(c) => c in {' ', '\t', '\n', '\r', '\\', ',', '(', ')', '=', '!'}
  }

  predicate ValueOk(v: seq<Written>)
  {
    && (forall i :: 0 <= i < |v| ==> WrittenOk(v[i]))
    && 1 <= |v| && ByteLength(Value(v)) <= LABEL_VALUE_MAX_BYTES
  }

  predicate ItemOk(item: Item)
  {
    White(item.before) && ValueOk(item.value) && White(item.after)
  }

  predicate KeyOk(dns: string -> bool, key: string)
  {
    NoStops(key) && ParseTag(dns, key).Some? && InKeySpace(ParseTag(dns, key).value)
  }

  /** A set operator needs space before it, or it would belong to the key. */
  predicate SyntaxOk(dns: string -> bool, x: Syntax)
  {
    KeyOk(dns, x.key) &&
    match x
    case Has(_) => true
    case Lacks(_) => true
    case Compare(_, before, _, after, value) => White(before) && White(after) && ValueOk(value)
    case Member(_, before, _, between, items) =>
      && before != "" && White(before) && White(between) && 1 <= |items| <= SELECTOR_MAX_SET_VALUES
      && forall i :: 0 <= i < |items| ==> ItemOk(items[i])
  }

  // ---- Text ----

  function WrittenText(x: Written): string
  {
    match x
    case Plain(c) => [c]
    case Escaped(c) => ['\\', if c == '\t' then 't' else if c == '\n' then 'n' else if c == '\r' then 'r' else c]
  }

  function ValueText(v: seq<Written>): string
  {
    if v == [] then "" else WrittenText(v[0]) + ValueText(v[1..])
  }

  function ItemsText(items: seq<Item>): string
  {
    if items == [] then ""
    else
      items[0].before + (ValueText(items[0].value) + (items[0].after +
        (if |items| == 1 then ")" else "," + ItemsText(items[1..]))))
  }

  function OperatorText(equal: bool): string
  {
    if equal then "=" else "!="
  }

  function SetWord(positive: bool): string
  {
    if positive then "in" else "notin"
  }

  function TailText(x: Syntax): string
    requires x.Compare? || x.Member?
  {
    match x
    case Compare(_, before, equal, after, value) =>
      before + (OperatorText(equal) + (after + ValueText(value)))
    case Member(_, before, positive, between, items) =>
      before + (SetWord(positive) + (between + ("(" + ItemsText(items))))
  }

  function SyntaxText(x: Syntax): string
  {
    match x
    case Has(key) => key
    case Lacks(key) => "!" + key
    case Compare(key, _, _, _, _) => key + TailText(x)
    case Member(key, _, _, _, _) => key + TailText(x)
  }

  // ---- Meaning ----

  function Value(v: seq<Written>): (value: string)
    ensures |value| == |v| && forall i :: 0 <= i < |v| ==> value[i] == v[i].c
  {
    seq(|v|, i requires 0 <= i < |v| => v[i].c)
  }

  function Values(items: seq<Item>): (values: seq<string>)
    ensures |values| == |items| && forall i :: 0 <= i < |items| ==> values[i] == Value(items[i].value)
  {
    seq(|items|, i requires 0 <= i < |items| => Value(items[i].value))
  }

  function Meaning(dns: string -> bool, x: Syntax): Predicate
    requires SyntaxOk(dns, x)
  {
    var key := ParseTag(dns, x.key).value;
    match x
    case Has(_) => Exists(key)
    case Lacks(_) => NotExists(key)
    case Compare(_, _, equal, _, value) => if equal then Equals(key, Value(value)) else NotEquals(key, Value(value))
    case Member(_, _, positive, _, items) => if positive then In(key, Values(items)) else NotIn(key, Values(items))
  }

  // ---- What may follow ----

  predicate EndsKey(rest: string)
  {
    rest == "" || KeyStop(rest[0])
  }

  predicate Word(s: string, word: string)
  {
    word <= s && (|s| == |word| || IsWhitespace(s[|word|]) || s[|word|] == '(')
  }

  /** `s` goes on with an operator, after any space. */
  ghost predicate GoesOn(s: string)
  {
    exists k :: 0 <= k <= |s| && White(s[..k]) && Operator(s[k..])
  }

  predicate Operator(s: string)
  {
    "=" <= s || "!=" <= s || Word(s, "in") || Word(s, "notin")
  }

  ghost predicate MayFollow(x: Syntax, rest: string)
  {
    match x
    case Has(_) => EndsKey(rest) && !GoesOn(rest)
    case Lacks(_) => EndsKey(rest)
    case Compare(_, _, _, _, _) => RoundTrip.StopsValue(rest, false)
    case Member(_, _, _, _, _) => true
  }

  // ---- Every spelling is read: space, keys, values ----

  lemma {:induction false} SpaceRead(w: string, u: string)
    requires White(w) && (u == "" || !IsWhitespace(u[0]))
    ensures SkipWhitespace(w + u) == u
  {
    if w == "" {
      assert w + u == u;
    } else {
      assert (w + u)[1..] == w[1..] + u;
      SpaceRead(w[1..], u);
    }
  }

  lemma KeyRead(dns: string -> bool, key: string, u: string)
    requires KeyOk(dns, key) && EndsKey(u)
    ensures ParseKey(dns, key + u) == Ok((ParseTag(dns, key).value, u))
  {
    RoundTrip.KeySpanOf(key, u);
    hide KeySpan, ParseTag, InKeySpace, NoStops;
    assert (key + u)[..|key|] == key && (key + u)[|key|..] == u;
  }

  lemma WrittenRead(x: Written, u: string, inList: bool)
    requires WrittenOk(x)
    ensures ScanValue(WrittenText(x) + u, inList) == Prepend(x.c, ScanValue(u, inList))
  {
    var s := WrittenText(x) + u;
    if x.Escaped? {
      assert s[2..] == u;
    } else {
      assert s[1..] == u;
    }
  }

  lemma ValueTextStep(x: Written, more: seq<Written>)
    ensures ValueText([x] + more) == WrittenText(x) + ValueText(more)
    ensures Value([x] + more) == [x.c] + Value(more)
  {
    hide WrittenText;
    assert ([x] + more)[1..] == more;
  }

  lemma NothingWritten(s: string, inList: bool)
    requires RoundTrip.StopsValue(s, inList)
    ensures ScanValue(s, inList) == Ok(("", s)) && ValueText([]) + s == s && Value([]) == ""
  {
  }

  lemma {:induction false} ValueRead(v: seq<Written>, rest: string, inList: bool)
    requires (forall i :: 0 <= i < |v| ==> WrittenOk(v[i])) && RoundTrip.StopsValue(rest, inList)
    ensures ScanValue(ValueText(v) + rest, inList) == Ok((Value(v), rest))
  {
    hide ScanValue, WrittenText, ValueText, WrittenOk, RoundTrip.StopsValue;
    if v == [] {
      NothingWritten(rest, inList);
    } else {
      assert v == [v[0]] + v[1..];
      var u := ValueText(v[1..]) + rest;
      ValueTextStep(v[0], v[1..]);
      assert ValueText(v) + rest == WrittenText(v[0]) + u;
      WrittenRead(v[0], u, inList);
      ValueRead(v[1..], rest, inList);
    }
  }

  lemma ValueStart(v: seq<Written>, rest: string)
    requires ValueOk(v)
    ensures ValueText(v) + rest != "" && !IsWhitespace((ValueText(v) + rest)[0])
  {
    assert WrittenOk(v[0]);
    assert (ValueText(v) + rest)[0] == WrittenText(v[0])[0];
  }

  lemma SpacedValueRead(w: string, v: seq<Written>, rest: string, inList: bool)
    requires White(w) && ValueOk(v) && RoundTrip.StopsValue(rest, inList)
    ensures ParseValue(SkipWhitespace(w + (ValueText(v) + rest)), inList) == Ok((Value(v), rest))
  {
    ValueStart(v, rest);
    SpaceRead(w, ValueText(v) + rest);
    ValueRead(v, rest, inList);
    hide ScanValue, ValueText;
    assert Value(v) != "";
  }

  // ---- Every spelling is read: sets, operators, predicates ----

  lemma Regroup(a: string, b: string, c: string, d: string, e: string)
    ensures (a + (b + (c + d))) + e == a + (b + (c + (d + e)))
  {
  }

  lemma ItemRead(item: Item, mark: string, rest: string)
    requires ItemOk(item) && (mark == "," || mark == ")")
    ensures ParseItem(item.before + (ValueText(item.value) + (item.after + (mark + rest)))) ==
            Ok((Value(item.value), mark == ")", rest))
  {
    var tail := item.after + (mark + rest);
    assert RoundTrip.StopsValue(tail, true) by {
      if item.after == "" {
        assert tail[0] == mark[0];
      } else {
        assert tail[0] == item.after[0];
      }
    }
    SpacedValueRead(item.before, item.value, tail, true);
    SpaceRead(item.after, mark + rest);
    hide ParseValue, SkipWhitespace, ValueText;
    assert (mark + rest)[0] == mark[0] && (mark + rest)[1..] == rest;
  }

  lemma LastItemText(items: seq<Item>, rest: string)
    requires |items| == 1
    ensures ItemsText(items) + rest ==
            items[0].before + (ValueText(items[0].value) + (items[0].after + (")" + rest)))
  {
    hide ValueText;
    Regroup(items[0].before, ValueText(items[0].value), items[0].after, ")", rest);
  }

  lemma FirstItemText(items: seq<Item>, rest: string)
    requires |items| >= 2
    ensures ItemsText(items) + rest ==
            items[0].before + (ValueText(items[0].value) +
                               (items[0].after + ("," + (ItemsText(items[1..]) + rest))))
  {
    var more := ItemsText(items[1..]);
    hide ValueText;
    Regroup(items[0].before, ValueText(items[0].value), items[0].after, "," + more, rest);
    assert ("," + more) + rest == "," + (more + rest);
  }

  lemma {:induction false} ItemsRead(items: seq<Item>, rest: string, n: nat)
    requires (forall i :: 0 <= i < |items| ==> ItemOk(items[i])) && items != []
    requires n + |items| <= SELECTOR_MAX_SET_VALUES
    ensures ParseItems(ItemsText(items) + rest, n) == Ok((Values(items), rest))
  {
    hide ParseItem, ValueText, ItemsText, ItemOk;
    if |items| == 1 {
      LastItemText(items, rest);
      ItemRead(items[0], ")", rest);
      assert Values(items) == [Value(items[0].value)];
    } else {
      FirstItemText(items, rest);
      ItemRead(items[0], ",", ItemsText(items[1..]) + rest);
      ItemsRead(items[1..], rest, n + 1);
      assert Values(items) == [Value(items[0].value)] + Values(items[1..]);
    }
  }

  lemma SetRead(key: Tag, between: string, items: seq<Item>, positive: bool, rest: string)
    requires White(between) && 1 <= |items| <= SELECTOR_MAX_SET_VALUES
    requires forall i :: 0 <= i < |items| ==> ItemOk(items[i])
    ensures SetPredicate(key, between + ("(" + (ItemsText(items) + rest)), positive) ==
            Ok((Some(if positive then In(key, Values(items)) else NotIn(key, Values(items))), rest))
  {
    var body := ItemsText(items) + rest;
    var t := "(" + body;
    assert t[0] == '(' && t[1..] == body;
    SpaceRead(between, t);
    ItemsRead(items, rest, 0);
    hide ParseItems, SkipWhitespace, ItemsText, ItemOk;
  }

  lemma CompareRead(key: Tag, before: string, equal: bool, after: string, v: seq<Written>, rest: string)
    requires White(before) && White(after) && ValueOk(v) && RoundTrip.StopsValue(rest, false)
    ensures OperatorTail(key, before + (OperatorText(equal) + (after + (ValueText(v) + rest)))) ==
            Ok((Some(if equal then Equals(key, Value(v)) else NotEquals(key, Value(v))), rest))
  {
    var value := after + (ValueText(v) + rest);
    SpacedValueRead(after, v, rest, false);
    hide ParseValue, SkipWhitespace, ValueText, ValueOk;
    if equal {
      EqualsRead(key, before, value);
    } else {
      NotEqualsRead(key, before, value);
    }
  }

  lemma EqualsRead(key: Tag, before: string, value: string)
    requires White(before)
    ensures OperatorTail(key, before + (OperatorText(true) + value)) ==
            var v := ParseValue(SkipWhitespace(value), false);
            if v.Err? then Err(v.error) else Ok((Some(Equals(key, v.value.0)), v.value.1))
  {
    var t := OperatorText(true) + value;
    assert t[0] == '=' && t[1..] == value;
    SpaceRead(before, t);
    hide ParseValue, SkipWhitespace, SetPredicate, Keyword, OperatorText;
  }

  lemma NotEqualsRead(key: Tag, before: string, value: string)
    requires White(before)
    ensures OperatorTail(key, before + (OperatorText(false) + value)) ==
            var v := ParseValue(SkipWhitespace(value), false);
            if v.Err? then Err(v.error) else Ok((Some(NotEquals(key, v.value.0)), v.value.1))
  {
    var t := OperatorText(false) + value;
    assert t[0] == '!' && t[1] == '=' && t[2..] == value;
    SpaceRead(before, t);
    hide ParseValue, SkipWhitespace, SetPredicate, Keyword, OperatorText;
  }

  /** What may follow a set word. */
  predicate EndsWord(u: string)
  {
    u != "" && (IsWhitespace(u[0]) || u[0] == '(')
  }

  lemma InRead(key: Tag, before: string, u: string)
    requires White(before) && EndsWord(u)
    ensures OperatorTail(key, before + (SetWord(true) + u)) == SetPredicate(key, u, true)
  {
    var t := SetWord(true) + u;
    assert t[0] == 'i' && t[2] == u[0] && t[2..] == u && "in" <= t;
    assert Keyword(t, "in");
    SpaceRead(before, t);
    hide ParseValue, SkipWhitespace, SetPredicate, Keyword, SetWord;
  }

  lemma NotInRead(key: Tag, before: string, u: string)
    requires White(before) && EndsWord(u)
    ensures OperatorTail(key, before + (SetWord(false) + u)) == SetPredicate(key, u, false)
  {
    var t := SetWord(false) + u;
    assert t[0] == 'n' && t[5] == u[0] && t[5..] == u && "notin" <= t;
    assert Keyword(t, "notin") && !Keyword(t, "in");
    SpaceRead(before, t);
    hide ParseValue, SkipWhitespace, SetPredicate, Keyword, SetWord;
  }

  lemma MemberRead(key: Tag, before: string, positive: bool, between: string, items: seq<Item>, rest: string)
    requires White(before) && White(between) && 1 <= |items| <= SELECTOR_MAX_SET_VALUES
    requires forall i :: 0 <= i < |items| ==> ItemOk(items[i])
    ensures OperatorTail(key, before + (SetWord(positive) + (between + ("(" + (ItemsText(items) + rest))))) ==
            Ok((Some(if positive then In(key, Values(items)) else NotIn(key, Values(items))), rest))
  {
    var u := between + ("(" + (ItemsText(items) + rest));
    assert EndsWord(u) by {
      assert between != "" ==> u[0] == between[0];
      assert between == "" ==> u[0] == '(';
    }
    SetRead(key, between, items, positive, rest);
    hide OperatorTail, SetPredicate, ItemsText, ItemOk, SetWord;
    if positive {
      InRead(key, before, u);
    } else {
      NotInRead(key, before, u);
    }
  }

  lemma {:induction false} SpaceFound(s: string) returns (w: string)
    ensures White(w) && s == w + SkipWhitespace(s)
  {
    if s != "" && IsWhitespace(s[0]) {
      var more := SpaceFound(s[1..]);
      w := [s[0]] + more;
      assert s == [s[0]] + s[1..];
    } else {
      w := "";
    }
  }

  lemma NoOperatorHere(key: Tag, s: string)
    requires !Operator(SkipWhitespace(s))
    ensures OperatorTail(key, s) == Ok((None, s))
  {
    var t := SkipWhitespace(s);
    hide SkipWhitespace, ParseValue, SetPredicate;
    assert t != [] && t[0] == '=' ==> "=" <= t;
    assert |t| >= 2 && t[0] == '!' && t[1] == '=' ==> "!=" <= t;
  }

  lemma NoOperatorRead(key: Tag, rest: string)
    requires !GoesOn(rest)
    ensures OperatorTail(key, rest) == Ok((None, rest))
  {
    hide OperatorTail, Operator, White, SkipWhitespace;
    var w := SpaceFound(rest);
    var t := SkipWhitespace(rest);
    assert rest[..|w|] == w && rest[|w|..] == t;
    NoOperatorHere(key, rest);
  }

  /** Every spelling of a predicate, followed by what may follow it, is read as its meaning. */
  lemma SyntaxRead(dns: string -> bool, x: Syntax, rest: string)
    requires SyntaxOk(dns, x) && MayFollow(x, rest)
    ensures SyntaxText(x) + rest != []
    ensures ParsePredicate(dns, SyntaxText(x) + rest) == Ok((Meaning(dns, x), rest))
  {
    match x
    case Has(key) => HasRead(dns, key, rest);
    case Lacks(key) => LacksRead(dns, key, rest);
    case Compare(key, _, _, _, _) => TailRead(dns, x, rest);
    case Member(key, _, _, _, _) => TailRead(dns, x, rest);
  }

  lemma HasRead(dns: string -> bool, key: string, rest: string)
    requires KeyOk(dns, key) && EndsKey(rest) && !GoesOn(rest)
    ensures key + rest != [] && ParsePredicate(dns, key + rest) == Ok((Exists(ParseTag(dns, key).value), rest))
  {
    KeyNonempty(dns, key);
    KeyRead(dns, key, rest);
    NoOperatorRead(ParseTag(dns, key).value, rest);
    hide ParseKey, OperatorTail, KeyOk, GoesOn, ParseTag;
    assert (key + rest)[0] == key[0];
  }

  lemma LacksRead(dns: string -> bool, key: string, rest: string)
    requires KeyOk(dns, key) && EndsKey(rest)
    ensures ("!" + key) + rest != []
    ensures ParsePredicate(dns, ("!" + key) + rest) == Ok((NotExists(ParseTag(dns, key).value), rest))
  {
    KeyRead(dns, key, rest);
    hide ParseKey, OperatorTail, KeyOk, ParseTag;
    var s := ("!" + key) + rest;
    assert s[0] == '!' && s[1..] == key + rest;
  }

  lemma KeyNonempty(dns: string -> bool, key: string)
    requires KeyOk(dns, key)
    ensures key != "" && !KeyStop(key[0]) && key[0] != '!'
  {
  }

  lemma TailRead(dns: string -> bool, x: Syntax, rest: string)
    requires SyntaxOk(dns, x) && MayFollow(x, rest) && (x.Compare? || x.Member?)
    ensures SyntaxText(x) + rest != []
    ensures ParsePredicate(dns, SyntaxText(x) + rest) == Ok((Meaning(dns, x), rest))
  {
    var u := TailText(x) + rest;
    TailStart(x, rest);
    TailSplits(x, rest);
    OperatorRead(dns, x, rest);
    hide ParseKey, OperatorTail, KeyOk, SyntaxText, TailText, ValueOk, ItemOk, EndsKey, MayFollow, Meaning;
    KeyNonempty(dns, x.key);
    KeyRead(dns, x.key, u);
    assert (x.key + u)[0] == x.key[0];
  }

  lemma TailSplits(x: Syntax, rest: string)
    requires x.Compare? || x.Member?
    ensures SyntaxText(x) + rest == x.key + (TailText(x) + rest)
  {
    hide TailText;
  }

  lemma OperatorRead(dns: string -> bool, x: Syntax, rest: string)
    requires SyntaxOk(dns, x) && MayFollow(x, rest) && (x.Compare? || x.Member?)
    ensures OperatorTail(ParseTag(dns, x.key).value, TailText(x) + rest) == Ok((Some(Meaning(dns, x)), rest))
  {
    var key := ParseTag(dns, x.key).value;
    hide OperatorTail, KeyOk, ValueText, ItemsText, ValueOk, ItemOk, OperatorText, SetWord, ParseTag;
    if x.Compare? {
      Regroup(x.before, OperatorText(x.equal), x.after, ValueText(x.value), rest);
      CompareRead(key, x.before, x.equal, x.after, x.value, rest);
    } else {
      Regroup(x.before, SetWord(x.positive), x.between, "(" + ItemsText(x.items), rest);
      assert ("(" + ItemsText(x.items)) + rest == "(" + (ItemsText(x.items) + rest);
      MemberRead(key, x.before, x.positive, x.between, x.items, rest);
    }
  }

  lemma TailStart(x: Syntax, rest: string)
    requires x.Compare? || x.Member?
    requires x.Compare? ==> White(x.before)
    requires x.Member? ==> White(x.before) && x.before != ""
    ensures EndsKey(TailText(x) + rest)
  {
    var u := TailText(x) + rest;
    if x.before != "" {
      assert u[0] == x.before[0];
    } else {
      assert u[0] == OperatorText(x.equal)[0];
    }
  }

  // ---- Every text that is read is a spelling ----

  lemma KeyFound(dns: string -> bool, s: string) returns (key: string)
    requires ParseKey(dns, s).Ok?
    ensures KeyOk(dns, key) && ParseKey(dns, s).value.0 == ParseTag(dns, key).value
    ensures s == key + ParseKey(dns, s).value.1 && EndsKey(ParseKey(dns, s).value.1)
  {
    hide ParseTag, InKeySpace, NoStops;
    var n := KeySpan(s);
    key := s[..n];
    assert s == s[..n] + s[n..];
    assert n < |s| ==> s[n..][0] == s[n];
  }

  lemma WrittenFound(s: string, inList: bool) returns (x: Written, u: string)
    requires ScanValue(s, inList).Ok? && !RoundTrip.StopsValue(s, inList)
    ensures WrittenOk(x) && s == WrittenText(x) + u && |u| < |s|
    ensures ScanValue(s, inList) == Prepend(x.c, ScanValue(u, inList))
  {
    if s[0] == '\\' {
      x, u := Escaped(Unescape(s[1]).value), s[2..];
      assert s == [s[0], s[1]] + u;
    } else {
      x, u := Plain(s[0]), s[1..];
      assert s == [s[0]] + u;
    }
  }

  lemma {:induction false} ValueFound(s: string, inList: bool) returns (v: seq<Written>)
    requires ScanValue(s, inList).Ok?
    ensures forall i :: 0 <= i < |v| ==> WrittenOk(v[i])
    ensures Value(v) == ScanValue(s, inList).value.0
    ensures s == ValueText(v) + ScanValue(s, inList).value.1
    ensures RoundTrip.StopsValue(ScanValue(s, inList).value.1, inList)
    decreases |s|
  {
    hide ScanValue, WrittenText, WrittenOk, ValueText, RoundTrip.StopsValue;
    if RoundTrip.StopsValue(s, inList) {
      v := [];
      NothingWritten(s, inList);
    } else {
      var x, u := WrittenFound(s, inList);
      var more := ValueFound(u, inList);
      v := [x] + more;
      ValueTextStep(x, more);
    }
  }

  lemma SpacedValueFound(s: string, inList: bool) returns (w: string, v: seq<Written>)
    requires ParseValue(SkipWhitespace(s), inList).Ok?
    ensures var r := ParseValue(SkipWhitespace(s), inList).value;
            && White(w) && ValueOk(v) && Value(v) == r.0 && RoundTrip.StopsValue(r.1, inList)
            && s == w + (ValueText(v) + r.1)
  {
    w := SpaceFound(s);
    v := ValueFound(SkipWhitespace(s), inList);
    hide ScanValue, SkipWhitespace, ValueText, WrittenOk;
    assert |Value(v)| == |v|;
  }

  lemma ItemFound(s: string) returns (item: Item, mark: string)
    requires ParseItem(s).Ok?
    ensures var r := ParseItem(s).value;
            && ItemOk(item) && Value(item.value) == r.0 && mark == (if r.1 then ")" else ",")
            && s == item.before + (ValueText(item.value) + (item.after + (mark + r.2)))
  {
    var before, v := SpacedValueFound(s, true);
    var u := ParseValue(SkipWhitespace(s), true).value.1;
    var after := SpaceFound(u);
    var t := SkipWhitespace(u);
    hide ParseValue, SkipWhitespace, ValueText, ValueOk, White;
    mark := if t[0] == ')' then ")" else ",";
    assert t == mark + t[1..];
    item := Item(before, v, after);
  }

  ghost predicate ItemsOk(items: seq<Item>)
  {
    forall i :: 0 <= i < |items| ==> ItemOk(items[i])
  }

  lemma OneItem(item: Item, s: string, rest: string)
    requires ItemOk(item) && s == item.before + (ValueText(item.value) + (item.after + (")" + rest)))
    ensures ItemsOk([item]) && Values([item]) == [Value(item.value)] && s == ItemsText([item]) + rest
  {
    hide ValueText, ItemsText, ItemOk;
    LastItemText([item], rest);
  }

  lemma MoreItems(item: Item, more: seq<Item>, s: string, rest: string)
    requires ItemOk(item) && ItemsOk(more) && more != []
    requires s == item.before + (ValueText(item.value) + (item.after + ("," + (ItemsText(more) + rest))))
    ensures ItemsOk([item] + more) && Values([item] + more) == [Value(item.value)] + Values(more)
    ensures s == ItemsText([item] + more) + rest
  {
    hide ValueText, ItemsText, ItemOk;
    assert ([item] + more)[1..] == more;
    FirstItemText([item] + more, rest);
  }

  lemma {:induction false} ItemsFound(s: string, n: nat) returns (items: seq<Item>)
    requires ParseItems(s, n).Ok?
    ensures var r := ParseItems(s, n).value;
            && items != [] && n + |items| <= SELECTOR_MAX_SET_VALUES && ItemsOk(items)
            && Values(items) == r.0 && s == ItemsText(items) + r.1
    decreases |s|
  {
    hide ParseItem, ItemOk, ItemsOk, ValueText, ItemsText;
    var item, mark := ItemFound(s);
    var r := ParseItem(s).value;
    if r.1 {
      items := [item];
      OneItem(item, s, r.2);
    } else {
      var more := ItemsFound(r.2, n + 1);
      items := [item] + more;
      MoreItems(item, more, s, ParseItems(s, n).value.1);
    }
  }

  lemma FirstCharacter(t: string, c: string)
    requires t != "" && |c| == 1 && t[0] == c[0]
    ensures t == c + t[1..]
  {
  }

  lemma SetFound(key: Tag, s: string, positive: bool) returns (between: string, items: seq<Item>)
    requires SetPredicate(key, s, positive).Ok?
    ensures var r := SetPredicate(key, s, positive).value;
            && White(between) && 1 <= |items| <= SELECTOR_MAX_SET_VALUES
            && (forall i :: 0 <= i < |items| ==> ItemOk(items[i]))
            && r.0 == Some(if positive then In(key, Values(items)) else NotIn(key, Values(items)))
            && s == between + ("(" + (ItemsText(items) + r.1))
  {
    hide ParseItems, SkipWhitespace, ItemsText, ItemOk, White;
    between := SpaceFound(s);
    var t := SkipWhitespace(s);
    assert t != "" && t[0] == '(';
    items := ItemsFound(t[1..], 0);
    FirstCharacter(t, "(");
  }

  lemma CompareFound(dns: string -> bool, key: string, before: string, equal: bool, u: string) returns (x: Syntax)
    requires KeyOk(dns, key) && White(before) && ParseValue(SkipWhitespace(u), false).Ok?
    ensures var tag, r := ParseTag(dns, key).value, ParseValue(SkipWhitespace(u), false).value;
            && x.Compare? && x.key == key && SyntaxOk(dns, x) && MayFollow(x, r.1)
            && Meaning(dns, x) == (if equal then Equals(tag, r.0) else NotEquals(tag, r.0))
            && before + (OperatorText(equal) + u) == TailText(x) + r.1
  {
    var after, v := SpacedValueFound(u, false);
    x := Compare(key, before, equal, after, v);
    hide ParseValue, SkipWhitespace, ValueText, ValueOk, KeyOk, OperatorText, White, ParseTag;
    Regroup(before, OperatorText(equal), after, ValueText(v), ParseValue(SkipWhitespace(u), false).value.1);
  }

  lemma MemberFound(dns: string -> bool, key: string, before: string, positive: bool, u: string) returns (x: Syntax)
    requires KeyOk(dns, key) && White(before) && before != ""
    requires SetPredicate(ParseTag(dns, key).value, u, positive).Ok?
    ensures var r := SetPredicate(ParseTag(dns, key).value, u, positive).value;
            && x.Member? && x.key == key && SyntaxOk(dns, x) && MayFollow(x, r.1) && r.0 == Some(Meaning(dns, x))
            && before + (SetWord(positive) + u) == TailText(x) + r.1
  {
    var tag := ParseTag(dns, key).value;
    hide SetPredicate, ItemsText, ItemOk, KeyOk, SetWord, White, ParseTag, TailText;
    var between, items := SetFound(tag, u, positive);
    var rest := SetPredicate(tag, u, positive).value.1;
    x := Member(key, before, positive, between, items);
    MemberText(key, before, positive, between, items, rest);
  }

  lemma MemberText(key: string, before: string, positive: bool, between: string, items: seq<Item>, rest: string)
    ensures before + (SetWord(positive) + (between + ("(" + (ItemsText(items) + rest)))) ==
            TailText(Member(key, before, positive, between, items)) + rest
  {
    hide ItemsText, SetWord;
    Regroup(before, SetWord(positive), between, "(" + ItemsText(items), rest);
    assert ("(" + ItemsText(items)) + rest == "(" + (ItemsText(items) + rest);
  }

  /** The four operators, by the text they start with. */
  lemma OperatorFound(key: Tag, s: string) returns (mark: nat, u: string)
    requires OperatorTail(key, s).Ok? && OperatorTail(key, s).value.0.Some?
    ensures mark < 4
    ensures var t, r := SkipWhitespace(s), OperatorTail(key, s).value;
            match mark
            case 0 =>
              var v := ParseValue(SkipWhitespace(u), false);
              t == OperatorText(true) + u && v.Ok? && r == (Some(Equals(key, v.value.0)), v.value.1)
            case 1 =>
              var v := ParseValue(SkipWhitespace(u), false);
              t == OperatorText(false) + u && v.Ok? && r == (Some(NotEquals(key, v.value.0)), v.value.1)
            case 2 => t == SetWord(true) + u && SetPredicate(key, u, true) == Ok(r)
            case _ => t == SetWord(false) + u && SetPredicate(key, u, false) == Ok(r)
    ensures mark >= 2 ==> SkipWhitespace(s) != "" && !KeyStop(SkipWhitespace(s)[0])
  {
    var t := SkipWhitespace(s);
    hide SkipWhitespace, ParseValue, SetPredicate;
    if t[0] == '=' {
      mark, u := 0, t[1..];
      assert t == "=" + u;
    } else if t[0] == '!' {
      mark, u := 1, t[2..];
      assert t == "!=" + u;
    } else if Keyword(t, "in") {
      mark, u := 2, t[2..];
      assert t[..2] == "in" && t == "in" + u;
      assert t[0] == 'i';
    } else {
      mark, u := 3, t[5..];
      assert t[..5] == "notin" && t == "notin" + u;
      assert t[0] == 'n';
    }
  }

  /** What an operator after a key was written as. */
  lemma TailFound(dns: string -> bool, key: string, s: string) returns (x: Syntax)
    requires KeyOk(dns, key) && EndsKey(s)
    requires OperatorTail(ParseTag(dns, key).value, s).Ok? && OperatorTail(ParseTag(dns, key).value, s).value.0.Some?
    ensures var r := OperatorTail(ParseTag(dns, key).value, s).value;
            && (x.Compare? || x.Member?) && x.key == key && SyntaxOk(dns, x) && r.0 == Some(Meaning(dns, x))
            && MayFollow(x, r.1) && s == TailText(x) + r.1
  {
    var tag := ParseTag(dns, key).value;
    var before := SpaceFound(s);
    var mark, u := OperatorFound(tag, s);
    assert before == "" ==> s == SkipWhitespace(s);
    hide KeyOk, ParseTag, OperatorTail, SkipWhitespace, ParseValue, SetPredicate, OperatorText, SetWord, TailText,
         SyntaxOk, MayFollow, Meaning, White, KeyStop;
    if mark < 2 {
      x := CompareFound(dns, key, before, mark == 0, u);
    } else {
      x := MemberFound(dns, key, before, mark == 2, u);
    }
  }

  lemma NoOperatorAt(key: Tag, s: string)
    requires OperatorTail(key, s).Ok? && OperatorTail(key, s).value.0.None?
    ensures OperatorTail(key, s).value.1 == s && !Operator(SkipWhitespace(s))
  {
    hide SkipWhitespace, ParseValue;
  }

  lemma NoOperatorFound(key: Tag, s: string)
    requires OperatorTail(key, s).Ok? && OperatorTail(key, s).value.0.None?
    ensures OperatorTail(key, s).value.1 == s && !GoesOn(s)
  {
    NoOperatorAt(key, s);
    hide OperatorTail, SkipWhitespace, Operator, White;
    if GoesOn(s) {
      var k :| 0 <= k <= |s| && White(s[..k]) && Operator(s[k..]);
      OperatorStart(s[k..]);
      assert s == s[..k] + s[k..];
      SpaceRead(s[..k], s[k..]);
    }
  }

  lemma OperatorStart(s: string)
    requires Operator(s)
    ensures s != "" && !IsWhitespace(s[0])
  {
    if "=" <= s {
      assert s[0] == '=';
    } else if "!=" <= s {
      assert s[0] == '!';
    } else if Word(s, "in") {
      assert s[0] == 'i';
    } else {
      assert s[0] == 'n';
    }
  }

  /** Whatever is read as a predicate was a spelling of it. */
  lemma SyntaxFound(dns: string -> bool, s: string) returns (x: Syntax)
    requires s != "" && ParsePredicate(dns, s).Ok?
    ensures var r := ParsePredicate(dns, s).value;
            SyntaxOk(dns, x) && Meaning(dns, x) == r.0 && MayFollow(x, r.1) && s == SyntaxText(x) + r.1
  {
    hide ParseKey, KeyOk, OperatorTail, ParseTag, TailText, MayFollow, Meaning;
    if s[0] == '!' {
      x := LacksFound(dns, s);
    } else {
      var key := KeyFound(dns, s);
      var u := ParseKey(dns, s).value.1;
      x := AfterKeyFound(dns, key, u);
      assert s == key + u;
      hide SyntaxText;
    }
  }

  lemma LacksFound(dns: string -> bool, s: string) returns (x: Syntax)
    requires s != "" && s[0] == '!' && ParsePredicate(dns, s).Ok?
    ensures var r := ParsePredicate(dns, s).value;
            SyntaxOk(dns, x) && Meaning(dns, x) == r.0 && MayFollow(x, r.1) && s == SyntaxText(x) + r.1
  {
    var key := KeyFound(dns, s[1..]);
    var rest := ParseKey(dns, s[1..]).value.1;
    x := Lacks(key);
    hide ParseKey, KeyOk;
    assert s == "!" + s[1..] && ("!" + key) + rest == "!" + (key + rest);
  }

  lemma AfterKeyFound(dns: string -> bool, key: string, u: string) returns (x: Syntax)
    requires KeyOk(dns, key) && EndsKey(u) && OperatorTail(ParseTag(dns, key).value, u).Ok?
    ensures var tag := ParseTag(dns, key).value;
            var r := OperatorTail(tag, u).value;
            && SyntaxOk(dns, x) && MayFollow(x, r.1) && key + u == SyntaxText(x) + r.1
            && Meaning(dns, x) == if r.0.Some? then r.0.value else Exists(tag)
  {
    var tag := ParseTag(dns, key).value;
    hide KeyOk, OperatorTail, ParseTag, TailText, GoesOn;
    if OperatorTail(tag, u).value.0.Some? {
      x := TailFound(dns, key, u);
      TailSplits(x, OperatorTail(tag, u).value.1);
    } else {
      NoOperatorFound(tag, u);
      x := Has(key);
    }
  }

  // ---- Whole selectors ----

  /** A predicate with the space before it. */
  datatype Part = Part(gap: string, syntax: Syntax)

  function StreamText(parts: seq<Part>, end: string): string
  {
    if parts == [] then end else parts[0].gap + (SyntaxText(parts[0].syntax) + StreamText(parts[1..], end))
  }

  /** Space between the predicates wherever one could otherwise run into the next. */
  ghost predicate StreamOk(dns: string -> bool, parts: seq<Part>, end: string)
  {
    if parts == [] then White(end)
    else
      && White(parts[0].gap) && SyntaxOk(dns, parts[0].syntax)
      && MayFollow(parts[0].syntax, StreamText(parts[1..], end))
      && StreamOk(dns, parts[1..], end)
  }

  ghost function Meanings(dns: string -> bool, parts: seq<Part>, end: string): (ps: seq<Predicate>)
    requires StreamOk(dns, parts, end)
    ensures |ps| == |parts|
  {
    if parts == [] then [] else [Meaning(dns, parts[0].syntax)] + Meanings(dns, parts[1..], end)
  }

  lemma SyntaxStart(dns: string -> bool, x: Syntax, u: string)
    requires SyntaxOk(dns, x)
    ensures SyntaxText(x) + u != "" && !IsWhitespace((SyntaxText(x) + u)[0])
  {
    hide KeyOk, TailText, ValueOk, ItemOk;
    KeyNonempty(dns, x.key);
    assert (SyntaxText(x) + u)[0] == if x.Lacks? then '!' else x.key[0];
  }

  lemma {:induction false} StreamRead(dns: string -> bool, parts: seq<Part>, end: string, bounded: bool, n: nat)
    requires StreamOk(dns, parts, end) && (bounded ==> n + |parts| <= SELECTOR_MAX_PREDICATES)
    ensures ParseStream(dns, StreamText(parts, end), bounded, n) == Ok(Meanings(dns, parts, end))
  {
    hide SyntaxOk, MayFollow, SyntaxText, Meaning, White, ParsePredicate, SkipWhitespace;
    if parts == [] {
      assert end + "" == end;
      SpaceRead(end, "");
    } else {
      var x, u := parts[0].syntax, StreamText(parts[1..], end);
      SyntaxStart(dns, x, u);
      SpaceRead(parts[0].gap, SyntaxText(x) + u);
      SyntaxRead(dns, x, u);
      StreamRead(dns, parts[1..], end, bounded, n + 1);
    }
  }

  lemma {:induction false} StreamFound(dns: string -> bool, s: string, bounded: bool, n: nat)
    returns (parts: seq<Part>, end: string)
    requires ParseStream(dns, s, bounded, n).Ok?
    ensures StreamOk(dns, parts, end) && s == StreamText(parts, end)
    ensures Meanings(dns, parts, end) == ParseStream(dns, s, bounded, n).value
    ensures bounded && n <= SELECTOR_MAX_PREDICATES ==> n + |parts| <= SELECTOR_MAX_PREDICATES
    decreases |s|
  {
    hide SyntaxOk, MayFollow, SyntaxText, Meaning, White, ParsePredicate, SkipWhitespace;
    var gap := SpaceFound(s);
    var t := SkipWhitespace(s);
    if t == "" {
      parts, end := [], s;
      assert gap + t == gap;
    } else {
      var x := SyntaxFound(dns, t);
      var u := ParsePredicate(dns, t).value.1;
      var more;
      more, end := StreamFound(dns, u, bounded, n + 1);
      parts := [Part(gap, x)] + more;
      assert parts[1..] == more;
    }
  }

  /** The written selector: its text, its predicates, and the bounds. */
  ghost predicate Spells(dns: string -> bool, input: string, parts: seq<Part>, end: string)
  {
    && StreamOk(dns, parts, end) && input == StreamText(parts, end)
    && 1 <= |parts| <= SELECTOR_MAX_PREDICATES && ByteLength(input) <= SELECTOR_INPUT_MAX_BYTES
  }

  /** Exactly the written selectors whose canonical text fits the bound are accepted. */
  lemma AcceptedExactly(dns: string -> bool, input: string)
    requires FoldsCase(dns)
    ensures Parse(dns, input).Ok? <==>
            exists parts, end :: Spells(dns, input, parts, end) &&
              ByteLength(CanonicalText(Meanings(dns, parts, end))) <= SELECTOR_INPUT_MAX_BYTES
  {
    RoundTrip.ReparseNeverFails(dns, input);
    hide Parse, ParseStream, CanonicalText, ByteLength, StreamOk, StreamText, Meanings;
    if Parse(dns, input).Ok? {
      var parts, end := StreamFound(dns, input, true, 0);
      assert Spells(dns, input, parts, end);
    }
    forall parts, end | Spells(dns, input, parts, end) &&
        ByteLength(CanonicalText(Meanings(dns, parts, end))) <= SELECTOR_INPUT_MAX_BYTES
      ensures Parse(dns, input).Ok?
    {
      StreamRead(dns, parts, end, true, 0);
      SpelledNonempty(dns, parts, end);
    }
  }

  lemma SpelledNonempty(dns: string -> bool, parts: seq<Part>, end: string)
    requires StreamOk(dns, parts, end) && parts != []
    ensures StreamText(parts, end) != ""
  {
    hide SyntaxOk, MayFollow, SyntaxText;
    SyntaxStart(dns, parts[0].syntax, StreamText(parts[1..], end));
  }

  /** A selector means what was written: under every lookup the stored predicates match exactly when the
      meanings of the written ones do. */
  lemma WrittenMeaning(dns: string -> bool, input: string, parts: seq<Part>, end: string, lookup: Lookup)
    requires FoldsCase(dns) && Spells(dns, input, parts, end) && Parse(dns, input).Ok?
    ensures MatchesAll(Parse(dns, input).value.predicates, lookup) <==> MatchesAll(Meanings(dns, parts, end), lookup)
  {
    hide Parse, ParseStream, MatchesAll, StreamOk, Meanings, ByteLength;
    StreamRead(dns, parts, end, true, 0);
    RoundTrip.CanonicalMeaning(dns, input, lookup);
  }

  // ---- The canonical spelling ----

  /** Escaped where it must be, plain otherwise. */
  function CanonicalWritten(value: string): (v: seq<Written>)
    ensures |v| == |value|
  {
    seq(|value|, i requires 0 <= i < |value| => if Special(value[i]) then Escaped(value[i]) else Plain(value[i]))
  }

  function CanonicalItems(values: seq<string>): (items: seq<Item>)
    ensures |items| == |values|
  {
    seq(|values|, i requires 0 <= i < |values| => Item("", CanonicalWritten(values[i]), ""))
  }

  /** No space but one on either side of a set word, and the members of a set sorted and distinct. */
  function CanonicalSyntax(p: Predicate): Syntax
  {
    var key := TagText(p.key);
    match p
    case Exists(_) => Has(key)
    case NotExists(_) => Lacks(key)
    case Equals(_, value) => Compare(key, "", true, "", CanonicalWritten(value))
    case NotEquals(_, value) => Compare(key, "", false, "", CanonicalWritten(value))
    case In(_, values) => Member(key, " ", true, " ", CanonicalItems(SortDedup(values)))
    case NotIn(_, values) => Member(key, " ", false, " ", CanonicalItems(SortDedup(values)))
  }

  lemma {:induction false} EscapeIsCanonical(value: string)
    requires RoundTrip.Clean(value)
    ensures ValueText(CanonicalWritten(value)) == Escape(value)
  {
    if value != "" {
      var v := CanonicalWritten(value);
      assert v == [v[0]] + CanonicalWritten(value[1..]);
      ValueTextStep(v[0], CanonicalWritten(value[1..]));
      EscapeIsCanonical(value[1..]);
      hide ValueText;
      assert WrittenText(v[0]) == EscapeChar(value[0]);
    }
  }

  lemma BareItem(none: string, text: string, mark: string, more: string)
    requires none == ""
    ensures none + (text + (none + (mark + (more + none)))) == (text + mark) + more
  {
  }

  lemma {:induction false} ItemsAreCanonical(values: seq<string>)
    requires RoundTrip.ValuesOk(values) && values != []
    ensures ItemsText(CanonicalItems(values)) == Join(EscapeAll(values), ",") + ")"
  {
    var items := CanonicalItems(values);
    EscapeIsCanonical(values[0]);
    assert ItemsText(items) + "" == ItemsText(items);
    if |values| == 1 {
      LastItemText(items, "");
      assert Join(EscapeAll(values), ",") == Escape(values[0]);
      hide ValueText, Escape, ItemsText, Join;
      BareItem("", Escape(values[0]), ")", "");
      assert ")" + "" == ")" + ("" + "") && (Escape(values[0]) + ")") + "" == Escape(values[0]) + ")";
    } else {
      assert items[1..] == CanonicalItems(values[1..]);
      ItemsAreCanonical(values[1..]);
      FirstItemText(items, "");
      var more := Join(EscapeAll(values[1..]), ",");
      assert EscapeAll(values)[1..] == EscapeAll(values[1..]);
      assert Join(EscapeAll(values), ",") == Escape(values[0]) + "," + more;
      hide ValueText, Escape, ItemsText, Join;
      BareItem("", Escape(values[0]), ",", more + ")");
      Assoc(Escape(values[0]) + ",", more, ")");
    }
  }

  lemma Assoc(a: string, b: string, c: string)
    ensures a + (b + c) == (a + b) + c
  {
  }

  lemma BareTail(none: string, operator: string, text: string)
    requires none == ""
    ensures none + (operator + (none + text)) == operator + text
  {
  }

  /** The canonical text of a predicate is this spelling of it. */
  lemma CanonicalSpelling(dns: string -> bool, p: Predicate)
    requires RoundTrip.PredicateOk(dns, p)
    ensures Canonical(p) == SyntaxText(CanonicalSyntax(p))
  {
    hide KeyTag, CanonicalTail, TailText, TagText, CanonicalWritten, CanonicalItems, SortDedup, ByteLength;
    if p.Equals? || p.NotEquals? {
      CompareTail(p);
    } else if p.In? || p.NotIn? {
      SetTail(p);
    }
  }

  lemma CompareTail(p: Predicate)
    requires (p.Equals? || p.NotEquals?) && RoundTrip.Clean(p.value)
    ensures CanonicalTail(p) == TailText(CanonicalSyntax(p))
  {
    EscapeIsCanonical(p.value);
    hide Escape, ValueText, TagText, CanonicalWritten;
    BareTail("", OperatorText(p.Equals?), Escape(p.value));
  }

  lemma SetTail(p: Predicate)
    requires (p.In? || p.NotIn?) && RoundTrip.ValuesOk(p.values) && 1 <= |p.values| <= SELECTOR_MAX_SET_VALUES
    ensures CanonicalTail(p) == TailText(CanonicalSyntax(p))
  {
    hide ItemsText, CanonicalSet, TagText, SetWord, CanonicalItems, SortDedup;
    SetIsCanonical(p.values, p.In?);
  }

  lemma SetShape(space: string, word: string, open: string, items: string, before: string, list: string, close: string)
    requires items == list + close && before == space + (word + (space + open))
    ensures space + (word + (space + (open + items))) == before + list + close
  {
  }

  lemma SetWordText(positive: bool)
    ensures (if positive then " in (" else " notin (") == " " + (SetWord(positive) + (" " + "("))
  {
  }

  lemma SetIsCanonical(values: seq<string>, positive: bool)
    requires RoundTrip.ValuesOk(values) && 1 <= |values| <= SELECTOR_MAX_SET_VALUES
    ensures " " + (SetWord(positive) + (" " + ("(" + ItemsText(CanonicalItems(SortDedup(values)))))) ==
            (if positive then " in (" else " notin (") + CanonicalSet(values) + ")"
  {
    RoundTrip.SortedValuesOk(values);
    ItemsAreCanonical(SortDedup(values));
    SetWordText(positive);
    var items, list := ItemsText(CanonicalItems(SortDedup(values))), CanonicalSet(values);
    assert items == list + ")";
    hide *;
    SetShape(" ", SetWord(positive), "(", items, if positive then " in (" else " notin (", list, ")");
  }
}
