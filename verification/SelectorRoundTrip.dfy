/**
 The canonical text of a selector is a fixed point of parsing, and canonicalizing preserves what the
 selector matches.
 */
module SelectorRoundTrip {
  import opened Wrappers
  import opened Text
  import opened Collections
  import opened SelectorTag
  import opened SelectorGrammar

  // ---- Values ----

  /** No whitespace but the four characters that have an escape. */
  predicate Clean(value: string)
  {
    forall i :: 0 <= i < |value| ==> IsWhitespace(value[i]) ==> value[i] in {' ', '\t', '\n', '\r'}
  }

  predicate ValueOk(value: string)
  {
    Clean(value) && ValueBounds(value)
  }

  predicate StopsValue(rest: string, inList: bool)
  {
    rest == "" || IsWhitespace(rest[0]) || (inList && (rest[0] == ',' || rest[0] == ')'))
  }

  /** Every value the parser reads is clean. */
  lemma {:induction false} ScanValueClean(s: string, inList: bool)
    requires ScanValue(s, inList).Ok?
    ensures Clean(ScanValue(s, inList).value.0)
    decreases |s|
  {
    if s == [] || IsWhitespace(s[0]) || (inList && (s[0] == ',' || s[0] == ')')) {
    } else if s[0] == '\\' {
      ScanValueClean(s[2..], inList);
    } else {
      ScanValueClean(s[1..], inList);
    }
  }

  /** One escaped character is read back as that character. */
  lemma ScanEscapedChar(c: char, rest: string, inList: bool)
    requires Clean([c])
    ensures ScanValue(EscapeChar(c) + rest, inList) == Prepend(c, ScanValue(rest, inList))
  {
    var s := EscapeChar(c) + rest;
    assert [c][0] == c;
    if |EscapeChar(c)| == 2 {
      assert s[2..] == rest;
    } else {
      assert s[1..] == rest;
    }
  }

  /** Escaping and value parsing undo each other. */
  lemma {:induction false} ScanEscaped(value: string, rest: string, inList: bool)
    requires Clean(value) && StopsValue(rest, inList)
    ensures ScanValue(Escape(value) + rest, inList) == Ok((value, rest))
  {
    if value == [] {
      assert Escape(value) + rest == rest;
    } else {
      var more := Escape(value[1..]) + rest;
      assert Escape(value) + rest == EscapeChar(value[0]) + more;
      assert Clean([value[0]]) && Clean(value[1..]);
      hide ScanValue, EscapeChar, Escape, Clean, StopsValue;
      ScanEscapedChar(value[0], more, inList);
      ScanEscaped(value[1..], rest, inList);
      assert value == [value[0]] + value[1..];
    }
  }

  lemma EscapedStart(value: string, rest: string)
    requires ValueOk(value)
    ensures SkipWhitespace(Escape(value) + rest) == Escape(value) + rest
  {
    assert Escape(value) == EscapeChar(value[0]) + Escape(value[1..]);
    assert (Escape(value) + rest)[0] == EscapeChar(value[0])[0];
  }

  lemma ParseEscaped(value: string, rest: string, inList: bool)
    requires ValueOk(value) && StopsValue(rest, inList)
    ensures ParseValue(SkipWhitespace(Escape(value) + rest), inList) == Ok((value, rest))
  {
    EscapedStart(value, rest);
    ScanEscaped(value, rest, inList);
  }

  predicate ValuesOk(values: seq<string>)
  {
    forall i :: 0 <= i < |values| ==> ValueOk(values[i])
  }

  lemma ParsePrintedItem(value: string, closes: bool, rest: string)
    requires ValueOk(value)
    ensures ParseItem(Escape(value) + ((if closes then ")" else ",") + rest)) == Ok((value, closes, rest))
  {
    hide Escape, ParseValue, ValueOk;
    var after := (if closes then ")" else ",") + rest;
    ParseEscaped(value, after, true);
    SkipNothing(after);
    assert after[1..] == rest;
  }

  /** A printed set is read back item by item. */
  lemma {:induction false} ParsePrintedItems(values: seq<string>, rest: string, n: nat)
    requires ValuesOk(values) && values != [] && n + |values| <= SELECTOR_MAX_SET_VALUES
    ensures ParseItems(Join(EscapeAll(values), ",") + ")" + rest, n) == Ok((values, rest))
    decreases |values|
  {
    hide Escape, ParseItem, ValueOk;
    var s := Join(EscapeAll(values), ",") + ")" + rest;
    if |values| == 1 {
      assert s == Escape(values[0]) + (")" + rest);
      ParsePrintedItem(values[0], true, rest);
      assert values == [values[0]];
    } else {
      var more := Join(EscapeAll(values[1..]), ",") + ")" + rest;
      assert EscapeAll(values)[1..] == EscapeAll(values[1..]);
      assert s == Escape(values[0]) + ("," + more);
      ParsePrintedItem(values[0], false, more);
      ParsePrintedItems(values[1..], rest, n + 1);
      assert values == [values[0]] + values[1..];
    }
  }

  lemma SkipNothing(s: string)
    requires s != "" && !IsWhitespace(s[0])
    ensures SkipWhitespace(s) == s
  {
  }

  lemma SkipOne(s: string)
    ensures SkipWhitespace(" " + s) == SkipWhitespace(s)
  {
    assert (" " + s)[1..] == s;
  }

  lemma {:induction false} ParseItemsOk(s: string, n: nat)
    requires ParseItems(s, n).Ok?
    ensures ValuesOk(ParseItems(s, n).value.0)
    decreases |s|
  {
    hide ScanValue;
    ScanValueClean(SkipWhitespace(s), true);
    var item := ParseItem(s);
    if !item.value.1 {
      ParseItemsOk(item.value.2, n + 1);
    }
  }

  // ---- Keys ----

  lemma {:induction false} KeySpanOf(text: string, rest: string)
    requires NoStops(text) && (rest == "" || KeyStop(rest[0]))
    ensures KeySpan(text + rest) == |text|
  {
    hide KeyStop;
    if text == "" {
      assert text + rest == rest;
    } else {
      assert (text + rest)[1..] == text[1..] + rest;
      KeySpanOf(text[1..], rest);
    }
  }

  lemma ParseKeyText(dns: string -> bool, t: Tag, rest: string)
    requires KeyTag(dns, t) && (rest == "" || KeyStop(rest[0]))
    ensures ParseKey(dns, TagText(t) + rest) == Ok((t, rest))
  {
    hide ParseTag, TagText, KeyStop, InKeySpace;
    var text := TagText(t);
    KeySpanOf(text, rest);
    assert (text + rest)[..|text|] == text && (text + rest)[|text|..] == rest;
  }

  lemma ParseKeyOk(dns: string -> bool, s: string)
    requires FoldsCase(dns) && ParseKey(dns, s).Ok?
    ensures KeyTag(dns, ParseKey(dns, s).value.0)
  {
    ParsedKeyIsKeyTag(dns, s[..KeySpan(s)]);
  }

  // ---- Predicates ----

  /** A predicate as the parser produces it. */
  predicate PredicateOk(dns: string -> bool, p: Predicate)
  {
    KeyTag(dns, p.key) &&
    match p
    case Exists(_) => true
    case NotExists(_) => true
    case Equals(_, value) => ValueOk(value)
    case NotEquals(_, value) => ValueOk(value)
    case In(_, values) => ValuesOk(values) && 1 <= |values| <= SELECTOR_MAX_SET_VALUES
    case NotIn(_, values) => ValuesOk(values) && 1 <= |values| <= SELECTOR_MAX_SET_VALUES
  }

  /** Set members in canonical order, without duplicates. */
  function Normal(p: Predicate): Predicate
  {
    match p
    case In(key, values) => In(key, SortDedup(values))
    case NotIn(key, values) => NotIn(key, SortDedup(values))
    case _ => p
  }

  lemma NormalMatches(p: Predicate, lookup: Lookup)
    ensures Matches(Normal(p), lookup) == Matches(p, lookup)
  {
    if p.In? || p.NotIn? {
      SortDedupCorrect(p.values);
    }
  }

  lemma NormalCanonical(p: Predicate)
    ensures Canonical(Normal(p)) == Canonical(p)
  {
    if p.In? || p.NotIn? {
      SortDedupCorrect(p.values);
      SortDedupFixed(SortDedup(p.values));
    }
  }

  lemma OperatorTailOk(dns: string -> bool, key: Tag, s: string)
    requires KeyTag(dns, key) && OperatorTail(key, s).Ok? && OperatorTail(key, s).value.0.Some?
    ensures PredicateOk(dns, OperatorTail(key, s).value.0.value)
  {
    hide ScanValue, KeyTag, SkipWhitespace;
    var t := SkipWhitespace(s);
    if t != [] && t[0] == '=' {
      ScanValueClean(SkipWhitespace(t[1..]), false);
    } else if t != [] && t[0] == '!' {
      ScanValueClean(SkipWhitespace(t[2..]), false);
    } else if Keyword(t, "in") {
      ParseItemsOk(SkipWhitespace(t[2..])[1..], 0);
    } else {
      ParseItemsOk(SkipWhitespace(t[5..])[1..], 0);
    }
  }

  lemma {:induction false} ParseStreamOk(dns: string -> bool, s: string, bounded: bool, n: nat)
    requires FoldsCase(dns) && ParseStream(dns, s, bounded, n).Ok?
    ensures forall i :: 0 <= i < |ParseStream(dns, s, bounded, n).value| ==>
      PredicateOk(dns, ParseStream(dns, s, bounded, n).value[i])
    ensures bounded && n <= SELECTOR_MAX_PREDICATES ==>
      n + |ParseStream(dns, s, bounded, n).value| <= SELECTOR_MAX_PREDICATES
    decreases |s|
  {
    hide KeyTag, OperatorTail, ParseKey;
    var t := SkipWhitespace(s);
    if t != [] {
      if t[0] == '!' {
        ParseKeyOk(dns, t[1..]);
      } else {
        ParseKeyOk(dns, t);
        var key := ParseKey(dns, t).value;
        if OperatorTail(key.0, key.1).value.0.Some? {
          OperatorTailOk(dns, key.0, key.1);
        }
      }
      ParseStreamOk(dns, ParsePredicate(dns, t).value.1, bounded, n + 1);
    }
  }

  // ---- Reading one printed predicate ----

  /** What may begin the next predicate without being taken for an operator of the previous key. */
  predicate SafeStart(u: string)
  {
    && u != "" && !IsWhitespace(u[0]) && u[0] != '='
    && (u[0] == '!' ==> |u| >= 2 && u[1] != '=')
    && !Keyword(u, "in") && !Keyword(u, "notin")
  }

  predicate Separated(rest: string)
  {
    rest == "" || (rest[0] == ' ' && SafeStart(rest[1..]))
  }

  lemma KeyIsSafeStart(dns: string -> bool, t: Tag, rest: string)
    requires KeyTag(dns, t)
    ensures SafeStart(TagText(t) + rest) && TagText(t) != "" && !KeyStop(TagText(t)[0])
  {
    KeyTextShape(dns, t);
    var text := TagText(t);
    assert NoStops(text);
    hide ParseTag, TagText, InKeySpace, KeyTag, Keyword;
    assert (text + rest)[0] == text[0] && !KeyStop(text[0]);
    NotKeyword(text, rest, "in");
    NotKeyword(text, rest, "notin");
  }

  /** A text free of delimiters is no keyword, unless it is that word itself. */
  lemma NotKeyword(text: string, rest: string, word: string)
    requires NoStops(text) && |word| <= |text| && text != word
    ensures !Keyword(text + rest, word)
  {
    var u := text + rest;
    if |text| == |word| {
      assert u[..|word|] == text;
    } else {
      assert u[|word|] == text[|word|] && !KeyStop(text[|word|]);
    }
  }

  lemma BangIsSafeStart(text: string, rest: string)
    requires text != "" && !KeyStop(text[0])
    ensures SafeStart("!" + text + rest)
  {
    assert ("!" + text + rest)[1] == text[0];
  }

  lemma CanonicalIsSafeStart(dns: string -> bool, p: Predicate, rest: string)
    requires PredicateOk(dns, p)
    ensures SafeStart(Canonical(p) + rest)
  {
    var text := TagText(p.key);
    hide KeyTag, TagText, CanonicalTail, Keyword;
    if p.Exists? {
      KeyIsSafeStart(dns, p.key, rest);
    } else if p.NotExists? {
      KeyIsSafeStart(dns, p.key, rest);
      BangIsSafeStart(text, rest);
    } else {
      KeyIsSafeStart(dns, p.key, CanonicalTail(p) + rest);
      assert Canonical(p) + rest == text + (CanonicalTail(p) + rest);
    }
  }

  lemma NoTail(key: Tag, rest: string)
    requires Separated(rest)
    ensures OperatorTail(key, rest) == Ok((None, rest))
  {
    if rest != "" {
      var u := rest[1..];
      assert rest == " " + u;
      SkipOne(u);
      SkipNothing(u);
    }
  }

  lemma SeparatedStops(rest: string, inList: bool)
    requires Separated(rest)
    ensures StopsValue(rest, inList) && (rest == "" || KeyStop(rest[0]))
  {
  }

  lemma EqualsTail(key: Tag, value: string, rest: string)
    requires ValueOk(value) && Separated(rest)
    ensures OperatorTail(key, "=" + Escape(value) + rest) == Ok((Some(Equals(key, value)), rest))
    ensures OperatorTail(key, "!=" + Escape(value) + rest) == Ok((Some(NotEquals(key, value)), rest))
  {
    hide Escape, ValueOk, ParseValue, SafeStart;
    SeparatedStops(rest, false);
    ParseEscaped(value, rest, false);
    var s := "=" + Escape(value) + rest;
    SkipNothing(s);
    assert s[1..] == Escape(value) + rest;
    var t := "!=" + Escape(value) + rest;
    SkipNothing(t);
    assert t[2..] == Escape(value) + rest;
  }

  lemma SortedValuesOk(values: seq<string>)
    requires ValuesOk(values) && 1 <= |values| <= SELECTOR_MAX_SET_VALUES
    ensures ValuesOk(SortDedup(values)) && 1 <= |SortDedup(values)| <= SELECTOR_MAX_SET_VALUES
  {
    hide ValueOk;
    SortDedupCorrect(values);
    var sorted := SortDedup(values);
    forall i | 0 <= i < |sorted| ensures ValueOk(sorted[i]) {
      assert sorted[i] in values;
    }
  }

  lemma Regroup(a: string, b: string, c: string, d: string)
    ensures a + b + c + d == a + (b + c + d)
  {
  }

  lemma SetBody(key: Tag, values: seq<string>, body: string, rest: string, positive: bool)
    requires ParseItems(body, 0) == Ok((values, rest))
    ensures SetPredicate(key, " (" + body, positive) ==
            Ok((Some(if positive then In(key, values) else NotIn(key, values)), rest))
  {
    hide ParseItems;
    var open := "(" + body;
    assert " (" + body == " " + open;
    SkipOne(open);
    SkipNothing(open);
    assert open[1..] == body;
  }

  lemma SetTail(key: Tag, values: seq<string>, rest: string)
    requires ValuesOk(values) && 1 <= |values| <= SELECTOR_MAX_SET_VALUES
    ensures OperatorTail(key, " in (" + CanonicalSet(values) + ")" + rest) ==
            Ok((Some(In(key, SortDedup(values))), rest))
    ensures OperatorTail(key, " notin (" + CanonicalSet(values) + ")" + rest) ==
            Ok((Some(NotIn(key, SortDedup(values))), rest))
  {
    SortedValuesOk(values);
    ParsePrintedItems(SortDedup(values), rest, 0);
    var text := CanonicalSet(values);
    hide ValuesOk, SortDedup, CanonicalSet, SetPredicate, OperatorTail, ParseItems, Join, EscapeAll;
    var body := text + ")" + rest;
    SetBody(key, SortDedup(values), body, rest, true);
    SetBody(key, SortDedup(values), body, rest, false);
    KeywordTail(key, body);
    Regroup(" in (", text, ")", rest);
    Regroup(" notin (", text, ")", rest);
  }

  lemma KeywordTail(key: Tag, body: string)
    ensures OperatorTail(key, " in (" + body) == SetPredicate(key, " (" + body, true)
    ensures OperatorTail(key, " notin (" + body) == SetPredicate(key, " (" + body, false)
  {
    hide SetPredicate;
    var open := " (" + body;
    var t := "in" + open;
    assert " in (" + body == " " + t;
    SkipOne(t);
    SkipNothing(t);
    assert t[..2] == "in" && t[2..] == open && t[2] == ' ';
    var u := "notin" + open;
    assert " notin (" + body == " " + u;
    SkipOne(u);
    SkipNothing(u);
    assert u[..5] == "notin" && u[5..] == open && u[5] == ' ';
  }

  /** A printed predicate, followed by nothing or by another one, is read back in normal form. */
  lemma ParsePrinted(dns: string -> bool, p: Predicate, rest: string)
    requires PredicateOk(dns, p) && Separated(rest)
    ensures ParsePredicate(dns, Canonical(p) + rest) == Ok((Normal(p), rest))
  {
    hide KeyTag, TagText, SafeStart, OperatorTail, KeyStop, ParsePredicate, ValueOk, ValuesOk, SortDedup, CanonicalTail;
    if p.Exists? {
      PrintedExists(dns, p.key, rest);
    } else if p.NotExists? {
      SeparatedStops(rest, false);
      PrintedNotExists(dns, p.key, rest);
    } else {
      TailParses(dns, p, rest);
      PrintedTail(dns, p.key, CanonicalTail(p), rest, Normal(p));
    }
  }

  lemma PrintedExists(dns: string -> bool, key: Tag, rest: string)
    requires KeyTag(dns, key) && Separated(rest)
    ensures ParsePredicate(dns, Canonical(Exists(key)) + rest) == Ok((Exists(key), rest))
  {
    KeyIsSafeStart(dns, key, "");
    SeparatedStops(rest, false);
    hide KeyTag, TagText, SafeStart, OperatorTail, KeyStop, ParseKey;
    ParseKeyText(dns, key, rest);
    NoTail(key, rest);
    assert (TagText(key) + rest)[0] == TagText(key)[0];
  }

  lemma BangPredicate(dns: string -> bool, s: string, key: Tag, rest: string)
    requires ParseKey(dns, s) == Ok((key, rest))
    ensures ParsePredicate(dns, "!" + s) == Ok((NotExists(key), rest))
  {
    hide ParseKey;
    assert ("!" + s)[1..] == s;
  }

  lemma PrintedNotExists(dns: string -> bool, key: Tag, rest: string)
    requires KeyTag(dns, key) && (rest == "" || KeyStop(rest[0]))
    ensures ParsePredicate(dns, Canonical(NotExists(key)) + rest) == Ok((NotExists(key), rest))
  {
    hide KeyTag, TagText, SafeStart, OperatorTail, KeyStop, ParseKey, ParsePredicate;
    ParseKeyText(dns, key, rest);
    var text := TagText(key);
    BangPredicate(dns, text + rest, key, rest);
    assert "!" + text + rest == "!" + (text + rest);
  }

  lemma TailParses(dns: string -> bool, p: Predicate, rest: string)
    requires PredicateOk(dns, p) && Separated(rest) && !p.Exists? && !p.NotExists?
    ensures OperatorTail(p.key, CanonicalTail(p) + rest) == Ok((Some(Normal(p)), rest))
    ensures CanonicalTail(p) != "" && KeyStop(CanonicalTail(p)[0])
  {
    hide KeyTag, SafeStart, OperatorTail, SortDedup, CanonicalSet, Escape, ValueOk, ValuesOk;
    match p
    case Equals(key, value) => EqualsTail(key, value, rest);
    case NotEquals(key, value) => EqualsTail(key, value, rest);
    case In(key, values) => SetTail(key, values, rest);
    case NotIn(key, values) => SetTail(key, values, rest);
  }

  lemma PrintedTail(dns: string -> bool, key: Tag, tail: string, rest: string, p: Predicate)
    requires KeyTag(dns, key) && tail != "" && KeyStop(tail[0])
    requires OperatorTail(key, tail + rest) == Ok((Some(p), rest))
    ensures ParsePredicate(dns, TagText(key) + tail + rest) == Ok((p, rest))
  {
    KeyIsSafeStart(dns, key, "");
    hide KeyTag, TagText, SafeStart, OperatorTail, KeyStop;
    var s := TagText(key) + tail + rest;
    assert s == TagText(key) + (tail + rest);
    assert (tail + rest)[0] == tail[0] && s[0] == TagText(key)[0];
    ParseKeyText(dns, key, tail + rest);
  }

  // ---- Reading the whole canonical text ----

  ghost predicate Printed(dns: string -> bool, text: string)
  {
    exists p :: PredicateOk(dns, p) && Canonical(p) == text
  }

  /** The predicate a printed text stands for. */
  ghost function ReadText(dns: string -> bool, text: string): Predicate
    requires Printed(dns, text)
  {
    var p :| PredicateOk(dns, p) && Canonical(p) == text;
    Normal(p)
  }

  ghost predicate AllPrinted(dns: string -> bool, texts: seq<string>)
  {
    forall i :: 0 <= i < |texts| ==> Printed(dns, texts[i])
  }

  ghost function ReadAll(dns: string -> bool, texts: seq<string>): (ps: seq<Predicate>)
    requires AllPrinted(dns, texts)
    ensures |ps| == |texts| && forall i :: 0 <= i < |texts| ==> ps[i] == ReadText(dns, texts[i])
  {
    seq(|texts|, i requires 0 <= i < |texts| => ReadText(dns, texts[i]))
  }

  /** The text of a predicate determines it, up to the order of set members. */
  lemma ReadTextIs(dns: string -> bool, p: Predicate)
    requires PredicateOk(dns, p)
    ensures ReadText(dns, Canonical(p)) == Normal(p)
  {
    hide PredicateOk, Canonical, ParsePredicate, Normal, Separated;
    assert Printed(dns, Canonical(p));
    var q :| PredicateOk(dns, q) && Canonical(q) == Canonical(p) && ReadText(dns, Canonical(p)) == Normal(q);
    EmptySeparated();
    ParsePrinted(dns, p, "");
    ParsePrinted(dns, q, "");
  }

  lemma EmptySeparated()
    ensures Separated("")
  {
  }

  lemma PrintedStart(dns: string -> bool, text: string, rest: string)
    requires Printed(dns, text)
    ensures SafeStart(text + rest)
  {
    var p :| PredicateOk(dns, p) && Canonical(p) == text;
    CanonicalIsSafeStart(dns, p, rest);
  }

  lemma JoinedStart(dns: string -> bool, texts: seq<string>)
    requires AllPrinted(dns, texts) && texts != []
    ensures SafeStart(Join(texts, " "))
  {
    hide Printed, SafeStart;
    if |texts| == 1 {
      PrintedStart(dns, texts[0], "");
      assert texts[0] + "" == texts[0];
    } else {
      var more := " " + Join(texts[1..], " ");
      PrintedStart(dns, texts[0], more);
      assert Join(texts, " ") == texts[0] + more;
    }
  }

  lemma SkippedStream(dns: string -> bool, s: string, bounded: bool, n: nat)
    ensures ParseStream(dns, " " + s, bounded, n) == ParseStream(dns, s, bounded, n)
  {
    SkipOne(s);
  }

  lemma ParsePrintedText(dns: string -> bool, text: string, rest: string)
    requires Printed(dns, text) && Separated(rest)
    ensures text + rest != [] && ParsePredicate(dns, text + rest) == Ok((ReadText(dns, text), rest))
    ensures SkipWhitespace(text + rest) == text + rest
  {
    PrintedStart(dns, text, rest);
    SkipNothing(text + rest);
    hide PredicateOk, Canonical, ParsePredicate, Normal, Separated;
    var p :| PredicateOk(dns, p) && Canonical(p) == text && ReadText(dns, text) == Normal(p);
    ParsePrinted(dns, p, rest);
  }

  /** Joined predicates are split again at the same boundaries. */
  lemma {:induction false} ParseJoined(dns: string -> bool, texts: seq<string>, bounded: bool, n: nat)
    requires AllPrinted(dns, texts) && (bounded ==> n + |texts| <= SELECTOR_MAX_PREDICATES)
    ensures ParseStream(dns, Join(texts, " "), bounded, n) == Ok(ReadAll(dns, texts))
    decreases |texts|
  {
    hide Printed, ParsePredicate, SafeStart, SkipWhitespace, ReadText;
    if texts == [] {
    } else {
      var tail := texts[1..];
      var rest := if tail == [] then "" else " " + Join(tail, " ");
      assert Join(texts, " ") == texts[0] + rest;
      if tail != [] {
        JoinedStart(dns, tail);
        assert rest[1..] == Join(tail, " ");
        SkippedStream(dns, Join(tail, " "), bounded, n + 1);
      }
      ParsePrintedText(dns, texts[0], rest);
      ParseJoined(dns, tail, bounded, n + 1);
      assert ReadAll(dns, texts) == [ReadText(dns, texts[0])] + ReadAll(dns, tail);
    }
  }

  lemma ReadAllCanonical(dns: string -> bool, texts: seq<string>)
    requires AllPrinted(dns, texts)
    ensures CanonicalAll(ReadAll(dns, texts)) == texts
  {
    hide PredicateOk, Canonical, Normal;
    var ps := ReadAll(dns, texts);
    forall i | 0 <= i < |texts| ensures Canonical(ps[i]) == texts[i] {
      assert Printed(dns, texts[i]);
      var p :| PredicateOk(dns, p) && Canonical(p) == texts[i] && ReadText(dns, texts[i]) == Normal(p);
      NormalCanonical(p);
    }
  }

  lemma SortedTextsPrinted(dns: string -> bool, ps: seq<Predicate>)
    requires forall i :: 0 <= i < |ps| ==> PredicateOk(dns, ps[i])
    ensures AllPrinted(dns, SortDedup(CanonicalAll(ps)))
  {
    hide PredicateOk, Canonical;
    var all := CanonicalAll(ps);
    var texts := SortDedup(all);
    SortDedupCorrect(all);
    forall i | 0 <= i < |texts| ensures Printed(dns, texts[i]) {
      assert texts[i] in all;
      var j :| 0 <= j < |all| && all[j] == texts[i];
      assert PredicateOk(dns, ps[j]) && Canonical(ps[j]) == texts[i];
    }
  }

  /** The reparse of a canonical text cannot fail, and gives the sorted texts read back. */
  lemma Reparse(dns: string -> bool, input: string)
    requires FoldsCase(dns) && ParseStream(dns, input, true, 0).Ok?
    ensures var ps := ParseStream(dns, input, true, 0).value;
            var texts := SortDedup(CanonicalAll(ps));
            && AllPrinted(dns, texts) && |texts| <= SELECTOR_MAX_PREDICATES && (ps != [] ==> texts != [])
            && Ascending(texts)
            && ParseStream(dns, CanonicalText(ps), false, 0) == Ok(ReadAll(dns, texts))
  {
    hide ParseStream, Canonical, PredicateOk;
    var ps := ParseStream(dns, input, true, 0).value;
    ParseStreamOk(dns, input, true, 0);
    SortedTextsPrinted(dns, ps);
    SortDedupCorrect(CanonicalAll(ps));
    ParseJoined(dns, SortDedup(CanonicalAll(ps)), false, 0);
  }

  // ---- The theorems ----

  /** Parsing fails only on the raw input or on the length of its canonical text: the reparse of the
      canonical text never fails. */
  lemma ReparseNeverFails(dns: string -> bool, input: string)
    requires FoldsCase(dns)
    ensures var raw := ParseStream(dns, input, true, 0);
            Parse(dns, input).Ok? <==>
              && input != "" && ByteLength(input) <= SELECTOR_INPUT_MAX_BYTES
              && raw.Ok? && raw.value != []
              && ByteLength(CanonicalText(raw.value)) <= SELECTOR_INPUT_MAX_BYTES
  {
    hide ParseStream, CanonicalText, ByteLength;
    if ParseStream(dns, input, true, 0).Ok? {
      Reparse(dns, input);
    }
  }

  /** Canonical text is a fixed point: it parses to the very same selector. */
  lemma CanonicalFixedPoint(dns: string -> bool, input: string)
    requires FoldsCase(dns) && Parse(dns, input).Ok?
    ensures ByteLength(Parse(dns, input).value.canonical) <= SELECTOR_INPUT_MAX_BYTES
    ensures Parse(dns, Parse(dns, input).value.canonical) == Parse(dns, input)
  {
    hide ParseStream, ByteLength, Join, CanonicalAll, SafeStart, AllPrinted, SortDedup, Ascending, ReadAll;
    var ps := ParseStream(dns, input, true, 0).value;
    var texts := SortDedup(CanonicalAll(ps));
    Reparse(dns, input);
    var canonical := CanonicalText(ps);
    ParseJoined(dns, texts, true, 0);
    ReadAllCanonical(dns, texts);
    SortDedupFixed(texts);
    JoinedStart(dns, texts);
    SafeStartNonempty(canonical);
  }

  lemma SafeStartNonempty(s: string)
    requires SafeStart(s)
    ensures s != ""
  {
  }

  /** Every written predicate is stored in normal form, and nothing else is stored. */
  lemma StoredFromWritten(dns: string -> bool, ps: seq<Predicate>)
    requires forall i :: 0 <= i < |ps| ==> PredicateOk(dns, ps[i])
    requires AllPrinted(dns, SortDedup(CanonicalAll(ps)))
    ensures var stored := ReadAll(dns, SortDedup(CanonicalAll(ps)));
            && (forall j :: 0 <= j < |ps| ==> Normal(ps[j]) in stored)
            && (forall i :: 0 <= i < |stored| ==> exists j :: 0 <= j < |ps| && Normal(ps[j]) == stored[i])
  {
    hide PredicateOk, Canonical, Normal, ReadText, Printed, SortDedup;
    var all := CanonicalAll(ps);
    var texts := SortDedup(all);
    SortDedupCorrect(all);
    var stored := ReadAll(dns, texts);
    forall j | 0 <= j < |ps| ensures Normal(ps[j]) in stored {
      assert all[j] in texts;
      var i :| 0 <= i < |texts| && texts[i] == all[j];
      ReadTextIs(dns, ps[j]);
      assert stored[i] == Normal(ps[j]);
    }
    forall i | 0 <= i < |stored| ensures exists j :: 0 <= j < |ps| && Normal(ps[j]) == stored[i] {
      assert texts[i] in all;
      var j :| 0 <= j < |all| && all[j] == texts[i];
      ReadTextIs(dns, ps[j]);
    }
  }

  lemma SameMeaning(ps: seq<Predicate>, stored: seq<Predicate>, lookup: Lookup)
    requires forall j :: 0 <= j < |ps| ==> Normal(ps[j]) in stored
    requires forall i :: 0 <= i < |stored| ==> exists j :: 0 <= j < |ps| && Normal(ps[j]) == stored[i]
    ensures MatchesAll(stored, lookup) <==> MatchesAll(ps, lookup)
  {
    hide Matches, Normal;
    forall j | 0 <= j < |ps| ensures Matches(Normal(ps[j]), lookup) == Matches(ps[j], lookup) {
      NormalMatches(ps[j], lookup);
    }
    if MatchesAll(ps, lookup) {
      forall i | 0 <= i < |stored| ensures Matches(stored[i], lookup) {
        var j :| 0 <= j < |ps| && Normal(ps[j]) == stored[i];
      }
    }
  }

  /** Canonicalizing preserves meaning: under every lookup the stored predicates match exactly when
      all predicates that were written match. */
  lemma CanonicalMeaning(dns: string -> bool, input: string, lookup: Lookup)
    requires FoldsCase(dns) && Parse(dns, input).Ok?
    ensures MatchesAll(Parse(dns, input).value.predicates, lookup)
       <==> MatchesAll(ParseStream(dns, input, true, 0).value, lookup)
  {
    var ps := ParseStream(dns, input, true, 0).value;
    hide ParseStream, ByteLength, PredicateOk, MatchesAll, AllPrinted, CanonicalText, SortDedup, CanonicalAll, Normal;
    Reparse(dns, input);
    ParseStreamOk(dns, input, true, 0);
    StoredFromWritten(dns, ps);
    SameMeaning(ps, ReadAll(dns, SortDedup(CanonicalAll(ps))), lookup);
  }

  /** What a predicate list says, apart from order and repetition, in itself and in its sets. */
  function NormalSet(ps: seq<Predicate>): set<Predicate>
  {
    set i | 0 <= i < |ps| :: Normal(ps[i])
  }

  lemma SameSetSameTexts(ps: seq<Predicate>, qs: seq<Predicate>, text: string)
    requires NormalSet(ps) == NormalSet(qs) && text in CanonicalAll(ps)
    ensures text in CanonicalAll(qs)
  {
    hide Normal, Canonical;
    var i :| 0 <= i < |ps| && CanonicalAll(ps)[i] == text;
    assert Normal(ps[i]) in NormalSet(ps);
    var j :| 0 <= j < |qs| && Normal(qs[j]) == Normal(ps[i]);
    NormalCanonical(ps[i]);
    NormalCanonical(qs[j]);
    assert CanonicalAll(qs)[j] == text;
  }

  lemma StoredSet(dns: string -> bool, input: string)
    requires FoldsCase(dns) && Parse(dns, input).Ok?
    ensures NormalSet(ParseStream(dns, input, true, 0).value) == Members(Parse(dns, input).value.predicates)
  {
    var ps := ParseStream(dns, input, true, 0).value;
    hide ParseStream, ByteLength, PredicateOk, AllPrinted, CanonicalText, SortDedup, CanonicalAll, Normal;
    Reparse(dns, input);
    ParseStreamOk(dns, input, true, 0);
    StoredFromWritten(dns, ps);
    var stored := ReadAll(dns, SortDedup(CanonicalAll(ps)));
    SetOfNormal(ps, stored);
  }

  lemma SetOfNormal(ps: seq<Predicate>, stored: seq<Predicate>)
    requires forall j :: 0 <= j < |ps| ==> Normal(ps[j]) in stored
    requires forall i :: 0 <= i < |stored| ==> exists j :: 0 <= j < |ps| && Normal(ps[j]) == stored[i]
    ensures NormalSet(ps) == Members(stored)
  {
    hide Normal;
    forall p | p in stored ensures p in NormalSet(ps) {
      var i :| 0 <= i < |stored| && stored[i] == p;
      var j :| 0 <= j < |ps| && Normal(ps[j]) == stored[i];
    }
  }

  /** Equal inputs converge and distinct ones stay apart: two inputs have the same canonical text, and
      then are the same selector, exactly when they say the same set of normal predicates. */
  lemma CanonicalDistinguishes(dns: string -> bool, a: string, b: string)
    requires FoldsCase(dns) && Parse(dns, a).Ok? && Parse(dns, b).Ok?
    ensures var ps, qs := ParseStream(dns, a, true, 0).value, ParseStream(dns, b, true, 0).value;
            Parse(dns, a).value.canonical == Parse(dns, b).value.canonical <==> NormalSet(ps) == NormalSet(qs)
    ensures Parse(dns, a).value.canonical == Parse(dns, b).value.canonical <==> Parse(dns, a) == Parse(dns, b)
  {
    var ps, qs := ParseStream(dns, a, true, 0).value, ParseStream(dns, b, true, 0).value;
    hide ParseStream, ByteLength, CanonicalAll, NormalSet, Join;
    StoredSet(dns, a);
    StoredSet(dns, b);
    if NormalSet(ps) == NormalSet(qs) {
      var s, t := CanonicalAll(ps), CanonicalAll(qs);
      forall y ensures y in s <==> y in t {
        if y in s {
          SameSetSameTexts(ps, qs, y);
        }
        if y in t {
          SameSetSameTexts(qs, ps, y);
        }
      }
      SortDedupCorrect(s);
      SortDedupCorrect(t);
      AscendingUnique(SortDedup(s), SortDedup(t));
    }
  }
}
