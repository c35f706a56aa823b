/**
 The selector language as functions on the unread rest of the input: parser, canonical printer and
 evaluator. The cursor class of `SelectorParser` is proved equal to these functions.
 */
module SelectorGrammar {
  import opened Wrappers
  import opened Text
  import opened SelectorTag

  const SELECTOR_INPUT_MAX_BYTES: nat := 1024
  const SELECTOR_MAX_PREDICATES: nat := 16
  const SELECTOR_MAX_SET_VALUES: nat := 16
  const LABEL_VALUE_MAX_BYTES: nat := 256

  datatype Predicate =
    | Exists(key: Tag)
    | NotExists(key: Tag)
    | Equals(key: Tag, value: string)
    | NotEquals(key: Tag, value: string)
    | In(key: Tag, values: seq<string>)
    | NotIn(key: Tag, values: seq<string>)

  datatype Selector = Selector(canonical: string, predicates: seq<Predicate>)

  datatype Failure = BadInput | BadKey | BadEscape | BadValue | BadSet | TooManyValues | TooManyPredicates

  type Parsed<T> = Result<(T, string), Failure>

  // ---- Evaluation ----

  type Lookup = Tag -> Option<string>

  predicate Matches(p: Predicate, lookup: Lookup)
  {
    match p
    case Exists(key) => lookup(key).Some?
    case NotExists(key) => lookup(key).None?
    case Equals(key, value) => lookup(key) == Some(value)
    case NotEquals(key, value) => lookup(key) != Some(value)
    case In(key, values) => lookup(key).Some? && lookup(key).value in values
    case NotIn(key, values) => lookup(key).None? || lookup(key).value !in values
  }

  predicate MatchesAll(ps: seq<Predicate>, lookup: Lookup)
  {
    forall i :: 0 <= i < |ps| ==> Matches(ps[i], lookup)
  }

  /** Every operator follows from equality: existence and set membership are its disjunctions, and the
      negative operators are exact complements, which an absent label satisfies. */
  lemma OperatorsFromEquality(key: Tag, value: string, other: string, values: seq<string>, lookup: Lookup)
    ensures Matches(Equals(key, value), lookup) <==> lookup(key).Some? && lookup(key).value == value
    ensures Matches(Exists(key), lookup) <==> exists v :: Matches(Equals(key, v), lookup)
    ensures Matches(In(key, values), lookup) <==> exists v :: v in values && Matches(Equals(key, v), lookup)
    ensures Matches(NotExists(key), lookup) <==> !Matches(Exists(key), lookup)
    ensures Matches(NotEquals(key, value), lookup) <==> !Matches(Equals(key, value), lookup)
    ensures Matches(NotIn(key, values), lookup) <==> !Matches(In(key, values), lookup)
    ensures Matches(Equals(key, value), lookup) && Matches(Equals(key, other), lookup) ==> value == other
  {
    if lookup(key).Some? {
      assert Matches(Equals(key, lookup(key).value), lookup);
    }
  }

  // ---- Printing ----

  function EscapeChar(c: char): string
  {
    if c == '\t' then "\\t"
    else if c == '\n' then "\\n"
    else if c == '\r' then "\\r"
    else if c in {' ', '\\', ',', '(', ')', '=', '!'} then ['\\', c]
    else [c]
  }

  function Escape(value: string): string
  {
    if value == [] then [] else EscapeChar(value[0]) + Escape(value[1..])
  }

  function EscapeAll(values: seq<string>): (escaped: seq<string>)
    ensures |escaped| == |values| && forall i :: 0 <= i < |values| ==> escaped[i] == Escape(values[i])
  {
    seq(|values|, i requires 0 <= i < |values| => Escape(values[i]))
  }

  function CanonicalSet(values: seq<string>): string
  {
    Join(EscapeAll(SortDedup(values)), ",")
  }

  /** What is printed after the key. */
  function CanonicalTail(p: Predicate): string
    requires !p.Exists? && !p.NotExists?
  {
    match p
    case Equals(_, value) => "=" + Escape(value)
    case NotEquals(_, value) => "!=" + Escape(value)
    case In(_, values) => " in (" + CanonicalSet(values) + ")"
    case NotIn(_, values) => " notin (" + CanonicalSet(values) + ")"
  }

  function Canonical(p: Predicate): string
  {
    if p.Exists? then TagText(p.key)
    else if p.NotExists? then "!" + TagText(p.key)
    else TagText(p.key) + CanonicalTail(p)
  }

  // ---- Parsing ----

  function SkipWhitespace(s: string): (rest: string)
    ensures |rest| <= |s| && (rest != [] ==> !IsWhitespace(rest[0]))
  {
    if s != [] && IsWhitespace(s[0]) then SkipWhitespace(s[1..]) else s
  }

  /** How many characters of `s` belong to a key. */
  function KeySpan(s: string): (n: nat)
    ensures n <= |s| && NoStops(s[..n]) && (n < |s| ==> KeyStop(s[n]))
  {
    if s == [] || KeyStop(s[0]) then 0 else
    var n := KeySpan(s[1..]);
    assert s[..1 + n] == [s[0]] + s[1..][..n];
    1 + n
  }

  function ParseKey(dns: string -> bool, s: string): (r: Parsed<Tag>)
    ensures r.Ok? ==> |r.value.1| < |s|
  {
    var n := KeySpan(s);
    match ParseTag(dns, s[..n])
    case None => Err(BadInput)
    case Some(tag) => if InKeySpace(tag) then Ok((tag, s[n..])) else Err(BadKey)
  }

  function Unescape(c: char): Option<char>
  {
    if c == 't' then Some('\t')
    else if c == 'n' then Some('\n')
    else if c == 'r' then Some('\r')
    else if c in {' ', '\\', ',', '(', ')', '=', '!'} then Some(c)
    else None
  }

  /** Where a value ends and what it is once its escapes are resolved. */
  function ScanValue(s: string, inList: bool): (r: Parsed<string>)
    ensures r.Ok? ==> |r.value.1| + |r.value.0| <= |s|
  {
    if s == [] || IsWhitespace(s[0]) || (inList && (s[0] == ',' || s[0] == ')')) then Ok(("", s))
    else if s[0] == '\\' then
      if |s| < 2 || Unescape(s[1]).None? then Err(BadEscape)
      else Prepend(Unescape(s[1]).value, ScanValue(s[2..], inList))
    else if s[0] in {'(', ')', ',', '=', '!'} then Err(BadValue)
    else Prepend(s[0], ScanValue(s[1..], inList))
  }

  function Prepend(c: char, r: Parsed<string>): Parsed<string>
  {
    if r.Err? then r else Ok(([c] + r.value.0, r.value.1))
  }

  predicate ValueBounds(value: string)
  {
    value != "" && ByteLength(value) <= LABEL_VALUE_MAX_BYTES
  }

  function ParseValue(s: string, inList: bool): (r: Parsed<string>)
    ensures r.Ok? ==> |r.value.1| < |s| && ValueBounds(r.value.0)
  {
    var r := ScanValue(s, inList);
    if r.Ok? && !ValueBounds(r.value.0) then Err(BadValue) else r
  }

  /** One item of a set list with the delimiter after it: the value, whether the list ends here, and
      the rest. */
  function ParseItem(s: string): (r: Result<(string, bool, string), Failure>)
    ensures r.Ok? ==> |r.value.2| < |s|
  {
    var item := ParseValue(SkipWhitespace(s), true);
    if item.Err? then Err(item.error) else
    var rest := SkipWhitespace(item.value.1);
    if rest != [] && (rest[0] == ',' || rest[0] == ')') then Ok((item.value.0, rest[0] == ')', rest[1..]))
    else Err(BadSet)
  }

  /** The items after an opening parenthesis (or a comma) with `n` values already read. */
  function ParseItems(s: string, n: nat): (r: Parsed<seq<string>>)
    ensures r.Ok? ==> |r.value.1| < |s| && |r.value.0| >= 1 && n + |r.value.0| <= SELECTOR_MAX_SET_VALUES
    decreases |s|
  {
    if n >= SELECTOR_MAX_SET_VALUES then Err(TooManyValues) else
    var item := ParseItem(s);
    if item.Err? then Err(item.error)
    else if item.value.1 then Ok(([item.value.0], item.value.2))
    else
      var more := ParseItems(item.value.2, n + 1);
      if more.Err? then more else Ok(([item.value.0] + more.value.0, more.value.1))
  }

  function ParseSet(s: string): (r: Parsed<seq<string>>)
    ensures r.Ok? ==> |r.value.1| < |s|
  {
    if s == [] || s[0] != '(' then Err(BadSet) else ParseItems(s[1..], 0)
  }

  /** `word` stands at the start of `s` and is followed by the end, whitespace or a parenthesis. */
  predicate Keyword(s: string, word: string)
  {
    word <= s && (|s| == |word| || IsWhitespace(s[|word|]) || s[|word|] == '(')
  }

  function SetPredicate(key: Tag, s: string, positive: bool): (r: Parsed<Option<Predicate>>)
    ensures r.Ok? ==> |r.value.1| <= |s|
  {
    var set_ := ParseSet(SkipWhitespace(s));
    if set_.Err? then Err(set_.error)
    else Ok((Some(if positive then In(key, set_.value.0) else NotIn(key, set_.value.0)), set_.value.1))
  }

  /** What follows a key: an operator, or nothing of this predicate (and then nothing is consumed). */
  function OperatorTail(key: Tag, s: string): (r: Parsed<Option<Predicate>>)
    ensures r.Ok? ==> |r.value.1| <= |s|
  {
    var t := SkipWhitespace(s);
    if t != [] && t[0] == '=' then
      var value := ParseValue(SkipWhitespace(t[1..]), false);
      if value.Err? then Err(value.error) else Ok((Some(Equals(key, value.value.0)), value.value.1))
    else if t != [] && t[0] == '!' then
      if |t| < 2 || t[1] != '=' then Ok((None, s))
      else
        var value := ParseValue(SkipWhitespace(t[2..]), false);
        if value.Err? then Err(value.error) else Ok((Some(NotEquals(key, value.value.0)), value.value.1))
    else if Keyword(t, "in") then SetPredicate(key, t[2..], true)
    else if Keyword(t, "notin") then SetPredicate(key, t[5..], false)
    else Ok((None, s))
  }

  /** One predicate at a position that is not whitespace. */
  function ParsePredicate(dns: string -> bool, s: string): (r: Parsed<Predicate>)
    requires s != []
    ensures r.Ok? ==> |r.value.1| < |s|
  {
    if s[0] == '!' then
      var key := ParseKey(dns, s[1..]);
      if key.Err? then Err(key.error) else Ok((NotExists(key.value.0), key.value.1))
    else
      var key := ParseKey(dns, s);
      if key.Err? then Err(key.error) else
      var tail := OperatorTail(key.value.0, key.value.1);
      if tail.Err? then Err(tail.error)
      else Ok((if tail.value.0.Some? then tail.value.0.value else Exists(key.value.0), tail.value.1))
  }

  /** The predicates of the rest of the input, `n` of them already read. */
  function ParseStream(dns: string -> bool, s: string, bounded: bool, n: nat): (r: Result<seq<Predicate>, Failure>)
    decreases |s|
  {
    var t := SkipWhitespace(s);
    if t == [] then Ok([])
    else if bounded && n >= SELECTOR_MAX_PREDICATES then Err(TooManyPredicates)
    else
      var first := ParsePredicate(dns, t);
      if first.Err? then Err(first.error) else
      var more := ParseStream(dns, first.value.1, bounded, n + 1);
      if more.Err? then more else Ok([first.value.0] + more.value)
  }

  function CanonicalAll(ps: seq<Predicate>): (texts: seq<string>)
    ensures |texts| == |ps| && forall i :: 0 <= i < |ps| ==> texts[i] == Canonical(ps[i])
  {
    seq(|ps|, i requires 0 <= i < |ps| => Canonical(ps[i]))
  }

  /** The canonical text of a predicate list: sorted, distinct, joined by single spaces. */
  function CanonicalText(ps: seq<Predicate>): string
  {
    Join(SortDedup(CanonicalAll(ps)), " ")
  }

  /** `Selector::parse`. */
  function Parse(dns: string -> bool, input: string): Result<Selector, Failure>
  {
    if input == "" || ByteLength(input) > SELECTOR_INPUT_MAX_BYTES then Err(BadInput) else
    var raw := ParseStream(dns, input, true, 0);
    if raw.Err? then Err(raw.error)
    else if raw.value == [] then Err(BadInput)
    else
      var canonical := CanonicalText(raw.value);
      if ByteLength(canonical) > SELECTOR_INPUT_MAX_BYTES then Err(BadInput) else
      var reparsed := ParseStream(dns, canonical, false, 0);
      if reparsed.Err? then Err(reparsed.error) else Ok(Selector(canonical, reparsed.value))
  }
}
