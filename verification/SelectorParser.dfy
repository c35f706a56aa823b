/**
 The hand-rolled selector cursor. Every method moves `position` in place and is proved to read
 exactly what the grammar's functions say of the unread rest.
 */
module SelectorParser {
  import opened Wrappers
  import Text
  import opened SelectorTag
  import G = SelectorGrammar
  import RoundTrip = SelectorRoundTrip
  import Spelling = SelectorSpelling

  class Cursor {
    const input: string
    const dns: string -> bool
    var position: nat

    ghost predicate Valid()
      reads this
    {
      position <= |input|
    }

    constructor (dns: string -> bool, input: string)
      ensures Valid() && Rest() == input && this.dns == dns
    {
      this.dns, this.input, position := dns, input, 0;
    }

    function Rest(): string
      requires Valid()
      reads this
    {
      input[position..]
    }

    function Peek(): Option<char>
      requires Valid()
      reads this
    {
      if position < |input| then Some(input[position]) else None
    }

    method Advance()
      requires Valid()
      modifies this
      ensures Valid()
      ensures Rest() == if old(Rest()) == [] then [] else old(Rest())[1..]
    {
      if Peek().Some? {
        position := position + 1;
      }
    }

    method SkipWhitespace()
      requires Valid()
      modifies this
      ensures Valid() && Rest() == G.SkipWhitespace(old(Rest()))
    {
      while Peek().Some? && Text.IsWhitespace(Peek().value)
        invariant Valid() && G.SkipWhitespace(Rest()) == G.SkipWhitespace(old(Rest()))
        decreases |input| - position
      {
        assert Rest()[1..] == input[position + 1..];
        Advance();
      }
    }

    method ParseKey() returns (r: Result<Tag, G.Failure>)
      requires Valid()
      modifies this
      ensures Valid()
      ensures match G.ParseKey(dns, old(Rest()))
              case Err(failure) => r == Err(failure)
              case Ok((tag, rest)) => r == Ok(tag) && Rest() == rest
    {
      hide ParseTag, InKeySpace, KeyStop;
      var start := position;
      ghost var before := Rest();
      while Peek().Some? && !KeyStop(Peek().value)
        invariant Valid() && start <= position
        invariant G.KeySpan(before) == position - start + G.KeySpan(Rest())
        decreases |input| - position
      {
        assert Rest()[1..] == input[position + 1..];
        Advance();
      }
      var text := input[start..position];
      assert text == before[..position - start] && Rest() == before[position - start..];
      match ParseTag(dns, text)
      case None => r := Err(G.BadInput);
      case Some(tag) => r := if InKeySpace(tag) then Ok(tag) else Err(G.BadKey);
    }

    method ParseValue(inList: bool) returns (r: Result<string, G.Failure>)
      requires Valid()
      modifies this
      ensures Valid()
      ensures match G.ParseValue(old(Rest()), inList)
              case Err(failure) => r == Err(failure)
              case Ok((value, rest)) => r == Ok(value) && Rest() == rest
    {
      hide G.ScanValue, Prefixed;
      var value := "";
      ghost var whole := G.ScanValue(Rest(), inList);
      PrefixedNothing(whole);
      while true
        invariant Valid()
        invariant whole == Prefixed(value, G.ScanValue(Rest(), inList))
        decreases |input| - position
      {
        ValueStep(Rest(), inList, value);
        if Peek().None? {
          break;
        }
        var character := Peek().value;
        assert Rest()[1..] == input[position + 1..];
        if character == '\\' {
          Advance();
          if Peek().None? || G.Unescape(Peek().value).None? {
            return Err(G.BadEscape);
          }
          var escaped := G.Unescape(Peek().value).value;
          assert Rest()[1..] == input[position + 1..];
          Advance();
          value := value + [escaped];
        } else if Text.IsWhitespace(character) || (inList && (character == ',' || character == ')')) {
          break;
        } else if character in {'(', ')', ',', '=', '!'} {
          return Err(G.BadValue);
        } else {
          Advance();
          value := value + [character];
        }
      }
      assert whole == Ok((value, Rest()));
      if value == "" || Text.ByteLength(value) > G.LABEL_VALUE_MAX_BYTES {
        return Err(G.BadValue);
      }
      r := Ok(value);
    }

    method ParseItem() returns (r: Result<(string, bool), G.Failure>)
      requires Valid()
      modifies this
      ensures Valid()
      ensures match G.ParseItem(old(Rest()))
              case Err(failure) => r == Err(failure)
              case Ok((value, closes, rest)) => r == Ok((value, closes)) && Rest() == rest
    {
      hide G.ParseValue, G.SkipWhitespace;
      SkipWhitespace();
      var value := ParseValue(true);
      if value.Err? {
        return Err(value.error);
      }
      SkipWhitespace();
      if Peek() == Some(',') {
        Advance();
        return Ok((value.value, false));
      }
      if Peek() == Some(')') {
        Advance();
        return Ok((value.value, true));
      }
      r := Err(G.BadSet);
    }

    method ParseSet() returns (r: Result<seq<string>, G.Failure>)
      requires Valid()
      modifies this
      ensures Valid()
      ensures match G.ParseSet(old(Rest()))
              case Err(failure) => r == Err(failure)
              case Ok((values, rest)) => r == Ok(values) && Rest() == rest
    {
      hide G.ParseItem, G.ParseItems;
      if Peek() != Some('(') {
        return Err(G.BadSet);
      }
      Advance();
      ghost var whole := G.ParseItems(Rest(), 0);
      PrefixedNothing(whole);
      var values: seq<string> := [];
      while true
        invariant Valid()
        invariant whole == Prefixed(values, G.ParseItems(Rest(), |values|))
        decreases |input| - position
      {
        ItemsStep(Rest(), values);
        if |values| >= G.SELECTOR_MAX_SET_VALUES {
          return Err(G.TooManyValues);
        }
        var item := ParseItem();
        if item.Err? {
          return Err(item.error);
        }
        values := values + [item.value.0];
        if item.value.1 {
          return Ok(values);
        }
      }
    }

    method ParseOperatorTail(key: Tag) returns (r: Result<Option<G.Predicate>, G.Failure>)
      requires Valid()
      modifies this
      ensures Valid()
      ensures match G.OperatorTail(key, old(Rest()))
              case Err(failure) => r == Err(failure)
              case Ok((p, rest)) => r == Ok(p) && Rest() == rest
    {
      hide G.ParseValue, G.SkipWhitespace, G.SetPredicate;
      var checkpoint := position;
      SkipWhitespace();
      ghost var t := Rest();
      if Peek() == Some('=') {
        Advance();
        SkipWhitespace();
        var value := ParseValue(false);
        if value.Err? {
          return Err(value.error);
        }
        return Ok(Some(G.Equals(key, value.value)));
      }
      if Peek() == Some('!') {
        Advance();
        if Peek() != Some('=') {
          position := checkpoint;
          return Ok(None);
        }
        Advance();
        assert Rest() == t[2..];
        SkipWhitespace();
        var value := ParseValue(false);
        if value.Err? {
          return Err(value.error);
        }
        return Ok(Some(G.NotEquals(key, value.value)));
      }
      var word := if G.Keyword(Rest(), "in") then "in" else if G.Keyword(Rest(), "notin") then "notin" else "";
      if word == "" {
        position := checkpoint;
        return Ok(None);
      }
      position := position + |word|;
      assert Rest() == t[|word|..];
      r := ParseMembers(key, word == "in");
    }

    /** The set after its keyword. */
    method ParseMembers(key: Tag, positive: bool) returns (r: Result<Option<G.Predicate>, G.Failure>)
      requires Valid()
      modifies this
      ensures Valid()
      ensures match G.SetPredicate(key, old(Rest()), positive)
              case Err(failure) => r == Err(failure)
              case Ok((p, rest)) => r == Ok(p) && Rest() == rest
    {
      hide G.SkipWhitespace, G.ParseSet;
      SkipWhitespace();
      var values := ParseSet();
      if values.Err? {
        return Err(values.error);
      }
      r := Ok(Some(if positive then G.In(key, values.value) else G.NotIn(key, values.value)));
    }

    method ParsePredicate() returns (r: Result<G.Predicate, G.Failure>)
      requires Valid() && Rest() != []
      modifies this
      ensures Valid()
      ensures match G.ParsePredicate(dns, old(Rest()))
              case Err(failure) => r == Err(failure)
              case Ok((p, rest)) => r == Ok(p) && Rest() == rest
    {
      hide G.ParseKey, G.OperatorTail;
      if Peek() == Some('!') {
        Advance();
        var key := ParseKey();
        if key.Err? {
          return Err(key.error);
        }
        return Ok(G.NotExists(key.value));
      }
      var key := ParseKey();
      if key.Err? {
        return Err(key.error);
      }
      var tail := ParseOperatorTail(key.value);
      if tail.Err? {
        return Err(tail.error);
      }
      r := Ok(if tail.value.Some? then tail.value.value else G.Exists(key.value));
    }

    method ParsePredicateStream(enforcePredicateBound: bool) returns (r: Result<seq<G.Predicate>, G.Failure>)
      requires Valid()
      modifies this
      ensures Valid() && r == G.ParseStream(dns, old(Rest()), enforcePredicateBound, 0)
    {
      hide G.ParsePredicate;
      ghost var whole := G.ParseStream(dns, Rest(), enforcePredicateBound, 0);
      var predicates: seq<G.Predicate> := [];
      assert whole.Ok? ==> [] + whole.value == whole.value;
      while true
        invariant Valid()
        invariant whole == PrefixedStream(predicates, G.ParseStream(dns, Rest(), enforcePredicateBound, |predicates|))
        decreases |input| - position
      {
        ghost var before := Rest();
        SkipWhitespace();
        if Peek().None? {
          assert predicates + [] == predicates;
          break;
        }
        if enforcePredicateBound && |predicates| >= G.SELECTOR_MAX_PREDICATES {
          return Err(G.TooManyPredicates);
        }
        var p := ParsePredicate();
        if p.Err? {
          return Err(p.error);
        }
        PredicateThenStream(dns, before, enforcePredicateBound, predicates, p.value, Rest());
        predicates := predicates + [p.value];
      }
      r := Ok(predicates);
    }
  }

  /** A result with the elements already read in front. */
  ghost function Prefixed<T>(done: seq<T>, r: G.Parsed<seq<T>>): G.Parsed<seq<T>>
  {
    if r.Err? then r else Ok((done + r.value.0, r.value.1))
  }

  lemma PrefixedNothing<T>(r: G.Parsed<seq<T>>)
    ensures Prefixed([], r) == r
  {
    assert r.Ok? ==> [] + r.value.0 == r.value.0;
  }

  /** One turn of the set loop. */
  lemma ItemsStep(s: string, done: seq<string>)
    ensures Prefixed(done, G.ParseItems(s, |done|)) ==
              if |done| >= G.SELECTOR_MAX_SET_VALUES then Err(G.TooManyValues)
              else if G.ParseItem(s).Err? then Err(G.ParseItem(s).error)
              else
                var (value, closes, rest) := G.ParseItem(s).value;
                if closes then Ok((done + [value], rest))
                else Prefixed(done + [value], G.ParseItems(rest, |done| + 1))
  {
    hide G.ParseItem;
    if |done| < G.SELECTOR_MAX_SET_VALUES && G.ParseItem(s).Ok? && !G.ParseItem(s).value.1 {
      var (value, _, rest) := G.ParseItem(s).value;
      var more := G.ParseItems(rest, |done| + 1);
      assert G.ParseItems(s, |done|) == if more.Err? then more else Ok(([value] + more.value.0, more.value.1));
      hide G.ParseItems;
      assert more.Ok? ==> done + ([value] + more.value.0) == done + [value] + more.value.0;
    }
  }

  lemma PredicateThenStream(
    dns: string -> bool, s: string, bounded: bool, done: seq<G.Predicate>, p: G.Predicate, rest: string)
    requires G.SkipWhitespace(s) != [] && !(bounded && |done| >= G.SELECTOR_MAX_PREDICATES)
    requires G.ParsePredicate(dns, G.SkipWhitespace(s)) == Ok((p, rest))
    ensures PrefixedStream(done, G.ParseStream(dns, s, bounded, |done|)) ==
            PrefixedStream(done + [p], G.ParseStream(dns, rest, bounded, |done| + 1))
  {
    hide G.ParsePredicate;
    var more := G.ParseStream(dns, rest, bounded, |done| + 1);
    assert more.Ok? ==> done + ([p] + more.value) == done + [p] + more.value;
  }

  lemma PrefixedPrepend(done: string, c: char, r: G.Parsed<string>)
    ensures Prefixed(done, G.Prepend(c, r)) == Prefixed(done + [c], r)
  {
    if r.Ok? {
      assert done + ([c] + r.value.0) == done + [c] + r.value.0;
    }
  }

  /** One turn of the value loop. */
  lemma ValueStep(s: string, inList: bool, done: string)
    ensures Prefixed(done, G.ScanValue(s, inList)) ==
              if s == "" then Ok((done, s))
              else if s[0] == '\\' then
                if |s| < 2 || G.Unescape(s[1]).None? then Err(G.BadEscape)
                else Prefixed(done + [G.Unescape(s[1]).value], G.ScanValue(s[1..][1..], inList))
              else if Text.IsWhitespace(s[0]) || (inList && (s[0] == ',' || s[0] == ')')) then Ok((done, s))
              else if s[0] in {'(', ')', ',', '=', '!'} then Err(G.BadValue)
              else Prefixed(done + [s[0]], G.ScanValue(s[1..], inList))
  {
    assert done + "" == done;
    if s != "" && s[0] == '\\' {
      if |s| >= 2 && G.Unescape(s[1]).Some? {
        assert s[1..][1..] == s[2..];
        PrefixedPrepend(done, G.Unescape(s[1]).value, G.ScanValue(s[2..], inList));
      }
    } else if s != "" {
      PrefixedPrepend(done, s[0], G.ScanValue(s[1..], inList));
    }
  }

  ghost function PrefixedStream(ps: seq<G.Predicate>, r: Result<seq<G.Predicate>, G.Failure>)
    : Result<seq<G.Predicate>, G.Failure>
  {
    if r.Err? then r else Ok(ps + r.value)
  }

  /** `Selector::parse`, with its promises stated outright: the stored text parses back to the very
      selector returned, and the stored predicates mean what was written. */
  method ParseSelector(dns: string -> bool, value: string) returns (r: Result<G.Selector, G.Failure>)
    requires FoldsCase(dns)
    ensures r == G.Parse(dns, value)
    ensures r.Ok? ==> G.Parse(dns, r.value.canonical) == r
    ensures r.Ok? ==> forall parts, end, lookup | Spelling.Spells(dns, value, parts, end) ::
      G.MatchesAll(r.value.predicates, lookup) == G.MatchesAll(Spelling.Meanings(dns, parts, end), lookup)
  {
    if value == "" || Text.ByteLength(value) > G.SELECTOR_INPUT_MAX_BYTES {
      return Err(G.BadInput);
    }
    var parser := new Cursor(dns, value);
    var predicates := parser.ParsePredicateStream(true);
    if predicates.Err? {
      return Err(predicates.error);
    }
    if predicates.value == [] {
      return Err(G.BadInput);
    }
    var canonical := Text.Join(Text.SortDedup(G.CanonicalAll(predicates.value)), " ");
    if Text.ByteLength(canonical) > G.SELECTOR_INPUT_MAX_BYTES {
      return Err(G.BadInput);
    }
    var again := new Cursor(dns, canonical);
    var reparsed := again.ParsePredicateStream(false);
    if reparsed.Err? {
      return Err(reparsed.error);
    }
    r := Ok(G.Selector(canonical, reparsed.value));
    RoundTrip.CanonicalFixedPoint(dns, value);
    forall parts, end, lookup | Spelling.Spells(dns, value, parts, end)
      ensures G.MatchesAll(r.value.predicates, lookup) == G.MatchesAll(Spelling.Meanings(dns, parts, end), lookup)
    {
      Spelling.WrittenMeaning(dns, value, parts, end, lookup);
    }
  }
}
