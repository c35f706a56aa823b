/** Qualified tags and the closed key space of selectors. DNS hostname validity is a parameter. */
module SelectorTag {
  import opened Wrappers
  import opened Text

  const BUILTIN_DOMAIN := "radiata.woooo.tech"

  const RESERVED_TYPE_LABEL_KEY := "radiata.woooo.tech/resources/type"
  const RESERVED_URI_LABEL_KEY := "radiata.woooo.tech/resources/uri"

  /** A parsed tag: the domain is stored in lower case. */
  datatype Tag = Tag(domain: string, category: string, name: string)

  function TagText(t: Tag): string
  {
    t.domain + "/" + t.category + "/" + t.name
  }

  /** Splits at the first occurrence of a separator. */
  function Cut(s: string, c: char): (r: Option<(string, string)>)
    ensures r.None? ==> c !in s
    ensures r.Some? ==> s == r.value.0 + [c] + r.value.1 && c !in r.value.0
  {
    if s == [] then None
    else if s[0] == c then Some(([], s[1..]))
    else
      match Cut(s[1..], c)
      case None => None
      case Some((before, after)) =>
        assert s == [s[0]] + s[1..];
        Some(([s[0]] + before, after))
  }

  function LowerChar(c: char): char
  {
    if 'A' <= c <= 'Z' then (c as int + 32) as char else c
  }

  function Lower(s: string): (t: string)
    ensures |t| == |s| && forall i :: 0 <= i < |s| ==> t[i] == LowerChar(s[i])
  {
    seq(|s|, i requires 0 <= i < |s| => LowerChar(s[i]))
  }

  predicate IsAscii(s: string)
  {
    forall i :: 0 <= i < |s| ==> s[i] as int < 0x80
  }

  predicate ValidComponent(s: string)
  {
    && 0 < |s| <= 63
    && 'a' <= s[0] <= 'z'
    && s[|s| - 1] != '-'
    && forall i :: 0 <= i < |s| ==> 'a' <= s[i] <= 'z' || '0' <= s[i] <= '9' || s[i] == '-'
  }

  function ParseTag(dns: string -> bool, text: string): Option<Tag>
  {
    if !(5 <= |text| <= 128) || !IsAscii(text) then None else
    var outer := Cut(text, '/');
    if outer.None? then None else
    var (domain, rest) := outer.value;
    var inner := Cut(rest, '/');
    if inner.None? then None else
    var (category, name) := inner.value;
    if '/' in name || !ValidParts(dns, domain, category, name) then None
    else Some(Tag(Lower(domain), category, name))
  }

  predicate ValidParts(dns: string -> bool, domain: string, category: string, name: string)
  {
    && dns(domain) && ValidComponent(category) && ValidComponent(name)
    && !(domain == BUILTIN_DOMAIN && category == "crypto")
  }

  /** Custom labels, and the two reserved resource labels. */
  predicate InKeySpace(t: Tag)
  {
    || t.category == "labels"
    || (t.category == "resources" && (TagText(t) == RESERVED_TYPE_LABEL_KEY || TagText(t) == RESERVED_URI_LABEL_KEY))
  }

  /** The characters that end a key. */
  predicate KeyStop(c: char)
  {
    IsWhitespace(c) || c in {'=', '!', '(', ')', ',', '\\'}
  }

  predicate NoStops(s: string)
  {
    forall i :: 0 <= i < |s| ==> !KeyStop(s[i])
  }

  ghost predicate FoldsCase(dns: string -> bool)
  {
    forall domain :: dns(domain) ==> dns(Lower(domain))
  }

  /** A tag as the selector parser produces it: its text is free of delimiters and parses back to it. */
  predicate KeyTag(dns: string -> bool, t: Tag)
  {
    InKeySpace(t) && NoStops(TagText(t)) && ParseTag(dns, TagText(t)) == Some(t)
  }

  lemma {:induction false} CutUnique(before: string, c: char, after: string)
    requires c !in before
    ensures Cut(before + [c] + after, c) == Some((before, after))
  {
    var s := before + [c] + after;
    if before != [] {
      CutUnique(before[1..], c, after);
      assert s[1..] == before[1..] + [c] + after;
      assert [before[0]] + before[1..] == before;
    } else {
      assert s[1..] == after;
    }
  }

  /** A text of the form `domain/category/name` is split where it was joined. */
  lemma ParseTagText(dns: string -> bool, t: Tag)
    requires '/' !in t.domain && '/' !in t.category && '/' !in t.name
    requires 5 <= |TagText(t)| <= 128 && IsAscii(TagText(t))
    ensures ParseTag(dns, TagText(t)) ==
            if ValidParts(dns, t.domain, t.category, t.name) then Some(t.(domain := Lower(t.domain))) else None
  {
    hide Cut, IsAscii, ValidParts;
    var rest := t.category + "/" + t.name;
    assert TagText(t) == t.domain + ['/'] + rest;
    CutUnique(t.domain, '/', rest);
    CutUnique(t.category, '/', t.name);
  }

  lemma LowerKeeps(s: string)
    ensures Lower(Lower(s)) == Lower(s)
    ensures IsAscii(s) ==> IsAscii(Lower(s))
    ensures NoStops(s) ==> NoStops(Lower(s))
    ensures '/' !in s ==> '/' !in Lower(s)
  {
    assert '/' in Lower(s) ==> exists i :: 0 <= i < |s| && Lower(s)[i] == '/';
  }

  lemma ConcatStops(a: string, b: string)
    ensures NoStops(a + b) <==> NoStops(a) && NoStops(b)
    ensures IsAscii(a + b) <==> IsAscii(a) && IsAscii(b)
  {
    assert forall i :: 0 <= i < |a| ==> (a + b)[i] == a[i];
    assert forall i :: 0 <= i < |b| ==> (a + b)[|a| + i] == b[i];
  }

  lemma SplitText(dns: string -> bool, text: string) returns (domain: string)
    requires ParseTag(dns, text).Some?
    ensures var t := ParseTag(dns, text).value;
            && text == domain + ("/" + t.category + "/" + t.name)
            && '/' !in domain && '/' !in t.category && '/' !in t.name && t.domain == Lower(domain)
            && IsAscii(text) && 5 <= |text| <= 128 && ValidParts(dns, domain, t.category, t.name)
  {
    hide Cut, IsAscii, ValidParts;
    var (d, rest) := Cut(text, '/').value;
    domain := d;
  }

  lemma LoweredText(domain: string, tail: string)
    requires NoStops(domain + tail) && IsAscii(domain + tail)
    ensures NoStops(Lower(domain) + tail) && IsAscii(Lower(domain) + tail)
  {
    hide KeyStop;
    ConcatStops(domain, tail);
    ConcatStops(Lower(domain), tail);
    LowerKeeps(domain);
  }

  /** The stored text of a parsed tag parses back to the tag, unless lowering the domain made it a
      reserved one: the reservation is checked before the case is folded. */
  lemma StoredTagReparses(dns: string -> bool, text: string)
    requires FoldsCase(dns) && ParseTag(dns, text).Some?
    ensures var t := ParseTag(dns, text).value;
            ParseTag(dns, TagText(t)) == if Reserved(t) then None else Some(t)
  {
    hide IsAscii, Lower, NoStops;
    var t := ParseTag(dns, text).value;
    var domain := SplitText(dns, text);
    hide ParseTag;
    var tail := "/" + t.category + "/" + t.name;
    LowerKeeps(domain);
    AsciiText(domain, tail);
    assert TagText(t) == t.domain + tail;
    ParseTagText(dns, t);
  }

  lemma AsciiText(domain: string, tail: string)
    requires IsAscii(domain + tail)
    ensures IsAscii(Lower(domain) + tail)
  {
    ConcatStops(domain, tail);
    ConcatStops(Lower(domain), tail);
    LowerKeeps(domain);
  }

  predicate Reserved(t: Tag)
  {
    t.domain == BUILTIN_DOMAIN && t.category == "crypto"
  }

  /** Such a tag: accepted in capitals, stored as a text that does not parse. */
  lemma CapitalizedReservedTag(dns: string -> bool, domain: string)
    requires FoldsCase(dns) && domain == "Radiata.woooo.tech" && dns(domain)
    ensures var parsed := ParseTag(dns, domain + "/crypto/x");
            parsed.Some? && ParseTag(dns, TagText(parsed.value)) == None
  {
    var t := Tag(domain, "crypto", "x");
    CapitalizedDomain(domain);
    CryptoParts(domain, "/crypto/x");
    assert TagText(t) == domain + "/crypto/x";
    hide Lower, IsAscii, TagText, ParseTag, ValidComponent;
    ParseTagText(dns, t);
    StoredTagReparses(dns, TagText(t));
  }

  lemma CapitalizedDomain(domain: string)
    requires domain == "Radiata.woooo.tech"
    ensures Lower(domain) == BUILTIN_DOMAIN && domain != BUILTIN_DOMAIN && '/' !in domain && IsAscii(domain)
  {
    assert domain[0] != BUILTIN_DOMAIN[0];
  }

  lemma CryptoParts(domain: string, tail: string)
    requires IsAscii(domain) && |domain| == 18 && tail == "/crypto/x"
    ensures IsAscii(domain + tail) && |domain + tail| == 27
    ensures ValidComponent("crypto") && ValidComponent("x") && '/' !in "crypto" && '/' !in "x"
  {
    ConcatStops(domain, tail);
  }

  /** Parsing is idempotent on the key space: the stored text is a key tag again. */
  lemma ParsedKeyIsKeyTag(dns: string -> bool, text: string)
    requires FoldsCase(dns) && NoStops(text)
    requires ParseTag(dns, text).Some? && InKeySpace(ParseTag(dns, text).value)
    ensures KeyTag(dns, ParseTag(dns, text).value)
  {
    hide ParseTag, NoStops, IsAscii, Lower;
    StoredTagReparses(dns, text);
    var t := ParseTag(dns, text).value;
    var domain := SplitText(dns, text);
    var tail := "/" + t.category + "/" + t.name;
    LoweredText(domain, tail);
    assert TagText(t) == t.domain + tail;
  }

  /** A key text is never mistaken for a set keyword: it is long enough and holds a slash. */
  lemma KeyTextShape(dns: string -> bool, t: Tag)
    requires KeyTag(dns, t)
    ensures 5 <= |TagText(t)| <= 128 && TagText(t) != "notin"
  {
    var text := TagText(t);
    assert text[|t.domain|] == '/';
  }
}
