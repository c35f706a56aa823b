/**
 One byte string per value: conforming values with the same meaning, where maps are read as
 finite maps and the order of their entries is forgotten, have the same encoding.
 */
module CborUniqueness {
  import opened Bytes
  import opened Order
  import opened CborGrammar

  datatype Meaning =
    | UnsignedNumber(n: nat)
    | NegativeNumber(n: nat)
    | Octets(bytes: seq<Byte>)
    | Characters(bytes: seq<Byte>)
    | Sequence(items: seq<Meaning>)
    | Mapping(entries: map<Meaning, Meaning>)
    | Truth(truth: bool)
    | Nothing

  function Denote(v: Value): Meaning
  {
    match v
    case UInt(n) => UnsignedNumber(n)
    case NInt(n) => NegativeNumber(n)
    case ByteString(bytes) => Octets(bytes)
    case Text(bytes) => Characters(bytes)
    case Array(items) => Sequence(DenoteList(items))
    case Map(entries) => Mapping(DenoteEntries(entries))
    case Bool(truth) => Truth(truth)
    case Null => Nothing
  }

  function DenoteList(items: List): seq<Meaning>
  {
    if items.Nil? then [] else [Denote(items.head)] + DenoteList(items.tail)
  }

  function DenoteEntries(entries: Entries): map<Meaning, Meaning>
  {
    if entries.End? then map[]
    else DenoteEntries(entries.rest)[Denote(entries.key) := Denote(entries.value)]
  }

  /** On conforming values the meaning determines the value. */
  lemma {:induction false} DenoteInjective(p: Profile, v: Value, w: Value)
    requires Shaped(p, v) && Shaped(p, w)
    requires Denote(v) == Denote(w)
    ensures v == w
    decreases v, 0
  {
    match v
    case Array(items) => DenoteListInjective(p, items, w.items);
    case Map(entries) => DenoteEntriesInjective(p, entries, w.entries);
    case _ =>
  }

  lemma {:induction false} DenoteListInjective(p: Profile, items: List, others: List)
    requires ShapedList(p, items) && ShapedList(p, others)
    requires DenoteList(items) == DenoteList(others)
    ensures items == others
    decreases items
  {
    if items.Cons? && others.Cons? {
      assert DenoteList(items)[0] == DenoteList(others)[0];
      assert DenoteList(items)[1..] == DenoteList(others)[1..];
      DenoteInjective(p, items.head, others.head);
      DenoteListInjective(p, items.tail, others.tail);
    }
  }

  lemma {:induction false} DenoteEntriesInjective(p: Profile, entries: Entries, others: Entries)
    requires ShapedEntries(p, entries) && Ascending(entries)
    requires ShapedEntries(p, others) && Ascending(others)
    requires DenoteEntries(entries) == DenoteEntries(others)
    ensures entries == others
    decreases entries, 1
  {
    hide Shaped, Encode;
    assert entries.Entry? ==> Denote(entries.key) in DenoteEntries(entries);
    assert others.Entry? ==> Denote(others.key) in DenoteEntries(others);
    if entries.Entry? && others.Entry? {
      var key, other := entries.key, others.key;
      if Less(Encode(key), Encode(other)) {
        SmallerKeyAbsent(p, key, others);
      } else if Less(Encode(other), Encode(key)) {
        AbsentBelowKeys(p, entries, other);
      } else {
        LessTotal(Encode(key), Encode(other));
        EncodeInjective(p, key, other);
        if entries.rest.Entry? { SmallerKeyAbsent(p, key, entries.rest); }
        if others.rest.Entry? { SmallerKeyAbsent(p, key, others.rest); }
        RemoveKey(DenoteEntries(entries.rest), DenoteEntries(others.rest),
                  Denote(key), Denote(entries.value), Denote(others.value));
        DenoteInjective(p, entries.value, others.value);
        DenoteEntriesInjective(p, entries.rest, others.rest);
      }
    }
  }

  lemma RemoveKey<K, V>(m: map<K, V>, m': map<K, V>, k: K, v: V, v': V)
    requires k !in m && k !in m' && m[k := v] == m'[k := v']
    ensures m == m' && v == v'
  {
    assert m[k := v][k] == m'[k := v'][k];
    assert m == m[k := v] - {k};
    assert m' == m'[k := v'] - {k};
  }

  lemma EncodeInjective(p: Profile, v: Value, w: Value)
    requires Shaped(p, v) && Shaped(p, w) && Encode(v) == Encode(w)
    ensures v == w
  {
    var deep := p.(maxDepth := Depth(v) + Depth(w));
    ShapedIgnoresDepth(p, deep, v);
    ShapedIgnoresDepth(p, deep, w);
    assert Encode(v) + [] == Encode(w);
    SelfDelimiting(deep, v, w, []);
  }

  lemma {:induction false} ShapedIgnoresDepth(p: Profile, q: Profile, v: Value)
    requires Shaped(p, v) && p.(maxDepth := q.maxDepth) == q
    ensures Shaped(q, v)
    decreases v
  {
    match v
    case Array(items) => ShapedListIgnoresDepth(p, q, items);
    case Map(entries) => ShapedEntriesIgnoresDepth(p, q, entries);
    case _ =>
  }

  lemma {:induction false} ShapedListIgnoresDepth(p: Profile, q: Profile, items: List)
    requires ShapedList(p, items) && p.(maxDepth := q.maxDepth) == q
    ensures ShapedList(q, items)
    decreases items
  {
    if items.Cons? {
      ShapedIgnoresDepth(p, q, items.head);
      ShapedListIgnoresDepth(p, q, items.tail);
    }
  }

  lemma {:induction false} ShapedEntriesIgnoresDepth(p: Profile, q: Profile, entries: Entries)
    requires ShapedEntries(p, entries) && p.(maxDepth := q.maxDepth) == q
    ensures ShapedEntries(q, entries)
    decreases entries
  {
    if entries.Entry? {
      ShapedIgnoresDepth(p, q, entries.key);
      ShapedIgnoresDepth(p, q, entries.value);
      ShapedEntriesIgnoresDepth(p, q, entries.rest);
    }
  }

  /** A key below the first key of an ascending map is not a key of it. */
  lemma {:induction false} SmallerKeyAbsent(p: Profile, v: Value, entries: Entries)
    requires Shaped(p, v) && ShapedEntries(p, entries) && Ascending(entries)
    requires entries.Entry? && Less(Encode(v), Encode(entries.key))
    ensures Denote(v) !in DenoteEntries(entries)
    decreases v, 1, entries
  {
    hide Encode, Shaped;
    LessIrreflexive(Encode(v));
    if Denote(v) == Denote(entries.key) {
      DenoteInjective(p, v, entries.key);
    }
    if entries.rest.Entry? {
      LessTransitive(Encode(v), Encode(entries.key), Encode(entries.rest.key));
      SmallerKeyAbsent(p, v, entries.rest);
    }
  }

  lemma {:induction false} AbsentBelowKeys(p: Profile, entries: Entries, w: Value)
    requires Shaped(p, w) && ShapedEntries(p, entries) && Ascending(entries)
    requires entries.Entry? && Less(Encode(w), Encode(entries.key))
    ensures Denote(w) !in DenoteEntries(entries)
    decreases entries, 0
  {
    hide Encode, Shaped;
    LessIrreflexive(Encode(w));
    if Denote(entries.key) == Denote(w) {
      DenoteInjective(p, entries.key, w);
    }
    if entries.rest.Entry? {
      LessTransitive(Encode(w), Encode(entries.key), Encode(entries.rest.key));
      AbsentBelowKeys(p, entries.rest, w);
    }
  }

  /** Two conforming encodings of the same meaning are the same bytes. */
  lemma SameMeaningSameBytes(p: Profile, v: Value, w: Value)
    requires Conforms(p, v) && Conforms(p, w)
    ensures Denote(v) == Denote(w) <==> Encode(v) == Encode(w)
  {
    if Denote(v) == Denote(w) {
      DenoteInjective(p, v, w);
    }
    if Encode(v) == Encode(w) {
      EncodeInjective(p, v, w);
    }
  }
}
