/**
 Keyset paging over an ordered scan: one page past a cursor, and what following the cursors from
 the start yields.
 */
module Paging {
  import opened Wrappers
  import opened Bytes
  import opened Order
  import opened Arithmetic

  type Key = seq<Byte>
  type Raw = seq<Byte>

  datatype Entry = Entry(key: Key, value: Raw)

  /** What `select` says of a raw entry: an item, a skip, or a decoding error. */
  datatype Choice<+T> = Keep(item: T) | Skip | Fail

  type Select<!T> = Entry -> Choice<T>

  datatype Paged<+T> = Paged(items: seq<T>, next: Option<Key>)

  datatype Failure = SelectFailed | ScanFailed

  predicate Sorted(entries: seq<Entry>)
  {
    forall i, j :: 0 <= i < j < |entries| ==> Less(entries[i].key, entries[j].key)
  }

  predicate Passed(cursor: Option<Key>, key: Key)
  {
    cursor.Some? && !Less(cursor.value, key)
  }

  /** The scan order and the cursor test, by position: bytewise lexicographic. */
  lemma OrderByPosition(entries: seq<Entry>, cursor: Key, key: Key)
    ensures Sorted(entries) <==> forall i, j :: 0 <= i < j < |entries| ==> Precedes(entries[i].key, entries[j].key)
    ensures Passed(Some(cursor), key) <==> !Precedes(cursor, key)
  {
    LessIsLexicographic(cursor, key);
    forall i, j | 0 <= i < j < |entries|
      ensures Less(entries[i].key, entries[j].key) <==> Precedes(entries[i].key, entries[j].key)
    {
      LessIsLexicographic(entries[i].key, entries[j].key);
    }
  }

  /** The page collected from the unread entries, with `items` already on it. */
  function PageFrom<T>(rest: seq<Entry>, cursor: Option<Key>, limit: nat, select: Select<T>, items: seq<T>)
    : Result<Paged<T>, Failure>
  {
    if rest == [] then Ok(Paged(items, None))
    else if Passed(cursor, rest[0].key) then PageFrom(rest[1..], cursor, limit, select, items)
    else
      match select(rest[0])
      case Fail => Err(SelectFailed)
      case Skip => PageFrom(rest[1..], cursor, limit, select, items)
      case Keep(item) =>
        if |items| + 1 >= limit
        then Ok(Paged(items + [item], if |rest| > 1 then Some(rest[0].key) else None))
        else PageFrom(rest[1..], cursor, limit, select, items + [item])
  }

  /** The scan loop. A scan that breaks after the entries it gave fails every page that has to look past
      them, for an entry or for the peek. */
  method ScanPaged<T>(scan: seq<Entry>, breaks: bool, cursor: Option<Key>, limit: nat, select: Select<T>)
    returns (r: Result<Paged<T>, Failure>)
    ensures var page := PageFrom(scan, cursor, limit, select, []);
            r == if breaks && page.Ok? && page.value.next.None? then Err(ScanFailed) else page
  {
    var items: seq<T> := [];
    var i := 0;
    assert scan[0..] == scan;
    while i < |scan|
      invariant 0 <= i <= |scan|
      invariant PageFrom(scan[i..], cursor, limit, select, items) == PageFrom(scan, cursor, limit, select, [])
    {
      var entry := scan[i];
      assert scan[i..][1..] == scan[i + 1..];
      i := i + 1;
      if cursor.Some? && !Less(cursor.value, entry.key) {
        continue;
      }
      var choice := select(entry);
      if choice.Fail? {
        return Err(SelectFailed);
      }
      if choice.Keep? {
        items := items + [choice.item];
        if |items| >= limit {
          // The peek: another raw entry follows, or the scan ends, or it breaks.
          if i == |scan| && breaks {
            return Err(ScanFailed);
          }
          return Ok(Paged(items, if i < |scan| then Some(entry.key) else None));
        }
      }
    }
    r := if breaks then Err(ScanFailed) else Ok(Paged(items, None));
  }

  /** The in-memory twin keeps every entry; it is the same page with a filter that keeps all. */
  method PageKeys<T>(entries: seq<Entry>, cursor: Option<Key>, limit: nat, item: Entry -> T)
    returns (page: Paged<T>)
    ensures PageFrom(entries, cursor, limit, (e: Entry) => Keep(item(e)), []) == Ok(page)
  {
    var select: Select<T> := (e: Entry) => Keep(item(e));
    var items: seq<T> := [];
    var i := 0;
    assert entries[0..] == entries;
    while i < |entries|
      invariant 0 <= i <= |entries|
      invariant PageFrom(entries[i..], cursor, limit, select, items) == PageFrom(entries, cursor, limit, select, [])
    {
      var entry := entries[i];
      assert entries[i..][1..] == entries[i + 1..];
      i := i + 1;
      if cursor.Some? && !Less(cursor.value, entry.key) {
        continue;
      }
      items := items + [item(entry)];
      if |items| >= limit {
        return Paged(items, if i < |entries| then Some(entry.key) else None);
      }
    }
    page := Paged(items, None);
  }

  // ---- Following the cursors ----

  /** The entries past a cursor. */
  function After(entries: seq<Entry>, cursor: Option<Key>): seq<Entry>
  {
    if entries != [] && Passed(cursor, entries[0].key) then After(entries[1..], cursor) else entries
  }

  lemma {:induction false} NonePassed(entries: seq<Entry>, cursor: Option<Key>)
    requires Sorted(entries) && (entries != [] ==> !Passed(cursor, entries[0].key))
    ensures forall i :: 0 <= i < |entries| ==> !Passed(cursor, entries[i].key)
  {
    forall i | 0 <= i < |entries| ensures !Passed(cursor, entries[i].key) {
      if i > 0 && cursor.Some? {
        LessTransitive(cursor.value, entries[0].key, entries[i].key);
      }
    }
  }

  lemma {:induction false} PageIgnoresCursor<T>(
    rest: seq<Entry>, cursor: Option<Key>, limit: nat, select: Select<T>, items: seq<T>)
    requires forall i :: 0 <= i < |rest| ==> !Passed(cursor, rest[i].key)
    ensures PageFrom(rest, cursor, limit, select, items) == PageFrom(rest, None, limit, select, items)
  {
    if rest != [] {
      var choice := select(rest[0]);
      PageIgnoresCursor(rest[1..], cursor, limit, select, if choice.Keep? then items + [choice.item] else items);
    }
  }

  /** On an ordered scan a page past a cursor is the page of the entries after it. */
  lemma {:induction false} PagePastCursor<T>(entries: seq<Entry>, cursor: Option<Key>, limit: nat, select: Select<T>)
    requires Sorted(entries)
    ensures PageFrom(entries, cursor, limit, select, []) == PageFrom(After(entries, cursor), None, limit, select, [])
  {
    if entries != [] && Passed(cursor, entries[0].key) {
      PagePastCursor(entries[1..], cursor, limit, select);
    } else {
      NonePassed(entries, cursor);
      PageIgnoresCursor(entries, cursor, limit, select, []);
    }
  }

  /** The position of an entry's key splits an ordered scan. */
  lemma {:induction false} AfterKey(entries: seq<Entry>, k: nat)
    requires Sorted(entries) && k < |entries|
    ensures After(entries, Some(entries[k].key)) == entries[k + 1..]
  {
    LessIrreflexive(entries[k].key);
    if k == 0 {
      assert entries[1..] == entries[0 + 1..];
      if |entries| > 1 {
        assert !Passed(Some(entries[0].key), entries[1..][0].key);
      }
    } else {
      NotAfter(entries[0].key, entries[k].key);
      AfterKey(entries[1..], k - 1);
      assert entries[1..][k - 1 + 1..] == entries[k + 1..];
    }
  }

  lemma NotAfter(a: Key, b: Key)
    requires Less(a, b)
    ensures !Less(b, a)
  {
    if Less(b, a) {
      LessTransitive(a, b, a);
      LessIrreflexive(a);
    }
  }

  /** How many raw entries a page consumes. */
  function Consumed<T>(rest: seq<Entry>, limit: nat, select: Select<T>, n: nat): (m: nat)
    ensures m <= |rest| && (rest != [] ==> m >= 1)
  {
    if rest == [] then 0
    else if select(rest[0]).Keep? && n + 1 >= limit then 1
    else 1 + Consumed(rest[1..], limit, select, if select(rest[0]).Keep? then n + 1 else n)
  }

  /** The items an ordered run of entries yields when nothing fails. */
  function Selected<T>(rest: seq<Entry>, select: Select<T>): seq<T>
  {
    if rest == [] then []
    else if select(rest[0]).Keep? then [select(rest[0]).item] + Selected(rest[1..], select)
    else Selected(rest[1..], select)
  }

  predicate NoFailure<T>(rest: seq<Entry>, select: Select<T>)
  {
    forall i :: 0 <= i < |rest| ==> !select(rest[i]).Fail?
  }

  lemma {:induction false} SelectedSplit<T>(rest: seq<Entry>, m: nat, select: Select<T>)
    requires m <= |rest|
    ensures Selected(rest, select) == Selected(rest[..m], select) + Selected(rest[m..], select)
  {
    if m == 0 {
      assert rest[0..] == rest && rest[..0] == [];
    } else {
      SelectedSplit(rest[1..], m - 1, select);
      assert rest[..m][1..] == rest[1..][..m - 1] && rest[m..] == rest[1..][m - 1..];
    }
  }

  /** A page takes `limit` items, and a limit of zero acts as one. */
  function Capacity(limit: nat): nat
  {
    if limit == 0 then 1 else limit
  }

  lemma SelectedFirst<T>(rest: seq<Entry>, m: nat, select: Select<T>)
    requires 1 <= m <= |rest|
    ensures var tail := Selected(rest[1..][..m - 1], select);
            Selected(rest[..m], select) == if select(rest[0]).Keep? then [select(rest[0]).item] + tail else tail
    ensures NoFailure(rest[..m], select) <==> !select(rest[0]).Fail? && NoFailure(rest[1..][..m - 1], select)
  {
    var tail := rest[1..][..m - 1];
    assert rest[..m] == [rest[0]] + tail && rest[..m][1..] == tail;
    if NoFailure(rest[..m], select) {
      assert forall i :: 0 <= i < |tail| ==> tail[i] == rest[..m][i + 1];
    }
  }

  /** How much a page with `n` items already on it consumes: enough to fill it, or everything, and a
      full page ends on a kept entry. */
  lemma {:induction false} ConsumedFills<T>(rest: seq<Entry>, limit: nat, select: Select<T>, n: nat)
    requires n < Capacity(limit)
    ensures var m := Consumed(rest, limit, select, n);
            var count := n + |Selected(rest[..m], select)|;
            && count <= Capacity(limit) && (m < |rest| ==> count == Capacity(limit))
            && (count == Capacity(limit) ==> m >= 1 && select(rest[m - 1]).Keep?)
  {
    if rest != [] {
      var m := Consumed(rest, limit, select, n);
      SelectedFirst(rest, m, select);
      var keep := select(rest[0]).Keep?;
      if !keep || n + 1 < limit {
        ConsumedFills(rest[1..], limit, select, if keep then n + 1 else n);
      } else {
        assert rest[1..][..0] == [];
      }
    }
  }

  /** One page: an error exactly when an entry it consumes fails; otherwise the selected items of the
      entries it consumes, and a cursor exactly when raw entries remain. */
  lemma {:induction false} PageIs<T>(rest: seq<Entry>, limit: nat, select: Select<T>, items: seq<T>)
    requires |items| < Capacity(limit)
    ensures var m := Consumed(rest, limit, select, |items|);
            PageFrom(rest, None, limit, select, items) ==
            if NoFailure(rest[..m], select)
            then Ok(Paged(items + Selected(rest[..m], select), if m < |rest| then Some(rest[m - 1].key) else None))
            else Err(SelectFailed)
  {
    if rest == [] {
      assert items + [] == items;
    } else {
      var choice := select(rest[0]);
      var m := Consumed(rest, limit, select, |items|);
      var tail := rest[1..][..m - 1];
      var items' := if choice.Keep? then items + [choice.item] else items;
      SelectedFirst(rest, m, select);
      PageUnfolds(rest, limit, select, items);
      hide Selected, NoFailure, PageFrom, Consumed;
      if choice.Keep? && |items| + 1 >= limit {
        LastKept(rest, select);
      } else {
        PageIs(rest[1..], limit, select, items');
        if choice.Keep? {
          assert items + ([choice.item] + Selected(tail, select)) == items' + Selected(tail, select);
        }
      }
    }
  }

  /** One turn of the page loop, and how much it consumes. */
  lemma PageUnfolds<T>(rest: seq<Entry>, limit: nat, select: Select<T>, items: seq<T>)
    requires rest != []
    ensures var choice := select(rest[0]);
            var items' := if choice.Keep? then items + [choice.item] else items;
            var full := choice.Keep? && |items| + 1 >= limit;
            && PageFrom(rest, None, limit, select, items) ==
               (if choice.Fail? then Err(SelectFailed)
                else if full then Ok(Paged(items', if |rest| > 1 then Some(rest[0].key) else None))
                else PageFrom(rest[1..], None, limit, select, items'))
            && Consumed(rest, limit, select, |items|) ==
               (if full then 1 else 1 + Consumed(rest[1..], limit, select, |items'|))
  {
  }

  lemma LastKept<T>(rest: seq<Entry>, select: Select<T>)
    requires rest != [] && select(rest[0]).Keep?
    ensures NoFailure(rest[..1], select) && Selected(rest[..1], select) == [select(rest[0]).item]
  {
    SelectedFirst(rest, 1, select);
    assert rest[1..][..0] == [];
  }

  lemma {:induction false} AfterIsSuffix(entries: seq<Entry>, cursor: Option<Key>) returns (k: nat)
    ensures k <= |entries| && After(entries, cursor) == entries[k..]
    ensures forall i :: 0 <= i < k ==> Passed(cursor, entries[i].key)
  {
    if entries != [] && Passed(cursor, entries[0].key) {
      k := AfterIsSuffix(entries[1..], cursor);
      forall i | 0 <= i < k + 1 ensures Passed(cursor, entries[i].key) {
        if i > 0 {
          assert entries[1..][i - 1] == entries[i];
        }
      }
      k := k + 1;
    } else {
      k := 0;
    }
  }

  /** Where a continuation cursor resumes: past exactly what the page consumed. */
  lemma {:induction false} CursorResumes<T>(entries: seq<Entry>, cursor: Option<Key>, limit: nat, select: Select<T>)
    requires Sorted(entries)
    ensures var page := PageFrom(entries, cursor, limit, select, []);
            var rest := After(entries, cursor);
            var m := Consumed(rest, limit, select, 0);
            && page == PageFrom(rest, None, limit, select, [])
            && (page.Ok? ==> (page.value.next.Some? <==> m < |rest|))
            && (page.Ok? && page.value.next.Some? ==> After(entries, page.value.next) == rest[m..])
  {
    hide PageFrom, Consumed, After, Selected, NoFailure, Sorted, Passed, Less;
    PagePastCursor(entries, cursor, limit, select);
    var rest := After(entries, cursor);
    PageIs(rest, limit, select, []);
    var m := Consumed(rest, limit, select, 0);
    if m < |rest| {
      var k := AfterIsSuffix(entries, cursor);
      AfterKey(entries, k + m - 1);
      assert rest[m - 1] == entries[k + m - 1];
      assert entries[k + m - 1 + 1..] == rest[m..];
    }
  }

  /** Every page from a cursor to the end of the stream, each one asked for with the cursor of the last. */
  function Follow<T>(entries: seq<Entry>, cursor: Option<Key>, limit: nat, select: Select<T>)
    : (r: Result<seq<Paged<T>>, Failure>)
    requires Sorted(entries)
    ensures r.Ok? ==> |r.value| >= 1
    decreases |After(entries, cursor)|
  {
    CursorResumes(entries, cursor, limit, select);
    var page := PageFrom(entries, cursor, limit, select, []);
    if page.Err? then Err(page.error)
    else if page.value.next.None? then Ok([page.value])
    else
      var others := Follow(entries, page.value.next, limit, select);
      if others.Err? then others else Ok([page.value] + others.value)
  }

  function Items<T>(pages: seq<Paged<T>>): seq<T>
  {
    if pages == [] then [] else pages[0].items + Items(pages[1..])
  }

  /** Every page but the last is full and continues; the last one does not continue. */
  ghost predicate WellPaged<T>(pages: seq<Paged<T>>, capacity: nat)
  {
    && pages != []
    && (forall i :: 0 <= i < |pages| - 1 ==> |pages[i].items| == capacity && pages[i].next.Some?)
    && pages[|pages| - 1].next.None?
    && |pages[|pages| - 1].items| <= capacity
  }

  /** How the last page ends: full only on a kept entry, empty only past a skipped one. */
  ghost predicate EndsWell<T>(last: Paged<T>, rest: seq<Entry>, capacity: nat, select: Select<T>)
  {
    && (|last.items| == capacity ==> rest != [] && select(rest[|rest| - 1]).Keep?)
    && (last.items == [] ==> rest == [] || !select(rest[|rest| - 1]).Keep?)
  }

  lemma {:induction false} KeptIsSelected<T>(rest: seq<Entry>, select: Select<T>)
    requires rest != [] && select(rest[|rest| - 1]).Keep?
    ensures Selected(rest, select) != []
  {
    if |rest| > 1 && !select(rest[0]).Keep? {
      assert rest[1..][|rest| - 2] == rest[|rest| - 1];
      KeptIsSelected(rest[1..], select);
    }
  }

  lemma NoFailureSplit<T>(rest: seq<Entry>, m: nat, select: Select<T>)
    requires m <= |rest|
    ensures NoFailure(rest, select) <==> NoFailure(rest[..m], select) && NoFailure(rest[m..], select)
  {
    assert rest == rest[..m] + rest[m..];
    if NoFailure(rest, select) {
      assert forall i :: 0 <= i < |rest[m..]| ==> rest[m..][i] == rest[m + i];
    }
  }

  /** Following succeeds exactly when no entry of `rest` fails, and then the pages together hold every
      selected entry of `rest` exactly once, in key order. */
  ghost predicate Streams<T>(r: Result<seq<Paged<T>>, Failure>, rest: seq<Entry>, capacity: nat, select: Select<T>)
  {
    && (r.Ok? <==> NoFailure(rest, select))
    && (r.Ok? ==> Items(r.value) == Selected(rest, select))
    && (r.Ok? ==> WellPaged(r.value, capacity))
    && (r.Ok? ==> EndsWell(r.value[|r.value| - 1], rest, capacity, select))
  }

  lemma LastPageStreams<T>(page: Paged<T>, rest: seq<Entry>, capacity: nat, select: Select<T>)
    requires NoFailure(rest, select) && page.items == Selected(rest, select) && page.next.None?
    requires |page.items| <= capacity
    requires |page.items| == capacity ==> rest != [] && select(rest[|rest| - 1]).Keep?
    ensures Streams(Ok([page]), rest, capacity, select)
  {
    assert [page][1..] == [] && Items([page]) == page.items + [];
    if rest != [] && select(rest[|rest| - 1]).Keep? {
      KeptIsSelected(rest, select);
    }
  }

  lemma FirstPageStreams<T>(
    page: Paged<T>, others: seq<Paged<T>>, rest: seq<Entry>, m: nat, capacity: nat, select: Select<T>)
    requires m < |rest| && NoFailure(rest[..m], select) && page.items == Selected(rest[..m], select)
    requires page.next.Some? && |page.items| == capacity
    requires Streams(Ok(others), rest[m..], capacity, select)
    ensures Streams(Ok([page] + others), rest, capacity, select)
  {
    hide Selected, NoFailure;
    NoFailureSplit(rest, m, select);
    SelectedSplit(rest, m, select);
    var pages := [page] + others;
    assert pages[1..] == others;
    assert pages[|pages| - 1] == others[|others| - 1];
    assert rest[m..][|rest| - m - 1] == rest[|rest| - 1];
  }

  lemma FailedStreams<T>(rest: seq<Entry>, m: nat, capacity: nat, select: Select<T>)
    requires m <= |rest| && !(NoFailure(rest[..m], select) && NoFailure(rest[m..], select))
    ensures Streams<T>(Err(SelectFailed), rest, capacity, select)
  {
    NoFailureSplit(rest, m, select);
  }

  /** The page that following asks for first, in terms of the entries past the cursor. */
  lemma FirstPage<T>(entries: seq<Entry>, cursor: Option<Key>, limit: nat, select: Select<T>)
    requires Sorted(entries)
    ensures var page := PageFrom(entries, cursor, limit, select, []);
            var rest := After(entries, cursor);
            var m := Consumed(rest, limit, select, 0);
            && (page.Ok? <==> NoFailure(rest[..m], select))
            && (page.Ok? ==> page.value.items == Selected(rest[..m], select))
  {
    hide PageFrom, Consumed, After, Selected, NoFailure, Sorted, Passed, Less;
    CursorResumes(entries, cursor, limit, select);
    var rest := After(entries, cursor);
    PageIs(rest, limit, select, []);
    var items := Selected(rest[..Consumed(rest, limit, select, 0)], select);
    assert [] + items == items;
  }

  /** From any cursor, following streams the entries past it. */
  lemma {:induction false} FollowFrom<T>(entries: seq<Entry>, cursor: Option<Key>, limit: nat, select: Select<T>)
    requires Sorted(entries)
    ensures Streams(Follow(entries, cursor, limit, select), After(entries, cursor), Capacity(limit), select)
    decreases |After(entries, cursor)|
  {
    assert 0 < Capacity(limit);
    CursorResumes(entries, cursor, limit, select);
    FirstPage(entries, cursor, limit, select);
    var rest, capacity := After(entries, cursor), Capacity(limit);
    var m := Consumed(rest, limit, select, 0);
    ConsumedFills(rest, limit, select, 0);
    var page := PageFrom(entries, cursor, limit, select, []);
    hide PageFrom, Consumed, After, Selected, NoFailure, Sorted, Passed, WellPaged, EndsWell, Items, Capacity, Less;
    if page.Err? {
      FailedStreams(rest, m, capacity, select);
    } else if page.value.next.None? {
      assert rest[..m] == rest;
      LastPageStreams(page.value, rest, capacity, select);
    } else {
      FollowFrom(entries, page.value.next, limit, select);
      var others := Follow(entries, page.value.next, limit, select);
      hide Follow;
      if others.Ok? {
        FirstPageStreams(page.value, others.value, rest, m, capacity, select);
      } else {
        FailedStreams(rest, m, capacity, select);
      }
    }
  }

  /** From the start: the whole stream, complete and without duplicates, or an error exactly when some
      entry of the scan fails. */
  lemma FollowCollects<T>(entries: seq<Entry>, limit: nat, select: Select<T>)
    requires Sorted(entries)
    ensures var r := Follow(entries, None, limit, select);
            && (r.Ok? <==> NoFailure(entries, select))
            && (r.Ok? ==> Items(r.value) == Selected(entries, select) && WellPaged(r.value, Capacity(limit)))
  {
    FollowFrom(entries, None, limit, select);
  }

  lemma {:induction false} ItemCount<T>(pages: seq<Paged<T>>, capacity: nat)
    requires WellPaged(pages, capacity)
    ensures |Items(pages)| == (|pages| - 1) * capacity + |pages[|pages| - 1].items|
  {
    if |pages| > 1 {
      assert WellPaged(pages[1..], capacity) by {
        forall i | 0 <= i < |pages[1..]| - 1
          ensures |pages[1..][i].items| == capacity && pages[1..][i].next.Some?
        {
          assert pages[1..][i] == pages[i + 1];
        }
      }
      ItemCount(pages[1..], capacity);
      assert (|pages| - 2) * capacity + capacity == (|pages| - 1) * capacity;
    } else {
      assert pages[1..] == [] && Items(pages[1..]) == [];
    }
  }

  /** The remainder of a count given as whole pages and a last one. */
  lemma PageRemainder(full: nat, capacity: nat, last: nat)
    requires capacity >= 1 && last <= capacity
    ensures (full * capacity + last) % capacity == (if last == capacity then 0 else last)
    ensures (full * capacity + last) / capacity == (if last == capacity then full + 1 else full)
  {
    var n := full * capacity + last;
    var q, r := if last == capacity then full + 1 else full, if last == capacity then 0 else last;
    assert n == q * capacity + r;
    DivisionUnique(n, capacity, q, r);
  }

  /** A stream ends in an empty page exactly when its kept entries fill whole pages and the last raw
      entry, if any, is not one of them: the peek sees raw entries, so a filtered tail defeats it. */
  lemma TrailingEmptyPage<T>(entries: seq<Entry>, limit: nat, select: Select<T>)
    requires Sorted(entries) && NoFailure(entries, select)
    ensures Follow(entries, None, limit, select).Ok?
    ensures var pages := Follow(entries, None, limit, select).value;
            var kept := |Selected(entries, select)|;
            && (pages[|pages| - 1].items == [] <==>
                kept % Capacity(limit) == 0 && (entries == [] || !select(entries[|entries| - 1]).Keep?))
  {
    FollowFrom(entries, None, limit, select);
    var pages := Follow(entries, None, limit, select).value;
    ItemCount(pages, Capacity(limit));
    PageRemainder(|pages| - 1, Capacity(limit), |pages[|pages| - 1].items|);
  }

  lemma {:induction false} KeepsAll<T>(entries: seq<Entry>, select: Select<T>)
    requires forall i :: 0 <= i < |entries| ==> select(entries[i]).Keep?
    ensures |Selected(entries, select)| == |entries|
    ensures forall i :: 0 <= i < |entries| ==> Selected(entries, select)[i] == select(entries[i]).item
  {
    if entries != [] {
      KeepsAll(entries[1..], select);
    }
  }

  /** With no filtering there are as many pages as the items need, one at least, and only an empty scan
      ends in an empty page. */
  lemma UnfilteredPages<T>(entries: seq<Entry>, limit: nat, item: Entry -> T)
    requires Sorted(entries)
    ensures var r := Follow(entries, None, limit, (e: Entry) => Keep(item(e)));
            && r.Ok?
            && |Items(r.value)| == |entries|
            && (forall i :: 0 <= i < |entries| ==> Items(r.value)[i] == item(entries[i]))
            && |r.value| == (if entries == [] then 1 else (|entries| + Capacity(limit) - 1) / Capacity(limit))
            && (r.value[|r.value| - 1].items == [] <==> entries == [])
  {
    hide Follow, Items, Sorted, EndsWell, Selected;
    var select: Select<T> := (e: Entry) => Keep(item(e));
    KeepsAll(entries, select);
    FollowFrom(entries, None, limit, select);
    var pages := Follow(entries, None, limit, select).value;
    var capacity := Capacity(limit);
    var last := |pages[|pages| - 1].items|;
    ItemCount(pages, capacity);
    TrailingEmptyPage(entries, limit, select);
    if entries != [] {
      assert 1 <= last;
      DivisionUnique(|entries| + capacity - 1, capacity, |pages|, last - 1) by {
        assert (|pages| - 1) * capacity + capacity == |pages| * capacity;
      }
    }
  }

  function KeepZero(e: Entry): Choice<int>
  {
    if e.key == [0] then Keep(7) else Skip
  }

  /** The promise that a stream never ends in an empty page is false of filtered scans: one kept entry
      and a skipped one after it. */
  lemma FilteredStreamEndsEmpty(scan: seq<Entry>)
    requires scan == [Entry([0], []), Entry([1], [])]
    ensures Sorted(scan) && Follow(scan, None, 1, KeepZero) == Ok([Paged([7], Some([0])), Paged([], None)])
  {
    var a, b := scan[0], scan[1];
    assert Less(a.key, b.key);
    assert scan[1..] == [b] && [b][1..] == [];
    assert PageFrom(scan, None, 1, KeepZero, []) == Ok(Paged([] + [7], Some(a.key)));
    assert !Less(a.key, a.key);
    assert PageFrom(scan, Some(a.key), 1, KeepZero, []) == PageFrom([b], Some(a.key), 1, KeepZero, []);
    assert PageFrom([b], Some(a.key), 1, KeepZero, []) == PageFrom([], Some(a.key), 1, KeepZero, []);
    assert Follow(scan, Some(a.key), 1, KeepZero) == Ok([Paged([], None)]);
    var first := Paged([7], Some(a.key));
    assert [] + [7] == [7] && PageFrom(scan, None, 1, KeepZero, []).value == first;
    assert Follow(scan, first.next, 1, KeepZero).value == [Paged([], None)];
    assert Follow(scan, None, 1, KeepZero) == Ok([first] + [Paged([], None)]);
    assert [first] + [Paged([], None)] == [first, Paged([], None)];
  }

  // ---- Pages of changing snapshots ----

  /** A key between the cursor a page started from and the one it ends with. */
  predicate Between(cursor: Option<Key>, key: Key, next: Option<Key>)
  {
    !Passed(cursor, key) && (next.None? || !Less(next.value, key))
  }

  lemma {:induction false} SelectedHas<T>(rest: seq<Entry>, select: Select<T>, k: nat)
    requires k < |rest| && select(rest[k]).Keep?
    ensures select(rest[k]).item in Selected(rest, select)
  {
    if k > 0 {
      assert rest[1..][k - 1] == rest[k];
      SelectedHas(rest[1..], select, k - 1);
    }
  }

  /** A page holds every kept entry between its cursors. */
  lemma PageCovers<T>(entries: seq<Entry>, cursor: Option<Key>, limit: nat, select: Select<T>, k: nat)
    requires Sorted(entries) && k < |entries| && PageFrom(entries, cursor, limit, select, []).Ok?
    requires Between(cursor, entries[k].key, PageFrom(entries, cursor, limit, select, []).value.next)
    requires select(entries[k]).Keep?
    ensures select(entries[k]).item in PageFrom(entries, cursor, limit, select, []).value.items
  {
    var page := PageFrom(entries, cursor, limit, select, []).value;
    var j := AfterIsSuffix(entries, cursor);
    var rest := After(entries, cursor);
    var m := Consumed(rest, limit, select, 0);
    PagePastCursor(entries, cursor, limit, select);
    PageIs(rest, limit, select, []);
    assert j <= k && rest[k - j] == entries[k];
    assert m < |rest| ==> rest[m - 1] == entries[j + m - 1];
    assert k - j < m;
    assert rest[..m][k - j] == entries[k];
    hide PageFrom, Consumed, After, Sorted, Passed;
    SelectedHas(rest[..m], select, k - j);
  }

  /** The cursor the i-th page is asked for with. */
  function CursorBefore<T>(pages: seq<Paged<T>>, i: nat): Option<Key>
    requires i <= |pages|
  {
    if i == 0 then None else pages[i - 1].next
  }

  /** A stream read to its end, every page from a snapshot of its own. */
  ghost predicate ReadThrough<T>(scans: seq<seq<Entry>>, pages: seq<Paged<T>>, limit: nat, select: Select<T>)
  {
    && |scans| == |pages| >= 1 && pages[|pages| - 1].next.None?
    && (forall i :: 0 <= i < |scans| ==> PageOf(scans[i], CursorBefore(pages, i), limit, select, pages[i]))
  }

  ghost predicate PageOf<T>(scan: seq<Entry>, cursor: Option<Key>, limit: nat, select: Select<T>, page: Paged<T>)
  {
    Sorted(scan) && PageFrom(scan, cursor, limit, select, []) == Ok(page)
  }

  /** The scan has an entry of the key, and keeps it. */
  ghost predicate Keeps<T>(scan: seq<Entry>, select: Select<T>, key: Key)
  {
    exists k :: 0 <= k < |scan| && scan[k].key == key && select(scan[k]).Keep?
  }

  /** The page holds the item of the scan's entry of the key. */
  ghost predicate Shows<T>(scan: seq<Entry>, page: Paged<T>, select: Select<T>, key: Key)
  {
    exists k :: 0 <= k < |scan| && scan[k].key == key && select(scan[k]).Keep? && select(scan[k]).item in page.items
  }

  /** Some page's cursors enclose any given key. */
  lemma {:induction false} EnclosingPage<T>(pages: seq<Paged<T>>, key: Key, i: nat) returns (found: nat)
    requires i < |pages| && pages[|pages| - 1].next.None? && !Passed(CursorBefore(pages, i), key)
    ensures found < |pages| && Between(CursorBefore(pages, found), key, pages[found].next)
    decreases |pages| - i
  {
    hide Passed, Between;
    if Between(CursorBefore(pages, i), key, pages[i].next) {
      found := i;
    } else {
      NotYet(CursorBefore(pages, i), key, pages[i].next);
      found := EnclosingPage(pages, key, i + 1);
    }
  }

  lemma NotYet(cursor: Option<Key>, key: Key, next: Option<Key>)
    requires !Passed(cursor, key) && !Between(cursor, key, next)
    ensures next.Some? && !Passed(next, key)
  {
  }

  lemma PageShows<T>(
    scan: seq<Entry>, cursor: Option<Key>, limit: nat, select: Select<T>, page: Paged<T>, key: Key)
    requires PageOf(scan, cursor, limit, select, page) && Keeps(scan, select, key) && Between(cursor, key, page.next)
    ensures Shows(scan, page, select, key)
  {
    var k :| 0 <= k < |scan| && scan[k].key == key && select(scan[k]).Keep?;
    hide PageFrom, Sorted, Between;
    PageCovers(scan, cursor, limit, select, k);
  }

  /** Even if every page is taken from a new snapshot, a stream read to its end shows every key that all
      of the snapshots keep, as the snapshot of its page has it. */
  lemma ReadThroughShows<T>(scans: seq<seq<Entry>>, pages: seq<Paged<T>>, limit: nat, select: Select<T>, key: Key)
    returns (shown: nat)
    requires ReadThrough(scans, pages, limit, select)
    requires forall j :: 0 <= j < |scans| ==> Keeps(scans[j], select, key)
    ensures shown < |scans| && Shows(scans[shown], pages[shown], select, key)
  {
    shown := EnclosingPage(pages, key, 0);
    assert PageOf(scans[shown], CursorBefore(pages, shown), limit, select, pages[shown]);
    PageShows(scans[shown], CursorBefore(pages, shown), limit, select, pages[shown], key);
  }
}
