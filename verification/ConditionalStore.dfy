/**
 The conditional key-value store: a transaction is a list of operations whose conditions are all
 evaluated against the entries before it, and which is applied as one step or not at all.
 Value digests are taken as injective, so an exact expectation names the value itself. A receipt is an
 entry too, under its transaction id: forgetting it is its exact delete.
 */
module ConditionalStore {
  import opened Wrappers

  datatype Expectation<+V> = Absent | Exact(value: V)

  datatype Operation<+K, +V> =
    | Check(key: K, expected: Expectation<V>)
    | Put(key: K, expected: Expectation<V>, value: V)
    | Delete(key: K, was: V)

  function Lookup<K, V>(entries: map<K, V>, key: K): Option<V>
  {
    if key in entries then Some(entries[key]) else None
  }

  predicate ExpectationMatches<V(==)>(found: Option<V>, expected: Expectation<V>)
  {
    match (found, expected)
    case (None, Absent) => true
    case (Some(value), Exact(digest)) => value == digest
    case _ => false
  }

  predicate ConditionMatches<K, V(==)>(entries: map<K, V>, operation: Operation<K, V>)
  {
    match operation
    case Check(key, expected) => ExpectationMatches(Lookup(entries, key), expected)
    case Put(key, expected, _) => ExpectationMatches(Lookup(entries, key), expected)
    case Delete(key, was) => key in entries && entries[key] == was
  }

  /** Every condition holds of the entries as they are before the transaction. */
  predicate Admits<K, V(==)>(entries: map<K, V>, operations: seq<Operation<K, V>>)
  {
    forall i :: 0 <= i < |operations| ==> ConditionMatches(entries, operations[i])
  }

  function ApplyOne<K, V>(entries: map<K, V>, operation: Operation<K, V>): map<K, V>
  {
    match operation
    case Check(_, _) => entries
    case Put(key, _, value) => entries[key := value]
    case Delete(key, _) => entries - {key}
  }

  function Apply<K, V>(entries: map<K, V>, operations: seq<Operation<K, V>>): map<K, V>
  {
    if operations == [] then entries
    else ApplyOne(Apply(entries, operations[..|operations| - 1]), operations[|operations| - 1])
  }

  lemma ApplyOneOperation<K, V>(entries: map<K, V>, a: Operation<K, V>)
    ensures Apply(entries, [a]) == ApplyOne(entries, a)
  {
    assert [a][..0] == [];
  }

  lemma ApplyLast<K, V>(entries: map<K, V>, operations: seq<Operation<K, V>>, last: Operation<K, V>)
    ensures Apply(entries, operations + [last]) == ApplyOne(Apply(entries, operations), last)
  {
    assert (operations + [last])[..|operations|] == operations;
  }

  // ---- Distinct identities ----

  /** What a transaction must be to be built at all: no key is named twice. */
  predicate DistinctKeys<K(==), V>(operations: seq<Operation<K, V>>)
  {
    forall i, j :: 0 <= i < j < |operations| ==> operations[i].key != operations[j].key
  }

  function Outcome<K, V>(operation: Operation<K, V>, found: Option<V>): Option<V>
  {
    match operation
    case Check(_, _) => found
    case Put(_, _, value) => Some(value)
    case Delete(_, _) => None
  }

  /** Under distinct keys each operation has its effect, whatever comes before or after it, and nothing
      else changes. */
  lemma {:induction false} ApplyDistinct<K, V>(entries: map<K, V>, operations: seq<Operation<K, V>>, key: K)
    requires DistinctKeys(operations)
    ensures forall i :: 0 <= i < |operations| && operations[i].key == key ==>
              Lookup(Apply(entries, operations), key) == Outcome(operations[i], Lookup(entries, key))
    ensures (forall i :: 0 <= i < |operations| ==> operations[i].key != key) ==>
              Lookup(Apply(entries, operations), key) == Lookup(entries, key)
  {
    if operations != [] {
      ApplyDistinct(entries, operations[..|operations| - 1], key);
    }
  }

  lemma SameLookups<K, V>(a: map<K, V>, b: map<K, V>)
    requires forall key: K :: Lookup(a, key) == Lookup(b, key)
    ensures a == b
  {
    forall key: K ensures key in a <==> key in b {
      assert Lookup(a, key) == Lookup(b, key);
    }
    forall key: K | key in a ensures a[key] == b[key] {
      assert Lookup(a, key) == Lookup(b, key);
    }
  }

  lemma AdmitsSubset<K, V>(entries: map<K, V>, operations: seq<Operation<K, V>>, others: seq<Operation<K, V>>)
    requires Admits(entries, operations) && forall operation :: operation in others ==> operation in operations
    ensures Admits(entries, others)
  {
    forall j | 0 <= j < |others| ensures ConditionMatches(entries, others[j]) {
      assert others[j] in operations;
    }
  }

  /** So a transaction is a set of operations: reordering changes neither whether it is admitted nor
      what it does. */
  lemma OrderImmaterial<K, V>(entries: map<K, V>, operations: seq<Operation<K, V>>, others: seq<Operation<K, V>>)
    requires DistinctKeys(operations) && DistinctKeys(others)
    requires forall operation :: operation in operations <==> operation in others
    ensures Admits(entries, operations) <==> Admits(entries, others)
    ensures Apply(entries, operations) == Apply(entries, others)
  {
    if Admits(entries, operations) {
      AdmitsSubset(entries, operations, others);
    }
    if Admits(entries, others) {
      AdmitsSubset(entries, others, operations);
    }
    var a, b := Apply(entries, operations), Apply(entries, others);
    forall key: K ensures Lookup(a, key) == Lookup(b, key) {
      ApplyDistinct(entries, operations, key);
      ApplyDistinct(entries, others, key);
      if i :| 0 <= i < |operations| && operations[i].key == key {
        assert operations[i] in others;
        var j :| 0 <= j < |others| && others[j] == operations[i];
      } else {
        forall j | 0 <= j < |others| ensures others[j].key != key {
          assert others[j] in operations;
        }
      }
    }
    SameLookups(a, b);
  }
}
