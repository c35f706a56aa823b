/**
 The byte stream hashed for a store transaction. Every field is tagged, fixed-width or preceded by
 its length, so the stream determines the transaction.
 */
module TransactionDigest {
  import opened Wrappers
  import opened Bytes
  import Text

  const USIZE_LIMIT: nat := 0x1_0000_0000_0000_0000

  /** A byte string that fits in memory. */
  type Blob = s: seq<Byte> | |s| < USIZE_LIMIT

  type Digest = d: seq<Byte> | |d| == 32 witness seq(32, _ => 0)

  datatype Expectation = Absent | Exact(digest: Digest)

  datatype Operation =
    | Check(namespace: Blob, key: Blob, expected: Expectation)
    | Put(namespace: Blob, key: Blob, expected: Expectation, value: Blob)
    | Delete(namespace: Blob, key: Blob, was: Digest)
    | ForgetReceipt(transaction: Blob, digest: Digest)

  /** "radiata/store-transaction/v1" and a zero byte. */
  const STORE_TRANSACTION_DOMAIN: seq<Byte> :=
    [114, 97, 100, 105, 97, 116, 97, 47, 115, 116, 111, 114, 101, 45,
     116, 114, 97, 110, 115, 97, 99, 116, 105, 111, 110, 47, 118, 49, 0]

  /** "radiata/store-value/v1" and a zero byte. */
  const STORE_VALUE_DOMAIN: seq<Byte> :=
    [114, 97, 100, 105, 97, 116, 97, 47, 115, 116, 111, 114, 101, 45, 118, 97, 108, 117, 101, 47, 118, 49, 0]

  /** A length as sixteen big-endian bytes. */
  function Length(n: nat): (s: seq<Byte>)
    ensures |s| == 16
  {
    BigEndian(n, 16)
  }

  function Framed(value: Blob): seq<Byte>
  {
    Length(|value|) + value
  }

  function ExpectationBytes(e: Expectation): seq<Byte>
  {
    if e.Absent? then [0] else [1] + e.digest
  }

  /** The bytes of an operation after its tag. */
  function Body(o: Operation): seq<Byte>
  {
    match o
    case Check(namespace, key, expected) => Framed(namespace) + (Framed(key) + ExpectationBytes(expected))
    case Put(namespace, key, expected, value) =>
      Framed(namespace) + (Framed(key) + (ExpectationBytes(expected) + Framed(value)))
    case Delete(namespace, key, was) => Framed(namespace) + (Framed(key) + was)
    case ForgetReceipt(transaction, digest) => Framed(transaction) + digest
  }

  function Tag(o: Operation): Byte
  {
    match o
    case Check(_, _, _) => 0
    case Put(_, _, _, _) => 1
    case Delete(_, _, _) => 2
    case ForgetReceipt(_, _) => 3
  }

  function OperationBytes(o: Operation): seq<Byte>
  {
    [Tag(o)] + Body(o)
  }

  function OperationsBytes(operations: seq<Operation>): seq<Byte>
  {
    if operations == [] then []
    else OperationBytes(operations[0]) + OperationsBytes(operations[1..])
  }

  /** Everything the hasher is fed for a transaction. */
  function Preimage(base: Blob, operations: seq<Operation>): seq<Byte>
  {
    STORE_TRANSACTION_DOMAIN + (Framed(base) + (Length(|operations|) + OperationsBytes(operations)))
  }

  function ValuePreimage(value: Blob): seq<Byte>
  {
    STORE_VALUE_DOMAIN + Framed(value)
  }

  /** `digest_store_operations` up to the hash: the updates in the order they are made. */
  method FeedTransaction(base: Blob, operations: seq<Operation>) returns (fed: seq<Byte>)
    ensures fed == Preimage(base, operations)
  {
    fed := STORE_TRANSACTION_DOMAIN;
    fed := fed + Framed(base);
    fed := fed + Length(|operations|);
    ghost var head := fed;
    Assoc(STORE_TRANSACTION_DOMAIN, Framed(base), Length(|operations|) + OperationsBytes(operations));
    Assoc(STORE_TRANSACTION_DOMAIN + Framed(base), Length(|operations|), OperationsBytes(operations));
    assert operations[0..] == operations;
    for i := 0 to |operations|
      invariant fed + OperationsBytes(operations[i..]) == head + OperationsBytes(operations)
    {
      hide OperationBytes;
      assert operations[i..][1..] == operations[i + 1..];
      var bytes := FeedOperation(operations[i]);
      Assoc(fed, bytes, OperationsBytes(operations[i + 1..]));
      fed := fed + bytes;
    }
    assert fed + [] == fed;
  }

  method FeedOperation(o: Operation) returns (fed: seq<Byte>)
    ensures fed == OperationBytes(o)
  {
    hide Framed, ExpectationBytes;
    fed := [Tag(o)];
    match o
    case Check(namespace, key, expected) =>
      fed := fed + (Framed(namespace) + (Framed(key) + ExpectationBytes(expected)));
    case Put(namespace, key, expected, value) =>
      fed := fed + (Framed(namespace) + (Framed(key) + (ExpectationBytes(expected) + Framed(value))));
    case Delete(namespace, key, was) => fed := fed + (Framed(namespace) + (Framed(key) + was));
    case ForgetReceipt(transaction, digest) => fed := fed + (Framed(transaction) + digest);
  }

  // ---- Injectivity ----

  lemma Assoc(a: seq<Byte>, b: seq<Byte>, c: seq<Byte>)
    ensures (a + b) + c == a + (b + c)
  {
  }

  lemma SplitEqual(a: seq<Byte>, b: seq<Byte>, x: seq<Byte>, y: seq<Byte>)
    requires a + x == b + y && |a| == |b|
    ensures a == b && x == y
  {
    assert a == (a + x)[..|a|] && b == (b + y)[..|b|];
    assert x == (a + x)[|a|..] && y == (b + y)[|b|..];
  }

  lemma LengthInjective(m: nat, n: nat)
    requires m < USIZE_LIMIT && n < USIZE_LIMIT && Length(m) == Length(n)
    ensures m == n
  {
    Capacities();
    FromToBigEndian(m, 16);
    FromToBigEndian(n, 16);
  }

  /** A framed byte string is self-delimiting. */
  lemma FramedSplit(a: Blob, b: Blob, x: seq<Byte>, y: seq<Byte>)
    requires Framed(a) + x == Framed(b) + y
    ensures a == b && x == y
  {
    assert Framed(a) + x == Length(|a|) + (a + x) && Framed(b) + y == Length(|b|) + (b + y);
    SplitEqual(Length(|a|), Length(|b|), a + x, b + y);
    LengthInjective(|a|, |b|);
    SplitEqual(a, b, x, y);
  }

  lemma FramedPairSplit(a: Blob, b: Blob, a': Blob, b': Blob, x: seq<Byte>, y: seq<Byte>)
    requires Framed(a) + (Framed(b) + x) == Framed(a') + (Framed(b') + y)
    ensures a == a' && b == b' && x == y
  {
    FramedSplit(a, a', Framed(b) + x, Framed(b') + y);
    FramedSplit(b, b', x, y);
  }

  lemma ExpectationSplit(e: Expectation, f: Expectation, x: seq<Byte>, y: seq<Byte>)
    requires ExpectationBytes(e) + x == ExpectationBytes(f) + y
    ensures e == f && x == y
  {
    assert (ExpectationBytes(e) + x)[0] == (ExpectationBytes(f) + y)[0];
    SplitEqual(ExpectationBytes(e), ExpectationBytes(f), x, y);
    if e.Exact? {
      SplitEqual([1], [1], e.digest, f.digest);
    }
  }

  /** An operation is self-delimiting: the tag says which fields follow. */
  lemma OperationSplit(o: Operation, p: Operation, x: seq<Byte>, y: seq<Byte>)
    requires OperationBytes(o) + x == OperationBytes(p) + y
    ensures o == p && x == y
  {
    hide Body, Tag;
    Assoc([Tag(o)], Body(o), x);
    Assoc([Tag(p)], Body(p), y);
    SplitEqual([Tag(o)], [Tag(p)], Body(o) + x, Body(p) + y);
    assert Tag(o) == [Tag(o)][0] == Tag(p);
    BodySplit(o, p, x, y);
  }

  lemma BodySplit(o: Operation, p: Operation, x: seq<Byte>, y: seq<Byte>)
    requires Tag(o) == Tag(p) && Body(o) + x == Body(p) + y
    ensures o == p && x == y
  {
    hide Framed, ExpectationBytes;
    if o.ForgetReceipt? {
      Assoc(Framed(o.transaction), o.digest, x);
      Assoc(Framed(p.transaction), p.digest, y);
      FramedSplit(o.transaction, p.transaction, o.digest + x, p.digest + y);
      SplitEqual(o.digest, p.digest, x, y);
    } else {
      assert !p.ForgetReceipt?;
      Keyed(o, x);
      Keyed(p, y);
      FramedPairSplit(o.namespace, o.key, p.namespace, p.key, Rest(o) + x, Rest(p) + y);
      RestSplit(o, p, x, y);
    }
  }

  /** The bytes of a keyed operation after its namespace and key. */
  function Rest(o: Operation): seq<Byte>
    requires !o.ForgetReceipt?
  {
    match o
    case Check(_, _, expected) => ExpectationBytes(expected)
    case Put(_, _, expected, value) => ExpectationBytes(expected) + Framed(value)
    case Delete(_, _, was) => was
  }

  lemma Keyed(o: Operation, x: seq<Byte>)
    requires !o.ForgetReceipt?
    ensures Body(o) + x == Framed(o.namespace) + (Framed(o.key) + (Rest(o) + x))
  {
    hide Framed, ExpectationBytes;
    Assoc(Framed(o.namespace), Framed(o.key) + Rest(o), x);
    Assoc(Framed(o.key), Rest(o), x);
  }

  lemma RestSplit(o: Operation, p: Operation, x: seq<Byte>, y: seq<Byte>)
    requires !o.ForgetReceipt? && !p.ForgetReceipt? && Tag(o) == Tag(p) && Rest(o) + x == Rest(p) + y
    requires o.namespace == p.namespace && o.key == p.key
    ensures o == p && x == y
  {
    hide Framed, ExpectationBytes;
    match o
    case Check(_, _, e) => ExpectationSplit(e, p.expected, x, y);
    case Put(_, _, e, v) =>
      Assoc(ExpectationBytes(e), Framed(v), x);
      Assoc(ExpectationBytes(p.expected), Framed(p.value), y);
      ExpectationSplit(e, p.expected, Framed(v) + x, Framed(p.value) + y);
      FramedSplit(v, p.value, x, y);
    case Delete(_, _, was) => SplitEqual(was, p.was, x, y);
  }

  lemma {:induction false} OperationsInjective(os: seq<Operation>, ps: seq<Operation>)
    requires |os| == |ps| && OperationsBytes(os) == OperationsBytes(ps)
    ensures os == ps
  {
    hide OperationBytes;
    if os != [] {
      OperationSplit(os[0], ps[0], OperationsBytes(os[1..]), OperationsBytes(ps[1..]));
      OperationsInjective(os[1..], ps[1..]);
      assert os == [os[0]] + os[1..] && ps == [ps[0]] + ps[1..];
    }
  }

  /** Equal streams mean equal transactions. */
  lemma PreimageInjective(base: Blob, os: seq<Operation>, base': Blob, ps: seq<Operation>)
    requires |os| < USIZE_LIMIT && |ps| < USIZE_LIMIT
    requires Preimage(base, os) == Preimage(base', ps)
    ensures base == base' && os == ps
  {
    hide Framed, OperationsBytes;
    var x, y := Length(|os|) + OperationsBytes(os), Length(|ps|) + OperationsBytes(ps);
    SplitEqual(STORE_TRANSACTION_DOMAIN, STORE_TRANSACTION_DOMAIN, Framed(base) + x, Framed(base') + y);
    FramedSplit(base, base', x, y);
    SplitEqual(Length(|os|), Length(|ps|), OperationsBytes(os), OperationsBytes(ps));
    LengthInjective(|os|, |ps|);
    OperationsInjective(os, ps);
  }

  /** No value stream is a transaction stream: the domains differ before either ends. */
  lemma DomainsSeparate(value: Blob, base: Blob, operations: seq<Operation>)
    ensures ValuePreimage(value) != Preimage(base, operations)
  {
    hide Framed, OperationsBytes;
    assert ValuePreimage(value)[14] == 118 && Preimage(base, operations)[14] == 116;
  }

  // ---- Reading the stream back ----

  /** The domains, as text. */
  lemma DomainsAreText()
    ensures STORE_TRANSACTION_DOMAIN == Text.Codes("radiata/store-transaction/v1") + [0]
    ensures STORE_VALUE_DOMAIN == Text.Codes("radiata/store-value/v1") + [0]
  {
  }

  type Read<T> = Option<(T, seq<Byte>)>

  /** Sixteen bytes, the highest first. */
  function ReadLength(s: seq<Byte>): Read<nat>
  {
    if |s| < 16 then None else Some((FromBigEndian(s[..16]), s[16..]))
  }

  function ReadBlob(s: seq<Byte>): Read<Blob>
  {
    match ReadLength(s)
    case None => None
    case Some((n, rest)) => if n >= USIZE_LIMIT || n > |rest| then None else Some((rest[..n], rest[n..]))
  }

  function ReadDigest(s: seq<Byte>): Read<Digest>
  {
    if |s| < 32 then None else Some((s[..32], s[32..]))
  }

  function ReadExpectation(s: seq<Byte>): Read<Expectation>
  {
    if s == [] then None
    else if s[0] == 0 then Some((Absent, s[1..]))
    else if s[0] == 1 then
      match ReadDigest(s[1..])
      case None => None
      case Some((digest, rest)) => Some((Exact(digest), rest))
    else None
  }

  /** A tag, then namespace and key of what is checked (0), put (1) or deleted (2), or a forgotten receipt's
      transaction (3); then what the operation says of it. */
  function ReadOperation(s: seq<Byte>): Read<Operation>
  {
    if s == [] || s[0] > 3 then None else
    match ReadBlob(s[1..])
    case None => None
    case Some((first, rest)) =>
      if s[0] == 3 then
        match ReadDigest(rest)
        case None => None
        case Some((digest, end)) => Some((ForgetReceipt(first, digest), end))
      else
        match ReadBlob(rest)
        case None => None
        case Some((key, tail)) => ReadKeyed(s[0], first, key, tail)
  }

  function ReadKeyed(tag: Byte, namespace: Blob, key: Blob, s: seq<Byte>): Read<Operation>
  {
    if tag == 2 then
      match ReadDigest(s)
      case None => None
      case Some((was, rest)) => Some((Delete(namespace, key, was), rest))
    else
      match ReadExpectation(s)
      case None => None
      case Some((expected, rest)) =>
        if tag == 0 then Some((Check(namespace, key, expected), rest))
        else
          match ReadBlob(rest)
          case None => None
          case Some((value, end)) => Some((Put(namespace, key, expected, value), end))
  }

  function ReadOperations(s: seq<Byte>, n: nat): Read<seq<Operation>>
  {
    if n == 0 then Some(([], s)) else
    match ReadOperation(s)
    case None => None
    case Some((o, rest)) =>
      match ReadOperations(rest, n - 1)
      case None => None
      case Some((os, end)) => Some(([o] + os, end))
  }

  /** The domain, the base revision, the number of operations, the operations, and nothing more. */
  function ReadTransaction(s: seq<Byte>): Option<(Blob, seq<Operation>)>
  {
    var n := |STORE_TRANSACTION_DOMAIN|;
    if !(STORE_TRANSACTION_DOMAIN <= s) then None else
    match ReadBlob(s[n..])
    case None => None
    case Some((base, rest)) =>
      match ReadLength(rest)
      case None => None
      case Some((count, body)) =>
        match ReadOperations(body, count)
        case None => None
        case Some((operations, end)) => if end == [] then Some((base, operations)) else None
  }

  lemma LengthBack(n: nat, rest: seq<Byte>)
    requires n < USIZE_LIMIT
    ensures ReadLength(Length(n) + rest) == Some((n, rest))
  {
    var s := Length(n) + rest;
    assert s[..16] == Length(n) && s[16..] == rest;
    Capacities();
    FromToBigEndian(n, 16);
  }

  lemma BlobBack(value: Blob, rest: seq<Byte>)
    ensures ReadBlob(Framed(value) + rest) == Some((value, rest))
  {
    Assoc(Length(|value|), value, rest);
    LengthBack(|value|, value + rest);
    hide ReadLength, Length;
    assert (value + rest)[..|value|] == value && (value + rest)[|value|..] == rest;
  }

  lemma DigestBack(digest: Digest, rest: seq<Byte>)
    ensures ReadDigest(digest + rest) == Some((digest, rest))
  {
    assert (digest + rest)[..32] == digest && (digest + rest)[32..] == rest;
  }

  lemma ExpectationBack(e: Expectation, rest: seq<Byte>)
    ensures ReadExpectation(ExpectationBytes(e) + rest) == Some((e, rest))
  {
    var s := ExpectationBytes(e) + rest;
    if e.Exact? {
      assert s[1..] == e.digest + rest;
      DigestBack(e.digest, rest);
    } else {
      assert s[1..] == rest;
    }
    hide ReadDigest;
  }

  /** What follows namespace and key is read back. */
  lemma KeyedBack(o: Operation, rest: seq<Byte>)
    requires !o.ForgetReceipt?
    ensures ReadKeyed(Tag(o), o.namespace, o.key, Rest(o) + rest) == Some((o, rest))
  {
    hide ReadDigest, ReadExpectation, ReadBlob, ExpectationBytes, Framed;
    match o
    case Check(_, _, expected) => ExpectationBack(expected, rest);
    case Put(_, _, expected, value) =>
      Assoc(ExpectationBytes(expected), Framed(value), rest);
      ExpectationBack(expected, Framed(value) + rest);
      BlobBack(value, rest);
    case Delete(_, _, was) => DigestBack(was, rest);
  }

  lemma BytesSplit(o: Operation, rest: seq<Byte>)
    ensures var s := OperationBytes(o) + rest;
            s != [] && s[0] == Tag(o) && s[1..] == Body(o) + rest
  {
    hide Body, Tag;
  }

  lemma ReceiptBack(o: Operation, s: seq<Byte>, rest: seq<Byte>)
    requires o.ForgetReceipt? && s != [] && s[0] == Tag(o) && s[1..] == Body(o) + rest
    ensures ReadOperation(s) == Some((o, rest))
  {
    hide ReadBlob, ReadDigest, ReadKeyed, Framed;
    Assoc(Framed(o.transaction), o.digest, rest);
    BlobBack(o.transaction, o.digest + rest);
    DigestBack(o.digest, rest);
  }

  lemma TagBelow(o: Operation)
    ensures Tag(o) <= 3 && (Tag(o) == 3 <==> o.ForgetReceipt?)
  {
  }

  lemma KeyedOperationBack(o: Operation, s: seq<Byte>, rest: seq<Byte>)
    requires !o.ForgetReceipt? && s != [] && s[0] == Tag(o) && s[1..] == Body(o) + rest
    ensures ReadOperation(s) == Some((o, rest))
  {
    hide ReadBlob, ReadDigest, ReadKeyed, Framed, Body, Rest, Tag;
    TagBelow(o);
    Keyed(o, rest);
    BlobBack(o.namespace, Framed(o.key) + (Rest(o) + rest));
    BlobBack(o.key, Rest(o) + rest);
    KeyedBack(o, rest);
  }

  /** An operation is read back from its bytes. */
  lemma OperationBack(o: Operation, rest: seq<Byte>)
    ensures ReadOperation(OperationBytes(o) + rest) == Some((o, rest))
  {
    hide ReadOperation, OperationBytes, Body, Tag;
    BytesSplit(o, rest);
    if o.ForgetReceipt? {
      ReceiptBack(o, OperationBytes(o) + rest, rest);
    } else {
      KeyedOperationBack(o, OperationBytes(o) + rest, rest);
    }
  }

  lemma {:induction false} OperationsBack(operations: seq<Operation>, rest: seq<Byte>)
    ensures ReadOperations(OperationsBytes(operations) + rest, |operations|) == Some((operations, rest))
  {
    hide ReadOperation, OperationBytes;
    if operations == [] {
      assert OperationsBytes(operations) + rest == rest;
    } else {
      var more := OperationsBytes(operations[1..]) + rest;
      Assoc(OperationBytes(operations[0]), OperationsBytes(operations[1..]), rest);
      OperationBack(operations[0], more);
      OperationsBack(operations[1..], rest);
      assert [operations[0]] + operations[1..] == operations;
    }
  }

  /** The stream is read back as the transaction it was made of, field by field in this order. */
  lemma TransactionBack(base: Blob, operations: seq<Operation>)
    requires |operations| < USIZE_LIMIT
    ensures ReadTransaction(Preimage(base, operations)) == Some((base, operations))
  {
    var n := |STORE_TRANSACTION_DOMAIN|;
    var s, body := Preimage(base, operations), OperationsBytes(operations);
    var tail := Length(|operations|) + body;
    assert s[..n] == STORE_TRANSACTION_DOMAIN && s[n..] == Framed(base) + tail;
    BlobBack(base, tail);
    LengthBack(|operations|, body);
    assert body + [] == body;
    OperationsBack(operations, []);
    hide ReadBlob, ReadLength, ReadOperations, Framed, Length, OperationsBytes;
  }
}
