/**
 The canonical CBOR validator: one loop over an explicit frame stack. It is proved to decide
 exactly the recursive grammar, and its internal state errors are proved unreachable.
 */
module CborValidator {
  import opened Wrappers
  import opened Bytes
  import opened Order
  import opened CborGrammar

  datatype Frame =
    | ArrayFrame(remaining: nat)
    | MapFrame(remaining: nat, expectingKey: bool, keyStart: Option<nat>, previousKey: Option<(nat, nat)>)

  /** Byte ranges held by a frame lie in the part of the input already read. */
  predicate FrameWithin(frame: Frame, pos: nat)
  {
    frame.MapFrame? ==>
      && (frame.keyStart.Some? ==> frame.keyStart.value <= pos)
      && (frame.previousKey.Some? ==> frame.previousKey.value.0 <= frame.previousKey.value.1 <= pos)
  }

  /** A frame whose next item is being read: it still owes items and knows where its key began. */
  predicate Waiting(frame: Frame, pos: nat)
  {
    && frame.remaining >= 1 && FrameWithin(frame, pos)
    && (frame.MapFrame? ==>
          if frame.expectingKey then frame.keyStart.Some? else frame.keyStart.None? && frame.previousKey.Some?)
  }

  predicate AllWaiting(stack: seq<Frame>, pos: nat)
  {
    forall i :: 0 <= i < |stack| ==> Waiting(stack[i], pos)
  }

  function Range(b: seq<Byte>, range: Option<(nat, nat)>): (key: Option<seq<Byte>>)
    requires range.Some? ==> range.value.0 <= range.value.1 <= |b|
  {
    if range.None? then None else Some(b[range.value.0..range.value.1])
  }

  /** What the recursive parser would still do after an item of the top frame ended at `pos`: finish
      that container, then the ones around it. `None` means rejection. */
  ghost function Resume(p: Profile, b: seq<Byte>, pos: nat, stack: seq<Frame>): (end: Option<nat>)
    requires pos <= |b| && AllWaiting(stack, pos)
    decreases |stack|
  {
    if stack == [] then Some(pos) else
    var rest := stack[..|stack| - 1];
    match stack[|stack| - 1]
    case ArrayFrame(remaining) =>
      var items := ParseList(p, b, pos, remaining - 1, |stack|);
      if items.Stop? then None else Resume(p, b, items.end, rest)
    case MapFrame(remaining, expectingKey, keyStart, previousKey) =>
      if !expectingKey then
        var entries := ParseEntries(p, b, pos, remaining - 1, |stack|, Range(b, previousKey));
        if entries.Stop? then None else Resume(p, b, entries.end, rest)
      else
        var key := b[keyStart.value..pos];
        if !InOrder(Range(b, previousKey), key) then None else
        var value := ParseItem(p, b, pos, |stack|);
        if value.Stop? then None else
        var entries := ParseEntries(p, b, value.end, remaining - 1, |stack|, Some(key));
        if entries.Stop? then None else Resume(p, b, entries.end, rest)
  }

  /** What the recursive parser would still do from the start of an item at `pos`. */
  ghost function Proceed(p: Profile, b: seq<Byte>, pos: nat, stack: seq<Frame>): (end: Option<nat>)
    requires pos <= |b| && AllWaiting(stack, pos)
  {
    var item := ParseItem(p, b, pos, |stack|);
    if item.Stop? then None else Resume(p, b, item.end, stack)
  }

  /** The top frame with the start of a pending key recorded. */
  function MarkKeyStart(stack: seq<Frame>, pos: nat): (marked: seq<Frame>)
    ensures |marked| == |stack|
  {
    if stack == [] then stack else
    var top := stack[|stack| - 1];
    if top.MapFrame? && top.expectingKey && top.keyStart.None?
    then stack[|stack| - 1 := top.(keyStart := Some(pos))]
    else stack
  }

  datatype Step = Failed(failure: Failure) | Read(end: nat) | Opened(frame: Frame, end: nat)

  /** One dispatch on the initial byte: the decoder call and the checks around it. */
  method ReadItem(p: Profile, b: seq<Byte>, start: nat, depth: nat) returns (step: Step)
    requires start <= |b|
    ensures step.Failed? <==> Scan(p, b, start, depth).Reject?
    ensures step.Failed? ==> !StateError(step.failure)
    ensures step.Read? <==> Scan(p, b, start, depth).Scalar?
    ensures step.Read? ==> step.end == Scan(p, b, start, depth).end
    ensures step.Opened? ==>
      match Scan(p, b, start, depth)
      case OpenArray(n, end) => step == Opened(ArrayFrame(n), end)
      case OpenMap(n, end) => step == Opened(MapFrame(n, true, None, None), end)
      case _ => false
  {
    if start == |b| {
      return Failed(UnreadableType);
    }
    match KindOf(b[start])
    case Unsupported => step := Failed(UnsupportedType);
    case KBool => step := Read(start + 1);
    case KNull => step := Read(start + 1);
    case KUInt => step := ReadNumber(b, start);
    case KNInt => step := ReadNumber(b, start);
    case KBytes => step := ReadSized(b, start, BadBytes);
    case KText =>
      step := ReadSized(b, start, BadString);
      if step.Read? {
        var (length, headerLength) := CanonicalArgument(b, start).value;
        if !p.utf8(b[start + headerLength..step.end]) {
          step := Failed(BadString);
        }
      }
    case KArray =>
      step := ReadContainer(p, b, start, depth);
      if step.Read? {
        step := Opened(ArrayFrame(CanonicalArgument(b, start).value.0), step.end);
      }
    case KMap =>
      step := ReadContainer(p, b, start, depth);
      if step.Read? {
        step := Opened(MapFrame(CanonicalArgument(b, start).value.0, true, None, None), step.end);
      }
  }

  method ReadNumber(b: seq<Byte>, start: nat) returns (step: Step)
    ensures step == match CanonicalArgument(b, start)
                    case Err(failure) => Failed(failure)
                    case Ok((_, headerLength)) => Read(start + headerLength)
  {
    var argument := CanonicalArgument(b, start);
    if argument.Err? {
      return Failed(argument.error);
    }
    // The decoder skips the item by its own reading of the header.
    var skipped := RawArgument(b, start);
    if skipped.Err? || skipped.value.1 != argument.value.1 {
      return Failed(BadInteger);
    }
    step := Read(start + skipped.value.1);
  }

  /** A definite-length string read by the decoder, then compared with the canonical argument. */
  method ReadSized(b: seq<Byte>, start: nat, failure: Failure) returns (step: Step)
    requires !StateError(failure)
    ensures !step.Opened? && (step.Failed? ==> !StateError(step.failure))
    ensures step.Read? <==>
      && CanonicalArgument(b, start).Ok?
      && start + CanonicalArgument(b, start).value.1 + CanonicalArgument(b, start).value.0 <= |b|
    ensures step.Read? ==>
      step.end == start + CanonicalArgument(b, start).value.1 + CanonicalArgument(b, start).value.0
  {
    var argument := CanonicalArgument(b, start);
    if argument.Err? {
      return Failed(argument.error);
    }
    var (length, headerLength) := argument.value;
    var raw := RawArgument(b, start);
    if raw.Err? || start + raw.value.1 + raw.value.0 > |b| {
      return Failed(failure);
    }
    var end := start + raw.value.1 + raw.value.0;
    if end - start != headerLength + length {
      return Failed(ItemLength);
    }
    step := Read(end);
  }

  method ReadContainer(p: Profile, b: seq<Byte>, start: nat, depth: nat) returns (step: Step)
    ensures !step.Opened? && (step.Failed? ==> !StateError(step.failure))
    ensures step.Read? <==>
      && depth < p.maxDepth && CanonicalArgument(b, start).Ok?
      && CanonicalArgument(b, start).value.0 <= p.maxItems
    ensures step.Read? ==> step.end == start + CanonicalArgument(b, start).value.1
  {
    if depth >= p.maxDepth {
      return Failed(NestingDepth);
    }
    var argument := CanonicalArgument(b, start);
    if argument.Err? {
      return Failed(argument.error);
    }
    var decoded := RawArgument(b, start);
    if decoded.Err? || decoded.value.0 != argument.value.0 || argument.value.0 > p.maxItems {
      return Failed(CollectionLength);
    }
    step := Read(start + decoded.value.1);
  }

  predicate StateError(failure: Failure)
  {
    failure.ArrayState? || failure.MapState? || failure.KeyState? || failure.KeyRange?
  }

  /** Replaces the top frame. */
  function Retop(stack: seq<Frame>, top: Frame): seq<Frame>
    requires stack != []
  {
    stack[|stack| - 1 := top]
  }

  lemma ResumeOutermost(p: Profile, b: seq<Byte>, pos: nat)
    requires pos <= |b|
    ensures Resume(p, b, pos, []) == Some(pos)
  {
  }

  lemma ArrayItemDone(p: Profile, b: seq<Byte>, pos: nat, stack: seq<Frame>)
    requires pos <= |b| && AllWaiting(stack, pos) && stack != [] && stack[|stack| - 1].ArrayFrame?
    ensures var remaining := stack[|stack| - 1].remaining - 1;
            if remaining == 0 then Resume(p, b, pos, stack[..|stack| - 1]) == Resume(p, b, pos, stack)
            else
              var next := Retop(stack, ArrayFrame(remaining));
              AllWaiting(next, pos) && Proceed(p, b, pos, next) == Resume(p, b, pos, stack)
  {
    hide ParseItem;
    var remaining := stack[|stack| - 1].remaining - 1;
    var next := Retop(stack, ArrayFrame(remaining));
    assert next[..|next| - 1] == stack[..|stack| - 1];
    assert remaining == 0 ==> ParseList(p, b, pos, remaining, |stack|) == Got(Nil, pos);
  }

  lemma KeyDone(p: Profile, b: seq<Byte>, pos: nat, stack: seq<Frame>)
    requires pos <= |b| && AllWaiting(stack, pos) && stack != []
    requires stack[|stack| - 1].MapFrame? && stack[|stack| - 1].expectingKey
    ensures var top := stack[|stack| - 1];
            if !InOrder(Range(b, top.previousKey), b[top.keyStart.value..pos]) then Resume(p, b, pos, stack).None?
            else
              var next := Retop(stack, MapFrame(top.remaining, false, None, Some((top.keyStart.value, pos))));
              AllWaiting(next, pos) && Proceed(p, b, pos, next) == Resume(p, b, pos, stack)
  {
    hide ParseItem;
    var top := stack[|stack| - 1];
    var next := Retop(stack, MapFrame(top.remaining, false, None, Some((top.keyStart.value, pos))));
    assert next[..|next| - 1] == stack[..|stack| - 1];
  }

  lemma ValueDone(p: Profile, b: seq<Byte>, pos: nat, stack: seq<Frame>)
    requires pos <= |b| && AllWaiting(stack, pos) && stack != []
    requires stack[|stack| - 1].MapFrame? && !stack[|stack| - 1].expectingKey
    ensures var top := stack[|stack| - 1];
            if top.remaining == 1 then Resume(p, b, pos, stack[..|stack| - 1]) == Resume(p, b, pos, stack)
            else
              var next := Retop(stack, MapFrame(top.remaining - 1, true, Some(pos), top.previousKey));
              AllWaiting(next, pos) && Proceed(p, b, pos, next) == Resume(p, b, pos, stack)
  {
    hide ParseItem;
    var top := stack[|stack| - 1];
    var next := Retop(stack, MapFrame(top.remaining - 1, true, Some(pos), top.previousKey));
    assert next[..|next| - 1] == stack[..|stack| - 1];
    assert top.remaining == 1 ==>
      ParseEntries(p, b, pos, 0, |stack|, Range(b, top.previousKey)) == Got(End, pos);
  }

  /** Closes every container that the item ending at `position` completes. Returns whether the whole
      input item is complete. */
  method CompleteItem(ghost p: Profile, position: nat, b: seq<Byte>, stack: seq<Frame>)
    returns (r: Result<bool, Failure>, left: seq<Frame>)
    requires position <= |b| && AllWaiting(stack, position)
    ensures r.Err? ==> !StateError(r.error) && Resume(p, b, position, stack).None?
    ensures r.Ok? && r.value ==> Resume(p, b, position, stack) == Some(position)
    ensures r.Ok? && !r.value ==>
      && left != [] && |left| <= |stack|
      && AllWaiting(MarkKeyStart(left, position), position)
      && Proceed(p, b, position, MarkKeyStart(left, position)) == Resume(p, b, position, stack)
  {
    hide Resume;
    left := stack;
    while true
      invariant |left| <= |stack|
      invariant AllWaiting(left, position)
      invariant Resume(p, b, position, left) == Resume(p, b, position, stack)
      decreases |left|
    {
      if left == [] {
        ResumeOutermost(p, b, position);
        return Ok(true), left;
      }
      var top := left[|left| - 1];
      ghost var before := left;
      var containerComplete;
      match top {
        case ArrayFrame(remaining) =>
          if remaining == 0 {
            return Err(ArrayState), left;
          }
          ArrayItemDone(p, b, position, left);
          left := Retop(left, ArrayFrame(remaining - 1));
          containerComplete := remaining - 1 == 0;
        case MapFrame(remaining, expectingKey, keyStart, previousKey) =>
          if expectingKey {
            if keyStart.None? {
              return Err(KeyState), left;
            }
            var start := keyStart.value;
            if start > position || position > |b| {
              return Err(KeyRange), left;
            }
            KeyDone(p, b, position, left);
            var key := b[start..position];
            if previousKey.Some? && !Less(b[previousKey.value.0..previousKey.value.1], key) {
              return Err(KeyOrder), left;
            }
            left := Retop(left, MapFrame(remaining, false, None, Some((start, position))));
            containerComplete := false;
          } else {
            if remaining == 0 {
              return Err(MapState), left;
            }
            ValueDone(p, b, position, left);
            left := Retop(left, MapFrame(remaining - 1, true, keyStart, previousKey));
            assert MarkKeyStart(left, position) ==
                   Retop(before, MapFrame(remaining - 1, true, Some(position), previousKey));
            containerComplete := remaining - 1 == 0;
          }
      }
      if !containerComplete {
        return Ok(false), left;
      }
      left := left[..|left| - 1];
      assert left == before[..|before| - 1];
    }
  }

  /** Reading the header of a non-empty container and pushing its frame changes nothing about what
      the recursive parser has left to do. */
  lemma PushProceeds(p: Profile, b: seq<Byte>, pos: nat, stack: seq<Frame>, frame: Frame, end: nat)
    requires pos <= end <= |b| && AllWaiting(stack, pos) && frame.remaining > 0
    requires
      match Scan(p, b, pos, |stack|)
      case OpenArray(n, e) => e == end && frame == ArrayFrame(n)
      case OpenMap(n, e) => e == end && frame == MapFrame(n, true, None, None)
      case _ => false
    ensures var pushed := MarkKeyStart(stack + [frame], end);
            && AllWaiting(pushed, end) && |stack| < p.maxDepth
            && Proceed(p, b, end, pushed) == Proceed(p, b, pos, stack)
  {
    var pushed := MarkKeyStart(stack + [frame], end);
    assert pushed[..|pushed| - 1] == stack;
    var depth := |stack| + 1;
    var first := ParseItem(p, b, end, depth);
    if frame.ArrayFrame? {
      assert ParseList(p, b, end, frame.remaining, depth).Stop? ==
             (first.Stop? || ParseList(p, b, first.end, frame.remaining - 1, depth).Stop?);
    } else {
      assert ParseEntries(p, b, end, frame.remaining, depth, None).Stop? ==> Proceed(p, b, end, pushed).None?;
    }
  }

  /** An item that ended at `end` without opening anything: the frames take over. */
  lemma EndResumes(p: Profile, b: seq<Byte>, pos: nat, stack: seq<Frame>, end: nat)
    requires pos <= end <= |b| && AllWaiting(stack, pos)
    requires
      match Scan(p, b, pos, |stack|)
      case Reject => false
      case Scalar(_, e) => e == end
      case OpenArray(n, e) => n == 0 && e == end
      case OpenMap(n, e) => n == 0 && e == end
    ensures AllWaiting(stack, end) && Resume(p, b, end, stack) == Proceed(p, b, pos, stack)
  {
    var depth := |stack| + 1;
    assert ParseList(p, b, end, 0, depth) == Got(Nil, end);
    assert ParseEntries(p, b, end, 0, depth, None) == Got(End, end);
  }

  /** The validator's loop: the stack never exceeds the depth limit, and the outcome and end position
      are those of the recursive parser. */
  method ValidateItem(p: Profile, b: seq<Byte>) returns (r: Result<(), Failure>, position: nat)
    ensures r.Ok? <==> ParseItem(p, b, 0, 0).Got?
    ensures r.Ok? ==> position == ParseItem(p, b, 0, 0).end
    ensures r.Err? ==> !StateError(r.error)
  {
    position := 0;
    var stack: seq<Frame> := [];
    while true
      invariant position <= |b| && |stack| <= p.maxDepth
      invariant AllWaiting(MarkKeyStart(stack, position), position)
      invariant Proceed(p, b, position, MarkKeyStart(stack, position)) == Proceed(p, b, 0, [])
      decreases |b| - position
    {
      hide Scan, ParseItem, Resume;
      stack := MarkKeyStart(stack, position);
      var step := ReadItem(p, b, position, |stack|);
      if step.Failed? {
        RejectStops(p, b, position, |stack|);
        return Err(step.failure), position;
      }
      if step.Opened? && step.frame.remaining != 0 {
        PushProceeds(p, b, position, stack, step.frame, step.end);
        stack, position := stack + [step.frame], step.end;
        continue;
      }
      EndResumes(p, b, position, stack, step.end);
      position := step.end;
      var complete, left := CompleteItem(p, position, b, stack);
      if complete.Err? {
        return Err(complete.error), position;
      }
      if complete.value {
        return Ok(()), position;
      }
      stack := left;
    }
  }

  lemma RejectStops(p: Profile, b: seq<Byte>, pos: nat, depth: nat)
    requires pos <= |b| && Scan(p, b, pos, depth).Reject?
    ensures ParseItem(p, b, pos, depth).Stop?
  {
  }

  /** Accepts exactly the encodings of conforming values within the body bound. */
  method ValidateCanonical(p: Profile, b: seq<Byte>) returns (r: Result<(), Failure>)
    ensures r.Ok? <==> Accepted(p, b)
    ensures r.Err? ==> !StateError(r.error)
  {
    if p.maxDepth == 0 || p.maxItems == 0 || p.maxBody == 0 || b == [] || |b| > p.maxBody {
      return Err(Limits);
    }
    ParserDecidesGrammar(p, b);
    var item, position := ValidateItem(p, b);
    if item.Err? {
      return item;
    }
    if position != |b| {
      return Err(TrailingData);
    }
    r := Ok(());
  }
}
