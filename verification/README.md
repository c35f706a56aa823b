# Verified model of the radiata core

This project models the decision-making core of radiata, a Rust library for authenticated peer
clusters, and proves what that core is for. It covers seven parts of the program:

- the canonical CBOR validator that guards every wire record (deterministic profile, section 4.2.1 of
  RFC 8949, over the encoding of section 3 of RFC 8949);
- key custody and active leave over the conditional store: creation, finalization, deletion, identity
  swap, wipe and completion as one state machine with crashes, concurrent instances and adversarial
  commit outcomes;
- admission commits under the same kind of adversary;
- the selector language (cursor, canonical printer, reparse, evaluator) and the route envelope;
- the admission limiter;
- the byte stream hashed for a store transaction;
- paging, descriptor merge and anti-entropy, recovery backoff and neighbor planning.

Loops and updates in place of the program are methods and classes proved against functions; the
protocols are state machines whose events are one snapshot, one commit, one provider call, a start or
a crash. Theorems about runs quantify over every sequence of such events.

## Results

- The explicit-stack validator accepts a byte string exactly when it is the encoding of a value tree
  within the limits, and two accepted strings with the same meaning (maps taken as finite maps) are
  the same string. Its four internal state errors cannot occur.
- With a store that refuses transactions on stale revisions, which every adapter of the program does
  (`src/storage/json/store.rs:330`, `src/storage/redb/store.rs:448`), custody of the local key holds
  over every run from every store at rest; without that it still holds from every store that already
  has a local identity. That is all that can be said: on a store that broke its contract and ignored
  base revisions, a run from a store without an identity marks the new identity's own key.
- While a leave is pending the identity is exactly the former or exactly the replacement; it never goes
  back; once the intent is gone everything the leave promises is in place. A pending leave can always be
  re-driven: in every reachable state a reopened node that is not interrupted and meets no fault
  completes it, within 23 steps plus two for every entry to wipe.
- One issuer generation never binds two subjects; a returned grant is of this node's cluster, is stored, and
  is what every replay of its proposal returns.
- The selector parser accepts exactly the texts the grammar spells, with any space, any escapes and any
  order, and reads each as its meaning. Canonical text is a fixed point of parsing, preserves meaning, and
  is the same for two inputs exactly when they say the same set of predicates.
- At most twice the window limit is admitted in any 60 seconds, across eviction; and if readings reach the
  limiter out of order by at most some lag below a window, in any 60 seconds less that lag. Every refusal
  is deserved: it is explained by live slots, by attempts a window recorded, or by a busy table.
- Following cursors returns every selected entry once, in order. Among any number of stores, whatever
  pages are emitted, delayed, reordered or repeated, every store that hears of the highest revision of a
  node, directly or through others, ends with exactly that record.

## Where the code and its comments differ

The model follows the code.

- `src/paging.rs:1-6` promises that no trailing empty page ends a stream. The peek counts raw entries,
  so a filtered tail defeats it: `Paging.FilteredStreamEndsEmpty` gives a case and
  `Paging.TrailingEmptyPage` the exact condition.
- `src/identity/leave.rs:384-388` says an operator can always re-drive a leave. Reopening the node always
  does. The live command is refused before that path (`src/runtime/supervisor.rs:1822-1824`) when there is
  no local cluster pointer, which the wipe removes: `CustodyProgress.LiveRedriveExactly` gives the exact
  condition (the pointer family is not wiped yet, and once refused it stays refused) and
  `CustodyProgress.LiveRedriveRefused` a state of every leave where it is.
- `src/membership/page.rs:148-151` says only the exact next revision is accepted; the store accepts any
  higher one, which is what `Descriptors.RunHoldsHighest` needs: `Descriptors.SkippedRevisionAccepted`, with
  the exact condition in `Descriptors.TakenExactly`.
- `src/membership.rs:360` answers an aborted commit like a committed one, so that a success tells less
  than its name: `Descriptors.AnswerTells`.
- `src/membership/recovery.rs:184-192` says a forced cycle is immediate; it is due at once only under
  the condition of `Recovery.ForcedDueExactly`, and `Recovery.ForcedCycleWaits` gives one that is not.
- `src/routing.rs:611-613` calls the chain duplicate-free after its check. That is so of the visited
  nodes; the claimed holder, the last link, is not looked for among them, and a forged envelope is
  forwarded: `Route.OneReceiveIsNotEnough`. `Route.OneReceiveChain` gives the exact condition and
  `Route.TwoReceivesProveChain` shows that the next node settles it.
- `src/protocol/tag.rs:33-36` folds the domain's case after the reservation check of
  `src/protocol/tag.rs:159`, so a reserved tag in capitals is accepted and stored as a text that does not
  parse: `SelectorTag.CapitalizedReservedTag`, with the exact condition in `SelectorTag.StoredTagReparses`.
  Selector keys are not affected.

## Model

| member | source | states |
|---|---|---|
| CborGrammar.ArgumentIsHead | src/protocol/cbor.rs:367-396 | an argument accepted as canonical is the unique shortest head of its major type and value |
| CborGrammar.HeadIsArgument | src/protocol/cbor.rs:367-396 | every shortest head is read back as its value and length |
| CborGrammar.ParseItemSound | src/protocol/cbor.rs:170-349 | whatever the recursive reading accepts is the encoding of a value within depth and item limits, keys ascending |
| CborGrammar.ParseItemComplete | src/protocol/cbor.rs:170-349 | every encoding of such a value is accepted at any position and ends where the encoding ends |
| CborGrammar.ParserDecidesGrammar | src/protocol/cbor.rs:139-349 | a byte string is an encoding of a conforming value if and only if the reading consumes it all |
| CborGrammar.SelfDelimiting | src/protocol/cbor.rs:139-155 | an encoding that starts with another encoding is that encoding, with nothing after it |
| CborGrammar.AcceptedPrefixFree | src/protocol/cbor.rs:139-155 | no accepted string is a proper prefix of an accepted string, so the trailing-data check is exact |
| CborGrammar.AscendingByPosition | src/protocol/cbor.rs:318-331 | keys ascend if and only if every key's encoding precedes every later one's at the first byte where they part |
| Order.LessIsLexicographic | src/protocol/cbor.rs:326-330 | the slice comparison is the lexicographic order, by the first position where two slices part |
| CborUniqueness.DenoteInjective | src/protocol/cbor.rs:299-349 | the shaped tree of a meaning is unique, maps taken as finite maps |
| CborUniqueness.SameMeaningSameBytes | src/protocol/cbor.rs:299-396 | two conforming values mean the same if and only if their bytes are identical |
| CborValidator.ReadItem | src/protocol/cbor.rs:170-285 | one turn of the item match reads, opens or refuses exactly what the grammar's token scan does |
| CborValidator.ReadSized | src/protocol/cbor.rs:358-365 | a sized string is read exactly when its argument is shortest and its body is present |
| CborValidator.ReadContainer | src/protocol/cbor.rs:351-356 | a container opens exactly when its argument is shortest and depth and count are within limits |
| CborValidator.CompleteItem | src/protocol/cbor.rs:299-349 | closing frames resumes the recursive reading at the same position, or refuses where it does; state errors do not occur |
| CborValidator.ValidateItem | src/protocol/cbor.rs:170-297 | the frame-stack loop ends, accepts if and only if the recursive reading does, at the same position |
| CborValidator.ValidateCanonical | src/protocol/cbor.rs:139-155 | accepts exactly the encodings of conforming values within the body limit; state errors do not occur |
| ConditionalStore.OrderImmaterial | src/provider.rs:550-583 | with distinct identities, of keys and of receipts, a transaction is a set: order changes neither admission nor effect |
| ConditionalStore.ApplyDistinct | src/provider.rs:684-723 | with distinct identities every operation, a forgotten receipt included, has its own effect and nothing else changes |
| Custody.PreparedDistinct | src/provider.rs:512-528 | every transaction of the custody and leave protocols is non-empty and names each key once |
| CustodySafety.FinalizeApplied | src/identity/lifecycle.rs:376-440 | an applied finalization keeps the durable invariant and only moves the state forward |
| CustodySafety.InstallApplied | src/identity/deletion.rs:93-131 | an applied deletion intent marks the handle and keeps the invariant, by the pinned identity or the revision |
| CustodySafety.BuryApplied | src/identity/deletion.rs:191-236 | an applied tombstone replaces the intent, keeps the mark and the invariant |
| CustodySafety.SwapApplied | src/identity/leave.rs:272-335 | an applied swap moves exactly the pending leave to its replacement and keeps the invariant |
| CustodySafety.CompleteApplied | src/identity/leave.rs:338-356 | when the intent goes, the replacement is in place, its key held, no domain metadata of any family left, the former handle buried |
| CustodySafety.StepKeeps | src/identity/deletion.rs:37-265 | every event of every instance, with any commit outcome, keeps the invariant and moves the state forward only |
| CustodyRuns.CustodyHolds | src/identity/deletion.rs:54-131 | from every store at rest, if stale revisions are refused or an identity exists: in every reachable state the referenced handle is unmarked, was never given to the provider for deletion, and is held |
| CustodyRuns.MarkedNeverReferencedAgain | src/identity/deletion.rs:191-236 | a handle once marked or asked for stays marked and is never referenced in any later state |
| CustodyRuns.ProviderAskedOnlyUnreferenced | src/identity/deletion.rs:152-190 | at the moment of a provider deletion the handle is unreferenced |
| CustodyRuns.PendingLeaveIdentity | src/identity/leave.rs:361-382 | while a leave is pending the identity is exactly one of former and replacement, and its key is held |
| CustodyRuns.LeaveNeverGoesBack | src/identity/leave.rs:272-335 | after the swap no later state holds the former node |
| CustodyRuns.IntentGoneMeansDone | src/identity/leave.rs:164-176 | the only way the intent disappears leaves the leave done: replacement in place, no entry of any of the eleven families, former handle buried |
| Custody.Position | src/identity/leave.rs:164-176 | each of the eleven families has its place in the order of the wipe |
| CustodyRuns.FinishedLeaveStays | src/identity/leave.rs:338-382 | a finished leave stays finished, its former handle tombstoned for good |
| CustodyRuns.UnguardedCustodyBreaks | src/identity/deletion.rs:97-104 | why the revision check is needed: on a store that ignored base revisions, a run from any store at rest without a local identity marks a referenced handle |
| CustodyRuns.CustodyExactly | src/identity/deletion.rs:97-104 | custody holds over every run if and only if stale revisions are refused, as the shipped adapters do, or a local identity exists |
| CustodyEffects.CommitEffect | src/identity/leave.rs:186-356 | what each applied transaction does to every key outside the wiped families |
| CustodyEffects.SoundStep | src/identity/leave.rs:404-432 | every step keeps deletion intents well formed and a pending leave's replacement key apart from its former key |
| CustodyDrive.FitRead | src/identity/leave.rs:361-382 | whatever a leave's next snapshot finds (tombstone, intent or neither; former or replacement), it goes on towards the end |
| CustodyDrive.FitCommit | src/identity/leave.rs:186-335 | each transaction of a leave brings it closer to the end; a wipe batch leaves fewer entries |
| CustodyDrive.HonestStep | src/identity/leave.rs:361-382 | every fault-free step of a leave finishes it or leaves it fit and with fewer steps to go |
| CustodyDrive.HonestEnabled | src/identity/leave.rs:361-382 | a fit leave always has a fault-free step |
| CustodyDrive.AbortedStaysFit | src/identity/leave.rs:213-224 | after an install, a burial or a wipe batch is reported aborted, applied or not, the leave reads on and stays fit |
| CustodyDrive.FitDrivesHome | src/identity/leave.rs:361-382 | every uninterrupted fault-free drive is bounded, and one that cannot go on has finished its leave |
| CustodyDrive.FinishFromRestart | src/identity/leave.rs:438-452 | a completable leave can be finished by a reopened node, with no deletion but that of its former key |
| CustodyProgress.PendingLeaveFinishes | src/identity/leave.rs:438-452 | over every run in which only leaves delete keys, every pending leave can be finished, and a node that reopens finishes it unless interrupted or met by a fault |
| CustodyProgress.CreationCompletes | src/identity/lifecycle.rs:266-453 | an uninterrupted creation ends with the identity of the created key and nothing else changed |
| CustodyProgress.DeletionCompletes | src/identity/deletion.rs:37-239 | an uninterrupted deletion of an unreferenced key ends with its tombstone, whatever an earlier attempt left |
| CustodyProgress.LiveRedriveExactly | src/runtime/supervisor.rs:1821-1824 | while a leave is pending the live command runs if and only if the pointer family is not wiped yet; once refused it stays refused |
| CustodyProgress.LiveRedriveRefused | src/runtime/supervisor.rs:1821-1824 | every leave that can be finished comes through a state in which the live command is refused |
| CustodyProgress.ClearStep | src/identity/leave.rs:376-381 | when only leaves delete keys, no step marks the replacement key of a pending leave before its swap |
| CustodyProgress.StuckForever | src/identity/leave.rs:291-307 | once an unswapped replacement handle is marked, no run ever completes the leave |
| CustodyProgress.LeaveCanGetStuck | src/identity/deletion.rs:37-60 | what an additional caller of the deletion must not do: asked to delete a replacement key before the swap, it would leave a pending leave that cannot be completed |
| CustodyProgress.LeaveCanFinishExactly | src/identity/leave.rs:291-307 | even with additional callers of the deletion, a pending leave can be finished if it has swapped or its replacement handle is unmarked, and otherwise by no run |
| Admission.ConsumedMeansStored | src/identity/admission.rs:463-538 | a grant is classified as consumed only when the exact triple of this cluster is stored and answers the proposal |
| Admission.StoredMeansConsumed | src/identity/admission.rs:463-538 | every stored triple that answers the proposal is recognised |
| Admission.NothingExactly | src/identity/admission.rs:463-538 | a proposal is new if and only if nothing of it is stored |
| Admission.CommitAdmitted | src/identity/admission.rs:192-227 | an admission takes effect if and only if identity, pointer and issuer binding are unchanged and nothing of the proposal is stored |
| Admission.CommitKeepsPaired | src/identity/admission.rs:190-242 | an applied commit adds one complete triple and disturbs no other |
| Admission.AdoptAddsOthers | src/identity/admission.rs:301-366 | adopting a grant of another issuer adds a binding, that grant and the pointer, and nothing of this issuer |
| Admission.AdoptedExactly | src/identity/admission.rs:301-366 | when a grant of another issuer is adopted, and exactly what is stored then |
| Admission.ReturnedGrantIsStored | src/identity/admission.rs:88-258 | over every run, each returned grant answers its proposal, is of the pointer's cluster, and is stored with its use and binding |
| Admission.ReplayReturnsSame | src/identity/admission.rs:88-160 | in every later state a replay of an answered proposal finds that very grant consumed and returns it |
| Admission.NewProposalIsGranted | src/identity/admission.rs:119-258 | a new proposal at an open node is granted for the pointer's cluster, stored and returned |
| Admission.AbortedButAppliedReturns | src/identity/admission.rs:250-256 | a commit reported aborted but applied is looked up and its grant returned |
| Admission.UseHasGrantAndBinding | src/identity/admission.rs:88-258 | every stored use of this issuer has its matching grant and subject binding |
| Admission.GenerationBindsOneSubject | src/identity/admission.rs:88-258 | two grants of this issuer for one generation, stored at any times of a run, are the same grant |
| Admission.ReturnedGrantsAgree | src/identity/admission.rs:88-258 | two callers given grants for one generation hold the same grant for the same proposal |
| SelectorTag.ParseTagText | src/protocol/tag.rs:30-42 | the text of a tag is split where it was joined, and parses, its domain folded, exactly when its parts are valid |
| SelectorTag.StoredTagReparses | src/protocol/tag.rs:30-42 | the stored text of a parsed tag parses back to it, unless folding the domain made the tag a reserved one |
| SelectorTag.CapitalizedReservedTag | src/protocol/tag.rs:155-162 | a reserved tag in capitals is accepted and stored as a text that does not parse |
| SelectorTag.ParsedKeyIsKeyTag | src/protocol/tag.rs:140-168 | tag parsing is idempotent on selector keys and keeps them free of delimiters |
| SelectorTag.KeyTextShape | src/protocol/tag.rs:140-168 | a key text is never a set keyword |
| SelectorGrammar.OperatorsFromEquality | src/routing.rs:87-101 | equality is of the label's value; every operator follows from it; the negative ones are exact complements and hold of absent labels |
| SelectorRoundTrip.ScanValueClean | src/routing.rs:225-253 | every parsed value is free of whitespace that has no escape |
| SelectorRoundTrip.ScanEscaped | src/routing.rs:133-162 | value parsing undoes escaping, in a list and outside one |
| SelectorRoundTrip.ParsePrintedItems | src/routing.rs:259-286 | a printed set is read back item by item |
| SelectorRoundTrip.ParsePrinted | src/routing.rs:104-115 | a printed predicate followed by nothing or another one is read back in normal form |
| SelectorRoundTrip.ParseJoined | src/routing.rs:392-416 | joined predicates are split again at the same boundaries |
| SelectorRoundTrip.NormalMatches | src/routing.rs:119-128 | sorting and deduplicating set members changes no match |
| SelectorRoundTrip.ReparseNeverFails | src/routing.rs:348-387 | parsing fails only on the input or on the canonical length; the reparse of the canonical text cannot fail |
| SelectorRoundTrip.CanonicalFixedPoint | src/routing.rs:348-379 | the canonical text is within the byte bound and parses to the very same selector |
| SelectorRoundTrip.CanonicalMeaning | src/routing.rs:353-378 | under every lookup the stored predicates match exactly when the written ones do |
| SelectorRoundTrip.CanonicalDistinguishes | src/routing.rs:65-68 | two inputs have the same canonical text, and are then the same selector, if and only if their sets of normal predicates are equal |
| SelectorSpelling.SyntaxRead | src/routing.rs:197-343 | every spelling of a predicate, with any space and escapes, followed by what may follow it, is read as its meaning |
| SelectorSpelling.SyntaxFound | src/routing.rs:197-343 | whatever is read as a predicate was a spelling of it |
| SelectorSpelling.StreamRead | src/routing.rs:392-416 | every written list of predicates is read as their meanings |
| SelectorSpelling.StreamFound | src/routing.rs:392-416 | whatever is read as a list of predicates was written as one |
| SelectorSpelling.AcceptedExactly | src/routing.rs:348-379 | exactly the written selectors within the bounds are accepted |
| SelectorSpelling.WrittenMeaning | src/routing.rs:348-379 | under every lookup the stored predicates match exactly when the written ones do |
| SelectorSpelling.CanonicalSpelling | src/routing.rs:104-150 | the canonical text is the spelling without optional space or escapes, sets sorted and distinct |
| SelectorParser.Cursor.SkipWhitespace | src/routing.rs:191-195 | the cursor stops at the first character that is not whitespace |
| SelectorParser.Cursor.ParseKey | src/routing.rs:199-221 | the cursor reads the key the grammar reads and leaves the same rest |
| SelectorParser.Cursor.ParseValue | src/routing.rs:225-253 | the cursor reads the value the grammar reads, with the same failures and rest |
| SelectorParser.Cursor.ParseSet | src/routing.rs:259-286 | the loop over set items reads the list the grammar reads, with the same failures and rest |
| SelectorParser.Cursor.ParseOperatorTail | src/routing.rs:289-343 | the operator, or nothing and the cursor back where it was |
| SelectorParser.Cursor.ParsePredicateStream | src/routing.rs:392-416 | the stream loop reads the predicate list of the grammar |
| SelectorParser.ParseSelector | src/routing.rs:348-379 | the result parses back to itself from its canonical text and means what was written, for every way to write it |
| Text.SortDedupCorrect | src/routing.rs:119-128 | the sorted deduplicated list is strictly ascending with exactly the same members |
| Utf8.OrderIsByteOrder | src/routing.rs:119-128 | the string order is the byte order of the UTF-8 encodings |
| Utf8.AscendingByBytes | src/routing.rs:357-362 | a sorted distinct list is in strict byte order, every element before every later one |
| Utf8.ByteLengthIs | src/routing.rs:349-369 | the bounded length is the length of the UTF-8 encoding |
| Route.ReceiveAt | src/routing.rs:608-657 | the check with its growing set of seen nodes decides the chain conditions |
| Route.RouteInvariant | src/routing.rs:522-533 | along every route the chain is duplicate-free and starts at the source, budget plus length is constant, forwards are within the budget |
| Route.TwoReceivesProveChain | src/routing.rs:608-668 | any envelope that one node forwards and the next accepts had a duplicate-free chain from its source |
| Route.OneReceiveIsNotEnough | src/routing.rs:611-657 | a forged envelope whose holder was visited already, which one receive forwards |
| Route.OneReceiveChain | src/routing.rs:611-635 | after one accepting receive the chain is sound if and only if the holder is new to it, or is the source of an empty one |
| Route.HonestForwardingPasses | src/routing.rs:611-668 | what a node forwards on a reachable envelope passes the next node's holder, chain and loop checks |
| Route.SoundReceive | src/routing.rs:608-657 | a node new to a sound chain takes what is meant for it and forwards the rest to any chosen node that is new to it too |
| Route.RefusalReasons | src/routing.rs:608-657 | each refusal and the arrival, by its exact condition, for any envelope |
| Route.PathDelivers | src/routing.rs:608-668 | every simple path within the budget delivers; a longer one ends where the budget does |
| AdmissionRate.AdmissionLimiter.constructor | src/identity/admission_rate.rs:111-120 | an empty limiter with a fresh global window |
| AdmissionRate.AdmissionLimiter.BeginAttempt | src/identity/admission_rate.rs:125-159 | the new limiter and the verdict, with every partial update a refusal leaves behind |
| AdmissionRate.AdmissionLimiter.Evict | src/identity/admission_rate.rs:162-177 | exactly the idle buckets without pending slots are gone |
| AdmissionRate.AdmissionLimiter.DropSlot | src/identity/admission_rate.rs:193-202 | both counters decrease once, saturating |
| AdmissionRateBounds.AdmitKeeps | src/identity/admission_rate.rs:79-89 | an admission recorded in a window keeps every interval of one window less the lag within twice the limit |
| AdmissionRateBounds.RoomKeeps | src/identity/admission_rate.rs:131-147 | any reading and the eviction it allows keep the invariant |
| AdmissionRateBounds.RateBound | src/identity/admission_rate.rs:125-177 | with readings at most a lag behind the highest, any half-open 60 seconds less the lag admit at most 512 attempts and at most 32 of any source, across eviction and re-creation |
| AdmissionRateBounds.PendingExact | src/identity/admission_rate.rs:125-202 | whatever the order of readings, global pending is the sum of bucket pendings and the number of live slots, all bounds hold, every live slot's bucket is present |
| AdmissionRateBounds.DropNeverSaturates | src/identity/admission_rate.rs:193-202 | dropping a live slot finds both counters positive |
| AdmissionRefusals.RecordCounts | src/identity/admission_rate.rs:79-89 | a window counts exactly the attempts recorded since it opened |
| AdmissionRefusals.RefusalsDeserved | src/identity/admission_rate.rs:125-177 | over every run each refusal is explained by live slots, recorded attempts or a busy table, and an attempt with no such explanation is admitted |
| TransactionDigest.FeedTransaction | src/provider.rs:725-771 | the updates made in the loop are the framed byte stream of the transaction |
| TransactionDigest.OperationSplit | src/provider.rs:730-796 | an operation's bytes are self-delimiting |
| TransactionDigest.PreimageInjective | src/provider.rs:725-796 | equal streams mean equal base revision and equal operation lists |
| TransactionDigest.DomainsSeparate | src/provider.rs:670-675 | a value stream is never a transaction stream |
| TransactionDigest.DomainsAreText | src/provider.rs:670-675 | the domains are the two texts, each with a zero byte |
| TransactionDigest.OperationBack | src/provider.rs:730-787 | an operation is read back from its tag and fields in their order |
| TransactionDigest.TransactionBack | src/provider.rs:725-796 | the stream is read back as the transaction it was made of |
| Paging.ScanPaged | src/paging.rs:98-126 | the scan loop with its peek returns the page its specification says, or the scan's error exactly when it would have to look past the entries given |
| Paging.PageKeys | src/paging.rs:131-153 | the in-memory twin returns the page of the scan that keeps every entry |
| Paging.OrderByPosition | src/paging.rs:103-107 | the scan order and the cursor test are bytewise lexicographic, by position |
| Paging.PageIs | src/paging.rs:98-126 | one page: an error exactly when an entry it consumes fails, else its selected items, and a cursor exactly when raw entries remain |
| Paging.ConsumedFills | src/paging.rs:111-122 | a page with a cursor is full, and a full page ends on a kept entry |
| Paging.CursorResumes | src/paging.rs:103-107 | a cursor resumes past exactly what the page consumed |
| Paging.FollowCollects | src/paging.rs:86-126 | following cursors ends, succeeds exactly when no entry fails, and yields every selected entry once, in order |
| Paging.TrailingEmptyPage | src/paging.rs:1-6 | the stream ends in an empty page if and only if the kept entries fill whole pages and the last raw entry is not kept |
| Paging.UnfilteredPages | src/paging.rs:131-153 | without a filter there are ceil(n / limit) pages, one at least, and only an empty scan ends in an empty page |
| Paging.FilteredStreamEndsEmpty | src/paging.rs:1-6 | a filtered scan whose stream ends in an empty page |
| Paging.PageCovers | src/paging.rs:98-126 | a page holds every kept entry between its cursors |
| Paging.ReadThroughShows | src/paging.rs:86-126 | a stream read to its end, every page from a snapshot of its own, shows every key that all of the snapshots keep |
| Descriptors.MemberStore.StoreDescriptor | src/membership.rs:307-367 | the new records and the answer for every report, applied or not |
| Descriptors.MemberStore.ApplyPage | src/membership/page.rs:152-171 | the loop stores what a run of deliveries stores and lists the nodes reported as applied; its skip changes nothing |
| Descriptors.RunAdvances | src/membership.rs:314-324 | whatever is delivered, revisions never decrease, removals are never undone, a stored revision keeps its content |
| Descriptors.FirstInstall | src/membership.rs:325-341 | an unknown node without a binding is never recorded before a revision 1 lands |
| Descriptors.RunHoldsHighest | src/membership.rs:307-367 | for a trusted node of one owner history, any deliveries leave exactly the highest revision that reached the store |
| Descriptors.ReplicasAgree | src/membership/page.rs:152-171 | replicas that receive the same revisions in any order, with repeats and gaps, end alike |
| Descriptors.UntrustedCountsFromFirst | src/membership.rs:325-341 | for an unknown node the highest revision counts from the first revision 1 that lands |
| Descriptors.ConvergesExactly | src/membership.rs:319-324 | the highest revision always wins if and only if the owner never returns after a removal |
| Descriptors.AnswerTells | src/membership.rs:307-367 | exactly which records are possible after each answer: unchanged after a refusal; stored or not after success, conflict or unknown |
| Descriptors.TakenExactly | src/membership.rs:314-366 | a delivery changes the records if and only if it is taken and applied, and is answered with success if and only if it is taken and reported committed or aborted |
| Descriptors.RefusalReasons | src/membership.rs:314-341 | each refusal by its exact condition |
| Descriptors.ListedExactly | src/membership/page.rs:152-171 | a node is on a page's list if and only if a delivery of it was taken and reported committed or aborted |
| Descriptors.SkippedRevisionAccepted | src/membership.rs:314-318 | revision 3 replaces revision 1 |
| AntiEntropy.EmittedPagesFit | src/membership/page.rs:130-146 | emission fails exactly on a record that does not decode, never on its own page checks, and otherwise holds every record in order |
| AntiEntropy.ExchangeJoins | src/membership/page.rs:130-171 | one exchange leaves the receiver, for every trusted node, with the later of both records if that commit was applied and with its own otherwise, whatever the page size |
| AntiEntropy.TwoExchangesConverge | src/membership/page.rs:130-171 | an exchange each way whose commits of a node land leaves both stores with the same record of it |
| AntiEntropy.ExchangeTellsAll | src/membership/page.rs:130-146 | with a new snapshot for every page, an exchange read to its end tells of every node the sender has throughout |
| Gossip.ReceivingTells | src/membership/page.rs:152-171 | receiving a page keeps a record genuine, never sets it back, and leaves at least the revision that landed |
| Gossip.WordHolds | src/membership/page.rs:130-171 | over every schedule among any number of stores, whoever word of a revision reaches holds it or a later one, and nobody holds what the owner did not write |
| Gossip.HighestPrevails | src/membership/page.rs:130-171 | every store that hears of the highest revision, directly or through others, ends with exactly that record |
| Recovery.RecoveryController.constructor | src/membership/recovery.rs:69-78 | an idle controller |
| Recovery.RecoveryController.Observe | src/membership/recovery.rs:107-124 | the new controller state after one observation |
| Recovery.RecoveryController.NextStep | src/membership/recovery.rs:129-143 | the bounded targets in order, the backoff (zero when due), and the new state |
| Recovery.RecoveryController.Immediate | src/membership/recovery.rs:186-192 | the new state after a forced cycle |
| Recovery.BackoffIsDoubledAndCapped | src/membership/recovery.rs:147-159 | saturation never shows: the backoff is the doubled initial value capped at the maximum |
| Recovery.DueExactly | src/membership/recovery.rs:163-171 | a step is due exactly from the full capped backoff after the last attempt on |
| Recovery.AnnouncedIsFirstDue | src/membership/recovery.rs:92-101 | before its deadline the announced attempt is the full capped backoff away, and exactly the readings from it on are due |
| Recovery.DueWaitsNoMore | src/membership/recovery.rs:147-159 | once due nothing is left to wait for |
| Recovery.ForcedDueExactly | src/membership/recovery.rs:186-192 | a forced cycle is due at once if and only if the capped backoff is at most a second, or at the end of the clock |
| Recovery.ForcedCycleWaits | src/membership/recovery.rs:184-192 | a forced cycle that is not due until its backoff has passed |
| Recovery.RecoveringIffPending | src/membership/recovery.rs:107-124 | over every run recovery is active exactly while the last observation left members unreachable |
| Recovery.PhaseExactly | src/membership/recovery.rs:107-124 | recovering while members are unreachable, connected once they are not any more, idle as long as they never were |
| Recovery.EpisodeReading | src/membership/recovery.rs:129-171 | the n-th step of an episode comes no sooner than the sum of n backoffs, however the clock moves |
| Recovery.ActivationReading | src/membership/recovery.rs:116-120 | an episode that an observation opens counts its backoffs from the initial one |
| Recovery.EpisodeSpan | src/membership/recovery.rs:129-171 | the steps of an episode after its first span at least the sum of the gaps |
| Recovery.StepsNeverStorm | src/membership/recovery.rs:107-171 | over any run, however often recovery restarts, j - i steps take at least j - i smallest backoffs |
| Recovery.GapsDouble | src/membership/recovery.rs:147-154 | while uncapped, the gaps after the first step sum to initial * (2^(n+1) - 2) |
| Neighbors.PlanNeighbors | src/membership/neighbor.rs:44-89 | the cycle walk ends and returns the next min(clamp(degree, 1, 64), n - 1) members on the ring |
| Neighbors.TargetIsMost | src/membership/neighbor.rs:47-62 | a plan is as large as the request, the bound and the other members allow |
| Neighbors.EdgeIsDistance | src/membership/neighbor.rs:70-88 | a member is planned exactly when its ring distance is from 1 to the target |
| Neighbors.OutDegree | src/membership/neighbor.rs:44-89 | a plan names target different members and never the local one |
| Neighbors.InDegree | src/membership/neighbor.rs:44-89 | every member is planned by as many others as it plans |
| Neighbors.StronglyConnected | src/membership/neighbor.rs:44-89 | the union of all plans is strongly connected, and the fewest hops are the ring distance over the target, rounded up |

## Left out

- SHA-256, Ed25519, HKDF and base64: digests are taken as injective (an exact expectation names the
  value itself) and signature verification is a parameter.
- UTF-8 validity in the CBOR validator and DNS hostname validity in tags are parameters; the latter is
  assumed to ignore letter case.
- CborValidator.ValidateCanonical: which diagnostic a refusal carries is not stated; every refusal is the same
  kind of error in the program.
- SelectorParser.ParseSelector: likewise, which failure is reported first is stated only as what the grammar's
  functions report.
- The CBOR decoder library is modelled as a position in the byte string; reading past the end is the
  same refusal as in the program, told apart by kind only.
- The metadata store's journal, receipts and adapters: a commit is one atomic step guarded by its
  conditions; a crash or an unknown outcome recovers to a state that either has it or not. The custody
  and admission machines do not write receipts.
- The base-revision check of the store is a flag of the custody machine, so that what rests on it is
  visible; the admission machine does not use it.
- CustodyRuns.UnguardedCustodyBreaks: speaks of a store that ignores base revisions and of a deletion
  without a local identity; the program has neither.
- CustodyRuns.CustodyExactly: its failing half speaks of that store; with the shipped adapters only the
  other half applies.
- CustodyProgress.LeaveCanGetStuck: speaks of a caller of the deletion that the program does not have; its
  only caller deletes the former key of a leave.
- Custody and leave run as a state machine over values, not as methods; retry budgets are not counted
  (the machine may retry more often than the program, or stop), and the public keys in identity
  records are not modelled.
- A leave is begun on a context that agrees with the store, with node and operation ids never used
  before. The wiped families are written freely while no leave is pending and by nothing but the leave
  while one is. A begin on an outdated in-memory identity is not modelled.
- CustodyDrive.FinishFromRestart: a drive that is interrupted, or meets a fault, may stop; then a later
  one starts from what is durable.
- Genesis and revocation: other writers in the admission machine only add bindings or adopt a grant of
  another issuer.
- AdmissionRateBounds.RateBound: a lag of a whole window or more between readings is not bounded.
  Normalization of source addresses is left out.
- Descriptors.RunHoldsHighest: a node's trust does not change during a run, and stored records decode.
  Wire codecs of descriptors and pages are left out.
- AntiEntropy.ExchangeJoins: takes the pages of one exchange from one scan; pages of changing snapshots are
  the subject of AntiEntropy.ExchangeTellsAll and of the gossip theorems.
- AntiEntropy.TwoExchangesConverge: likewise; any number of stores is the subject of Gossip.HighestPrevails.
- Gossip.HighestPrevails: every store trusts the node throughout.
- ConditionalStore.ApplyDistinct: the receipt and the revision that a commit itself writes are left out; a
  receipt is an entry, and forgetting it is its exact delete.
- ConditionalStore.OrderImmaterial: likewise.
- CustodyProgress.PendingLeaveFinishes: speaks of a node that reopens; the live command has its own
  condition, CustodyProgress.LiveRedriveExactly.
- Recovery.EpisodeReading: speaks of runs without forced cycles, because a forced cycle rewrites the
  last attempt.
- Neighbors.PlanNeighbors: takes the membership as the strictly ascending list an ordered set iterates.
- The route envelope's frame codec, candidate selection and next-hop policies: the policy is any
  function of the envelope.
- Per-record codecs, configuration, sessions, transport, command and query types, hex and base62 codecs
  and label bounds: they would add only easy members.
- Asynchrony, locks and the wall clock themselves: steps are atomic and readings are supplied.
