# Governed-memory store: model and proofs

A Dafny model of the TrueHeart Core lifecycle: raw events with expiring bodies, memories derived from them along
recorded lineage, tombstones, and an audit log, kept in six SQLite tables by `SQLiteRepository` and served by
`TrueHeart`. The policy is branching check-then-write code, so the model has four layers.

1. **Policy** (`Domain`, `Calendar`, `Tables`, `Constraints`, `Readers`, `Policy`, `Answers`, `Damage`): the six tables,
   the decoders that re-validate every row read, the SQL statements with their key, foreign-key and CHECK constraints,
   and for each operation its answer and next state on *any* table contents, with the source's order of errors. Each of
   these is tied to a second description: statements to the schema they must leave, readers to the rows the operations
   write, answers to tables of cases in plain fields.
2. **Program** (`Repository`, `Service`, `Migration`, `Interruptions`, `FrozenJson`): classes and methods with the
   source's loops, transactions and early exits. Which attempts to begin, to execute a statement or to commit are
   interrupted is an input. Each method is proved to answer if and only if none of its attempts is interrupted, then to
   have done exactly what the policy says, and otherwise to have changed nothing, whatever the tables hold.
3. **Runs** (`Invariant`, `Plans`, `Runs`, `Lifecycle`, `Replay`, `Cascade`, `History`, `Expiry`, `Isolation`,
   `BodyFree`, `Concurrency`, `Reachable`): the state invariant, statement lists under their constraints, and theorems
   about every run, about pairs of runs and about every interleaving of statements by any number of clients.
4. **Theory** (`TextOrder`, `StableSort`, `Utf8`, `Binary64`, `Numerals`, `CanonicalJson`, `Metadata`, `PlainMetadata`,
   `Fingerprint`, `Recall`, `Grouping`, `AuditTrail`): code-point order and UTF-8, stable sorting, doubles and their
   shortest text, canonical JSON and its reader, Python equality of metadata, the dependency fingerprint, ranking and
   clarity, the batched lineage query.

Times are microseconds since year 1, bounded by the largest datetime; durations are unbounded until they reach a
64-bit column. A float is the text `repr` gives it, whose value is an exact real. A digest is represented by the text it was computed from, so equal digests mean equal texts. The audit
table is a multiset of rows; their random identifiers are given as distinct labels where rows are read.

Where the obvious statement is false, the model keeps the code's behaviour and says exactly when it holds. Where the
failing state has to be reached, a run from the empty database reaches it for any acceptable drafts:

- Two live memories may share a fingerprint. Forgetting one leaves the other live, and replaying the other's draft is
  then refused as deleted although its memory is live (`Lifecycle.SiblingSurvivesForget`, `Replay.MemoryConflictExactly`;
  reached in `Reachable.SiblingIsRefused`).
- The two classifiers of a missing event differ exactly when its identifier is tombstoned only in other scopes
  (`Cascade.ClassifiersDifferExactly`; reached in `Reachable.DeletedElsewhere`).
- An identifier is reported twice by a raw deletion exactly when a dependent memory bears the event's identifier
  (`Cascade.ReportedTwice`; reached in `Reachable.NamesakeIsReportedTwice`).
- Replay compares metadata by Python's equality, where `true` equals 1 and 2 equals `2.0`. That is comparison of
  canonical text for every value it may meet exactly when the first draft's metadata holds, at any level, no boolean, no
  integer that a float equals and no float that is an integer (`PlainMetadata.EqualByTextExactly`,
  `Replay.IngestReplayedByTextExactly`, `Replay.MaterializeReplayedByTextExactly`; pairs of values in
  `PlainMetadata.EqualValuesWithDifferentTexts`).
- Freezing metadata twice succeeds exactly when it holds no list (`FrozenJson.FreezeTwice`; an input in
  `FrozenJson.ListIsNotFrozenTwice`).
- Without one snapshot per recall its cross-check would fail (`Concurrency.TwoSnapshotsWouldFail`).

`docs/security-guarantees.md` says of `ScopeMismatch`: "If an ID is absent from the requested exact scope but exists
elsewhere in the same database, materialization and governance can disclose that one-bit existence by raising
`ScopeMismatch` rather than `EntityNotFound`." The code, which the model follows, also raises it in governance for an
event or a memory that exists nowhere any more, exactly when it is tombstoned and only in other scopes
(src/trueheart_core/sqlite.py:1440-1445, `Cascade.ForeignWithoutBearerExactly`; reached in `Reachable.DeletedElsewhere`
and `Reachable.ForgottenElsewhere`).

`dafny verify dfyconfig.toml` checks the whole project.

## Model

| member | source | states |
|---|---|---|
| `TextOrder.IncreasingUnique` | src/trueheart_core/sqlite.py:781 | An increasing list of identifiers is determined by its elements, so the stored order of sources can be compared with the sorted draft by equality. |
| `TextOrder.LessMeans` | src/trueheart_core/sqlite.py:706 | One string precedes another exactly when, at the first place where they differ, it has ended or has the smaller code point. |
| `StableSort.SortIsStable` | src/trueheart_core/service.py:81-83 | A stable sort by a key leaves the relation its input stood in standing among ties: the result stands in key order, then in that relation. |
| `StableSort.ChainUnique` | src/trueheart_core/service.py:81-83 | Two permutations of each other that stand in one strict order are the same sequence. |
| `Utf8.ByteOrderIsCodePointOrder` | src/trueheart_core/sqlite.py:629 | Comparing UTF-8 encodings byte by byte (section 3 of RFC 3629) decides the same order as comparing strings code point by code point, for all strings. |
| `Utf8.SqlOrderIsSorted` | src/trueheart_core/sqlite.py:708-738 | A query's identifiers are in byte order exactly when they are what `sorted` makes of the set, so a stored lineage equals the sorted draft identifiers. |
| `Binary64.RoundGrows` | src/trueheart_core/service.py:28-33 | Rounding to the nearest double, ties to even, keeps order: so clarities rounded by float division rank no pair the other way round. |
| `Binary64.RoundIsNearest` | src/trueheart_core/service.py:28-33 | No double is nearer to a number than the one it is rounded to; if another is as near, the one rounded to is even. |
| `Binary64.DoubleFormat` | src/trueheart_core/domain.py:79-82 | The format: every integer up to 2^53 is a double and the next is not; the smallest positive and the largest double. |
| `Binary64.NothingShorter` | src/trueheart_core/domain.py:111-118 | The decimal a float is written as has the fewest digits: no decimal with a larger exponent rounds to the float. |
| `Numerals.ReprReads` | src/trueheart_core/domain.py:111-118 | For every double of either sign, its text is a JSON numeral (section 6 of RFC 8259) that is read back as that very double. |
| `Numerals.ReprShape` | src/trueheart_core/domain.py:111-118 | The layout of that text: no exponent exactly from 1e-4 up to 1e16, else one nonzero digit before the point and a signed exponent of at least two digits; no idle zeros. |
| `CanonicalJson.ParsePrint` | src/trueheart_core/domain.py:111-118 | Canonical text is self-delimiting (sections 5 and 7 of RFC 8259): reading it back gives the value and exactly what followed it. |
| `CanonicalJson.EscapeIsShortest` | src/trueheart_core/domain.py:111-118 | Of all texts the reader takes for a character, the one written is the shortest: nothing is escaped that need not be. |
| `Metadata.CanonicalInjective` | src/trueheart_core/domain.py:111-118 | Two values have one canonical text if and only if they agree up to the order of object keys. |
| `Metadata.DecodeCanonical` | src/trueheart_core/sqlite.py:1681-1687 | What is written to a metadata column is accepted back, as the value written up to the order of keys. |
| `Metadata.DecodeAcceptsExactlyCanonical` | src/trueheart_core/sqlite.py:1681-1687 | A metadata text is accepted exactly when some admissible metadata object, floats included, is written as that text. |
| `Metadata.DecodedEqualsWritten` | src/trueheart_core/sqlite.py:558-574 | A value read back compares, by Python's equality, with every other value as the value written does; numbers are compared exactly, across booleans, integers and floats. |
| `PlainMetadata.EqualValuesWithDifferentTexts` | src/trueheart_core/sqlite.py:770-787 | Inputs: under any key, 1 and true, and 2 and the float 2, are admissible and equal to Python although their canonical texts differ. |
| `PlainMetadata.EqualByTextExactly` | src/trueheart_core/sqlite.py:770-787 | Equality with a metadata value is equality of canonical text, for every metadata value, if and only if it holds no boolean, no integer that a float equals and no float that is an integer, at any level. |
| `PlainMetadata.PlainByText` | src/trueheart_core/sqlite.py:558-574 | For such a value the two agree on every JSON value whatever, admissible or not. |
| `PlainMetadata.FlipIsEqual` | src/trueheart_core/sqlite.py:558-574 | Every metadata value equals the admissible value with each number put in its second form, if it has one; the text differs unless no number has. |
| `Metadata.NormalizeIsNormal` | src/trueheart_core/domain.py:111-118 | Sorting keys at every level gives an object whose keys do not descend at any level and keeps keys distinct. |
| `Metadata.WrittenKeysAscend` | src/trueheart_core/domain.py:111-118 | A mapping is written with its keys in strictly ascending code-point order, in every object at every level. |
| `FrozenJson.FreezeJson` | src/trueheart_core/domain.py:72-100 | The recursive copying loop over lists and mappings computes the freezing function, refusals included. |
| `FrozenJson.FreezeAcceptsExactly` | src/trueheart_core/domain.py:72-100 | Accepted are exactly the string-keyed JSON values with at most 64 container levels, finite floats and integers of at most 4096 bits; tuples are refused. |
| `FrozenJson.BitLengthBound` | src/trueheart_core/domain.py:75-78 | A bit length of at most k means a magnitude below two to the k. |
| `FrozenJson.ReadyUndoesFreeze` | src/trueheart_core/domain.py:103-108 | Thawing a frozen value gives the original value back. |
| `FrozenJson.FreezeTwice` | src/trueheart_core/domain.py:83-100 | Freezing a frozen value is refused if the value held a list and changes nothing otherwise. |
| `FrozenJson.ListIsNotFrozenTwice` | src/trueheart_core/domain.py:83-100 | An input: a mapping from any key to an empty list freezes, holds a list, and does not freeze a second time. |
| `FrozenJson.FreezesExactlyMetadata` | src/trueheart_core/domain.py:121-134 | A JSON value is a mapping that freezes exactly when the value it stands for is admissible metadata: the program and the policy admit the same values. |
| `FrozenJson.FrozenMetadataRoundTrip` | src/trueheart_core/domain.py:121-134 | Every mapping that freezes is written as text from which the decoder reads the caller's own value, up to the order of keys. |
| `Fingerprint.FingerprintInjective` | src/trueheart_core/ports.py:22-34 | Two fingerprints have one pre-image if and only if scope, kind and source set are equal. |
| `Fingerprint.FingerprintText` | src/trueheart_core/ports.py:22-34 | The digested text, member by member: kind, then the scope as owner, subject and tenant, then the sources in ascending order, without spaces. |
| `Fingerprint.LineageObjectInjective` | src/trueheart_core/ports.py:22-34 | The object that is digested determines scope, kind and source list. |
| `Recall.Candidates` | src/trueheart_core/sqlite.py:962-968 | The candidates are exactly the scope's memories that decode, are active, end after the query time and are of a wanted kind. |
| `Recall.ValidIsRecallable` | src/trueheart_core/sqlite.py:945-961 | In a valid state every memory of every scope decodes and memories and edge owners coincide, so recall never fails. |
| `Recall.ExactClarityFades` | src/trueheart_core/service.py:28-33 | For a candidate the exact fraction is defined, lies in (0, 1], is 1 exactly until the clear deadline and never grows with time. |
| `Recall.FadesLinearly` | src/trueheart_core/service.py:31-33 | Between the deadlines the fraction falls by exactly the time passed, measured in the length of that span. |
| `Recall.ClarityIsNearest` | src/trueheart_core/service.py:31-33 | While a memory fades its clarity is a double, and no double is nearer to the time left divided by the length of the fading. |
| `Recall.ClarityFades` | src/trueheart_core/service.py:28-33 | So does clarity itself, the double nearest to it: it lies in (0, 1], is 1 until the clear deadline and never grows with time. |
| `Recall.ThreeSortsRank` | src/trueheart_core/service.py:81-83 | The three in-place sorts leave the items in the one strict order: clarity down, creation time down, identifier up; nothing lost or added. |
| `Recall.RecallIgnoresRowOrder` | src/trueheart_core/sqlite.py:908-917 | The sorted result is the same for every permutation of the unordered rows. |
| `Recall.SortAndSliceIsRecall` | src/trueheart_core/service.py:77-84 | Sorting and slicing returns candidates in rank order, as many as the limit allows, every omitted one ranking below every returned one. |
| `Recall.RecallIsDetermined` | src/trueheart_core/service.py:71-84 | Two answers that keep this promise are equal: filter, order, take limit is a complete specification. |
| `Grouping.GroupsAreLineages` | src/trueheart_core/sqlite.py:932-957 | Grouping the one batched, ordered edge query gives each memory exactly its own ordered edges. |
| `AuditTrail.NewestFirstIsDetermined` | src/trueheart_core/sqlite.py:1111-1115 | The two in-place sorts leave every later time before every earlier one and, among equal times, the larger identifier first, whatever order the rows came in. |
| `AuditTrail.SliceIsListing` | src/trueheart_core/sqlite.py:1106-1116 | Sorting twice and slicing gives the scope's rows, each as often as logged, newest first, and cuts away the oldest. |
| `Repository.SQLiteRepository.IngestEvent` | src/trueheart_core/sqlite.py:449-556 | Answered if and only if none of its attempts is interrupted; answered, with the service's deadline check, it gave the policy's answer and state and sent exactly its statement list between one begin and one commit; interrupted, it changed nothing; on any tables. |
| `Repository.SQLiteRepository.StoreEvent` | src/trueheart_core/sqlite.py:495-530 | Undisturbed, the insertions and the read-back of a new event do what the policy says, with exactly the planned statements. |
| `Interruptions.NoFaults` | src/trueheart_core/sqlite.py:443-447 | Counting interruptions says what the contracts mean by undisturbed: as many by one attempt as by another exactly when none in between is interrupted. |
| `Repository.SQLiteRepository.LoadSources` | src/trueheart_core/sqlite.py:642-673 | The loop yields the receipts of all sources in the draft's order, or the error of the first unusable one. |
| `Repository.SQLiteRepository.MaterializeOnce` | src/trueheart_core/sqlite.py:576-768 | The same refinement for materialization, answered if and only if undisturbed: tombstone checks, replay, source loading, ceilings, insertions and read-back, in that order. |
| `Repository.SQLiteRepository.InsertEdges` | src/trueheart_core/sqlite.py:706-724 | Undisturbed, the loop inserts one edge per source in sorted order with the receipts' values, and is refused only by an edge already under the memory's key. |
| `Repository.SQLiteRepository.InsertRows` | src/trueheart_core/sqlite.py:688-725 | Undisturbed, the row, the edges and the audit row of a new memory are inserted as planned, or refused because an orphaned edge is in the way. |
| `Repository.SQLiteRepository.StoreMemory` | src/trueheart_core/sqlite.py:688-746 | Answered if and only if undisturbed: the insertions and the read-back commit the new memory whole, or refuse as the policy says; interrupted, nothing changes. |
| `Repository.SQLiteRepository.SelectDue` | src/trueheart_core/sqlite.py:993-1006 | Every receipt is decoded, and exactly the receipts with a body that is due are selected, each once. |
| `Repository.SQLiteRepository.ExpireRawContent` | src/trueheart_core/sqlite.py:987-1038 | The same refinement for expiry, answered if and only if undisturbed: three statements per due body, all committed or none, answering their number. |
| `Repository.SQLiteRepository.GovernEntity` | src/trueheart_core/service.py:90-98 | The same refinement for governance behind the service's gate on raw-event actions, answered if and only if undisturbed. |
| `Repository.SQLiteRepository.GovernMemory` | src/trueheart_core/sqlite.py:1171-1242 | Answered if and only if undisturbed: seal, restore, forget and delete of a memory follow the policy on any tables, after the lineage check. |
| `Repository.SQLiteRepository.LineageFingerprint` | src/trueheart_core/sqlite.py:1340-1412 | The loop over a memory's edges, each against its receipt, recomputes its fingerprint, or fails exactly when the policy finds no lineage. |
| `Repository.SQLiteRepository.ChangeStatus` | src/trueheart_core/sqlite.py:1206-1223 | Undisturbed, a permitted seal or restore changes the status and adds its audit row, and nothing else. |
| `Repository.SQLiteRepository.ForgetMemory` | src/trueheart_core/sqlite.py:1224-1239 | Answered if and only if undisturbed: forgetting removes edges and row, leaves a tombstone with the memory's fingerprint and one audit row, or is refused as the policy says; interrupted, nothing changes. |
| `Repository.SQLiteRepository.LoadDependents` | src/trueheart_core/sqlite.py:1269-1300 | Every dependent is checked against its own recomputed lineage; the result is all dependents in identifier order, or failure. |
| `Repository.SQLiteRepository.DeleteDependents` | src/trueheart_core/sqlite.py:1302-1312 | Undisturbed, the loop removes exactly the listed memories and all their edges; it is never refused. |
| `Repository.SQLiteRepository.InsertTombstones` | src/trueheart_core/sqlite.py:1330-1337 | Undisturbed, the loop gives each dependent a tombstone with its own fingerprint, and is refused only by a tombstone already there. |
| `Repository.SQLiteRepository.DeleteRawEvent` | src/trueheart_core/sqlite.py:1244-1338 | The same refinement for raw deletion with its cascade, answered if and only if undisturbed. |
| `Repository.SQLiteRepository.MemoryRecordOf` | src/trueheart_core/sqlite.py:809-894 | The decoding loop with its four accumulators computes the record reader of the policy. |
| `Repository.SQLiteRepository.GroupRows` | src/trueheart_core/sqlite.py:946-949 | The grouping loop maps each memory with edges to its rows in the order they came, and no other memory. |
| `Repository.SQLiteRepository.SelectCandidates` | src/trueheart_core/sqlite.py:908-970 | On any tables: candidates are selected exactly when the whole scope decodes, whatever the time and the kinds, and then each once. |
| `Repository.SQLiteRepository.RecallCandidates` | src/trueheart_core/sqlite.py:896-970 | Answered if and only if none of its attempts (begin, two queries, and a commit if all decodes) is interrupted, and then with the candidates, or a failure exactly when the scope does not decode; nothing changes. |
| `Repository.SQLiteRepository.Audit` | src/trueheart_core/sqlite.py:1098-1116 | Answered if and only if undisturbed, on any tables: it fails exactly when some row of the scope is malformed, and else returns the newest of the scope's rows, times and then identifiers descending, as many as the limit allows. |
| `Service.TrueHeart.Recall` | src/trueheart_core/service.py:71-84 | Answered if and only if undisturbed: the answer is the determined recall of the committed tables, clarity down, creation time down, identifier up, or a failure exactly when the scope does not decode. |
| `Migration.Database.MigrateLegacyMemorySources` | src/trueheart_core/sqlite.py:367-417 | Interrupted exactly when one of its statements is. Else a current table is left alone; a legacy table is replaced by its edges with the receipts' values, and refused exactly when an edge lacks its receipt, a row does not fit or the interim name is taken. |
| `Migration.Database.InitializeSchema` | src/trueheart_core/sqlite.py:293-323 | Over an existing schema, undisturbed, the migration and the index are committed together if the database can be migrated; refused, or interrupted anywhere, the database stays as it was. |
| `Calendar.LastTime` | src/trueheart_core/domain.py:61-69 | The largest time is the last microsecond of the year 9999 of the Gregorian calendar, counted from the start of the year 1. |
| `Domain.ColumnBound` | src/trueheart_core/sqlite.py:515-516 | The largest integer a column takes is 2^63 - 1. |
| `Constraints.AcceptedExactly` | src/trueheart_core/sqlite.py:119-205 | A statement is accepted exactly when its key is free, its numbers fit, and the tables it would leave meet the schema's CHECK and FOREIGN KEY clauses; then it leaves those. |
| `Constraints.OnlyWholeTextIsJson` | src/trueheart_core/sqlite.py:119-205 | A value's text passes the schema's JSON check, and with anything after it does not. |
| `Constraints.ValidMeetsSchema` | src/trueheart_core/sqlite.py:119-205 | Every valid state, so every reachable one, meets the schema. |
| `Readers.AuditAcceptsExactly` | src/trueheart_core/sqlite.py:1132-1169 | An audit row is accepted exactly when some operation can have written it. |
| `Readers.TombstoneAcceptsExactly` | src/trueheart_core/sqlite.py:1478-1511 | A tombstone is accepted exactly when some command can have left it: an event's without fingerprint, a memory's with one. |
| `Readers.ReceiptAcceptsExactly` | src/trueheart_core/sqlite.py:1584-1651 | A receipt row is accepted exactly when ingesting some draft writes it, with the status its body's presence calls for. |
| `Readers.ReceiptReads` | src/trueheart_core/sqlite.py:1584-1651 | And it reads back as that draft's values. |
| `Readers.MemoryAcceptsExactly` | src/trueheart_core/sqlite.py:809-894 | A memory row is accepted over its lineage rows exactly when materializing some draft writes it over them. |
| `Answers.PeriodsFitExactly` | src/trueheart_core/sqlite.py:497-546 | In a valid state a new event is stored, with its body, if and only if both periods are at most 2^63 - 1; else it is turned away and nothing changes. |
| `Answers.AbsentIsAnswered` | src/trueheart_core/sqlite.py:1414-1446 | In a valid state a command on what its scope does not have is refused as deleted if tombstoned there, else as foreign if another scope has it or its tombstone, else as unknown. |
| `Answers.TombstonedIsDeleted` | src/trueheart_core/sqlite.py:1423-1428 | In a valid state every permitted command on what is tombstoned in its own scope is refused as deleted. |
| `Answers.RawEventsAreOnlyDeleted` | src/trueheart_core/service.py:93-97 | On any tables a command on a raw event is refused for its action, nothing changing, exactly when the action is not delete. |
| `Answers.BuriedDraftIsDeleted` | src/trueheart_core/sqlite.py:589-608 | In a valid state a draft whose identifier is tombstoned, or whose scope, kind and sources are those of a forgotten or deleted memory, is refused as deleted. |
| `Answers.AbsentSourceIsAnswered` | src/trueheart_core/sqlite.py:642-673 | In a valid state a new draft is refused for its first absent source: deleted, foreign or unknown. |
| `Answers.PresentSourcesAreAnswered` | src/trueheart_core/sqlite.py:675-746 | In a valid state a new draft with all sources is refused if one is less trusted, else if no source allows a representable deadline, and is else stored. |
| `Damage.IngestFindsDamage` | src/trueheart_core/sqlite.py:462-516 | On any tables: exactly which malformed rows make an ingest answer corruption. |
| `Damage.MaterializeFindsDamage` | src/trueheart_core/sqlite.py:584-746 | On any tables: exactly which malformed rows make a materialization answer corruption, in which order it looks at them. |
| `Damage.ExpireFindsDamage` | src/trueheart_core/sqlite.py:993-1006 | On any tables an expiry answers corruption exactly when some receipt, of any scope, is malformed. |
| `Damage.GovernMemoryFindsDamage` | src/trueheart_core/sqlite.py:1171-1205 | On any tables: exactly which malformed rows make governance of a memory answer corruption. |
| `Damage.DeleteEventFindsDamage` | src/trueheart_core/sqlite.py:1244-1300 | On any tables: exactly which malformed rows make the deletion of an event answer corruption. |
| `Invariant.StepKeepsValid` | src/trueheart_core/sqlite.py:119-205 | Every operation keeps keys, foreign keys, snapshot equals receipt, decodability of every row and the disjointness of live and tombstoned, and none answers with corruption. |
| `Invariant.RunIsValid` | src/trueheart_core/sqlite.py:809-894 | Every state a run reaches from a valid state passes every read validator. |
| `Invariant.NoRunFindsCorruption` | src/trueheart_core/sqlite.py:1584-1651 | No operation after any run from the empty database ends in a corruption error. |
| `Invariant.FreshReceipt` | src/trueheart_core/sqlite.py:495-546 | What ingest writes, the receipt decoder accepts, as the draft's own values. |
| `Invariant.FreshMemory` | src/trueheart_core/sqlite.py:688-746 | What materialize writes, the record decoder accepts, with sources sorted and deadlines at creation plus the minima. |
| `Invariant.ValidLineage` | src/trueheart_core/sqlite.py:1340-1412 | In a valid state the fingerprint recomputed from the edges is the stored one. |
| `Invariant.PositiveMinima` | src/trueheart_core/domain.py:195-196 | If every recall period is at least its clear period, so are the minima: recall never ends before clarity. |
| `Invariant.MaterializeStores` | src/trueheart_core/sqlite.py:675-746 | A draft whose sources are usable is refused by trust, then by an unrepresentable deadline, then by an orphaned edge, and else stored. |
| `Invariant.DeleteEventKeepsValid` | src/trueheart_core/sqlite.py:1244-1338 | A cascade leaves a valid state. |
| `Lifecycle.EveryRunCanBeRead` | src/trueheart_core/sqlite.py:1132-1169 | After any run from the empty database every recall and every audit query of every scope succeeds. |
| `Plans.PlanExecutes` | src/trueheart_core/sqlite.py:495-556 | For an operation that is not refused, on any tables: its statements respect every key, foreign key and check when sent, and amount to its outcome. |
| `Plans.PlanExists` | src/trueheart_core/sqlite.py:495-556 | Whatever the tables hold, every operation has a plan: the statements of its outcome can always be listed. |
| `Plans.EveryPrefixExecutes` | src/trueheart_core/sqlite.py:119-205 | Stopped after any number of statements, none has been turned away. |
| `Plans.RefusedKeepsState` | src/trueheart_core/sqlite.py:748-764 | A refused operation leaves the tables as they were. |
| `Plans.ExpireExecutes` | src/trueheart_core/sqlite.py:1007-1037 | The per-receipt statements, in any order of receipts, amount to removing exactly those bodies and adding one row each. |
| `Plans.DeleteEventExecutes` | src/trueheart_core/sqlite.py:1302-1338 | Edges before memories before the event: no statement of the cascade breaks a foreign key, and together they amount to the deletion. |
| `Runs.RunIsLater` | src/trueheart_core/sqlite.py:449-1072 | Along every run tombstones stay, live receipts and memories keep every column but their status, lineage stays, and bodies only go. |
| `Runs.NothingComesBack` | src/trueheart_core/sqlite.py:462-471 | After any later operations a tombstoned entity is not live, memories with a tombstoned fingerprint are among those that were there, and no memory names a deleted event. |
| `Runs.StepHasShape` | src/trueheart_core/sqlite.py:449-1072 | From a valid state an operation changes nothing or makes its one change under its documented conditions. |
| `Lifecycle.ReplayIsStable` | src/trueheart_core/sqlite.py:472-493 | Re-ingesting an accepted draft after any operations, while its event is live, changes nothing and returns the original receipt except for body availability. |
| `Lifecycle.ConflictExactly` | src/trueheart_core/sqlite.py:558-574 | A later draft under the same identifier conflicts exactly when a compared field differs; the body counts through its digest and the time to live through the deadline. |
| `Lifecycle.MemoryReplayExactly` | src/trueheart_core/sqlite.py:589-640 | Replaying the accepted draft itself while its memory is live returns the original record with its current status, unless its fingerprint has been tombstoned, when it is refused as deleted. |
| `Replay.MemoryConflictExactly` | src/trueheart_core/sqlite.py:589-640 | After a first materialization and any run that keeps the memory, every draft under its identifier is refused as deleted if its own fingerprint is tombstoned, else gets the record with its current status if no compared field differs, else conflicts. |
| `Replay.IngestReplayedByTextExactly` | src/trueheart_core/sqlite.py:472-493 | Every later draft under a live event's identifier is a replay just when its fields have the first draft's text, if and only if the first draft's metadata is plain. |
| `Replay.MaterializeReplayedByTextExactly` | src/trueheart_core/sqlite.py:770-787 | The same for memory drafts while their fingerprint is not tombstoned. |
| `Lifecycle.MaterializesExactly` | src/trueheart_core/sqlite.py:589-685 | In a valid state a new draft is stored if and only if neither its identifier nor its fingerprint is tombstoned, every source is live and at least as trusted, and some source's recall deadline is representable. |
| `Lifecycle.NewRecord` | src/trueheart_core/sqlite.py:688-746 | The record of a new memory: the draft's values, sources sorted, its fingerprint, active, deadlines at creation plus the smallest periods. |
| `Lifecycle.FirstMemoryIsRecalled` | src/trueheart_core/service.py:46-84 | For all drafts and queries that trust, deadlines and query time allow: after ingesting the event and materializing from it, the memory is a candidate, fully clear until the event's clear period has passed. |
| `Lifecycle.SiblingSurvivesForget` | src/trueheart_core/sqlite.py:157-172 | A forgotten memory's fingerprint is still carried by a live memory exactly when another live memory of the scope carried it. |
| `Lifecycle.Ceilings` | src/trueheart_core/sqlite.py:675-685 | In every valid state a memory's trust is at most that of each current source receipt and both deadlines are creation time plus the smallest period, attained. |
| `Lifecycle.CandidatesMeetTheRules` | src/trueheart_core/sqlite.py:856-871 | On any tables at all, every candidate meets the trust, deadline and fingerprint rules against its own snapshots. |
| `Lifecycle.KeptReceipt` | src/trueheart_core/sqlite.py:1584-1651 | A receipt that a run keeps reads back the same, except for body availability. |
| `Lifecycle.KeptRecord` | src/trueheart_core/sqlite.py:809-894 | A memory that a run keeps reads back the same, except for its status. |
| `Cascade.DeletionIsExact` | src/trueheart_core/sqlite.py:1244-1338 | Deleting a live event removes exactly it, its body, the memories with an edge to it and their edges, tombstones each with its own fingerprint, touches nothing else, and reports exactly those identifiers sorted. |
| `Cascade.RemovalIsExact` | src/trueheart_core/sqlite.py:1224-1242 | Forgetting or deleting a live memory removes exactly its row and edges and leaves one tombstone with its fingerprint and the command's time, and one audit row. |
| `Cascade.TransitionIsExact` | src/trueheart_core/sqlite.py:1206-1223 | A live memory is sealed exactly when active and restored exactly when sealed; only its status changes; otherwise the command is refused and nothing changes. |
| `Cascade.RestoreUndoesSeal` | src/trueheart_core/sqlite.py:1206-1223 | Restoring undoes sealing: every table but the log is as it was. |
| `Cascade.ReportedTwice` | src/trueheart_core/sqlite.py:1071 | An identifier is reported at most twice, and twice exactly when a dependent memory bears the event's identifier. |
| `Cascade.ClassifiersDifferExactly` | src/trueheart_core/sqlite.py:1414-1446 | Governance and materialization classify a missing event alike, except exactly when it is tombstoned only elsewhere: `ScopeMismatch` against `EntityNotFound`. |
| `Cascade.ForeignWithoutBearerExactly` | src/trueheart_core/sqlite.py:1425-1445 | For events and memories: governance answers `ScopeMismatch` although nothing live bears the identifier exactly when it is tombstoned, and only in other scopes. |
| `Reachable.SiblingIsRefused` | src/trueheart_core/sqlite.py:589-608 | Ingest, materialize two siblings, forget one: for any acceptable drafts the other is live, carries the tombstoned fingerprint, and its own draft is refused as deleted. |
| `Reachable.NamesakeIsReportedTwice` | src/trueheart_core/sqlite.py:1338 | Ingest an event and materialize a memory under the event's identifier: deleting the event reports that identifier twice. |
| `Reachable.DeletedElsewhere` | src/trueheart_core/sqlite.py:655-672 | Ingest and delete an event: from any other scope governance answers `ScopeMismatch` and materialization `EntityNotFound`. |
| `Reachable.ForgottenElsewhere` | src/trueheart_core/sqlite.py:1425-1445 | Ingest, materialize, forget: from any other scope governance of the memory answers `ScopeMismatch` although nothing live bears the identifier. |
| `History.LogTellsState` | src/trueheart_core/sqlite.py:495-496 | After any run: live and tombstoned events are those ingested, tombstoned ones those deleted, bodies those not expired, memories those materialized, and sealed means one seal more than restores. |
| `History.TombstonedExactly` | src/trueheart_core/sqlite.py:1206-1242 | After any run a memory is tombstoned if and only if it has a forget or delete row or one of the sources its fingerprint names has a delete row. |
| `History.RunIsFaithful` | src/trueheart_core/sqlite.py:1539-1582 | The whole story of every entity, forget and delete rows being at most one and only for tombstoned memories, holds after every run. |
| `History.RowsAdded` | src/trueheart_core/sqlite.py:1007-1036 | Refusals and replays add no audit row; expiry adds exactly one for each body it removed; every other operation exactly one, naming entity, action and time. Cascaded memories get none. |
| `Expiry.ExpireExactly` | src/trueheart_core/sqlite.py:1000-1038 | Expiry removes exactly the bodies due, answers their number, marks their receipts and touches no memory, edge or tombstone. |
| `Expiry.ExpiriesCompose` | src/trueheart_core/sqlite.py:987-1038 | Expiring up to a and then up to b, a not after b, leaves the events and bodies of expiring up to b alone, and the counts add up. |
| `Expiry.BodiesNeverReturn` | src/trueheart_core/sqlite.py:483-493 | A body that is gone never comes back in any later run. |
| `Expiry.RunAlike` | src/trueheart_core/sqlite.py:987-1038 | Taking every expiry out of a run changes only bodies, receipt statuses and expire rows. |
| `Expiry.ExpiryIsTransparent` | src/trueheart_core/sqlite.py:1603-1610 | Where expiry runs, no other operation's answer and no recall can tell, except for the availability flag of a replayed ingest. |
| `Expiry.IngestOutcome` | src/trueheart_core/sqlite.py:462-516 | What ingest answers in a valid state: unrepresentable deadline, deleted, replay or conflict, a period of 2^63 microseconds or more, stored, in that order. |
| `Isolation.ForeignStep` | src/trueheart_core/sqlite.py:449-985 | An operation of another scope leaves this scope's rows in all six tables as they were. |
| `Isolation.StepAgrees` | src/trueheart_core/sqlite.py:1414-1446 | In two states that agree on a scope its operations get the same answer, except that a foreign identifier may be unknown instead, and leave states that agree. |
| `Isolation.RunAgrees` | src/trueheart_core/sqlite.py:449-1116 | Taking every other scope's operations out of a run leaves this scope's rows in all six tables the same. |
| `Isolation.ScopesAreIsolated` | src/trueheart_core/sqlite.py:896-985 | A scope's answers, recalls and audit rows are the same with and without the other scopes' operations. |
| `Isolation.ForeignExactly` | src/trueheart_core/sqlite.py:655-673 | On any tables an identifier is refused as foreign rather than as unknown exactly when another scope holds it: live, or for governance also tombstoned. |
| `Isolation.OthersShowOnlyAsForeign` | src/trueheart_core/sqlite.py:1414-1446 | After any run, an answer among other scopes is the answer without them, which never calls an identifier foreign, except that one unknown alone is called foreign exactly when another scope holds it. |
| `BodyFree.RunRewritten` | src/trueheart_core/sqlite.py:1513-1582 | Rewriting all bodies, different ones to different ones, and all callers' reasons, in any way, commutes with every run: reasons leave no trace at all. |
| `BodyFree.NoBodiesInTombstonesOrAudit` | src/trueheart_core/sqlite.py:1513-1582 | Tombstones, audit rows, lineage, refusals, counts and affected identifiers are the same for any bodies and any callers' reasons: none is stored there. |
| `Concurrency.EveryInterleavingIsSerial` | src/trueheart_core/sqlite.py:459-556 | For every interleaving of statements of any number of clients, failures anywhere, tables and answers are those of the answered operations run one at a time, and each reader saw one state of that run within its own span. |
| `Concurrency.RefusalsLeaveNoTrace` | src/trueheart_core/sqlite.py:748-764 | In every interleaving, failures anywhere, the committed tables are those of the committed operations alone, run one at a time in commit order. |
| `Concurrency.NoStatementIsRejected` | src/trueheart_core/sqlite.py:119-205 | In no interleaving is a statement turned away by a constraint. |
| `Concurrency.HolderCanAnswer` | src/trueheart_core/sqlite.py:459-556 | In every interleaving, wherever the holder of the lock is, it has moves of its own after which it is answered what its operation does to the tables committed now, these have changed so, and the lock is free. |
| `Concurrency.WaiterCanAnswer` | src/trueheart_core/sqlite.py:459-556 | And so has every waiting writer when the lock is free: no reachable state is a deadlock. |
| `Concurrency.CrossCheckHolds` | src/trueheart_core/sqlite.py:905-961 | Under any interleaving the check of one SELECT of a recall against the other never fails spuriously. |
| `Concurrency.TwoSnapshotsWouldFail` | src/trueheart_core/sqlite.py:905-961 | With two snapshots it would: a memory listed before it is forgotten has no lineage afterwards, in every state. |
| `Migration.JoinSize` | src/trueheart_core/sqlite.py:387-413 | The join has as many rows as there are old edges if and only if every receipt exists, and the new table has as many rows as the join. |
| `Migration.InsertedIsNewTable` | src/trueheart_core/sqlite.py:391-404 | The receipt key leaves at most one joined row per old edge, so the inserted rows break no primary key and are the old edges that have a receipt. |
| `Migration.InsertJoinedIsRowByRow` | src/trueheart_core/sqlite.py:391-404 | The one INSERT over the join goes through exactly when inserting the joined rows one by one, in whatever order, does, and leaves the same table. |
| `Migration.RowFitsExactly` | src/trueheart_core/sqlite.py:391-404 | A joined row fits exactly when the statement that inserts one edge would be accepted, were its key free. |
| `Migration.MigratedLineage` | src/trueheart_core/sqlite.py:391-404 | After the migration each memory has the lineage its old edges gave it when read against the receipts. |
| `Migration.MigratedMemory` | src/trueheart_core/sqlite.py:367-417 | For every database that can be migrated: a memory reads back exactly when its old edges, read against the receipts, do, and as the same record. |
| `Migration.MigrationRestores` | src/trueheart_core/sqlite.py:367-417 | Valid tables seen through the old schema can be migrated and become exactly themselves, so every memory decodes to the same record. |

## Left out

- SQLite itself: SQL parsing, files, PRAGMAs, the write-ahead-log retry loop and error-code translation. Kept is its contract: one writer after `BEGIN IMMEDIATE`, snapshot reads, rollback, immediate constraint checks.
- Schema inspection and the schema version check (src/trueheart_core/sqlite.py:325-365, src/trueheart_core/sqlite.py:419-440) are taken as passed.
- SHA-256, its hexadecimal form and uuid4: digests are pre-images, audit identifiers distinct labels.
- Time zones, ISO text of datetimes and normalization of datetimes in constructors: drafts arrive with microsecond integers.
- Metadata.DecodeAcceptsExactlyCanonical: the 16 KiB limit on the text is not re-checked.
- Length limits of text fields, blank-string checks, the 16 KiB limit on metadata and the 256 KiB limit on bodies.
- Query and audit limits from 1 through 100 are checked by constructors; the model takes any limit.
- PlainMetadata.EqualByTextExactly: the 16 KiB limit again; the other value it exhibits has other digits and may be longer than the given one.
- Column types: a cell is a well-typed value; malformed rows are malformed by value.
- The `metadata_json` columns of tombstones and audit rows, which both decoders check (src/trueheart_core/sqlite.py:1145, src/trueheart_core/sqlite.py:1492), are absent: the code only writes the empty object there.
- Repository.SQLiteRepository.IngestEvent: a writer can be interrupted when it begins, at every statement that writes and when it commits; an interrupted read of a writer is an interruption at the next of these.
- Repository.SQLiteRepository.Audit: the order of equal times follows the given labels, since the model does not draw identifiers.
- Migration.Database.InitializeSchema: a fresh database, where all tables are created, and the version row are not modelled; layouts are recognised, not their schema text.
- Concurrency.EveryInterleavingIsSerial: a writer's reads are whole-table looks, and a client decides by the policy when its looks agree and arbitrarily when they do not; waiting for the lock and its timeout are the choice not to move, or a failure.
- Isolation.StepAgrees: expiry works in all scopes, so its count is not compared.
- Package exports, examples and scripts: nothing there decides what is stored.
