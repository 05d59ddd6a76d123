# VSFS in Dafny

VSFS is a distributed searchable file system. Master servers hold a sharded namespace, index servers hold range
indices that are fed by a write log, and a client library drives both. This project models its core and proves what it
is for.

| file | what it models |
|---|---|
| `IndexOps.dfy`, `RangeIndex.dfy` | the algebra of index updates (last writer wins per pair) and the mutable range index: batch updates, bounded scan, median split |
| `LogManager.dfy`, `IndexWrapper.dfy`, `DeferredIndex.dfy` | the write log, the index behind `update`/`merge`/`search`/`flush_log`, and every run of it against a plain eager index |
| `LogStream.dfy`, `CrashRecovery.dfy` | the log file format and recovery from it |
| `ComplexQuery.dfy`, `QueryPath.dfy`, `FieldQueries.dfy` | the query parser, and the whole path from a query string to the objects found |
| `IndexManager.dfy`, `ClientSearch.dfy` | the search of an index server over several of its indices, and the client's search over all servers |
| `Namespace.dfy`, `NamespaceRuns.dfy`, `NamespaceTree.dfy` | a master's maps and store under store failures, `init`, and the tree they stand for |
| `ObjectIds.dfy` | object ids as bit masks and as arithmetic, and the ring lookup |
| `ClientProtocol.dfy`, `MasterProtocol.dfy` | `create`, `mkdir` and `unlink` as interleaved RPC steps of any number of clients, and the same on real masters |
| `ScatterGather.dfy`, `UpdateTask.dfy`, `EndToEnd.dfy` | grouping by server and putting answers back together, a whole index update task, and an update followed by a search |
| `IndexNamespace.dfy`, `IndexPaths.dfy`, `Paths.dfy` | which directories carry which index, look-ups up and down the tree, and path strings |
| `BucketMap.dfy` | the bucketed hash map and its iterator |

## Main results

**Deferred index.** Updates are only logged; a merge applies a prefix of the log and leaves it there, so later merges
apply the same records again; a flush may queue the same record twice. Over every run, a merge whose id is not below
that of an earlier merge leaves exactly the index that one in-order replay of the append history gives
(`MergeEqualsEager`), the written chunks followed by the unflushed log replay like the history
(`ChunksAndLogReplayTheHistory`), and so do the index and the log (`IndexAndLogReplayTheHistory`): a record leaves the
log only after a successful merge has applied it and a chunk has it (`TrimmedRecordsAreSafe`). Merge ids in between may go down, and malformed updates are allowed: a merge
then stops at the first one, for good, and reports it.

**Queries.** A query text with any white space and any numerals parses to the bounds its conditions name, and the scan
then finds exactly the objects with a key that satisfies them (`QueryAnswersConditions`). With several conditions on
one side the last one counts, and `LastWinsIsRightIff` says exactly when that is right; with several fields the answers
are united, and `UnionIsConjunctionIff` says exactly when that is what the query asks for. End to end, over all masters
and index servers and whatever those have merged, flushed and trimmed, a search finds exactly the objects that the plain
replay of some located index has under a key that satisfies the conditions (`SearchAnswersQuery`).

**Masters.** Under arbitrary store failures the maps and the store stay in step, `init` rebuilds the very same maps and
its parent check never fires, object ids are never handed out twice in a process lifetime, and the namespace behaves as
a plain tree (`RunMeans`, `ReportsAreRight`). The same holds over many lifetimes whose counters take turns
(`LivesKeepInv`). An id found by a search resolves to its path on the master the ring picks.

**Clients.** In every interleaving, every entry has its record and no two clients own a path at once, if and only if no
add goes through that its client takes for failed (`EveryInterleavingIsSafeIff`). Masters that run the real namespace
refine that protocol, so whatever a directory lists on one master has its metadata on another (`EntriesHaveRecords`).
An update task delivers to every partition, in request order, the records of its requests with the ids of their own
files, or leaves the partition alone (`RunUpdates`), and a search that covers an acknowledged insert and is satisfied by
its key finds it (`UpdateIsFound`).

## Where the code does not do what is promised

Each is kept as the code has it, with an input that shows it and the exact condition.

| what happens | input | exactly when |
|---|---|---|
| an update whose id is not above the last merge id can be trimmed unmerged, so runs require new ids to exceed it | `DeferredIndex.StaleUpdateIsLost`, `UpdateWithoutIdIsLost` | `DeferredIndex.RecordSurvivesIff` |
| the retry loops keep an earlier error after a later success, so a `create` can undo the record of a file whose entry was added | `ClientProtocol.StaleAddLeavesADanglingEntry` | `ClientProtocol.EveryInterleavingIsSafeIff`, `FinishAddIsSafeIff` |
| a one-sided query never finds the extreme key of the type on its open side | `QueryPath.LeastKeyIsMissed` | `QueryPath.ScanBounds` |
| of several conditions on one side only the last counts | `QueryPath.EarlierConditionIsLost` | `QueryPath.LastWinsIsRightIff` |
| an object that matches one field is found, whatever the others say | `FieldQueries.OneFieldIsEnough` | `FieldQueries.UnionIsConjunctionIff` |
| a segment that is followed by a slash loses its first character, or all of it | `QueryPath.FieldLosesItsFirstCharacter` | `QueryPath.SegmentsSurviveIff` |
| without a slash before the question mark the root directory loses a character | `QueryPath.RootLosesACharacter` | `QueryPath.RootIsNamedIff` |
| collecting the indices under a directory also finds those of siblings whose names start like it | `IndexNamespaces.SiblingIsCollected` | `IndexNamespaces.CollectsSubtreeIff` |
| the object counter is not restored, so a restarted master can hand out an id that is in use | `NamespaceRuns.RestartCanReuseAnId` | `NamespaceRuns.CreateKeepsInvIff`, `RestartIsSafeIff` |
| on the separators of the repository's own routing test an id can go to another master than its path | `ObjectIds.TestRingMisroutes` | `ObjectIds.RoutesAlikeIff` |
| a log file written by unforced flushes can replay to no prefix of the history, because a later queueing round may stop short of an earlier one | `CrashRecovery.CrashCanRestoreNoPrefix` | it replays to the flushed prefix if the last round of every written flush went furthest: `CrashRecovery.CrashRestoresFlushed` |
| once an update was malformed, the immediate and the deferred mode part | every such history, by `DeferredIndex.DisagreeAfter` | `DeferredIndex.ImmediateEqualsEagerIff` |

Besides, a `create` that rolled back reports success (`ClientProtocol.RollbackReportsSuccessIffUndone`), a `create` or
`unlink` whose first RPC succeeds after a failed attempt reports failure and leaves a record without an owner
(`LateRecordIsOrphanedIff`, `LateRemovalOrphansIff`), adding or removing an entry is asked for again for ever while the
master refuses (`EntryGivesUp`), and removing a path from the index namespace succeeds on a node that carries no index
(`IndexNamespaces.EmptyNodeIsRemoved`). The log file
format has a limit of its own: it cannot carry a chunk that is empty or starts with a digit
(`LogStreams.DigitChunkIsLost`, `ReadInvertsWriteIff`). The server never writes one, because the serialisation of a log
buffer starts with the type of a field, which is not a digit.

## How the source was read

- `last_merged_log_id_` starts at 0 and the object counter at an arbitrary value; the code initialises neither.
- The client never sets a transaction id (vsfs/client/vsfs_rpc_client.cpp:615 and 764), so its updates and searches carry
  the default, taken to be 0. Ids as `append` documents them start at 1 here; what happens at 0 is
  `DeferredIndex.UpdateWithoutIdIsLost`.
- A forced flush of an empty buffer takes the last element of an empty vector; a flush that is to write must have a record.
- The store is a sorted map whose `put` and `remove` either happen or fail without effect. Hashing, `getattr`, the ring
  owner of a key, store and RPC failures, and the serialisation of a log chunk are parameters. A failed RPC has no effect.
- `Namespace::create` reads the metadata after erasing it on rollback; the model uses the id it had read before.
- `split` iterates `*other->index_`, read as `other->index_`. `find_objects` reserves its output without resizing it; the
  model has an array of the right length.
- The ring lookup lives in a library that is not part of this model; its rule is the one the repository's tests fix.
- The wrapper's `search` drops the status of the scan, so a bound that does not parse gives success with no results.
- A hash-map bucket is the list of its entries in iteration order, which is arbitrary.

## Model

| member | source | states |
|---|---|---|
| `IndexOps.LastWriterWins` | vsfs/index/index_impl.h:83-109 | after any batch a pair is present exactly when the last write about it says so, or else when it was before |
| `IndexOps.SamePairsSameIndex` | vsfs/index/index_impl.h:238-247 | since no empty key is kept, indices with the same pairs are equal |
| `IndexOps.Absorb` | vsfs/indexd/index_manager.cpp:149-157 | writes that are about to be repeated by what follows may be applied once more before |
| `IndexOps.Idempotent` | vsfs/indexd/index_manager.cpp:149-157 | re-applying the writes applied last changes nothing |
| `RangeIndexes.RangeIndex.Insert` | vsfs/index/index_impl.h:62-66 | adds one pair and keeps the index free of empty keys |
| `RangeIndexes.RangeIndex.Erase` | vsfs/index/index_impl.h:238-247 | drops one pair, and its key once no object is left |
| `RangeIndexes.RangeIndex.ApplyUpdates` | vsfs/index/index_impl.h:83-109 | the writes before the first malformed update are applied, and success means there is none |
| `RangeIndexes.RangeIndex.Size` | vsfs/index/index_impl.h:159-166 | the number of (key, object) pairs |
| `RangeIndexes.RangeIndex.Scan` | vsfs/index/range_index.h:251-270 | the ordered scan with early stop lists every object once per key of its in the range, and nothing else, in the order of the keys |
| `RangeIndexes.RangeIndex.Search` | vsfs/index/range_index.h:221-239 | the scan of the bounds the texts stand for; fails exactly when a bound does not parse |
| `RangeIndexes.AnswersMembership` | vsfs/index/range_index.h:251-270 | an object is found exactly when one of its keys is in the range |
| `RangeIndexes.RangeIndex.Split` | vsfs/index/index_impl.h:197-234 | pairs below the median stay and the others move, none is lost or doubled, no empty key remains, at most half stay and exactly half when ids are distinct |
| `RangeIndexes.RangeIndex.MoveAbove` | vsfs/index/index_impl.h:213-223 | exactly the pairs at or above the median are copied |
| `RangeIndexes.RangeIndex.RemoveMoved` | vsfs/index/index_impl.h:224-232 | exactly the pairs below the median remain |
| `Selection.NthElement` | vsfs/index/index_impl.h:210-211 | a permutation with the n-th element in its sorted place, as section 25.4.2 of ISO C++11 requires |
| `Selection.KeptCount` | vsfs/index/index_impl.h:209-212 | how many records lie below the median |
| `LogManagers.LogManager.Append` | vsfs/common/log_manager.h:130-144 | the record is at the end of the list, whatever its id |
| `LogManagers.LogManager.EraseThrough` | vsfs/common/log_manager.h:147-153 | the longest prefix with ids up to the given one goes |
| `LogManagers.LogManager.ScanThrough` | vsfs/common/log_manager.h:165-173 | exactly that prefix is returned |
| `LogManagers.UptoSpec` | vsfs/common/log_manager.h:147-173 | the prefix has only such ids and the record after it has not |
| `LogManagers.LogManager.GetLogBufferSize` | vsfs/common/log_manager.h:272-279 | the size of all queued entities |
| `LogManagers.LogManager.SkipFlushed` | vsfs/common/log_manager.h:186-192 | where the unflushed records start |
| `LogManagers.LogManager.QueueFrom` | vsfs/common/log_manager.h:193-203 | records are queued in order, up to and including the one that reaches the limit |
| `LogManagers.FillStops` | vsfs/common/log_manager.h:193-203 | queueing stops at the first record that fills the buffer, and not before |
| `LogManagers.LogManager.Flush` | vsfs/common/log_manager.h:182-216 | the new log, buffer, last flushed id and the chunk written, if any |
| `IndexWrappers.RangeIndexWrapper.Update` | vsfs/indexd/index_manager.cpp:108-133 | only appended to the log, or applied at once in the immediate mode |
| `IndexWrappers.RangeIndexWrapper.ApplyRecords` | vsfs/indexd/index_manager.cpp:149-154 | all records in turn, up to the first malformed update |
| `IndexWrappers.RangeIndexWrapper.Merge` | vsfs/indexd/index_manager.cpp:135-160 | the log prefix applied and kept, the merge id recorded only on success, nothing done while migrating |
| `IndexWrappers.RangeIndexWrapper.Search` | vsfs/indexd/index_manager.cpp:162-177 | merges, then answers from the merged index |
| `IndexWrappers.RangeIndexWrapper.FlushToFile` | vsfs/indexd/index_manager.cpp:179-195 | flushes, then trims up to the smaller of the last merged and the last flushed id |
| `IndexWrappers.WritesConcat` | vsfs/indexd/index_manager.cpp:149-154 | applying records in two runs is applying them in one, unless the first stops |
| `IndexManagers.MergeTwice` | vsfs/indexd/index_manager.cpp:135-160 | merging twice up to the same id is merging once |
| `IndexManagers.IndexManager.SearchOne` | vsfs/indexd/index_manager.cpp:405-416 | one index is merged and answers, and no other changes |
| `IndexManagers.IndexManager.Search` | vsfs/indexd/index_manager.cpp:395-421 | stops at the first sub-query whose index is missing or cannot be merged and says which of the two; the sub-queries before it are answered one after the other, each from its index as merged, and exactly those indices (and the failing one, as far as it got) are merged; complete exactly when there is no such sub-query |
| `IndexManagers.ResultsAreUnion` | vsfs/indexd/index_manager.cpp:395-421 | an object is found exactly when some sub-query's merged index has it under a key in that range |
| `DeferredIndex.SettlesFrom` | vsfs/indexd/index_manager.cpp:135-160 | a merge may start from older records that were applied before |
| `DeferredIndex.SettlesStuck` | vsfs/indexd/index_manager.cpp:149-154 | after a malformed update the index is the eager one up to it, and stays so |
| `DeferredIndex.AbsorbRecords` | vsfs/common/log_manager.h:193-203 | records written twice replay like records written once |
| `DeferredIndex.Collapse` | vsfs/common/log_manager.h:193-213 | any number of queueing rounds written ahead of the unflushed records does not change the replay |
| `DeferredIndex.StepInv` | vsfs/indexd/index_manager.cpp:108-195 | every step keeps the log, merge and flush invariants |
| `DeferredIndex.RunInv` | vsfs/indexd/index_manager.cpp:108-195 | so they hold after every run |
| `DeferredIndex.MergeEqualsEager` | vsfs/indexd/index_manager.cpp:135-160 | after any run a merge not below earlier ones leaves the eager index of every update logged with an id up to it, and succeeds exactly when none is malformed |
| `DeferredIndex.SearchEqualsEager` | vsfs/indexd/index_manager.cpp:162-177 | a search answers as if it had scanned the eager index |
| `DeferredIndex.ChunksAndLogReplayTheHistory` | vsfs/common/log_manager.h:182-216 | after any run the written chunks followed by the unflushed log replay to the index of the whole history |
| `DeferredIndex.IndexAndLogReplayTheHistory` | vsfs/indexd/index_manager.cpp:135-195 | after any run, applying the records still in the log to the index gives the eager index of the whole history |
| `DeferredIndex.TrimmedRecordsAreSafe` | vsfs/indexd/index_manager.cpp:190-193 | a record no longer in the log is among those the last successful merge had applied, all well formed, and is in a written chunk |
| `DeferredIndex.RecordSurvivesIff` | vsfs/common/log_manager.h:128-140 | on any log without higher ids, repeated ids included, a new record flushed through survives trimming if and only if its id is above the last merge id |
| `DeferredIndex.NewRecordSurvivesIff` | vsfs/common/log_manager.h:128-140 | the same after any run |
| `DeferredIndex.StaleUpdateIsLost` | vsfs/common/log_manager.h:128-140 | a run in which an update with a stale id never reaches the index |
| `DeferredIndex.UpdateWithoutIdIsLost` | vsfs/client/vsfs_rpc_client.cpp:763-764 | with id 0, an update, a forced flush and a trim leave an empty log before any merge |
| `DeferredIndex.ImmediateIsEager` | vsfs/indexd/index_manager.cpp:113-118 | the immediate mode is the eager index of what every batch applies before its first malformed update |
| `DeferredIndex.ImmediateEqualsEagerIff` | vsfs/indexd/index_manager.cpp:108-133 | it agrees with the deferred meaning after every next well-formed batch if and only if no batch so far was malformed |
| `LogStreams.ReadInvertsWriteIff` | vsfs/common/log_manager.h:209-253 | reading a written stream gives back its chunks if and only if none is empty or starts with a digit |
| `LogStreams.DigitChunkIsLost` | vsfs/common/log_manager.h:209-253 | the chunk "5" is not read back |
| `LogStreams.FormatIs` | vsfs/common/log_manager.h:209-211 | the chunks "abc" and "de" are written as "3abc2de" |
| `LogStreams.SizeReads` | vsfs/common/log_manager.h:232-236 | a size is read past white space, up to the first character that is no digit, and not at all when nothing follows or it does not fit in 64 bits |
| `LogStreams.ShortChunkIsDropped` | vsfs/common/log_manager.h:237-242 | a chunk shorter than announced ends the reading |
| `LogStreams.Load` | vsfs/common/log_manager.h:223-255 | the log becomes the records of the chunks read, up to one that does not parse |
| `LogStreams.LoadInvertsWrite` | vsfs/common/log_manager.h:209-255 | loading a written file restores all records of all chunks, in order |
| `LogStreams.LoadRestores` | vsfs/common/log_manager.h:182-255 | after any run that flushed its whole log, loading the file and replaying it gives the index of the history |
| `CrashRecovery.CrashRestoresFlushed` | vsfs/common/log_manager.h:182-255 | after a crash of any run whose written flushes had their last queueing round go furthest, the file replays to the index of exactly the updates up to the last flushed id |
| `CrashRecovery.ForcedRunsAreTidy` | vsfs/common/log_manager.h:203-213 | runs with forced flushes are of that kind |
| `CrashRecovery.CrashCanRestoreNoPrefix` | vsfs/common/log_manager.h:193-213 | three updates and two unforced flushes whose file replays to no prefix of the history |
| `Numerals.DigitsInOrder` | vsfs/index/index_impl.h:89-90 | the ten digits have the values 0 to 9, in that order |
| `Numerals.DigitsValueConcat` | vsfs/index/index_impl.h:89-90 | positional notation: digits behind others shift these by as many decimal places |
| `Numerals.CastReads` | vsfs/index/index_impl.h:89-90 | a numeral denotes its digits in positional notation, negated after a minus sign, if the type has that value |
| `Numerals.CastDigit` | vsfs/index/range_index.h:227-232 | a one-digit text denotes the place of its digit among the ten |
| `Numerals.CastRefuses` | vsfs/index/index_impl.h:91-93 | no text with another character, or without a digit, reads as a number |
| `Numerals.CastShow` | vsfs/client/vsfs_rpc_client.cpp:790-791 | a written key or object id reads back as itself |
| `ComplexQueries.ParseCondOp` | vsfs/common/complex_query.cpp:66-82 | the operator with that text, and none exactly when no operator has it |
| `ComplexQueries.ComplexQuery.DoExpression` | vsfs/common/complex_query.cpp:142-198 | the bound on its side, or both for an equality, overwritten for the trimmed field; all error branches |
| `ComplexQueries.NextCondition` | vsfs/common/complex_query.cpp:204-219 | the next piece between separators and where the one after it starts |
| `ComplexQueries.ComplexQuery.DoCondition` | vsfs/common/complex_query.cpp:200-222 | all pieces in turn, up to the first that fails |
| `ComplexQueries.ComplexQuery.DoSegment` | vsfs/common/complex_query.cpp:224-234 | a segment without an operator is accepted without effect, an empty one is refused |
| `ComplexQueries.NextSegment` | vsfs/common/complex_query.cpp:258-272 | the next segment, with repeated slashes skipped, and where the one after it starts |
| `ComplexQueries.ComplexQuery.DoSegments` | vsfs/common/complex_query.cpp:258-277 | all segments in turn, up to the first that fails |
| `ComplexQueries.ComplexQuery.DoParse` | vsfs/common/complex_query.cpp:236-279 | the root directory, and the ranges added to those the query object already has |
| `QueryPath.ParseOne` | vsfs/common/complex_query.cpp:142-198 | any rendering of a condition parses back to its field, operator and numeral |
| `QueryPath.LessMeans` | vsfs/common/complex_query.cpp:66-82 | for any field and numeral, "<" sets the upper bound, open |
| `QueryPath.AtMostMeans` | vsfs/common/complex_query.cpp:66-82 | "<=" sets it closed |
| `QueryPath.GreaterMeans` | vsfs/common/complex_query.cpp:66-82 | ">" sets the lower bound, open |
| `QueryPath.AtLeastMeans` | vsfs/common/complex_query.cpp:66-82 | ">=" sets it closed |
| `QueryPath.EqualsMeans` | vsfs/common/complex_query.cpp:66-82 | "=" sets both, closed |
| `QueryPath.DiffersMeans` | vsfs/common/complex_query.cpp:193-196 | "!=" is refused |
| `QueryPath.ExpressionErrors` | vsfs/common/complex_query.cpp:142-163 | no operator, nothing behind it, or an operator that is none of the six: refused without effect; an empty expression aborts |
| `QueryPath.ConditionsStop` | vsfs/common/complex_query.cpp:200-222 | the conditions before one that fails have their effect, those behind it none |
| `QueryPath.NotQueries` | vsfs/common/complex_query.cpp:224-247 | which texts abort, which are no query, and what a segment without an operator does |
| `QueryPath.SplitJoined` | vsfs/common/complex_query.cpp:200-222 | splitting joined conditions gives them back |
| `QueryPath.ParseText` | vsfs/common/complex_query.cpp:236-279 | any rendering of conditions parses to their collected ranges, and to the text before the question mark without its last character as the root |
| `QueryPath.RootIsNamedIff` | vsfs/common/complex_query.cpp:250-254 | the root is the directory named if and only if that is "/" or the text before the question mark ends in a slash |
| `QueryPath.RootLosesACharacter` | vsfs/common/complex_query.cpp:250-254 | a query under /home is made under /hom |
| `QueryPath.CollectedLower` | vsfs/common/complex_query.cpp:178-192 | the lower bound of a field is that of its last lower condition |
| `QueryPath.CollectedUpper` | vsfs/common/complex_query.cpp:170-192 | and likewise the upper bound |
| `QueryPath.ScanBounds` | vsfs/client/vsfs_rpc_client.cpp:617-628 | for every key of the type, exactly which keys the RPC range contains, the extreme keys of an open side being left out |
| `QueryPath.QueryAnswersConditions` | vsfs/client/vsfs_rpc_client.cpp:601-655 | from text to objects: found exactly when a key of the object satisfies every condition and is not the extreme key of an open side |
| `QueryPath.LastWinsIsRightIff` | vsfs/common/complex_query.cpp:169-192 | with any number of conditions, exactly when the last on each side gives the same keys as all of them |
| `QueryPath.LeastKeyIsMissed` | vsfs/index/range_index.h:221-239 | asked for sizes below 9, an object of the least size is not found |
| `QueryPath.EarlierConditionIsLost` | vsfs/common/complex_query.cpp:179-186 | with size>5&size>1 the key 3 is in the range |
| `QueryPath.SegmentsSurviveIff` | vsfs/common/complex_query.cpp:258-272 | what the parser makes of any list of segments, and that it is the same list if and only if there is one segment |
| `QueryPath.FieldLosesItsFirstCharacter` | vsfs/common/complex_query.cpp:258-272 | the query /?ab>1/c>2 asks about a field b |
| `FieldQueries.ResultsAreFound` | vsfs/indexd/index_manager.cpp:395-421 | an object is among the results of a search about several fields exactly when the merged index of some field has it under a key in that field's range |
| `FieldQueries.QueryFindsUnion` | vsfs/indexd/index_manager.cpp:395-421 | for a query text about any number of fields, the results of the search hold an object exactly when, for some field, its merged index has it under a key that satisfies all conditions on that field and is not the extreme key of an open side |
| `FieldQueries.UnionIsConjunctionIff` | vsfs/indexd/index_manager.cpp:395-421 | over all index contents that equals satisfying all fields if and only if there is one field, or no range holds any key |
| `FieldQueries.OneFieldIsEnough` | vsfs/indexd/index_manager.cpp:395-421 | asked for f>1&g>1, the results of the search hold an object without any g |
| `ClientSearches.Locate` | vsfs/client/vsfs_rpc_client.cpp:1011-1044 | exactly the partitions of the indices of these names on directories with the root as a string prefix, on any master; succeeds exactly when all masters answer |
| `ClientSearches.MakePlan` | vsfs/client/vsfs_rpc_client.cpp:1046-1063 | every partition with the server it hashes to, and nothing else |
| `ClientSearches.NameOfPartition` | vsfs/client/vsfs_rpc_client.cpp:618 | the index name read back from a partition path is the one it was built from |
| `ClientSearches.Reply` | vsfs/client/vsfs_rpc_client.cpp:617-632 | an index server answers about some partitions exactly when all of them can be searched |
| `ClientSearches.AskServers` | vsfs/client/vsfs_rpc_client.cpp:611-645 | succeeds exactly when every server of the plan answers, and then holds exactly the objects some partition matches |
| `ClientSearches.SearchFiles` | vsfs/client/vsfs_rpc_client.cpp:601-655 | the objects found are those some located index has under a key in its range, the result is the path of each as its master has it, and a failure has one of three causes |
| `ClientSearches.SearchAnswersQuery` | vsfs/client/vsfs_rpc_client.cpp:601-655 | from text to objects over all servers and any runs of their indices: found exactly when the plain replay of some located index has the object under a key that satisfies every condition on its field |
| `ClientProtocol.StepInvIff` | vsfs/client/vsfs_rpc_client.cpp:193-333 | a client step keeps entries backed by records and each path with one owner if and only if it is not a stale add |
| `ClientProtocol.EveryInterleavingIsSafeIff` | vsfs/client/vsfs_rpc_client.cpp:193-333 | an interleaving of any number of clients is safe at every step if and only if it has no stale add |
| `ClientProtocol.LastAttemptRunsAreClean` | vsfs/client/vsfs_rpc_client.cpp:956-982 | when the retry loops go by the last attempt no stale add can happen |
| `ClientProtocol.OwnersAreAtMostOne` | vsfs/client/vsfs_rpc_client.cpp:193-288 | per path the entry and the clients in the middle of a call are no more than the one record |
| `ClientProtocol.SecondRpcFindsItsFile` | vsfs/client/vsfs_rpc_client.cpp:233-288 | in every clean interleaving the second RPC of a call finds the record there and the entry free |
| `ClientProtocol.FinishAddIsSafeIff` | vsfs/client/vsfs_rpc_client.cpp:956-982 | finishing a create or mkdir keeps entries backed if and only if no earlier attempt had failed, the last attempt decides, or it was a mkdir |
| `ClientProtocol.StaleAddLeavesADanglingEntry` | vsfs/client/vsfs_rpc_client.cpp:209-248 | a run of one client that leaves an entry without a record and reports success |
| `ClientProtocol.RollbackReportsSuccessIffUndone` | vsfs/client/vsfs_rpc_client.cpp:234-248 | a rolled back create reports success exactly when the record is gone |
| `ClientProtocol.SuccessMeansMade` | vsfs/client/vsfs_rpc_client.cpp:193-333 | a create or mkdir that reports success without a rollback has made the record and, except for "/", the entry |
| `ClientProtocol.FailureMeansNothingDone` | vsfs/client/vsfs_rpc_client.cpp:206-233 | one that reports failure before a rollback changed nothing, unless its record was made after a failed attempt |
| `ClientProtocol.LateRecordIsOrphanedIff` | vsfs/client/vsfs_rpc_client.cpp:209-233 | a made record is left without an owner, and failure reported, if and only if an earlier attempt had failed and its status is kept |
| `ClientProtocol.LateRemovalOrphansIff` | vsfs/client/vsfs_rpc_client.cpp:268-274 | the same for the record of a file whose entry was removed |
| `ClientProtocol.SuccessMeansRemoved` | vsfs/client/vsfs_rpc_client.cpp:268-288 | an unlink that reports success leaves neither record nor entry |
| `ClientProtocol.CreateGivesUp` | vsfs/client/vsfs_rpc_client.cpp:206-228 | a create gives up after three failures of either kind, a mkdir after one |
| `ClientProtocol.EntryGivesUp` | vsfs/client/vsfs_rpc_client.cpp:956-1009 | adding or removing an entry gives up after three transport errors, and never while the master refuses |
| `ClientProtocol.RootHasNoEntry` | vsfs/client/vsfs_rpc_client.cpp:957-959 | making the root directory ends with its record, and unlinking it starts there |
| `ClientProtocol.UnlinkUndoesCreate` | vsfs/client/vsfs_rpc_client.cpp:193-288 | an undisturbed create and unlink leave the masters as they were |
| `MasterProtocol.StepRefines` | vsfs/client/vsfs_rpc_client.cpp:193-333 | an RPC carried out by the namespace of the master that owns its path is an enabled step of the protocol with the same effect |
| `MasterProtocol.RunRefines` | vsfs/client/vsfs_rpc_client.cpp:193-333 | every run over any number of masters, with store failures and lost RPCs, is a run of the protocol in corresponding states |
| `MasterProtocol.RefusedAddIsRepeated` | vsfs/client/vsfs_rpc_client.cpp:967-981 | an add the master refuses is asked for again without using up an attempt |
| `MasterProtocol.EntriesHaveRecords` | vsfs/masterd/namespace.cpp:203-358 | after any clean run, what a directory lists on its master has metadata on the master of that path |
| `MasterProtocol.LastAttemptRunsAreClean` | vsfs/client/vsfs_rpc_client.cpp:956-1009 | with loops that go by the last attempt every run is clean |
| `ObjectIds.MaskedIdIsObjectId` | vsfs/masterd/namespace.cpp:371-382 | the masks give the 2^48 block of the hash and the counter modulo 2^48, for every signed hash and counter |
| `ObjectIds.ObjectIdParts` | vsfs/masterd/namespace.cpp:371-382 | an id is a 64-bit value in its hash's block at its counter's position |
| `ObjectIds.IdsDiffer` | vsfs/masterd/namespace.cpp:371-382 | counter values less than 2^48 apart give different ids whatever the hashes |
| `ObjectIds.TestLookups` | vsfs/masterd/partition_manager_test.cpp:65-91 | the lookups those tests fix |
| `ObjectIds.OwnerIsUnique` | vsfs/masterd/partition_manager_test.cpp:65-66 | the lookup rule picks one separator |
| `ObjectIds.SameOwnerIff` | vsfs/masterd/partition_manager_test.cpp:88-91 | two values have the same owner exactly when no separator, or every separator, lies between them |
| `ObjectIds.IdRoutesLikeItsPath` | vsfs/client/vsfs_rpc_client.cpp:1065-1074 | on a ring of multiples of 2^48 an id is owned by the master of its path |
| `ObjectIds.RoutesAlikeIff` | vsfs/client/vsfs_rpc_client.cpp:1065-1074 | on a ring of 64-bit separators all ids route like their paths if and only if every separator is a multiple of 2^48 or there is one |
| `ObjectIds.TestRingMisroutes` | vsfs/masterd/namespace_test.cpp:221-238 | on the separators of that test an id and its hash can have different owners |
| `Namespaces.Namespace.GetObjectId` | vsfs/masterd/namespace.cpp:371-382 | the id of the hash and the counter, which moves on by one |
| `Namespaces.Namespace.Create` | vsfs/masterd/namespace.cpp:203-232 | the new state and report on every branch, rollback included |
| `Namespaces.Namespace.Remove` | vsfs/masterd/namespace.cpp:234-257 | the new state and report on every branch, and the id of the removed file |
| `Namespaces.Namespace.Mkdir` | vsfs/masterd/namespace.cpp:259-286 | the new state and report on every branch, rollback included |
| `Namespaces.Namespace.Rmdir` | vsfs/masterd/namespace.cpp:288-306 | the new state and report on every branch |
| `Namespaces.Namespace.AddSubfile` | vsfs/masterd/namespace.cpp:316-337 | the new state and report on every branch |
| `Namespaces.Namespace.RemoveSubfile` | vsfs/masterd/namespace.cpp:339-358 | the new state and report on every branch |
| `Namespaces.Namespace.FindObjects` | vsfs/masterd/namespace.cpp:110-123 | the id of each path at its position, 0 for an unknown one |
| `Namespaces.Namespace.FindFiles` | vsfs/masterd/namespace.cpp:125-138 | the path of each id at its position, empty for an unknown one |
| `Namespaces.Namespace.Init` | vsfs/masterd/namespace.cpp:52-90 | the store's records loaded in key order, stopping at a corrupted one or a failed parent check |
| `NamespaceRuns.CreateKeepsInvIff` | vsfs/masterd/namespace.cpp:203-232 | a create keeps maps and store in step if and only if its id is not in use |
| `NamespaceRuns.RemoveKeepsInv` | vsfs/masterd/namespace.cpp:234-257 | so does a remove, whose check never fires |
| `NamespaceRuns.MkdirKeepsInv` | vsfs/masterd/namespace.cpp:259-286 | so does a mkdir |
| `NamespaceRuns.RmdirKeepsInv` | vsfs/masterd/namespace.cpp:288-306 | so does an rmdir |
| `NamespaceRuns.AddSubfileKeepsInv` | vsfs/masterd/namespace.cpp:316-337 | so does adding an entry |
| `NamespaceRuns.RemoveSubfileKeepsInv` | vsfs/masterd/namespace.cpp:339-358 | so does removing one |
| `NamespaceRuns.MetadataComesFirst` | vsfs/masterd/namespace.cpp:64-84 | no entry key sorts before a metadata key |
| `NamespaceRuns.LoadRefuses` | vsfs/masterd/namespace.cpp:64-88 | which records init refuses, aborts on or passes over |
| `NamespaceRuns.InitRebuilds` | vsfs/masterd/namespace.cpp:52-90 | loading a store in step with its maps succeeds and gives back the same three maps |
| `NamespaceRuns.RunKeepsInv` | vsfs/masterd/namespace.cpp:203-358 | over any run of fewer than 2^48 creates with any store failures the id map is the inverse of the metadata map on files and memory and store stay in step |
| `NamespaceRuns.RestartRebuilds` | vsfs/masterd/namespace.cpp:52-90 | a restart after any such run rebuilds the three maps |
| `NamespaceRuns.FileIdsAreDistinct` | vsfs/masterd/namespace.cpp:203-232 | no two files share an id |
| `NamespaceRuns.IssuedIdsAreDistinct` | vsfs/masterd/namespace.cpp:371-382 | no id is handed out twice in a process lifetime, not even for files that are gone or were never stored |
| `NamespaceRuns.RestartCanReuseAnId` | vsfs/masterd/namespace.cpp:43-47 | with the counter back at an old value a create breaks the inverse |
| `NamespaceRuns.RestartIsSafeIff` | vsfs/masterd/namespace.cpp:371-382 | the next ids are free whatever the paths if and only if no coming counter value agrees modulo 2^48 with an id in use |
| `NamespaceRuns.LivesKeepInv` | vsfs/masterd/namespace.cpp:52-90 | over any number of process lifetimes whose counters take turns, every restart rebuilds the maps and they stay in step |
| `NamespaceRuns.IdResolvesToItsPath` | vsfs/client/vsfs_rpc_client.cpp:1065-1091 | after any runs, the master that owns an object id answers with the path that was given it |
| `NamespaceTree.StepMeans` | vsfs/masterd/namespace.cpp:203-358 | an operation reports success exactly when the tree allows it, and then changes the tree at its own path or entry only |
| `NamespaceTree.RunMeans` | vsfs/masterd/namespace.cpp:203-358 | after any run the maps mean the tree the successful operations built |
| `NamespaceTree.ReportsAreRight` | vsfs/masterd/namespace.cpp:203-358 | after any run every operation reports success, or the reason for its refusal, as the tree has it, and no internal check aborts |
| `ScatterGather.GroupByServer` | vsfs/client/vsfs_rpc_client.cpp:921-928 | each server has exactly the positions of its paths, in order |
| `ScatterGather.FindObjects` | vsfs/client/vsfs_rpc_client.cpp:916-953 | each position gets the id its own path's master has, and the call succeeds exactly when no server it needs fails |
| `ScatterGather.Scatter` | vsfs/client/vsfs_rpc_client.cpp:930-951 | one server's answers land on the positions of its paths, and the others stay |
| `ScatterGather.ResolvePaths` | vsfs/client/vsfs_rpc_client.cpp:1065-1091 | the paths are those each object's own master answers, with multiplicity; succeeds exactly when no master it needs fails |
| `ScatterGather.ReorderRequests` | vsfs/client/vsfs_rpc_client.cpp:712-732 | each server has the partitions it owns, each with exactly its request positions in order |
| `ScatterGather.EachPositionInOneBucket` | vsfs/client/vsfs_rpc_client.cpp:712-732 | every position is in exactly one bucket |
| `ScatterGather.BuildLists` | vsfs/client/vsfs_rpc_client.cpp:763-797 | each record carries the operation and key of the request at its position and the id at that position |
| `ScatterGather.RunTask` | vsfs/client/vsfs_rpc_client.cpp:734-812 | succeeds exactly when no server it needs fails; the partitions of every server before the first failing one get all their records in request order, the others none |
| `ScatterGather.TaskEqualsOneByOne` | vsfs/client/vsfs_rpc_client.cpp:734-812 | when no server it needs fails every partition is as if the requests had been applied one by one |
| `UpdateTasks.FindIndices` | vsfs/client/vsfs_rpc_client.cpp:671-710 | the index of every request's parent and index name, found exactly when every walk finds one |
| `UpdateTasks.RunUpdates` | vsfs/client/vsfs_rpc_client.cpp:734-812 | succeeds exactly when every index is found and every server needed answers; each partition then has, in request order, the operation, key and own object id of its requests, and otherwise all of them or nothing |
| `UpdateTasks.RecordDecodesIff` | vsfs/client/vsfs_rpc_client.cpp:772-791 | the record of a request decodes to the write it asks for if and only if it has an operation and a readable key |
| `UpdateTasks.IntendedDecodes` | vsfs/client/vsfs_rpc_client.cpp:763-797 | what a partition receives decodes to the writes its requests ask for, in order |
| `EndToEnd.SamePartition` | vsfs/client/vsfs_rpc_client.cpp:724 | the partition an update is sent to is the one a search of that index asks about, index path and "/0" |
| `EndToEnd.DeliveredIsIndexed` | vsfs/client/vsfs_rpc_client.cpp:734-812 | once a task is delivered, the plain index has the pair of a request exactly when it was no removal and no later request says otherwise |
| `EndToEnd.UpdateIsFound` | vsfs/client/vsfs_rpc_client.cpp:601-655 | an acknowledged insert is found by a search that covers it, whose root is above its index and whose conditions its key satisfies |
| `EndToEnd.FoundIsReturned` | vsfs/client/vsfs_rpc_client.cpp:1065-1091 | and its path is among the results, as the master of its id has it |
| `IndexPaths.SplitInvertsIndexPathIff` | vsfs/common/path_util.cpp:39-61 | splitting a built index path gives back its parts if and only if no component of the directory is `.vsfs` |
| `Paths.PrefixIsContiguous` | vsfs/masterd/index_namespace.cpp:183-188 | keys with a common prefix are contiguous in key order |
| `Paths.SplitJoined` | vsfs/masterd/namespace.cpp:77-80 | parent and file name of a joined path are its parts |
| `Paths.JoinSplit` | vsfs/masterd/namespace.cpp:325 | and joining them gives back the path |
| `IndexNamespaces.IndexNamespace.Init` | vsfs/masterd/index_namespace.cpp:50-66 | the nodes become the stored ones, up to one that cannot be read |
| `IndexNamespaces.CleanupTrims` | vsfs/masterd/index_namespace.cpp:68-74 | what cleaning leaves is a non-empty prefix, behind it are only slashes, and it ends in none unless it is one character |
| `IndexNamespaces.SlashMakesNoDifference` | vsfs/masterd/index_namespace.cpp:76-150 | asking for, inserting and removing an index is the same with a slash more at the end of the path |
| `IndexNamespaces.InsertedWithSlash` | vsfs/masterd/index_namespace.cpp:76-105 | an index inserted through /foo/ is there on /foo |
| `IndexNamespaces.ReportsAreRight` | vsfs/masterd/index_namespace.cpp:76-125 | over any run an insert reports that the pair exists, and a removal that it is missing, exactly when the plain set says so |
| `IndexNamespaces.EmptyNodeIsRemoved` | vsfs/masterd/index_namespace.cpp:127-143 | removing a path succeeds on a node left empty by a refused insert |
| `IndexNamespaces.IndexNamespace.CleanupPath` | vsfs/masterd/index_namespace.cpp:68-74 | all trailing slashes go, but never the first character |
| `IndexNamespaces.IndexNamespace.InsertName` | vsfs/masterd/index_namespace.cpp:76-105 | the new nodes and store on every branch, rollback included |
| `IndexNamespaces.IndexNamespace.RemoveName` | vsfs/masterd/index_namespace.cpp:107-125 | the new nodes and store on every branch, rollback included |
| `IndexNamespaces.IndexNamespace.RemoveAll` | vsfs/masterd/index_namespace.cpp:127-143 | the new nodes and store on every branch |
| `IndexNamespaces.IndexNamespace.Have` | vsfs/masterd/index_namespace.cpp:145-150 | whether the cleaned path carries the name |
| `IndexNamespaces.RunIsRelation` | vsfs/masterd/index_namespace.cpp:76-150 | over any run with store failures and restarts the nodes hold exactly the pairs of a plain set |
| `IndexNamespaces.HaveEqualsStore` | vsfs/masterd/index_namespace.cpp:50-150 | and so does the store, so reloading preserves the relation |
| `IndexNamespaces.IndexNamespace.FindIndex` | vsfs/masterd/index_namespace.cpp:152-178 | terminates with the reference look-up's answer for every normalised absolute path |
| `IndexNamespaces.DeepestIsDeepest` | vsfs/masterd/index_namespace.cpp:152-178 | that answer is the longest ancestor-or-self carrying the name, and none exactly when no ancestor does |
| `IndexNamespaces.WalkParents` | vsfs/client/vsfs_rpc_client.cpp:684-706 | the client's walk terminates with the first ancestor that has the index directory, unless one cannot be examined before |
| `IndexNamespaces.WalkIsDeepest` | vsfs/client/vsfs_rpc_client.cpp:684-706 | that is the master's answer when the index directories mirror the index namespace |
| `IndexNamespaces.IndexNamespace.Collect` | vsfs/masterd/index_namespace.cpp:180-195 | exactly the paths with the root as a prefix that carry the name, in key order |
| `IndexNamespaces.IndexNamespace.GetIndices` | vsfs/masterd/index_namespace.cpp:197-209 | exactly the index paths of all pairs whose path has the root as a string prefix, by path and then by name |
| `IndexNamespaces.CollectsSubtreeIff` | vsfs/masterd/index_namespace.cpp:180-195 | the paths collected are the subtree of the directory if and only if it is "/" or no path that carries the name goes on after it without a slash |
| `IndexNamespaces.ListsSubtreeIff` | vsfs/masterd/index_namespace.cpp:197-209 | the same for all indices under a directory |
| `IndexNamespaces.SiblingIsCollected` | vsfs/masterd/index_namespace.cpp:180-195 | collecting under /foo finds an index on /foobar |
| `BucketMaps.ContentsLookup` | vsfs/masterd/mt_hashmap.h:345-347 | looking a key up in its own bucket is looking it up in the plain map |
| `BucketMaps.MTHashMap.Insert` | vsfs/masterd/mt_hashmap.h:220-225 | inserts into the plain map unless the key is there, and returns an iterator at its entry |
| `BucketMaps.MTHashMap.Erase` | vsfs/masterd/mt_hashmap.h:228-232 | removes the key from the plain map and counts what went |
| `BucketMaps.MTHashMap.Find` | vsfs/masterd/mt_hashmap.h:234-242 | an iterator at the key's entry, or the end exactly when it is missing |
| `BucketMaps.MTHashMap.Size` | vsfs/masterd/mt_hashmap.h:273-279 | the size of the plain map |
| `BucketMaps.MTHashMap.Equal` | vsfs/masterd/mt_hashmap.h:171-178 | bucketwise equality is equality of the plain maps |
| `BucketMaps.MTHashMap.Begin` | vsfs/masterd/mt_hashmap.h:286-293 | the first entry of the first bucket that has one, or the end |
| `BucketMaps.MTHashMap.Increment` | vsfs/masterd/mt_hashmap.h:85-101 | the next entry, skipping empty buckets, or the end, where it stays |
| `BucketMaps.MTHashMap.Traverse` | vsfs/masterd/mt_hashmap.h:85-101 | walking from the beginning to the end lists every entry of the plain map exactly once |

## Left out

- Thrift servers, sockets, thread pools, daemons, FUSE, storage managers and LevelDB internals: transport and system calls.
- Interleavings finer than one method call: the mutexes of the source make each modelled step atomic, except that `flush_log` is split into its flush and its trim and every client RPC is a step of its own.
- Ring internals, `ServerMap::add`, replicas, MD5 and `PartitionManager`: they rest on a library that is not part of this model.
- `setattr` and the client's `rmdir`: the first can change file type bits without undoing a failed store write, the second removes the record before the entry.
- ComplexQueries.ComplexQuery.DoExpression: does not convert values with a unit suffix or a relative time; such a value ends in the status `UnitSuffix`.
- `IndexInfo` tables: conversions of type names only.
- Floating-point and string keys: the model has signed integer types with their limits.
- QueryPath.QueryAnswersConditions: speaks of one field and one index; ClientSearches.SearchAnswersQuery covers several fields, indices and servers.
- LogStreams.LoadRestores: speaks of a log that is flushed as a whole; CrashRecovery.CrashRestoresFlushed covers one that is not.
- CrashRecovery.CrashRestoresFlushed: one direction only; whether an untidy file still replays to a prefix depends on what its updates say.
- Batching over thread-pool tasks in `update`: one task is modelled, and the order between tasks is not.
- A sign in front of a size in the log file, which formatted input would accept and the writer never produces.
- `erase(key)`, `insert_string_val` and other single-entry forms, `clear`, `empty`, `operator[]` and copying of the hash map, and non-recursive `get_indices`: easy members.
- Selection.NthElement: states the library's guarantee by sorting, because only that guarantee is used.
- CLI, Python bindings, query syntax tree, contributed scripts, docs and build files.
