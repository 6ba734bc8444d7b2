# Verified model of the Sync storage server

The server keeps versioned records for clients that synchronise over Firefox Sync 1.5. It has two
database backends, MySQL and Spanner, that must behave alike; a batch protocol that spreads an
upload over several requests; and optimistic concurrency per collection. This project models
those parts in Dafny and proves what the rest of the server relies on.

How the files fit together:

- `Upsert`, `Collation`, `SpannerPost`, `BatchCommit`, `CommitShortcut`: the ways of writing records.
  The upsert of one record is the simple form. MySQL's upserts under the collation of its keys,
  Spanner's column-grouped mutations, its set-based batch commit and the handler's commit shortcut
  are measured against it.
- `Decimal`, `Base64`, `BatchId`, `BatchString`, `Timestamp`: the encodings of batch ids, batches
  and timestamps.
- `ResultStream`, `Paging`, `PostBody` (with `Utf8`), `PurgeTtl` (with `Ceiling`): the loops that reassemble
  streamed rows, page through a collection, sort a POST body into valid and invalid records, and
  purge expired rows.
- `Store`, `Handlers`: the tables as finite maps, a session's pending changes on top of them, and
  what each operation and each request does to them, as functions.
- `Db`, `Transaction`: the session object and the request driver, written as the source writes
  them, with fields that change step by step, and proved to do what those functions say.
- `Footprint`, `Protocol`, `Versions`, `StorageTime`, `Wipes`, `BatchLife`, `BatchRuns`, `BatchOnce`,
  `BatchAnyOrder`, `BatchReturns`, `Serial`, `Answers`, `Backends`, `GenuineRuns`, `RowRuns`,
  `Records`, `Reads`: requests of many sessions interleaving over shared tables, and what holds in
  every run.
- `Fields`, `Told`, `Uploads`, `Deletes`: what clients get to see of all that, stated with the numbers
  they know: what a write leaves of each field and until when it is shown, which answer a precondition
  gets, which batch an upload is told and for how long, what a DELETE takes.
- `WideUsers`, `Examples`: where the guarantees of those modules end, with the runs that show it.
- `Collections`, `CacheRuns`: collection ids and the cache that a pool keeps of them.

Three things are taken for granted of the databases:

- The write lock on a user's collection, from the lock to the end of the transaction, is held by
  one session at a time, also when the collection has no row yet. A DELETE of the whole storage
  waits until nobody holds a lock on one of the user's collections.
- A commit is atomic. A session that reads holds its collection in share mode on MySQL, which
  excludes writers; on Spanner its transaction sees the tables as they were when it began.
- MySQL compares record ids and collection names by the default collation of latin1 columns
  (migrations/2018-08-28-010336_init/up.sql:5-29), to which neither the case of letters nor blanks
  at the end make a difference; Spanner compares them exactly. Ids are printable ASCII and names
  letters, digits and `._-` (src/server/mod.rs:17-18), for which `Collation.Same` is this equality.

Where the code does not do what one would expect, the model follows the code, and a lemma gives the
input and the exact condition:

- MySQL's `erect_tombstone` narrows the user id to 32 bits signed, so that for ids from 2^31 on the
  tombstone belongs to another user (`Footprint.TombstoneIsTheUsers`). Such a user who deletes the
  only collection is told that the storage has gone back from 50 to 0, with sessions in order
  (`Examples.TombstoneGoesAstray`); a deletion takes the storage timestamp of such a user back
  exactly if the collection is later than all else the user has (`StorageTime.DeletionStepsBackExactly`).
- `touch_collection` narrows it to 32 bits unsigned. From 2^32 on a write leaves the version of the
  locked row as it was (`WideUsers.WriteRaisesTheLockedRow`), and of two clients that write under
  the same X-If-Unmodified-Since both succeed (`WideUsers.WideUsersLoseUpdates`). The theorems about
  runs are therefore about user ids below 2^32 on MySQL.
- On MySQL a POST of the ids "a" and "A", which the extractor takes for two records, leaves one row
  (`Collation.CaseCollides`); the backends leave the same rows if and only if no two of the ids
  posted and stored are equal only under the collation (`Backends.BackendsAgreeOnPost`).
- A request to collection "History" on MySQL finds the collection "history", and from then on the
  cache tells every user the name "History" for it (`CacheRuns.HistoryIsRenamed`); the cache tells
  names as they are stored if and only if no lookup puts another spelling (`CacheRuns.NamesAreExact`).
- The commit shortcut posts the last records before it commits the batch. On MySQL the older value
  in the batch then wins over the newer one (`CommitShortcut.ShortcutLosesNewerValue`); on Spanner a
  common record that is new makes the transaction fail (`CommitShortcut.SpannerShortcutSucceeds`,
  in runs `GenuineRuns.BatchCommitsExactly`).
- Spanner's batch commit sets `modified` of every row it touches, MySQL's leaves it alone for a
  record that carries only a ttl (`BatchCommit.CommitIsPutAll`).
- A precondition is no protection once the collection has been removed in between: a client writes,
  the collection is deleted, another client writes under the old header
  (`Examples.BothWriteAcrossRemoval`, exactly when: `Versions.SecondWritesExactly`).
- Of two writers of one record under the condition of its own time the second still writes if the
  first only set the ttl (`Records.ExtensionKeepsTime`), and after any other PUT exactly if the
  record has been removed or, on Spanner, has expired (`Records.SecondWriterExactly`).
- A write that gives a record no ttl leaves its expiry as it was: a record that has expired stays out
  of sight when it is written again (`Fields.ExpiredStaysHidden`, and until when a record is shown at
  all: `Fields.ShownUntilItExpires`). In the very millisecond of its expiry MySQL shows it to a GET of
  its own, though in no list (`Fields.FoundUntilItExpires`).
- DELETE of a record that has expired does not find it on MySQL, and deletes it on Spanner
  (`Deletes.DelBsoExactly`).
- If sessions commit out of the order of their timestamps, deletions at 20 and then at 10 take the
  storage timestamp from 20 back to 10 (`Examples.StorageStepsBack`, exactly when, for all users:
  `StorageTime.StorageFallsExactly`).
- DELETE /storage checks its precondition before its transaction begins: a write in between is erased
  unseen (`Examples.UnseenWriteIsErased`, exactly when: `Wipes.UnseenWriteIsLostInBetween`).
- After DELETE /storage, MySQL gives the id of a committed batch to a session of the same tick
  (`Examples.IdReturns`), and, if sessions commit in order, to no later one
  (`BatchOnce.IdReturnsOnlyInItsTick`). In any state an id can be handed out, again or not, if and
  only if the collection's version is missing or below it and no open batch has it
  (`BatchReturns.IdReturnsExactly`).
- If sessions commit out of order, a batch created at 20 and committed by a session at 10 can be
  created again at 20 (`Examples.EarlierSessionCommits`); committed by a session that is not earlier
  it is over until the collection is removed (`BatchAnyOrder.BatchOverUntilCleared`). The condition
  for the return of an id is the same (`BatchReturns.IdReturnsExactly`).
- With a limit of zero the next offset never advances (`Paging.PaginationEndsExactly`).
- A record that is too large still counts towards `max_post_bytes`, so that records after it may be
  turned away (`PostBody.NothingAfterTheLimit`).
- A value that Spanner cuts in a column of a type that cannot be merged ends the stream in an error
  (`ResultStream.Reassembly`).

## Model

| member | source | states |
|---|---|---|
| Upsert.PutAllAt | src/db/mysql/models.rs:390-449 | after the loop of upserts each row is what one upsert of all the records of its id merged, later fields over earlier ones, makes of the row before |
| Upsert.OrderDoesNotMatter | src/db/mysql/models.rs:659-680 | records of distinct ids, compared exactly as Spanner does, may be written in any order |
| Upsert.PutAllConcat | src/db/mysql/models.rs:659-680 | writing two lists one after the other is writing their concatenation |
| Collation.PutAllIsExact | migrations/2018-08-28-010336_init/up.sql:5-22 | MySQL's fold of upserts under the collation is the fold over exact ids if and only if no two of the ids posted and stored are equal only under the collation |
| Collation.AnyOrder | src/db/mysql/models.rs:659-680 | on MySQL records may be written in any order as long as no two ids are equal only under the collation |
| Collation.CaseCollides | src/db/mysql/models.rs:396-404 | a POST of "a" and "A" leaves one row on MySQL and two on Spanner |
| Collation.RemoveIsExact | src/db/mysql/models.rs:640-649 | a DELETE removes exactly the rows of the given ids as long as none of them is that of another row under the collation |
| SpannerPost.BsoToUpdateRow | src/db/spanner/support.rs:347-383 | an update row has a column, with its value, for the key and for exactly the fields the record sets, `modified` only with payload or sortindex |
| SpannerPost.InsertIsPut | src/db/spanner/support.rs:320-345 | applying an insert row to a table without the id is the upsert of the record, defaults included |
| SpannerPost.UpdateIsPut | src/db/spanner/support.rs:347-383 | applying an update row to a table with the id is the upsert of the record |
| SpannerPost.UpdateCells | src/db/spanner/support.rs:353-383 | which column of an update row holds what, and which are missing |
| SpannerPost.SplitRecords | src/db/spanner/models.rs:1345-1366 | the loop sorts the records into inserts and updates by column list, each group in the records' order, and adds up their size |
| SpannerPost.BufferMutations | src/db/spanner/models.rs:1380-1400 | the buffered mutations write each record exactly once, in whatever order the column lists come out of the hash map |
| SpannerPost.MutationsArePuts | src/db/spanner/models.rs:1380-1400 | applying the groups in their order is the fold of upserts over the grouped records |
| SpannerPost.RepresentedIsPutAll | src/db/spanner/models.rs:1345-1400 | any mutations that represent the records, groups in any order, can be applied and leave the fold of upserts in the records' own order |
| SpannerPost.PostBsos | src/db/spanner/models.rs:1316-1408 | `post_bsos_async` fails exactly if the rows are too large, and otherwise buffers mutations that come to the fold of upserts |
| SpannerPost.ValuesMatchColumns | src/db/spanner/models.rs:418-431 | every row of a buffered mutation has exactly as many values as the mutation has columns |
| BatchCommit.TouchesOnce | src/db/spanner/batch_commit_update.sql:1-50 | the UPDATE and the INSERT part the batch's ids between them, each id is touched once, and every other row stays |
| BatchCommit.CommitAt | src/db/spanner/batch_commit_insert.sql:1-26 | row by row: existing rows, expired or not, are coalesced with the batch, missing ones are inserted with the defaults |
| BatchCommit.CommitAgreesWithPutAll | src/db/spanner/batch_commit_update.sql:1-50 | the set-based commit agrees with the fold of upserts on payload, sortindex and expiry of every row, and on `modified` exactly where the record sets payload or sortindex, is new, or the time is the same |
| BatchCommit.CommitIsPutAll | src/db/spanner/batch.rs:167-239 | the whole commit equals the fold of upserts if and only if no record of an existing row is about the ttl alone |
| CommitShortcut.ShortcutIsExact | src/web/handlers.rs:300-334 | on MySQL, as long as no two ids are equal only under the collation, posting the last records and then committing equals appending and committing if and only if batch and last records do not set a field of one record differently |
| CommitShortcut.ShortcutOfDisjoint | src/web/handlers.rs:300-372 | disjoint ids are enough there |
| CommitShortcut.ShortcutLosesNewerValue | src/web/handlers.rs:300-372 | with an id in common the value uploaded first is left, where appending would leave the second |
| CommitShortcut.SpannerShortcut | src/db/spanner/models.rs:464-489 | on Spanner, for disjoint ids, the mutations made before the batch's statements still apply after them, and each row is that of appending and committing but for `modified` of a ttl-only record on an existing row |
| CommitShortcut.SpannerShortcutIsExact | src/db/spanner/models.rs:889-897 | for disjoint ids the shortcut is exact if and only if no last record is of that kind |
| CommitShortcut.SpannerShortcutSucceeds | src/db/spanner/models.rs:464-489 | with ids in common the transaction commits if and only if every common record was there before |
| BatchString.RoundTrip | src/db/mysql/batch.rs:150-178 | decoding an encoded list of records gives the list, for payloads with newlines, quotes and control characters |
| BatchString.Homomorphism | src/db/mysql/batch.rs:151-160 | decoding a string that ends its last line, followed by another, decodes the two and concatenates |
| BatchString.StoredDecodes | src/db/mysql/batch.rs:55-66 | after a create and any number of appends the stored string decodes to all that was submitted, in order |
| BatchString.ParsePrintedItem | src/db/mysql/batch.rs:150-170 | one record through JSON and back, string escapes by section 7 of RFC 8259 |
| BatchId.DecodeEncode | src/db/mysql/batch.rs:138-148 | for every 64-bit integer, decoding the encoded id gives the id |
| Base64.DecodeOfEncode | src/db/mysql/batch.rs:138-143 | padded base64 by section 4 of RFC 4648, through and back, for all byte strings |
| Base64.Vectors | src/db/mysql/batch.rs:138-143 | the test vectors of section 10 of RFC 4648, and the last two symbols of the alphabet |
| Decimal.ParsePrint | src/db/mysql/batch.rs:138-148 | an integer printed in decimal is parsed as itself, with bounds checked |
| Decimal.PrintedInTens | src/db/mysql/batch.rs:138-148 | the digits are those of base ten, the most significant first |
| Timestamp.TicksRoundDown | src/db/util.rs:72-75 | timestamps are rounded down to a multiple of ten milliseconds |
| Timestamp.HeaderReadsTickOrBelow | src/db/util.rs:40-52 | a header whose arithmetic is off by less than a tick is read as the tick, or as the tick below exactly if it came out too small |
| ResultStream.StreamedResultSet.ConsumeValues | src/db/spanner/support.rs:236-244 | values join the row in progress, and full rows are queued |
| ResultStream.StreamedResultSet.ConsumeNextSet | src/db/spanner/support.rs:187-234 | one partial result set: metadata taken once, the pending chunk merged by type into the first value, a chunked last value held back |
| ResultStream.StreamedResultSet.NextAsync | src/db/spanner/support.rs:249-261 | the next row of the abstract stream |
| ResultStream.StreamedResultSet.OneOrNoneAsync | src/db/spanner/support.rs:173-183 | none, the only row, or an error if there are more |
| ResultStream.MergedValues | src/db/spanner/support.rs:210-227 | a set's values, with the pending beginning put back in front, are the next values of the table; only a value that was cut has to be of a type that can be merged |
| ResultStream.NextDelivers | src/db/spanner/support.rs:249-261 | `next_async` gives the next row of the table, or the end exactly when no row is left, if values are cut only in columns that can be merged |
| ResultStream.Reassembly | src/db/spanner/support.rs:187-261 | for every table and every cutting of it into sets, values split anywhere and sets empty, the stream gives exactly the table's rows in order and ends, if and only if no value is cut in a column that cannot be merged |
| ResultStream.BadCutFails | src/db/spanner/support.rs:210-227 | any other cut ends in an error before the table is complete |
| ResultStream.OneOrNoneOfTable | src/db/spanner/support.rs:173-183 | what `one_or_none` makes of a cut table, by its number of rows |
| ResultStream.RowInProgressIsShort | src/db/spanner/support.rs:187-244 | after any number of sets, whatever they hold, the row in progress is shorter than a row, if the first set tells the columns |
| Paging.GetBsosMysql | src/db/mysql/models.rs:453-535 | the page of the rows that match, in the order of the query, at the offset, and the next offset exactly if rows are left; an offset beyond 63 bits is an error |
| Paging.GetBsosSpanner | src/db/spanner/models.rs:1159-1197 | the same page and the same next offset, from whatever partial sets Spanner cuts the answer into |
| Paging.Collect | src/db/spanner/models.rs:1171-1176 | the loop over `next_async` gives the rows of the stream, or its first error |
| Paging.CollectedTable | src/db/spanner/support.rs:249-261 | the rows collected are those of the answer, however it is cut |
| Paging.RowRoundTrip | src/db/spanner/support.rs:299-318 | a row read from the columns of the answer is the row stored |
| Paging.MatchesAlike | src/db/mysql/models.rs:484-486 | the backends make the same of the ids of a query unless one is that of the row only under the collation |
| Paging.OffsetRoundTrip | src/web/extractors.rs:1187-1225 | an offset is printed and parsed as itself |
| Paging.PaginationIsComplete | src/db/mysql/models.rs:505-534 | for a limit of at least one, following the next offsets ends after max(1, ceil(n / limit)) pages which together are the list |
| Paging.PaginationEndsExactly | src/db/mysql/models.rs:521-529 | it ends if and only if the limit is not zero or there is nothing to fetch |
| Paging.PagesShowExactlyTheMatches | src/db/spanner/models.rs:1080-1122 | the pages together show every row that has not expired, is newer and older than asked for, and of the ids asked for, and no other, in the order that was asked for |
| Paging.OrderedAsAsked | src/db/mysql/models.rs:488-501 | newest first has the later times first, oldest first the earlier ones, and by index the higher ones first and rows without one last |
| Paging.NewerAndOlderPart | src/db/mysql/models.rs:474-484 | a query for what is newer than a time and one for what is older than the next millisecond give each row exactly once |
| PostBody.SplitBody | src/web/extractors.rs:256-322 | the loop over the body: an error for a record without an id or with one seen before, otherwise the records kept and those rejected with their reason |
| PostBody.TrimExcess | src/web/extractors.rs:782-790 | records beyond the limit are taken from the end and rejected |
| PostBody.FromRawBso | src/web/extractors.rs:70-103 | an element becomes a record exactly if all its members are known, of their kinds and in their ranges, and the record says what they say |
| PostBody.ExtractPost | src/web/extractors.rs:256-322 | the whole extraction: each element is rejected as invalid exactly if it is malformed, to be sent again exactly if it is too large or comes after too many bytes or records, and otherwise it is the valid record after those before it, with all its members; ids are disjoint, cover the body, and the limits hold |
| Utf8.DecodeEncode | src/web/extractors.rs:301-306 | the bytes that the limits count, by section 3 of RFC 3629: every string is read back from them |
| PostBody.EveryIdOnce | src/web/extractors.rs:268-320 | each id of the body is kept or rejected, not both, and the kept ones are in order |
| PostBody.KeptFit | src/web/extractors.rs:301-316 | each kept payload fits the record limit and their sum fits the body limit |
| PostBody.NothingAfterTheLimit | src/web/extractors.rs:301-316 | sizes are counted for rejected records too: once the sum has passed the limit nothing is kept any more |
| PurgeTtl.DeleteIncremental | src/bin/purge_ttl.rs:164-228 | the loop ends, removes only expired rows, exactly the number of whole chunks that reaches the limit or all, and if it removes fewer than the limit leaves no row that has expired |
| PurgeTtl.DeleteSelected | src/bin/purge_ttl.rs:181-224 | one chunk is counted and deleted |
| PurgeTtl.PurgeBounds | src/bin/purge_ttl.rs:164-228 | the limit is overrun by less than a chunk, and a purge that stops short of it leaves nothing expired |
| Store.PostEachIsPutAll | src/db/mysql/models.rs:651-682 | the loop of `post_bsos_sync` leaves the upserts of the records whose statement did not fail and nothing else but the touch |
| Footprint.TouchesTheLockedRow | src/db/mysql/models.rs:803-826 | the row touched is the row locked if and only if the user id fits 32 bits |
| Footprint.TombstoneIsTheUsers | src/db/mysql/models.rs:260-275 | the tombstone is the user's own if and only if the user id survives the narrowing to a signed 32-bit number |
| Footprint.HandleShape | src/web/handlers.rs:103-146 | what each kind of request changes: writes touch the collection, uploads touch nothing visible, deletions leave a tombstone |
| Footprint.HandleBatchShape | src/web/handlers.rs:252-378 | a batch POST touches the collection exactly when it commits |
| Footprint.CommitElsewhere | src/db/transaction.rs:149-157 | a commit leaves every other collection as it was, but for the user's tombstone after a deletion |
| Footprint.CommitHere | src/db/spanner/models.rs:464-489 | a commit leaves the collection's version, its batches, and its rows with the mutations applied |
| WideUsers.WriteRaisesTheLockedRow | src/db/mysql/models.rs:803-826 | after a write that is carried out the locked row's version is the session's timestamp if and only if the user id fits 32 bits or the backend is Spanner |
| WideUsers.WideUsersLoseUpdates | src/db/mysql/models.rs:803-826 | from 2^32 on two Puts under the same X-If-Unmodified-Since, one after the other, both succeed |
| Db.Db.LockForWrite | src/db/mysql/models.rs:187-225 | a conflict exactly if the visible version is not below the session's timestamp, otherwise lock, cache and transaction are set up; refused after a read lock |
| Db.Db.LockForRead | src/db/mysql/models.rs:141-185 | a lock that is held is used as it is; otherwise a transaction is open, the lock is noted, and MySQL caches the version |
| Db.Db.Begin | src/db/spanner/models.rs:328-346 | a transaction is opened; on Spanner it replaces the one before |
| Db.Db.Commit | src/db/spanner/models.rs:464-489 | the statements and the buffered mutations become durable together, or nothing does |
| Db.Db.Rollback | src/db/mysql/models.rs:251-258 | nothing of the session is left |
| Db.Db.GetStorageTimestamp | src/db/mysql/models.rs:684-692 | the latest of the versions the session sees of the user's collections, zero if there is none |
| Db.Db.GetBso | src/db/mysql/models.rs:606-623 | the row of the id, on MySQL up to the millisecond of its expiry and on Spanner before it |
| Db.Db.TouchCollection | src/db/spanner/models.rs:884-952 | the collection's version becomes the session's timestamp, also when a flag makes a second touch do nothing |
| Db.Db.PutBso | src/db/mysql/models.rs:377-451 | one upsert and a touch, or nothing if the statement fails |
| Db.Db.PostEachBso | src/db/mysql/models.rs:659-680 | the loop: which records are stored and which ids are listed as stored and as failed |
| Db.Db.PostBsos | src/db/spanner/models.rs:1316-1408 | both backends: the pending changes after the call, and on Spanner mutations that represent the records |
| Db.Db.DeleteBso | src/db/mysql/models.rs:625-638 | the row is removed and the collection touched, or there is no such row; only MySQL passes over expired rows |
| Db.Db.DeleteBsos | src/db/mysql/models.rs:640-649 | the rows are removed and the collection is touched |
| Db.Db.DeleteCollection | src/db/spanner/models.rs:852-882 | rows and version give way to a tombstone, on Spanner with the batches, and the time that is returned |
| Db.Db.CreateBatch | src/db/spanner/batch.rs:20-58 | an empty batch under the session's timestamp or the drawn id, a conflict if it is taken, and on Spanner a parent row |
| Db.Db.AppendToBatch | src/db/mysql/batch.rs:55-72 | the records join the batch, or it is not found, or a child row is there already |
| Db.Db.InsertChildren | src/db/spanner/batch.rs:241-327 | all child rows are inserted, or the statement fails on an id that is there |
| Db.Db.CommitBatch | src/db/mysql/batch.rs:113-132 | the batch's records are written, the collection is touched, the batch is deleted |
| Transaction.PostCollectionBatch | src/web/handlers.rs:252-378 | the steps on the session come to `HandleBatch`: create or validate, store, reply or commit, errors but a conflict listed as failed |
| Transaction.PostCollection | src/web/handlers.rs:224-250 | the steps on the session come to `HandlePost` |
| Transaction.DeleteCollection | src/web/handlers.rs:103-146 | a collection that is not there is answered with the storage timestamp |
| Transaction.Act | src/web/handlers.rs:224-250 | every writing handler does on the session what `Handle` says |
| Transaction.ExtractResource | src/db/mod.rs:171-215 | the timestamp of the record, of the collection, or, without a collection, of the whole storage |
| Transaction.CheckPrecondition | src/db/transaction.rs:110-147 | a failed precondition answers 304 or 412 without running the action |
| Transaction.TransactionHttp | src/db/transaction.rs:38-157 | on every path, lock refused, precondition failed, action failed, commit failed, success, the durable tables and the answer are those of `Served` |
| Transaction.TransactionRead | src/db/transaction.rs:38-74 | a reading request on either backend changes nothing, fails only if MySQL fails to commit, and answers with the time of the collection it has locked, or of the record; it is 304 exactly if that is not above X-If-Modified-Since, and 412 exactly if it is above X-If-Unmodified-Since |
| Transaction.DeleteAll | src/web/handlers.rs:86-101 | the precondition is checked against the latest version in the tables as they were, and if it holds all of the user's rows go, those that others have committed in the meantime included; or nothing |
| Protocol.StepKeepsInv | src/db/mysql/models.rs:187-225 | every step of every session keeps the invariant: locks are exclusive, what a session found under its lock stays as it was, its version below the session's timestamp, and rows have parents |
| Protocol.RunKeepsInv | src/db/transaction.rs:38-157 | so it holds in every state of every run |
| Protocol.CommitParents | spanner-2019-10-01.ddl:32-33 | a commit keeps a parent row for every row and every batch on Spanner |
| Protocol.WipeAt | src/db/spanner/models.rs:828-843 | DELETE /storage removes every row and version of the user, on Spanner the batches too, and nothing of anyone else |
| Protocol.CommitKeepsOthers | src/db/transaction.rs:149-157 | a commit does not change the collection of any other session |
| Versions.VersionStep | src/db/mysql/models.rs:208-223 | one step raises a collection's version to the session's timestamp, above the version before, exactly if it commits a write; otherwise the version stays or the collection is removed |
| Versions.VersionsIncrease | src/db/spanner/models.rs:272-299 | over any run without a removal the version never decreases, and has increased if and only if the collection was written to in between |
| Versions.CheckHoldsAtCommit | src/db/transaction.rs:110-135 | a conditional request is refused with 412, leaving nothing, if and only if the version at the time of its commit is above the header |
| Versions.NoLostUpdate | src/db/transaction.rs:110-135 | once a client's version has been overtaken by a write, its conditional request is refused, however the steps interleave, as long as the collection is not removed |
| Versions.AtMostOneWrites | src/db/mod.rs:171-215 | of two requests conditional on what was read in one state at most one writes |
| Versions.SecondWritesExactly | src/db/transaction.rs:110-135 | a client whose version has been overtaken gets to write if and only if the collection is by then not newer than its header, for which it must have been removed in between |
| Versions.TwoClients | src/db/util.rs:40-52 | also with headers that come through floats, off by less than a tick |
| Versions.RunKeepsTicks | src/db/util.rs:57-96 | a collection's version is a multiple of ten milliseconds in every state, if timestamps are when they are made |
| Examples.BothWriteAcrossRemoval | src/db/mysql/models.rs:293-313 | a run: two clients have read version 50, one writes, the collection is deleted, the other writes under 50 too |
| StorageTime.StorageNeverGoesBack | src/db/mysql/models.rs:293-313 | in a run of sessions that commit in the order of their timestamps a user's storage timestamp never decreases, deletions of collections included; for MySQL users from 2^31 on, but for deletions of a collection that is later than all else they have |
| StorageTime.DeletionStepsBackExactly | src/db/spanner/models.rs:792-882 | whatever the order, a deletion takes it back if and only if an earlier tombstone is the user's latest version and later than the session; for MySQL users from 2^31 on, if and only if the collection is later than all else they have |
| StorageTime.StorageFallsExactly | src/db/mysql/models.rs:277-313 | in any step, whatever the order of the timestamps, a user's storage timestamp falls if and only if the whole storage is deleted or a collection is deleted under that condition |
| Examples.StorageStepsBack | src/db/mysql/models.rs:293-313 | a run: deletions by sessions at 20 and at 10 take the storage timestamp from 20 to 10 |
| Examples.TombstoneGoesAstray | src/db/mysql/models.rs:260-275 | a run in order: user 2^31 deletes the only collection, the storage timestamp falls from 50 to 0, and the tombstone at 60 belongs to user -2^31 |
| StorageTime.UploadIsInvisible | src/db/spanner/batch.rs:337-373 | creating a batch or appending to one changes no rows, no version and no outcome of a lock of any collection |
| StorageTime.UploadKeepsStorage | src/db/spanner/models.rs:731-759 | nor any storage timestamp |
| Wipes.UnseenWriteIsLostInBetween | src/db/transaction.rs:98-147 | a conditional DELETE /storage that has not seen a write goes on to delete if and only if the write is committed after its check |
| Wipes.DeletionIsUnconditional | src/web/handlers.rs:86-101 | and whatever the user has by then is gone |
| Examples.UnseenWriteIsErased | src/web/handlers.rs:86-101 | a run: a DELETE /storage under 50 passes its check, a client writes at 60, the deletion erases the write |
| BatchLife.AppendDecodes | src/db/mysql/batch.rs:55-72 | appending to the stored form of a batch is appending to the records it stands for, on both backends |
| BatchLife.UploadEffects | src/web/handlers.rs:252-350 | what a POST without commit does to the batches: a new one or one more append, the others stay |
| BatchLife.CommitApplies | src/web/handlers.rs:352-378 | a POST with commit writes its own records and then all that the batch stands for, and deletes the batch |
| BatchRuns.RunStands | src/db/mysql/batch.rs:16-72 | in every state of every run each batch stands for exactly what was uploaded to it since it was created, in order |
| BatchRuns.BatchIsApplied | src/db/mysql/batch.rs:113-132 | the commit of a batch in a run applies all that was uploaded to it, on top of the rows of that moment, and removes it; on Spanner whatever mutations the session has are applied on top |
| GenuineRuns.BatchIsCommitted | src/db/spanner/batch.rs:167-239 | on Spanner, in a run whose sessions have mutations that stand for their records: with disjoint ids the commit succeeds, and its rows are those of the batch with the last records in it but for `modified` of ttl-only records |
| GenuineRuns.BatchCommitsExactly | src/db/spanner/models.rs:464-489 | in such a run the commit succeeds if and only if every record both uploaded and posted last was there before |
| BatchOnce.BatchAppliedOnce | src/db/mysql/batch.rs:16-38 | after its commit nothing in the log is about a batch again, not committed, not appended to, its id not handed out: on Spanner always, on MySQL if sessions commit in the order of their timestamps and but for what follows a DELETE /storage |
| BatchOnce.IdReturnsOnlyInItsTick | src/db/mysql/batch.rs:16-38 | on MySQL the id of a committed batch is given out again only after a DELETE /storage since, and only by a session of the very timestamp with nothing later committed |
| Examples.IdReturns | src/db/mysql/models.rs:277-288 | a run: in one tick a batch is created and committed, the storage is deleted, and the next batch gets the same id |
| BatchAnyOrder.BatchOverUntilCleared | src/db/mysql/batch.rs:16-38 | on MySQL, whatever the order of the timestamps, nothing in the log is about a batch after its commit by a session not earlier than its id, until the collection or the storage is deleted |
| BatchReturns.IdReturnsExactly | src/db/mysql/batch.rs:16-38 | on MySQL, in every state of every run in which nobody holds the collection, an id can be handed out next, be it that of a committed batch, if and only if the collection's version is missing or below it and no open batch has it |
| BatchReturns.RunHandsOutExactly | src/db/mysql/batch.rs:16-38 | a step of a run hands out an id if and only if it creates a batch at that timestamp, and then the id was vacant |
| Examples.EarlierSessionCommits | src/db/mysql/batch.rs:16-38 | a run: a session at 20 creates a batch, a session at 10 commits it, and a session at 20 creates one of the same id |
| BatchOnce.RefusedAlike | src/db/mysql/batch.rs:40-98 | a missing or expired batch is refused by validate, append and get alike |
| Serial.CommitIsServedAlone | src/db/transaction.rs:92-157 | what a session commits, and its answer, are those of the request served alone at that moment; for the answer to the DELETE of a collection see the next row |
| Serial.DeleteIsAnsweredAlone | src/db/mysql/models.rs:293-313 | the answer to the DELETE of a collection is that of the request served alone too, unless a version of the user has moved since the session looked |
| Serial.RunIsSerial | src/db/transaction.rs:92-157 | every run leaves the tables that its committed requests leave one after the other |
| Serial.AllOrNothing | src/db/transaction.rs:38-74 | a request leaves the tables unchanged or commits all that its action did; errors and failed preconditions leave them unchanged |
| Serial.DeleteAnswers | src/db/mysql/models.rs:684-692 | a DELETE of a collection answers with the new storage timestamp, on Spanner if and only if no other collection of the user is later than the session |
| Answers.EveryIdAnswered | src/web/handlers.rs:296-345 | a POST's answer lists each id of the body exactly once, as stored or as failed |
| Backends.PostLeaves | src/db/spanner/models.rs:1316-1408 | a POST leaves the fold of upserts, on MySQL under the collation, and the touched version, and what Spanner buffered always applies |
| Backends.BackendsAgreeOnPost | src/db/mysql/models.rs:651-682 | the same POST to the same rows leaves the same version on both backends, and the same rows if and only if no two of the ids posted and stored are equal only under the collation |
| Backends.DeleteLeaves | src/db/mysql/models.rs:640-649 | a DELETE of records removes exactly those that the ids name, on MySQL under the collation, keeps the others and the batches, and touches the collection |
| Backends.MysqlCommitIsShortcut | src/web/handlers.rs:300-372 | what a MySQL commit applies is the shortcut, and for disjoint ids the upserts of the batch followed by the last records, if no two ids are equal only under the collation |
| Backends.SpannerCommitIsShortcut | src/web/handlers.rs:300-372 | what a Spanner commit applies, for disjoint ids, is the batch with the last records in it but for `modified` of ttl-only records |
| RowRuns.RowsStep | src/db/transaction.rs:149-157 | one step leaves the rows of a collection, or removes them all with its version, or is a write that makes of them what upserts, the statements of a batch or a removal of some make |
| RowRuns.RunKeepsApart | migrations/2018-08-28-010336_init/up.sql:19 | on MySQL no two ids of a collection are ever equal under the collation: the primary key is kept |
| RowRuns.RunKeepsUpToVersion | src/db/mysql/models.rs:803-826 | in every state of every run no row is newer than its collection |
| RowRuns.NewerShowsWhatChanged | src/db/mysql/models.rs:474-481 | a query for what is newer than the version read in one state gives in any later state, without a removal in between, exactly the unexpired rows that were not there with the same payload, sortindex and time |
| Records.RecordCheckHoldsAtCommit | src/db/mod.rs:171-215 | a request conditional on a record is refused, leaving nothing, if and only if the record's time at the commit is above the header |
| Records.SecondWriterExactly | src/db/transaction.rs:110-135 | after a PUT that has left a record with a new time, a request under the condition of what was read before is carried out if and only if the record has been removed by then or, on Spanner, has expired |
| Records.ExtensionKeepsTime | src/db/mysql/models.rs:425-440 | a PUT of the ttl alone leaves the time of the record as it was |
| Reads.ReadsOneState | src/db/mysql/models.rs:141-185 | however readers and writers interleave, the time a reader is told and the rows it gets are those of one state while it is at work |
| Reads.WritersRun | src/db/transaction.rs:38-74 | the writers among the readers are a run, so that what holds in runs holds there |
| RowRuns.RunKeepsTickRows | src/db/util.rs:57-96 | the times of rows are multiples of ten milliseconds in every state |
| Fields.WriteLeavesFields | src/db/mysql/models.rs:390-449 | what a PUT, a POST or the commit of a batch leaves of every record on either backend: the payload, the sortindex and the ttl last given for it, 1000 milliseconds for each second of the ttl, the old ones where nothing is given, empty and 2,100,000,000 seconds for a new record, and the session's time exactly if the record is new or a payload or sortindex is given, or a Spanner batch has it |
| Fields.ListedAreStored | src/db/mysql/models.rs:659-680 | the records that the answer to a POST lists as stored are those whose statement has not failed |
| Fields.ShownUntilItExpires | src/db/mysql/models.rs:471 | in every run, until it is written or deleted again, a written record is shown by a query for all exactly before its expiry: the time of the write and 1000 times the ttl last given, or what it was, or 2,100,000,000,000 milliseconds later if it was new |
| Fields.FoundUntilItExpires | src/db/mysql/models.rs:620 | a GET of the record alone finds it as long, and on MySQL in the millisecond of its expiry too |
| Fields.ExpiredStaysHidden | src/db/mysql/models.rs:416-424 | a record that has expired and is written again without a ttl is not shown |
| Told.PreconditionDecides | src/db/transaction.rs:109-135 | a session that has acted is refused with 304 or 412, nothing prepared, exactly if the time of the record or collection, as it still is, does not meet its precondition, and otherwise does what its handler does |
| Told.NotModifiedExactly | src/db/transaction.rs:111-116 | a client that sends the version it read as X-If-Modified-Since is answered 304 at the commit of its request, the collection being kept, if and only if nobody has written to it in between |
| Told.ReaderNotModifiedExactly | src/db/transaction.rs:111-116 | the same for a reader among readers and writers: 304 if and only if nobody has written between the state the client read and the one its reader sees |
| Told.LockIsGranted | src/db/mysql/models.rs:187-228 | a session gets its lock exactly if the collection has no version or one below its timestamp |
| Told.WipeIsGranted | src/db/transaction.rs:98-147 | a DELETE of the storage goes on exactly if its precondition holds of the latest version |
| Told.WriteTellsVersion | src/web/handlers.rs:209-225 | the time in the answer to a write, and in its header unless a record is deleted, is the version the write leaves |
| Told.UploadTellsVersion | src/web/handlers.rs:341-350 | the answer to an upload tells the time of the collection, which stays, and no other |
| Uploads.UploadIsAnswered | src/web/handlers.rs:341-350 | the answer to a POST without commit names the batch the request named, or else a new one, and the batch is there when it is committed |
| Uploads.BeginsExactly | src/db/mysql/batch.rs:16-38 | a POST that names no batch gets a new one, with the session's timestamp for id on MySQL, exactly if no batch has the id; otherwise MySQL answers with a conflict |
| Uploads.UploadedIsListed | src/web/handlers.rs:335-350 | what has been uploaded to a batch is what the answers that named it have listed as stored since it was new |
| Uploads.CommitAppliesListed | src/web/handlers.rs:300-378 | the commit of a batch a request names: its answer names none, the batch is gone, and every record is as those leave it that the answers have listed and the last POST stores |
| Uploads.AcceptedForTwoHours | src/db/mod.rs:58 | in every run a POST that names a begun batch, neither committed nor deleted since, is accepted exactly before 7,200,000 milliseconds after the timestamp it was begun at, and otherwise told that there is no such batch |
| Deletes.DelBsoExactly | src/db/mysql/models.rs:625-638 | DELETE of a record succeeds exactly if a stored row is named by the id and, on MySQL, has not expired; then the rows so named are gone, all else in the collection stays, and the version is the session's; otherwise the record is not found and nothing changes |
| Deletes.DelBsosExactly | src/db/mysql/models.rs:640-649 | DELETE of some records takes exactly those the ids name, whether or not any is there, and the version is the session's |
| Deletes.DelCollectionExactly | src/db/mysql/models.rs:277-313 | DELETE of a collection: if it is there it gives way to a tombstone, MySQL keeping its batches; otherwise nothing changes and the answer is the user's latest version |
| Collections.CollectionCache.constructor | src/db/mysql/pool.rs:160-176 | the cache starts with the standard collections, all of them in the table and spelled as there |
| Collections.CollectionCache.Put | src/db/mysql/pool.rs:120-133 | both maps are entered |
| Collections.NextIdIsNew | src/db/spanner/models.rs:163-175 | a new id is at least 101 and new if and only if the 32-bit ids have not run out or 101 is free |
| Collections.CollectionDb.GetCollectionId | src/db/spanner/models.rs:129-152 | the answer is the table's as the session sees it and the backend compares names, whether the cache or the query gives it; the cache stays sound, and its spelling exact if the name is spelled as stored |
| Collections.CollectionDb.CreateCollection | src/db/spanner/models.rs:154-186 | one new row in the session's transaction, only in a write transaction |
| Collections.CollectionDb.InsertOrIgnore | src/db/mysql/models.rs:320-329 | the row that the index takes for the name, or a new one, committed at once outside a write transaction and with it inside |
| Collections.CollectionDb.GetOrInsertId | src/db/mysql/models.rs:315-336 | on MySQL the id that a query finds for the name, from the cache, from the row that is there or from a new one; inside a write transaction nothing is put into the cache |
| Collections.CollectionDb.GetOrCreateCollectionId | src/db/spanner/models.rs:188-198 | the id that every later lookup of the name finds; at most that one row is added |
| Collections.CollectionDb.LoadCollectionNames | src/db/spanner/models.rs:618-661 | the names of exactly the ids that are in the table, from cache and query together, as they are stored up to what the backend takes for equal, and exactly if the cache is exact |
| CacheRuns.StepKeepsInv | src/db/mysql/pool.rs:120-150 | every step, each half of a `put` and every rollback included, keeps both maps within the committed table, up to what the backend takes for equal, and the table only grows |
| CacheRuns.CacheIsSound | src/db/spanner/pool.rs:106-137 | in every state of every run an id the cache answers is the one a query finds, and a name it answers is that of the table up to what the backend takes for equal |
| CacheRuns.NamesAreExact | src/db/mysql/models.rs:315-357 | the cache has told names as they are stored in every state if and only if no lookup has put another spelling |
| CacheRuns.SpannerNamesAreExact | src/db/spanner/models.rs:129-152 | on Spanner it always does |
| CacheRuns.HistoryIsRenamed | src/db/mysql/models.rs:320-334 | a run: a request to "History" makes the cache tell that name for the collection "history" |
| CacheRuns.StdStateIsInit | migrations/2018-08-28-010336_init/up.sql:26-43 | the table that the migrations leave, the reserved row included, is unique under the collation, so that runs can start from it |
| CacheRuns.SerialIsCustom | migrations/2019-09-25-174347_min_collection_id/up.sql:1-3 | because of the reserved row AUTO_INCREMENT gives no id below 101 |
| CacheRuns.AnswersLast | src/db/mysql/models.rs:338-357 | an id once answered is the name's id for good |
| CacheRuns.NewIdsAreFresh | src/db/spanner/models.rs:154-186 | ids that are added are custom ones, and ids and names stay one to one |
| CacheRuns.RememberingTooEarly | src/db/spanner/models.rs:148-151 | a row remembered inside a write transaction that is rolled back would not be in the table |

## Left out

- SQL, gRPC, connection pools and HTTP plumbing: each statement is its effect on finite maps; queries, indexes and isolation levels below the lock and atomic-commit assumptions are not modelled.
- Authentication, the payload rule for the crypto collection, middleware, metrics and the mock database.
- The two backends share one class with a tag, because their methods share their meaning; the source has one class for each behind a trait.
- Collection names in `Db` and `Protocol`: a request names its collection by id there, and `Collections` and `CacheRuns` model how the id is found. On MySQL the row of a new collection is committed before the request's own transaction begins, and on Spanner it is committed with a request that answers 304 or 412.
- Poisoned cache locks, which the source turns into internal errors.
- Spellings of JSON that the server itself does not write into a batch (other orders of fields, surrogate escapes, numbers with exponents), and what base64 decoders accept beyond the padded form.
- Paging.GetBsosMysql: tables of more than 2^62 rows, for which the sum of offset and limit would overflow, are left out; the order of rows that sort alike is the database's.
- Paging.GetBsosSpanner: how Spanner writes a timestamp and chrono reads it are parameters that undo each other.
- `get_bso_ids` and the read-only counts and usages, which repeat the same queries.
- Db.Db.PostBsos: a failure of the call as a whole is placed before any statement on MySQL and after the touch on Spanner, the points at which the source's own checks fail; failures of single records on MySQL may come anywhere.
- Transaction.TransactionHttp: no handler that writes answers with a response that holds an error, so the rollback for such a response does not occur.
- Transaction.TransactionRead: the rows a reading request returns are those of `Paging`; here it is only what it locks, checks and commits.
- Protocol.StepKeepsInv: reading requests are not sessions of this machine but of the one around it (`Reads`). MySQL users from 2^32 on are not in it, as the code fails them (`WideUsers`).
- Collation.PutAllIsExact: characters that ids and names cannot have; for them the collation of MySQL equates more.
- BatchLife.CommitApplies: a record of a committed batch whose statement fails on MySQL is dropped without notice, as in the source.
- Limits on the total size of a batch, which the source does not check either.
- IEEE floats in header conversion: the value of a header is the exact number with an error below one tick.
