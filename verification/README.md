# Marmot: a verified model of the backup agent's core

Marmot dumps databases, encrypts the dumps, keeps them in a local directory and uploads them to an S3
bucket. This project models the parts of it that carry state, order or parsing, and proves what they
keep, over all inputs and all runs:

- **the upload protocol** — `Protocol.dfy` is the state machine: saved files, queue rows, remote objects,
  uploads in flight, a clock, and a step for every call that can fail on its own. `Durability.dfy` proves
  that no backup is lost over any interleaving, `Retries.dfy` bounds and spaces the retries,
  `Collisions.dfy` puts the agent's real file names and keys under those results, and `Agent.dfy` is the
  agent itself, each of whose methods is shown to be a run of the protocol;
- **the queue** — `Queue.dfy`: a table of uniquely named rows in one listing order, and the class over it;
- **timestamps** — `Calendar.dfy` and `Timestamps.dfy`: civil dates, the column text the SQLite driver
  writes, and the five-layout parser that reads it back;
- **object keys and storage** — `ObjectKeys.dfy` and `Storage.dfy`: the key printer, Go's greedy matching
  of the key pattern, backup IDs, listings;
- **the verifiers' scanners** — `Bson.dfy`, `MongoArchive.dfy` and `SqlDump.dfy` (with `Positions.dfy` for which
  rows are sampled): the offset loops over untrusted bytes and lines, against the document grammar of the BSON specification (version 1.1) and
  against declarative counts;
- **the PID file** — `PidFile.dfy` (the code), `PidLock.dfy` (whole runs with acquiring as one step) and
  `PidRace.dfy` (every system call a step of its own);
- **the scheduler** — `Scheduler.dfy`: the map of cron entry IDs against cron's live entries.

What is outside the program comes in as parameters: the clock, which system calls, database statements
and puts succeed, which schedules parse, which PIDs are running. A put may succeed without the caller
learning of it. Backup contents are opaque.

## Findings

Where the code and its comments disagree the model follows the code:

- `extractMetadataFromKey` never succeeds: seven entries come back from the pattern (internal/s3/s3.go:23) where
  six are asked for (internal/s3/s3.go:126; `Storage.ExtractionNeverSucceeds`). A listing for a named database
  is therefore always empty (internal/s3/s3.go:246; `Storage.NothingIsSelected`), and restoring or verifying
  "the latest" finds no backup. The documented reading, from groups 1, 5 and 6, does invert the printer
  (`ObjectKeys.KeyRoundTrip`).
- Were it to succeed, element 0 of the listing, taken for the latest (cmd/marmot/cmd/restore.go:105), would be
  the oldest backup, unless a local date went back (`Storage.FirstListedIsOldest`).
- The documented maximum of five attempts (internal/agent/agent.go:233) is kept exactly as long as no two
  asynchronous uploads of a row overlap (`Retries.FiveIsExceededExactly`), and only of uploads whose failure gets
  counted: a row whose uploads are lost to crashes, or to failed database updates (internal/agent/agent.go:207),
  is launched without limit (`Retries.RelaunchesAreUnbounded`). The 32-minute wait in the comment
  (internal/agent/agent.go:248) is never used, since a row at five retries is skipped.
- A backup that waits for its upload reports failure when a retry tick delivered it first: its own put succeeds,
  and then there is no row left to remove (internal/storage/queue.go:418-421, internal/agent/agent.go:187-189;
  `Durability.DeliveredButReportedFailed`).
- Two backups of one database in one second share a file (internal/agent/agent.go:125), and two databases of
  one name share a key (internal/agent/agent.go:214); either loses a backup (`Durability.SameSecondLosesBytes`,
  `Durability.SameKeyLosesObject`).
- Two databases may share an ID (internal/config/config.go:180-192), and backing up all of them saves both
  (cmd/marmot/cmd/backup.go:76-81). A retry of the second one's backup is uploaded under the first one's name
  (internal/agent/agent.go:256), over the first one's object if both are of one second
  (`Durability.SharedIDLosesBackups`).
- The queue sorts by local wall-clock text (internal/storage/queue.go:335): when the clocks are put back, order
  is reversed (`Timestamps.StoredTextReversesAcrossZones`).
- A listing whose iteration breaks off passes as complete (internal/storage/queue.go:345-373), so a tick may
  leave due rows out (`Agents.DueFilesAreATick`).
- The BSON reader does not skip a value it cannot read (cmd/marmot/cmd/verify.go:460-463). Behind an embedded
  document or array of less than 64 KiB every field is lost, unless the low byte of its length is itself a
  handled type (`Bson.EmbeddedDocumentEndsParse`); then reading goes on inside it, and from a 7-byte document
  comes out right behind the next 7 bytes (`Bson.SevenByteDocumentIsAnObjectId`).
- Archive rows are credited to the newest collection, not to the section they are in
  (cmd/marmot/cmd/verify.go:357-360; `MongoArchive.RowsGoToTheirSection`).
- A PID file that cannot be read is removed whatever the reason (internal/daemon/pidfile.go:38;
  `PidLock.StepBreaksLockExactly`), and two processes can both come to hold the lock when one reads the other's
  file before it is written (internal/daemon/pidfile.go:57-64; `PidRace.TwoHolders`).
- Rescheduling a database with a schedule that does not parse removes its job and keeps its dead entry ID
  (internal/agent/scheduler.go:81-101; `Scheduling.ScheduleStaysCurrentExactly`), and so does a repeated start
  (`Scheduling.StartStaysCurrentExactly`); a second start adds a second
  queue processor (internal/agent/scheduler.go:49; `Scheduling.StartAddsAProcessor`).

## Model

| member | source | states |
|---|---|---|
| Durability.NoBackupIsLost | internal/agent/agent.go:124-229 | over every interleaving without file-name or key collisions, and with each saved database the one its ID finds, each queued backup keeps its bytes on disk and is still queued or stored under its key |
| Durability.StepKeepsInv | internal/agent/agent.go:124-263 | each protocol step keeps: promises kept, distinct keys, rows and attempts that carry the promised key and bytes |
| Durability.StepLosesExactly | internal/agent/agent.go:124-229 | a step loses a backup if and only if it misses the condition given for it (overwriting a promised file, putting other bytes under a delivered key, removing the row of an undelivered backup) |
| Durability.LeftoverAttemptIsHarmless | internal/agent/agent.go:198-229 | once the row is gone, no step of a leftover attempt changes rows, files or objects |
| Durability.RemovedStaysRemoved | internal/storage/queue.go:382-424 | without a new enqueue no removed row reappears, collisions or not |
| Durability.PromisesPersist | internal/agent/agent.go:124-229 | later steps of a collision-free run neither alter what an enqueue promised nor bring its row back |
| Durability.DeliveredStaysDelivered | internal/agent/agent.go:209-227 | a backup whose row is gone is in the remote store with its own bytes, and stays so through any further run |
| Durability.SameSecondLosesBytes | internal/agent/agent.go:125-126 | two backups of one database in one second: a run that loses the first one's bytes |
| Durability.SameKeyLosesObject | internal/agent/agent.go:209-216 | two databases of one name: a run whose second put replaces the first object |
| Durability.SharedIDLosesBackups | internal/agent/agent.go:256-263 | two databases of one ID: a run in which a retry of the second one's backup replaces the first one's object, and the second one's own key is never stored |
| Durability.DeliveredButReportedFailed | internal/agent/agent.go:172-195 | a run in which a tick's upload removes the row first, and a synchronous upload that has stored the same bytes then finds no row to remove, which it reports as failure |
| Durability.DeliveryRuns | internal/agent/agent.go:124-166 | save, enqueue, load, put and remove run through from any quiet state and leave file and object with the backup's bytes and no row |
| Retries.RetriesAreBounded | internal/agent/agent.go:232-263 | if at most m uploads of a row overlap, its retry count plus its uploads in flight never exceed 4 + m; this holds of all its uploads and of the asynchronous ones alone, whatever other rows do |
| Retries.BoundIsReached | internal/agent/agent.go:242-263 | the bound is exact: for every m from 1 on some run from any quiet state with a configured row that has not failed, at most m of its uploads overlapping, takes its retry count to 4 + m |
| Retries.FiveIsExceededExactly | internal/agent/agent.go:233-263 | some run with at most m overlapping asynchronous uploads of a row counts more than five failures of it if and only if m is at least 2 |
| Retries.RetryCountIsUnbounded | internal/agent/agent.go:242-263 | for every k a run in which a row's retry count reaches k, by overlapping uploads |
| Retries.LaunchesAreBounded | internal/agent/agent.go:232-263 | over every run without a new enqueue, launches plus retry count plus asynchronous uploads stay within 4 + m plus the uploads lost to crashes and failed deletes and updates |
| Retries.UndisturbedLaunchesAreBounded | internal/agent/agent.go:232-263 | so without crash or database failure a row is launched at most 4 + m times, less what it has used up |
| Retries.RelaunchesAreUnbounded | internal/agent/agent.go:198-263 | for every k a run of k launches of one fresh row without an enqueue, one upload at a time, each lost to a crash or to a failure that could not be counted; the state comes back to itself |
| Retries.LaunchStep | internal/agent/agent.go:242-263 | the measure behind it: no step that keeps the row lowers retry count plus asynchronous uploads by more than it loses, and each launch raises it by one |
| Retries.FailuresAreSpaced | internal/agent/agent.go:248-254 | the k-th counted failure of a row comes at least 2^k - 2 minutes after the first, as long as its asynchronous uploads do not overlap and none is counted at a time before its admission, as on a clock that never goes back |
| Retries.RetryLimitTakesHalfAnHour | internal/agent/agent.go:233-254 | so under the same conditions the retry limit is reached no sooner than 30 minutes after the first failure |
| Retries.SpacingIsAttained | internal/agent/agent.go:248-254 | and no later than documented: from any quiet state with a configured row that has not failed, some run with one upload at a time has its five failures exactly 2, 4, 8 and 16 minutes apart, to the nanosecond |
| Protocol.EligibleWhenWaited | internal/agent/agent.go:243-254 | the admission test in nanoseconds: fewer than five failures, and none, or no last retry, or 2, 4, 8 or 16 minutes since it |
| Collisions.AgentLosesNoBackup | internal/agent/agent.go:124-229 | no backup is lost under the agent's real names, if server, database names and IDs are slash-free, no two databases share an ID or join to one ID-Name, and backups stay a second apart |
| Collisions.ApartRunsDoNotCollide | internal/agent/agent.go:125-143 | under such names, runs whose (database, second) saves and (name, second) enqueues are distinct have no file-name or key collision; without slashes joining the name to its directory leaves it as it is |
| Collisions.BackupNamesAgree | internal/agent/agent.go:125 | two file names are equal if and only if ID-Name and the second are |
| Collisions.DashesCollide | internal/agent/agent.go:125 | a dash moved from name to ID gives the same file name, for different databases |
| Agents.Agent.constructor | internal/agent/agent.go:31-41 | a new agent on empty stores is in the protocol's initial state |
| Agents.Agent.SaveLocally | internal/agent/agent.go:124-129 | step 4, for any configured database, is the protocol's save step, or its failure with what that leaves: nothing, a removed file or a part of it; the name of the saved file reads back to ID-Name and the second of the clock |
| Agents.BackupNameReadsBack | internal/agent/agent.go:125 | for a newline-free ID-Name and a non-negative second, the file part of the key pattern reads the name back to exactly both |
| Agents.Agent.EnqueueBackup | internal/agent/agent.go:137-166 | step 5 is the protocol's enqueue: a fresh row created now, one upload in flight, retry count reset |
| Agents.Agent.LeaveUnqueued | internal/agent/agent.go:131-150 | a saved backup without a row is the protocol's skip step |
| Agents.Agent.QueueAndUpload | internal/agent/agent.go:137-166 | steps 5 and 6 are exactly this run: read the clock, enqueue or fail to, and if synchronous load, put and remove up to the first failure |
| Agents.Agent.Backup | internal/agent/agent.go:124-169 | Backup is exactly this run of the protocol: save at one clock reading, enqueue at the next, upload or leave one in flight, each failure ending it; success means all of it went through |
| Agents.Agent.LoadBackup | internal/agent/agent.go:173-177 | opening the file is the protocol's load, failing if the file is missing |
| Agents.Agent.PutBackup | internal/agent/agent.go:179-184 | the put stores the loaded bytes under the row's key, or is refused without a server ID |
| Agents.Agent.RemoveFromQueue | internal/agent/agent.go:186-189 | removing the row is the protocol's remove, and fails if the statement does or the row is gone already |
| Agents.Agent.CountFailure | internal/agent/agent.go:203-219 | IncrementRetry on the table is the protocol's count: one more retry, last retried now, and nothing on a missing row |
| Agents.Agent.UploadBackup | internal/agent/agent.go:198-229 | an asynchronous upload is exactly this run: load, put, then remove the row, or count the failure at the first that fails |
| Agents.Agent.UploadBackupSync | internal/agent/agent.go:172-195 | a synchronous upload is exactly this run: load, put, remove, ending at its first failure and never counting one; it succeeds if and only if all went through and its row was still there |
| Agents.Agent.RetryFailedUploads | internal/agent/agent.go:232-266 | the retry loop is the protocol's tick: one upload for every listed row that is due and configured, and for no other; on a listing that was not cut short a configured row is launched if and only if it has fewer than five failures and its wait, given in nanoseconds, is over |
| Agents.DueFilesAreATick | internal/agent/agent.go:242-263 | looping over a listing admits each eligible row of it exactly once, and over a complete one leaves none out |
| Agents.ListingLists | internal/storage/queue.go:331-373 | the files List returns are rows of the queue, each once, with the retry data the protocol sees |
| Agents.IncrementView | internal/storage/queue.go:382-388 | counting a failure in the table, through text columns and back, is counting it in the protocol's row |
| Queue.SQLiteQueue.Enqueue | internal/storage/queue.go:246-258 | insert-or-replace: the name's old row goes, the new one has no retries; nothing on a database error |
| Queue.SQLiteQueue.Peek | internal/storage/queue.go:299-328 | the first row in listing order, the one the next Dequeue returns |
| Queue.SQLiteQueue.Dequeue | internal/storage/queue.go:261-296 | returns and deletes the first row in listing order; on an error nothing is deleted |
| Queue.SQLiteQueue.List | internal/storage/queue.go:331-373 | the rows in listing order, times parsed, up to where the iteration ends or breaks off; a failed query or scan is an error |
| Queue.SQLiteQueue.IncrementRetry | internal/storage/queue.go:376-394 | exactly the named row gets one more retry, the message and the time |
| Queue.SQLiteQueue.Remove | internal/storage/queue.go:410-424 | deletes exactly the named row, and reports a missing one |
| Queue.SQLiteQueue.Clear | internal/storage/queue.go:427-436 | deletes all rows |
| Queue.ReplacedIsUnique | internal/storage/queue.go:246-258 | names stay unique, and the name's one row is the new one with its retry count reset |
| Queue.DrainingIsListing | internal/storage/queue.go:261-373 | repeated Dequeue returns exactly the rows List shows, in that order, none lost or repeated |
| Queue.DequeueAdvancesListing | internal/storage/queue.go:261-296 | after a dequeue the listing is the old one without its first entry |
| Queue.ListingIsTheOnlyOrder | internal/storage/queue.go:331-336 | with distinct creation texts, ORDER BY created_at leaves one possible result, the listing |
| Queue.ListingSorted | internal/storage/queue.go:331-336 | a listing is sorted by the creation text |
| Queue.ListingMultiset | internal/storage/queue.go:331-373 | a listing holds exactly the table's rows |
| Queue.ListingWithout | internal/storage/queue.go:410-413 | deleting a row and listing commute |
| Queue.FirstInFirstOut | internal/storage/queue.go:246-436 | over every run of enqueues, replacements, removals, retries and clears whose enqueuing clock stays in one zone and never goes back, the listing is the order of the enqueues |
| Queue.OrderedRowsAreListedInOrder | internal/storage/queue.go:331-336 | rows in the order of their creation are listed in that order |
| Queue.OperationStaysInOrder | internal/storage/queue.go:246-436 | each statement keeps the rows in the order of their creation |
| Queue.EnqueuedTimeIsExact | internal/storage/queue.go:252-355 | a listed row has exactly the creation time it was enqueued with |
| Queue.EnqueuedFileIsListed | internal/storage/queue.go:246-373 | a row is listed, peeked and dequeued with exactly the name, path, size, database and creation time it was enqueued with, and nothing tried |
| Queue.RetriedFileIsListed | internal/storage/queue.go:331-394 | a counted failure is listed as one more retry at that time, keeps its message, and changes nothing else |
| Timestamps.TimestampTextsAreExact | internal/storage/queue.go:19-40 | the stored text and its RFC 3339 form (section 5.6 of RFC 3339) both parse back to the very instant and offset, to the nanosecond, whichever layouts fail first |
| Timestamps.ParseFormatted | internal/storage/queue.go:25-37 | each zoned layout that matches a text's separator reads it exactly |
| Timestamps.FractionLayoutsAreRedundant | internal/storage/queue.go:25-37 | the second and the fifth layout never decide, whatever the text: a fraction is read whether or not the layout names one |
| Timestamps.ZonelessTextIsUTC | internal/storage/queue.go:29-37 | a column text without a zone is read as UTC, exactly |
| Timestamps.TextWithoutDateIsZero | internal/storage/queue.go:19-40 | an empty text, or one that does not start with a digit, is read as the zero time |
| Timestamps.StoredTextExample | internal/storage/queue.go:26-28 | one instant's two texts spelled out |
| Timestamps.StoredTextOrder | internal/storage/queue.go:335 | bytewise order of stored texts is wall-clock order in each writer's own zone, ties by zone text: both directions, any zones |
| Timestamps.StoredTextIsChronological | internal/storage/queue.go:265-335 | at one offset the trimmed text sorts in time order |
| Timestamps.StoredTextReversesAcrossZones | internal/storage/queue.go:265-335 | when the offset drops by more than the time passed, the later row sorts first |
| Timestamps.Rfc3339TextIsNotChronological | internal/storage/queue.go:26 | RFC 3339 text with trimmed fractions would not sort in time order |
| Calendar.DateOfDayNumber | internal/s3/provider.go:134 | day numbers and valid civil dates are inverse, one way |
| Calendar.DateFromDayNumber | internal/s3/provider.go:134 | and the other way: a valid date is found again from its day number |
| Calendar.DateOrder | internal/s3/provider.go:134 | civil dates are ordered as their days are |
| Calendar.EpochDate | internal/s3/provider.go:135 | the day Unix seconds count from is 1970-01-01, and the next is the second of January |
| ObjectKeys.KeyRoundTrip | internal/s3/s3.go:122-139 | for plain names, the documented reading gives back server, database and second if and only if the prefix has no empty segment, the year four digits and the second is a non-negative int64 |
| ObjectKeys.KeyExample | internal/s3/provider.go:133-141 | one key spelled out, with and without a prefix |
| ObjectKeys.MatchKeySound | internal/s3/s3.go:23 | a match the greedy search returns is a split the pattern allows |
| ObjectKeys.MatchKeyPrefers | internal/s3/s3.go:23 | if the pattern allows any split a match is returned, and none gives more to the prefix or, at equal prefix, to the database |
| ObjectKeys.SlashFreeSplitIsFound | internal/s3/s3.go:23 | an allowed split whose database holds no slash is the one Go finds, whatever dashes and date-like segments the rest holds |
| ObjectKeys.KeyInjective | internal/s3/provider.go:133-141 | under one prefix, equal keys mean equal server, database and second |
| ObjectKeys.KeysAgree | internal/s3/provider.go:133-141 | with four-digit years keys are equal if and only if server, database, second and local date are |
| ObjectKeys.NegativeSecondsCollide | internal/s3/provider.go:133-141 | before 1970 keys of different names can be equal |
| ObjectKeys.KeyOrder | internal/s3/provider.go:133-141 | for one prefix, server and database keys sort by local date and then by the text of the second, at any offsets |
| ObjectKeys.KeyOrderFailsExactly | internal/s3/provider.go:133-141 | with equally wide seconds an earlier backup's key sorts first if and only if the local date does not go back |
| ObjectKeys.KeyOrderIsTimeOrder | internal/s3/provider.go:133-141 | so at one offset bytewise key order is time order (four-digit years, equally wide seconds) |
| ObjectKeys.WidthBreaksKeyOrder | internal/s3/provider.go:133-141 | without equal widths it fails, at second 10^9 |
| Storage.ExtractionNeverSucceeds | internal/s3/s3.go:124-139 | as written no key yields metadata |
| Storage.NothingIsSelected | internal/s3/s3.go:236-250 | as written a listing for a named database is empty |
| Storage.UnnamedListing | internal/s3/s3.go:229-259 | as written a listing for no database in particular has one entry an object, with its ID, size and modification time, the provider's server and no database |
| Storage.IntendedListingIsExact | internal/s3/s3.go:236-259 | with the documented extraction a page yields exactly the asked database's backups, in order, as uploaded |
| Storage.FirstListedIsOldest | cmd/marmot/cmd/restore.go:105 | the first entry of an ascending page is older than every other if and only if no backup was made no later than it, yet on a later local date |
| Storage.FirstListedInOneZone | cmd/marmot/cmd/restore.go:105 | so at one offset the first entry is the oldest |
| Storage.BackupIDResolves | internal/s3/s3.go:109-120 | the ID built by Upload parses back to its bucket and key if and only if the bucket holds no slash |
| Storage.UploadedObjectIsFound | internal/s3/s3.go:149-197 | a download by that ID, through any provider, reads the body the upload wrote |
| Storage.PlainKeyReadsOwnObject | internal/s3/s3.go:109-120 | an ID without s3:// reads that key of the provider's own bucket |
| Storage.BareBucketNamesNothing | internal/s3/s3.go:113-115 | an s3:// ID without a slash is an error |
| Storage.RetryUsesSameKey | internal/agent/agent.go:209-212 | a retry, with its creation time read from the queue's text, prints the very same key |
| Storage.S3Provider.Upload | internal/s3/s3.go:141-186 | stores the body under the generated key and returns its ID, or refuses without a server |
| Storage.S3Provider.Download | internal/s3/s3.go:188-209 | reads the object its ID names |
| Storage.S3Provider.ListBackups | internal/s3/s3.go:224-259 | returns the filter of the page, which as written is empty for a named database |
| Storage.LocalStorage.Save | internal/storage/local.go:25-40 | creates or truncates the file; a failed copy removes it, or leaves a part of it if that fails too |
| Storage.LocalStorage.Load | internal/storage/local.go:43-52 | the file's bytes, or an error if it is missing |
| Bson.RoundTrip | cmd/marmot/cmd/verify.go:384-472 | parsing an encoded list of distinctly named fields gives exactly its non-null fields, each with its value |
| Bson.ParseEncode | cmd/marmot/cmd/verify.go:384-472 | for any NUL-free field list the parse is the fold of its fields, later ones winning and nulls overriding nothing |
| Bson.FieldInside | cmd/marmot/cmd/verify.go:392-469 | an encoded field followed by anything is read as itself, and reading goes on right behind it |
| Bson.PayloadInside | cmd/marmot/cmd/verify.go:417-462 | each handled type's payload is read back with its exact length |
| Bson.ParseBSONDocument | cmd/marmot/cmd/verify.go:384-472 | on any bytes the two nested loops stay in bounds, terminate and compute the specified parse |
| Bson.ReadFieldValue | cmd/marmot/cmd/verify.go:415-466 | the type switch: a value that does not fit is dropped and not skipped |
| Bson.ParseFailsExactly | cmd/marmot/cmd/verify.go:385-387 | only fewer than five bytes are an error |
| Bson.AnyOtherByteIsTrue | cmd/marmot/cmd/verify.go:439-443 | a boolean is true for every byte but zero |
| Bson.UnixSecond | cmd/marmot/cmd/verify.go:448 | truncating division and the negative remainder together give the second the millisecond lies in |
| Bson.EmbeddedDocumentEndsParse | cmd/marmot/cmd/verify.go:460-466 | an embedded document or array of less than 64 KiB, its low length byte no handled type, ends the parse: all fields behind it are lost |
| Bson.EmbeddedDocumentIsReadRightExactly | cmd/marmot/cmd/verify.go:460-466 | with distinct names such a document is still read right if and only if every field behind the embedded one is null |
| Bson.EmbeddedDocumentLosesExactly | cmd/marmot/cmd/verify.go:460-466 | with any names: if and only if the fields behind it amount to nothing |
| Bson.SevenByteDocumentIsAnObjectId | cmd/marmot/cmd/verify.go:434-466 | a 7-byte embedded document or array and the 7 bytes behind it are read as one nameless object ID, and the fields from there on are read |
| MongoArchive.ArchiveIsCountedExactly | cmd/marmot/cmd/verify.go:316-380 | on any concatenation of well-formed documents up to 16 MiB the frames are exactly those documents and the report is the one their fields call for |
| MongoArchive.ArchiveCounts | cmd/marmot/cmd/verify.go:316-380 | the same of the fields alone, with the field names and the size limit spelled out: the rows are the documents with a non-null `_id`, and a collection is listed if and only if some `ns` string names it after its first dot |
| MongoArchive.ParsableAreEvents | cmd/marmot/cmd/verify.go:332-375 | frames too short for a document count for nothing, and all others are looked at |
| MongoArchive.ArchiveReport | cmd/marmot/cmd/verify.go:316-381 | on any bytes: rows are the `_id` documents, structures the distinct announced names, each row count is exact, the counts sum to the rows minus those before the first namespace, and the samples are exactly those of SamplesAreExact |
| MongoArchive.FramesAreDisjoint | cmd/marmot/cmd/verify.go:320-377 | accepted frames lie in the data, follow one another without overlap and have their announced lengths |
| MongoArchive.FramesMissNothing | cmd/marmot/cmd/verify.go:320-377 | after an unbelievable length the scan moves on by one byte: wherever the data could start a document, a frame starts there or is not yet over |
| MongoArchive.FramesOfConcat | cmd/marmot/cmd/verify.go:320-377 | behind any position, concatenated documents are framed exactly |
| MongoArchive.VerifyMongoArchive | cmd/marmot/cmd/verify.go:298-381 | the scan loop terminates in bounds and computes the specified report, its map agreeing with its slice throughout |
| MongoArchive.ObserveDocument | cmd/marmot/cmd/verify.go:336-374 | one document's update keeps the collections map and slice in agreement on names and counts |
| MongoArchive.CountDocument | cmd/marmot/cmd/verify.go:352-373 | the lookup of the last collection in the map never misses |
| MongoArchive.RowCounts | cmd/marmot/cmd/verify.go:352-361 | each collection's count is the number of `_id` documents seen while it was the newest |
| MongoArchive.RowsAddUp | cmd/marmot/cmd/verify.go:352-361 | counts and early rows add up to the total |
| MongoArchive.NamesAreDistinct | cmd/marmot/cmd/verify.go:336-350 | the listed collections are exactly the announced names, each once |
| MongoArchive.SamplesAreBounded | cmd/marmot/cmd/verify.go:363-372 | at most three samples a collection and none without a row |
| MongoArchive.SamplesAreListed | cmd/marmot/cmd/verify.go:363-372 | each sample is filed under a listed collection |
| MongoArchive.SamplesAreExact | cmd/marmot/cmd/verify.go:363-372 | the samples are those of `_id` documents in order, each filed under the collection newest at its document, and such a document is sampled if and only if fewer than three samples a collection so far came before it |
| MongoArchive.OnlyStringsAnnounce | cmd/marmot/cmd/verify.go:337-341 | only a string field announces a collection, although object IDs and datetimes are kept as strings too |
| MongoArchive.RowsGoToTheirSection | cmd/marmot/cmd/verify.go:344-361 | every collection's count is the number of its own `_id` documents if and only if no `_id` document lies in the section of another collection than the newest |
| MongoArchive.SomeCollectionLoses | cmd/marmot/cmd/verify.go:352-361 | miscredited rows cannot cancel out: some collection is left with fewer rows than its own |
| MongoArchive.SectionsFollowNames | cmd/marmot/cmd/verify.go:344-361 | the newest collection is the current section throughout if and only if no section goes back to an earlier collection |
| MongoArchive.AfterDot | cmd/marmot/cmd/verify.go:339-341 | the text behind the first dot, which exists if and only if there is a dot |
| SqlDump.VerifySQLDump | cmd/marmot/cmd/verify.go:234-296 | the scan loop computes the specified report; a read error discards it |
| SqlDump.CountRow | cmd/marmot/cmd/verify.go:271-277 | the inner loop counts the row for the first entry of its table and no other |
| SqlDump.EntriesAreExact | cmd/marmot/cmd/verify.go:252-289 | the first entry of a table counts the INSERT lines naming it from its CREATE line on; later duplicates stay 0 |
| SqlDump.Totals | cmd/marmot/cmd/verify.go:256-289 | TotalRows is the number of INSERT lines, and samples stay within three a table |
| SqlDump.RowsAddUp | cmd/marmot/cmd/verify.go:265-277 | entry counts and INSERTs into tables not created so far add up to TotalRows |
| SqlDump.SamplesAreInserts | cmd/marmot/cmd/verify.go:279-287 | the samples are the truncated texts of INSERT lines in order, each under its line's table, and an INSERT line is sampled if and only if fewer than three samples a CREATE line so far came before it |
| SqlDump.TruncateString | cmd/marmot/cmd/verify.go:600-605 | never longer than the limit, unchanged within it, and otherwise the start of the line and three dots |
| PidFile.PidDirectory.TryAcquire | internal/daemon/pidfile.go:56-86 | exclusive creation: refused if the file exists, cleaned up if writing or closing fails |
| PidFile.PidDirectory.ReadPIDFile | internal/daemon/pidfile.go:88-105 | the positive PID a file names, or none |
| PidFile.PidDirectory.AcquirePIDFile | internal/daemon/pidfile.go:23-54 | create, inspect, remove if invalid or stale, create again |
| PidFile.Release.Call | internal/daemon/pidfile.go:76-83 | the first call removes the file, later ones do nothing |
| PidFile.PidRoundTrip | internal/daemon/pidfile.go:64-105 | a process reads its own PID back if and only if it is a positive 64-bit one; the empty file names nobody |
| PidFile.ReadPidExactly | internal/daemon/pidfile.go:88-105 | a text names a process if and only if it is, trimmed, digits with a plus sign at most that are worth a positive 64-bit number |
| PidFile.AcquireSucceedsUnlessRunning | internal/daemon/pidfile.go:23-54 | when no call fails, acquiring is refused if and only if the file names a running process |
| PidFile.FailedTryCleansUp | internal/daemon/pidfile.go:56-86 | one try holds if and only if all its calls work and there is no file, and otherwise leaves things as they were if it can still remove |
| PidFile.AcquireLeaves | internal/daemon/pidfile.go:23-74 | whatever fails, success leaves the caller's PID and a refusal the file as it was; without the directory or the first open nothing is done |
| PidLock.LockIsExclusive | internal/daemon/pidfile.go:23-86 | over any run of starts, acquires, releases, crashes and PID reuse in which a live holder's file can be read there is at most one live holder, and its PID is in the file |
| PidLock.StepKeepsInv | internal/daemon/pidfile.go:23-86 | each such step keeps it, as long as a live holder's file can be read |
| PidLock.StepBreaksLockExactly | internal/daemon/pidfile.go:37-43 | a step breaks it if and only if an acquirer fails to read a live holder's file and removes it, save when the holder itself leaves the same text behind without a second success |
| PidLock.ReusedPidBlocks | internal/daemon/pidfile.go:45-47 | a crashed holder's PID given to another process blocks every acquire, with no holder alive |
| PidLock.ReleaseFreesLock | internal/daemon/pidfile.go:76-83 | after a release the file is gone and any running process can acquire the lock |
| PidLock.SecondReleaseDoesNothing | internal/daemon/pidfile.go:76-83 | a release called again changes nothing, whoever holds the lock by then |
| PidRace.FilesHaveOneOwner | internal/daemon/pidfile.go:56-86 | call by call: each file has one creator and one live owner at most, and the file on disk is empty or names its creator |
| PidRace.StepKeepsOwners | internal/daemon/pidfile.go:23-86 | a call takes an owned file off the disk if and only if it is an acquirer's removal of a live owner's file |
| PidRace.ExclusiveUnlessStolen | internal/daemon/pidfile.go:23-86 | in runs without such a removal there is at most one live holder and its PID is on disk |
| PidRace.TwoHolders | internal/daemon/pidfile.go:37-64 | for any two processes, a run that ends with both holding the lock |
| PidRace.AloneItAcquires | internal/daemon/pidfile.go:23-86 | undisturbed, the calls of one process amount to AcquirePIDFile as a whole: same file, same outcome |
| Scheduling.Cron.AddFunc | internal/agent/scheduler.go:88-103 | a fresh ID and entry, or nothing if the schedule does not parse |
| Scheduling.Scheduler.ScheduleDatabase | internal/agent/scheduler.go:71-105 | the old entry goes first; then the new one is added and recorded, or nothing is |
| Scheduling.Scheduler.UnscheduleDatabase | internal/agent/scheduler.go:108-117 | the recorded entry goes from cron and from the map |
| Scheduling.Scheduler.Start | internal/agent/scheduler.go:38-68 | schedules in order up to the first failure; cron runs only if all jobs and the queue processor were added |
| Scheduling.StartSucceedsExactly | internal/agent/scheduler.go:38-68 | Start succeeds if and only if every ID it is asked to schedule can be, and the queue processor's own schedule parses |
| Scheduling.StartSucceedsWithUniqueIDs | internal/agent/scheduler.go:38-68 | with unique IDs: if and only if every schedule set for an enabled database parses, and that one |
| Scheduling.RefusedScheduleChangesNothing | internal/agent/scheduler.go:72-79 | an ID that is not configured or has no schedule is refused and changes nothing |
| Scheduling.LiveJobsAreRecorded | internal/agent/scheduler.go:38-117 | after any calls, failed ones too, every live backup job is recorded and each ID has at most one |
| Scheduling.CallKeepsInv | internal/agent/scheduler.go:38-117 | each call keeps that, whatever the configuration and the schedules that parse |
| Scheduling.ScheduleStaysCurrentExactly | internal/agent/scheduler.go:81-103 | the map records live jobs only, until a scheduled database is given a schedule that does not parse, and only then |
| Scheduling.StartStaysCurrentExactly | internal/agent/scheduler.go:38-68 | a start keeps that if and only if it does not get to a recorded database whose schedule does not parse |
| Scheduling.UnscheduleStaysCurrent | internal/agent/scheduler.go:108-117 | unscheduling leaves no dead entry |
| Scheduling.UnscheduleStopsExactly | internal/agent/scheduler.go:108-117 | unscheduling a recorded ID leaves it unrecorded and without a live job, and everything else as it was; an unrecorded one is an error |
| Scheduling.StartSchedulesExactly | internal/agent/scheduler.go:38-68 | after a successful first start the live jobs are exactly those asked for, as first configured, plus one queue processor |
| Scheduling.StartSchedulesEnabled | internal/agent/scheduler.go:38-46 | with unique IDs a database's job is live, with its own schedule, if and only if it is enabled and has one |
| Scheduling.StartAddsAProcessor | internal/agent/scheduler.go:49-56 | every start adds one more queue processor |
| Text.FindsFirst | internal/config/config.go:222-229 | a lookup by ID finds the first entry that has it |

## Left out

- Dumping, compressing and encrypting (steps 1 to 3 of a backup), restoring, discovery, Docker, systemd and launchd: foreign processes and library calls. Backup contents are opaque.
- The AWS client: the remote store is a map from bucket and key to bytes. A listing is one page in key order; asking for the page, its prefix and its limit are not modelled.
- SQLite: the table is a sequence of rows in insertion order and each statement is atomic. Rows with equal creation texts are listed in insertion order, as the created_at index keeps them; the opening modes and migrations are not modelled.
- The SQLite driver re-prints a timestamp column as RFC 3339 before `parseSQLiteTime` sees it. `Queue.FileOf` parses the stored text; `Timestamps.TimestampTextsAreExact` shows both texts parse alike.
- Zone offsets are whole minutes, and texts are sequences of characters where Go has bytes.
- Queue.SQLiteQueue.Dequeue: its read and its delete are one step of the model; two processes dequeuing at once are not modelled. The agent never dequeues.
- Durability.NoBackupIsLost: assumes a fixed configuration whose IDs each find the database saved, and no Clear, Dequeue, or local cleanup; a load captures the file's bytes when it is opened, and no two backups share a file name or key (what happens otherwise is `Durability.StepLosesExactly`).
- Retries.FailuresAreSpaced: an upload counts from the clock reading its admission used; that reading is the tick's own parameter, taken after its listing of the queue.
- Agents.Agent.Backup: shows each method as a run of the protocol when nothing interrupts it; interleavings of several methods are the protocol's runs, whose steps are the calls the methods make.
- Agents.Agent.EnqueueBackup: requires a clock with a four-digit year in its own zone and at UTC, an offset the parser accepts, and not Go's zero time; other clocks do not survive the text columns.
- Agents.Agent.CountFailure: the same requirement, for the time of the retry.
- Agents.Agent.UploadBackup: the same requirement, for the failure it may count.
- Storage.FirstListedIsOldest: for one server and database, and seconds of equal width (2001 to 2286); without equal widths see `ObjectKeys.KeyOrder`.
- Bson.EmbeddedDocumentEndsParse: embedded documents and arrays of 64 KiB and more, and those whose low length byte is a handled type other than a 7-byte document's, are read on from inside; what comes of that depends on their contents.
- Bson.ParseBSONDocument: Go's int is 64 bits wide, so a 32-bit length is never negative.
- Bson.RoundTrip: a datetime comes back cut to the second, as the program keeps it; its text, which depends on the machine's zone, is modelled only where it matters, in `MongoArchive.GoString`.
- MongoArchive.VerifyMongoArchive: of a sample only its collection is modelled; its text depends on Go's map order.
- SqlDump.VerifySQLDump: what the two patterns find in a line is part of the line; Go's regular expressions, the line splitting and the 10 MB line limit are not modelled, except that the scanner may fail.
- PidFile.PidDirectory.AcquirePIDFile: whether a PID runs is taken to be known exactly; nobody else touches the file.
- Scheduling.Scheduler.Start: cron expressions, firing times and the retry run started alongside are not modelled; the configuration does not change during a call.
- `StopProcess`, `NextRun`, `Stop`, `verifyAutoDetect`, `Delete`, disk usage, retention, prompts and report printing: single-branch or user-interface code.
