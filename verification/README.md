# Resolute: a verified model of the driver's core

Resolute is a PostgreSQL client in Rust: a wire-protocol connection shared by many tasks (`pg-wired`), a connection
pool (`pg-pool`), a typed client with nested transactions, named parameters, codecs and migrations (`resolute`,
`resolute-derive`), and a JavaScript binding (`pg-wired-js`). This project states what those parts promise, and proves it.

How the parts fit together:

- **One connection, many tasks.** `Framing` (bytes into frames), `Bodies` (which bodies are accepted), `Collectors` (one reply into one answer),
  `ServerProtocol` (the server, after sections 55.2.2, 55.2.3, 55.2.4 and 55.2.6 of the PostgreSQL 16 documentation) and
  `Replies` (a frame stream cut at each ReadyForQuery) meet in `Multiplexer`: submitters, writer, server, network and
  reader are separate steps, taken in any order. Chunks, notices, notifications, errors, dropped stream receivers, callers
  that gave up, failed writes and connection loss are all steps or choices of that machine. `ReaderTask` and `AsyncConn`
  are the task loops themselves, as classes; each round of the tasks is shown to be a stretch of a run of the machine
  (`ConnectionRuns`).
- **Prepared statements.** `StatementCache` is the cache with all its concurrent users and the server;
  `StaleRetry` compares executing through it with sending a fresh Parse each time, for single statements, sessions, and
  whole transactions sent in one call.
- **Pool.** `Pool` takes each counter operation and each lock region as a step of its own and tracks who owns every
  connection; `ConnPool` is the code, each of whose methods is shown to be a run of that machine. `SessionHygiene` adds
  the server's transaction state to it; `SessionData` follows what a connection's requests do to the database;
  `PooledSession` is the code of transactions and of the reset on return.
- **Nested `atomic`.** `Savepoints` compiles blocks to SAVEPOINT, RELEASE and ROLLBACK TO on the server's savepoint stack,
  over an arbitrary database and arbitrary statements, and compares the result with blocks that are all-or-nothing by definition.
  `Transactions` puts BEGIN and COMMIT around such bodies, with a COMMIT that may be refused or lose its answer.
- **Named parameters.** `NamedParams`: the rewriting loops against a recursive lexer, then the meaning of what comes out;
  `ServerReading`: what the server's own lexer makes of the text that comes out.
- **Arithmetic and codecs.** `Numeric`, `NumericSyntax`, `Calendar`, `Frontend`, `BinaryValues`, `ServerBinary` (the server's readers of the same
  format), `DataRow`, `Columnar`, `BatchExecute`.
- **Migrations.** `Migrations` runs any number of migrators against one database, crashes included; `MigrationRunner`
  is one run as a sequence of statements, together with the directory scan.

`Wrappers`, `Bytes`, `Decimal` and `Seqs` are shared vocabulary. Code that updates state is a class or a method with
loops, proved against a function; machines with several tasks are a state, a next-state relation and an invariant.

Where a property turned out to hold only under a condition, the lemma states the condition in both directions:

- Putting the names back into a rewritten text restores it exactly when the input mentions no `$k` that the rewriting also
  generates (`NamedParams.TextRestoresExactly`). Restoring token by token always works (`NamedParams.NothingIsLost`).
- A numeric of weight 32767 overflows the 16-bit `weight + 1` and decodes to zero (`Numeric.RightExactlyBelowTheLimit`).
- The retry after a stale statement comes too late inside an open transaction, which the refusal has aborted. So the cache can
  be noticed there, and only there, when the cached statement is gone, or when the statement itself fails with 26000 or 0A000:
  the caller then sees 25P02 instead (`StaleRetry.CachedAgreesExactly`, `AttemptIsStale`, with a witness for each).
  Sent in one call with its BEGIN and COMMIT, the statement is retried in a transaction of its own, which no statement can tell
  from an undisturbed one exactly when the setup script, run again on what it has committed, comes to the same
  (`StaleRetry.RetryUnnoticedExactly`); a setup that commits by itself is run twice (`StaleRetry.SetupCommitsTwice`).
- Chunking of the byte stream stays invisible with unknown message tags exactly when no two unknown frames in a row have a
  known one behind them (`Framing.ChunkingIsInvisibleExactly`).
- An Err of a transaction means that the database is unchanged unless COMMIT took effect and only its answer was lost; an Ok
  means the body's effects exactly when COMMIT was not refused, which the drained reply does not tell
  (`Transactions.TransactionIsAtomic`). A block nested in `with_transaction` ends the outer transaction
  (`Transactions.NestedBlockEscapes`).
- The server binds the rewritten text as the rewriter meant it exactly when its own lexer, run over the original text, comes to no
  parameter inside an identifier or quotation, no `$` and digit of the caller's own, and no `$` and word in front of
  a parameter (`ServerReading.TextReadsAsBound`). `f:a` becomes the identifier `f$1`, while `1:a` is read right.
- An `atomic` block that returns Ok after swallowing a statement error reports success and leaves the transaction aborted
  (`Savepoints.AbortedExactlyWhenSwallowed`).
- The JavaScript accessor computes the bitmap index with a 32-bit shift, so a NULL cell with index 2^31 or more reads as the
  empty string (`Columnar.RightExactly`).
- The waiter gauge is the number of waiting calls exactly as long as no drain has dropped a waiter. A drain lowers it for every
  waiter it drops, and each of those lowers it again on its way out; the unsigned gauge has wrapped exactly when more waiters
  have been dropped than calls are waiting (`Pool.GaugeIsExact`, with a run in `Pool.GaugeWraps`).
- A file made by `create` keeps its migration name exactly when the name contains no dot (`MigrationRunner.CreatedIsScanned`).

Where the code and its comments disagree, the code is modelled:

- `pg-pool/src/async_wire.rs:84-85` and `:74` say that DISCARD ALL aborts an open transaction. The server refuses it
  inside a transaction block, and the reset collector hides that refusal. The session is clean after it
  exactly when what was queued before it, such as a dropped handle's ROLLBACK, ends every transaction
  (`SessionHygiene.DiscardNeedsTheRollback`).
- `pg-wired/src/async_conn.rs:97-98` says notifications are never silently dropped. That holds for the row and stream collectors, up to
  the first error; the drain and COPY collectors skip them without counting (`ReaderTask.Reader.Collect`).
- `pg-wired/src/async_conn.rs:415-418` speaks of the oldest entry of an LRU. Eviction goes by allocation number, not by use
  (`StatementCache.Statements.CacheStatement`).

## Model

| member | source | states |
|---|---|---|
| `Framing.ParseMessage` | pg-wired/src/protocol/backend.rs:10-430 | One call leaves an incomplete frame untouched, consumes exactly a complete or unknown one, rejects a bad length without consuming anything, and a body its tag's parser rejects after consuming the frame |
| `Framing.ParseComplete` | pg-wired/src/protocol/backend.rs:28-42 | A complete frame with a body its parser accepts is parsed as itself whatever follows it, and exactly its 1 + len bytes are consumed |
| `Framing.ParsePartial` | pg-wired/src/protocol/backend.rs:11-30 | No proper prefix of a frame is ever taken for a message |
| `Framing.TagsInBytes` | pg-wired/src/protocol/backend.rs:44-83 | The tags there is a branch for, as the 21 bytes they are |
| `Framing.ReplyFramesAreParsed` | pg-wired/src/protocol/backend.rs:44-83 | DataRow, ReadyForQuery, CommandComplete, error, notice and COPY data as bytes: recognised by their tag byte, with exactly the bodies their parsers take |
| `Framing.BadLengthIsRejected` | pg-wired/src/protocol/backend.rs:11-27 | A length below four or above 256 MiB is an error that consumes nothing |
| `Framing.ParseArrived` | pg-wired/src/protocol/backend.rs:10-85 | From whatever part of a stream of acceptable frames has arrived, parsing yields nothing or the first frame of the stream, never an error |
| `Framing.Inbound.ReadMsg` | pg-wired/src/async_conn.rs:1215-1234 | The read loop, including its last parse at end of file, against a function of the buffer and the reads to come |
| `Framing.ReadNext` | pg-wired/src/async_conn.rs:1215-1234 | However the next frame is cut into reads, one call returns it and leaves exactly the bytes behind it |
| `Framing.ChunkingIsInvisible` | pg-wired/src/async_conn.rs:1215-1234 | Repeated reading of frames with known tags and acceptable bodies gives the same messages for every chunking, and then the connection-closed error |
| `Framing.UnknownTagsExposeChunking` | pg-wired/src/protocol/backend.rs:76-83 | Why the tags must be known: with an unknown one, the same bytes in other chunks make a message disappear behind a connection-closed error |
| `Framing.ChunkingIsInvisibleExactly` | pg-wired/src/async_conn.rs:1215-1234 | With unknown tags: every chunking gives the known frames in order and then the end of file, if and only if no two unknown frames in a row have a known one anywhere behind them |
| `Collectors.StopsAtReady` | pg-wired/src/async_conn.rs:1245-1455 | From any point of its loop every collector finishes at the first ReadyForQuery, not earlier, and reports that message's status |
| `Collectors.AnswerIsReport` | pg-wired/src/async_conn.rs:1245-1308 | The answer of a row, drain or COPY collector is the report of its reply: all rows in order with the last description and tag, or the first error |
| `Collectors.StreamIsReply` | pg-wired/src/async_conn.rs:1311-1390 | A stream delivers one header and then exactly the rows and a late error of this reply, in order, cut where the receiver was dropped |
| `Collectors.OutcomeReports` | pg-wired/src/async_conn.rs:1245-1455 | Both ends of a reply: a whole one is reported as what it says; one cut off by the end of the connection as lost, never as its rows so far, a stream being told in its header or behind its rows unless an error was reported or the receiver is gone |
| `Collectors.HeardIsPassedOn` | pg-wired/src/async_conn.rs:1245-1390 | The notifications passed on are those before the first error, and before the first row a stream's receiver no longer takes; a drain or a COPY passes none on |
| `ServerProtocol.OneReplyPerRequest` | pg-wired/src/async_conn.rs:938-1002 | Each request shape the client sends (simple, extended up to Sync, COPY IN) draws exactly one ReadyForQuery from the server, on every path |
| `Replies.CutIsExact` | pg-wired/src/async_conn.rs:1149-1213 | Cutting a frame stream at each ReadyForQuery loses nothing and yields exactly the replies |
| `Replies.CompleteGrows` | pg-wired/src/async_conn.rs:1149-1213 | Replies already complete do not change while the stream grows |
| `Multiplexer.NextInv` | pg-wired/src/async_conn.rs:1064-1213 | Every step of submitter, writer, server, network and reader keeps the invariant that ties requests, bytes, replies and answers together |
| `Multiplexer.NthRequestGetsNthReply` | pg-wired/src/async_conn.rs:1064-1134 | In every state of every run, the n-th request written holds the n-th answer slot, what is put into that slot reports exactly the n-th reply, and every frame in that reply was caused by that request or is asynchronous |
| `Multiplexer.LostReplyIsReportedLost` | pg-wired/src/async_conn.rs:1215-1234 | In every state of every run, whoever is answered because the connection ended is told so: an error, after what had been read of its own reply |
| `Multiplexer.AnsweredOnce` | pg-wired/src/async_conn.rs:1138-1213 | An answer given is never changed, and once the writer has exited and the reader is idle every request taken has one |
| `Multiplexer.HistoryIsStable` | pg-wired/src/async_conn.rs:1064-1213 | What the n-th request is and what the n-th reply says never changes once it exists |
| `ReaderTask.Reader.NextFrame` | pg-wired/src/async_conn.rs:1215-1234 | Facing one reply, reading yields its frames one by one and stops at its end, leaving the following replies unread |
| `ReaderTask.Reader.NoteStatus` | pg-wired/src/async_conn.rs:1239-1243 | The session counts as changed after any non-idle status, and never becomes clean again this way |
| `ReaderTask.Reader.Forward` | pg-wired/src/async_conn.rs:1273-1280 | A notification is queued if it fits and counted as dropped otherwise |
| `ReaderTask.Reader.DrainUntilReady` | pg-wired/src/async_conn.rs:1291-1308 | Consumes exactly through the ReadyForQuery, notes its status, and fails only if the connection ends first |
| `ReaderTask.Reader.CollectRows` | pg-wired/src/async_conn.rs:1245-1289 | The loop reports this reply or, if the connection ends first, its loss; gives what the collector automaton gives; consumes exactly this reply, and queues or counts just the notifications ahead of an error |
| `ReaderTask.Reader.CollectCopyInResponse` | pg-wired/src/async_conn.rs:1394-1420 | The same for COPY IN |
| `ReaderTask.Reader.CollectCopyOut` | pg-wired/src/async_conn.rs:1423-1455 | The same for COPY OUT, with the data chunks as rows |
| `ReaderTask.Reader.StreamRows` | pg-wired/src/async_conn.rs:1311-1390 | The same for streaming, whenever the receiver goes away |
| `ReaderTask.Reader.CollectDrain` | pg-wired/src/async_conn.rs:1184-1188 | The same for a request whose reply is only drained |
| `ReaderTask.Reader.Collect` | pg-wired/src/async_conn.rs:1172-1208 | Whichever collector a request asked for, exactly its own reply is consumed, and reported, or reported lost |
| `AsyncConn.Connection.TrySend` | pg-wired/src/async_conn.rs:235-246 | A request joins the channel unless that is full or its receiver is gone; a step of the machine |
| `AsyncConn.Connection.RollbackOnDrop` | resolute/src/pooled.rs:383-406 | Dropping an unfinished transaction on a live connection queues exactly one ROLLBACK, or marks the connection broken if there is no room; otherwise nothing changes |
| `AsyncConn.Connection.DrainPendingOnExit` | pg-wired/src/async_conn.rs:1138-1143 | On exit every pending caller is told that the connection is closed |
| `AsyncConn.Connection.WriterRound` | pg-wired/src/async_conn.rs:1072-1133 | One round writes the whole channel as one buffer and only then makes its requests pending, in channel order; a failed write answers each of them and everything pending; either way a run of the machine |
| `AsyncConn.Connection.ReaderRound` | pg-wired/src/async_conn.rs:1159-1212 | One round answers the oldest pending request from the next reply, or with its loss, and leaves the stream at the reply after it; a run of the machine |
| `AsyncConn.Connection.SlotHoldsOwnReply` | pg-wired/src/async_conn.rs:1064-1213 | Whatever methods have been called in whatever order, a response delivered into the i-th slot reports the i-th reply of the server, to the i-th request that got into the channel |
| `AsyncConn.Connection.SlotReportsLoss` | pg-wired/src/async_conn.rs:1064-1234 | A slot that is answered because the connection was lost says so, after a part of its own reply |
| `ConnectionRuns.WriteRuns` | pg-wired/src/async_conn.rs:1072-1133 | Taking the whole channel, one write, and the append to the pending queue are a run of the machine |
| `ConnectionRuns.BreakRuns` | pg-wired/src/async_conn.rs:1103-1122 | So is the round whose write fails after any number of messages |
| `ConnectionRuns.ReadRuns` | pg-wired/src/async_conn.rs:1159-1212 | So is reading one reply to its end, or to the end of the stream, however much of it was buffered, with the answer the collector's function gives |
| `Pool.ApplyInv` | pg-pool/src/pool.rs:354-641 | Every atomic step of checkout, return, hand-over, replacement, maintenance, drain and take keeps the accounts, the capacity and the queues right |
| `Pool.NeverOverCapacity` | pg-pool/src/pool.rs:479-493 | In every interleaving, connections not yet given to destroy accounting plus reservations within the limit stay within the maximum; the counter itself exceeds it by just the increments about to be undone and never goes below zero |
| `Pool.AccountingIsExact` | pg-pool/src/pool.rs:354-493 | In every reachable state `total_created` and `total_count` equal the sums over where connections and reservations are, and `in_use_count` the connections in use |
| `Pool.OneOwner` | pg-pool/src/pool.rs:550-567 | A connection sent to a waiter is nowhere else, and a waiter is sent at most one |
| `Pool.GaugeIsExact` | pg-pool/src/pool.rs:388-432 | In every reachable state the waiter gauge is the number of calls in their wait less the waiters drains have dropped; right if and only if none was dropped, wrapped if and only if more were dropped than wait; every call that can still be sent a connection is counted |
| `Pool.GaugeWraps` | pg-pool/src/pool.rs:714-719 | A run of four steps from an empty pool to a gauge of -1 |
| `Pool.DrainedIsEmpty` | pg-pool/src/pool.rs:721-727 | What a drain waits for, a total of zero, holds if and only if no reservation is left and every connection ever made is destroyed, due to be, or taken out |
| `Pool.StillWaitingExactly` | pg-pool/src/pool.rs:423-432 | The clean-up after a timeout removes exactly the closed waiters and keeps the others in order |
| `ConnPool.ConnPool.constructor` | pg-pool/src/pool.rs:310-351 | A new pool, with however many of the pre-fill attempts succeeded, is a start state of the machine |
| `ConnPool.ConnPool.DestroyConnStats` | pg-pool/src/pool.rs:638-641 | Exactly the two counter steps, on a connection due to be destroyed |
| `ConnPool.ConnPool.TryGetIdle` | pg-pool/src/pool.rs:436-456 | Returns the first idle connection that has not expired and, if that is tested, is healthy; destroys exactly those in front of it; finds nothing only if there is none |
| `ConnPool.ConnPool.CreateAndTrack` | pg-pool/src/pool.rs:479-493 | Succeeds exactly when the pool had room and the server agreed; a failure leaves no trace |
| `ConnPool.ConnPool.Get` | pg-pool/src/pool.rs:354-399 | Refused when draining; else the first usable idle connection, else a new one if there is room, else the last place in the queue; with every counter, the checkouts and the waiter gauge included |
| `ConnPool.ConnPool.ReceiveDelivered` | pg-pool/src/pool.rs:408-419 | A connection found in a waiter's channel becomes checked out, and the in-use count, the checkouts and the waiter gauge follow |
| `ConnPool.ConnPool.TimeOut` | pg-pool/src/pool.rs:421-432 | A timed-out waiter closes its channel, losing what was in it, is counted, leaves the gauge, and exactly the closed waiters leave the queue |
| `ConnPool.ConnPool.FindClosed` | pg-pool/src/pool.rs:420 | A waiter whose channel was closed without a connection in it fails, and lowers the gauge once more; nothing else changes |
| `ConnPool.ConnPool.HandOver` | pg-pool/src/pool.rs:550-574 | The first waiter still listening gets the connection and those passed over leave the queue; without one it is parked at the back |
| `ConnPool.ConnPool.EvictExpired` | pg-pool/src/pool.rs:837-849 | Exactly the expired idle connections are removed, the others keep their order, and the counters drop by as many |
| `ConnPool.UnexpiredExactly` | pg-pool/src/pool.rs:837-849 | Exactly the expired entries go, the others keep their order and number |
| `ConnPool.ConnPool.TopUp` | pg-pool/src/pool.rs:851-873 | Maintenance adds connections until `min_idle` is reached, the pool is full or the server refuses, never more |
| `ConnPool.ConnPool.Drain` | pg-pool/src/pool.rs:691-719 | Draining empties the idle queue and the waiter queue, takes the dropped waiters off the gauge, and accounts for every connection destroyed |
| `ConnPool.ConnPool.DrainComplete` | pg-pool/src/pool.rs:721-727 | The test that ends the drain's wait succeeds if and only if no reservation is left and every connection has left the pool |
| `ConnPool.ConnPool.TryProvisionForWaiter` | pg-pool/src/pool.rs:594-636 | A replacement is made exactly when the pool is not draining, somebody waits, there is room and the server agrees; it is handed over like a returned connection |
| `ConnPool.ConnPool.ReturnConn` | pg-pool/src/pool.rs:501-578 | A returned connection is handed over or parked if healthy, reset and not draining; otherwise destroyed and, unless because of draining, replaced for a waiter; all counters included |
| `ConnPool.ConnPool.Take` | pg-pool/src/pool.rs:778-786 | A taken connection leaves both counters and the pool |
| `ConnPool.StepsInv` | pg-pool/src/pool.rs:354-641 | Runs of the machine keep its invariant, so everything proved about runs holds of these methods |
| `SessionHygiene.HappenInv` | pg-wired/src/async_conn.rs:223-320 | Every client, server, reader, writer and flag event keeps the connection's part of the invariant, wherever the pool has it; reading and writing side may end in either order |
| `SessionHygiene.FirstRequestFindsNoTransaction` | resolute/src/pooled.rs:383-406 | In every run of pool and sessions, when the server reaches the first request of a new holder no transaction is open, although guards were dropped unfinished, the rollback could not be queued, or the writer has exited since |
| `SessionHygiene.HandedOverClean` | pg-pool/src/async_wire.rs:51-103 | A connection that is idle, in a waiter's channel or about to be handed out is not broken, has no unfinished transaction, and what is still queued on it leaves none open |
| `SessionHygiene.DiscardNeedsTheRollback` | pg-pool/src/async_wire.rs:84-97 | From any transaction state and whatever fails on the way, a queue followed by DISCARD ALL leaves a clean session if and only if the queue ends every transaction, else an aborted one |
| `SessionData.WorkIsKeptOrGone` | resolute/src/pooled.rs:371-406 | Behind a queue that leaves no transaction open, and however far the server gets before the connection is gone: the committed database has the whole work of a transaction if COMMIT was queued and reached, and neither it nor a statement failed; after a rollback, a drop, a failure or a loss it has nothing of it |
| `SessionData.EventsQueue` | resolute/src/pooled.rs:371-406 | Beginning, querying and ending a transaction queues exactly BEGIN, its statements, and COMMIT for a commit, ROLLBACK for a rollback or a drop |
| `SessionData.ExecuteProcesses` | pg-pool/src/async_wire.rs:77-103 | With data or without, the transaction states are the same |
| `PooledSession.Wire.SimpleQuery` | resolute/src/pooled.rs:159-162 | The session counts as changed before anything is sent; a dead writer accepts nothing |
| `PooledSession.Wire.EnqueueRollback` | pg-wired/src/async_conn.rs:223-246 | Queues a ROLLBACK and says so, or changes nothing |
| `PooledSession.Wire.Reset` | pg-pool/src/async_wire.rs:77-103 | Fast path only on an unchanged session; otherwise success means that everything queued was answered, the statement cache is empty and no transaction is open, and failure keeps the cache |
| `PooledSession.Transaction.Finish` | resolute/src/pooled.rs:371-380 | Commit queues exactly COMMIT, rollback exactly ROLLBACK, once, and the handle is finished |
| `PooledSession.Transaction.Drop` | resolute/src/pooled.rs:383-405 | Nothing for a finished handle or a dead connection; otherwise exactly one ROLLBACK is queued, or the connection is broken |
| `PooledSession.Begin` | resolute/src/pooled.rs:271-295 | A handle exists exactly when BEGIN was sent and answered |
| `PooledSession.Use` | resolute/src/pooled.rs:271-406 | A transaction from BEGIN to its end queues BEGIN, its statements and its ending, and nothing else changes but the flags |
| `PooledSession.UseAndReturn` | resolute/src/pooled.rs:383-406 | From begin to return: a connection is reused only with no transaction open, nothing queued and an empty cache; a rollback that could not be queued always costs the connection, one that could be queued never does; and the committed database has the transaction's work, as a whole, exactly if it was committed, reached and accepted |
| `Savepoints.NamesDistinct` | resolute/src/executor.rs:501-502 | Different counter values give different savepoint names |
| `Savepoints.FindsOwnSavepoint` | resolute/src/executor.rs:509-517 | When a block ends, its name still means its own savepoint with the entry state, whatever inner blocks left on the stack |
| `Savepoints.BlockRefines` | resolute/src/executor.rs:500-524 | One block has exactly the meaning of an all-or-nothing block, and leaves the older savepoints alone |
| `Savepoints.ExecRefines` | resolute/src/executor.rs:314-343 | Bodies with blocks nested to any depth do what their savepoint-free meaning says, in success, error, aborted transaction and connection loss |
| `Savepoints.BlockIsAllOrNothing` | resolute/src/executor.rs:506-523 | An Err block restores its entry state, an Ok block keeps exactly what its body did |
| `Savepoints.TransactionStaysUsable` | resolute/src/executor.rs:500-524 | If the body lets no statement error pass a block boundary, a live transaction is live after the block |
| `Savepoints.AbortedExactlyWhenSwallowed` | resolute/src/executor.rs:506-512 | A block leaves a live transaction aborted if and only if its body returned Ok from an aborted one |
| `Savepoints.SwallowedErrorIsReportedAsSuccess` | resolute/src/executor.rs:507-512 | Such a body exists, and its block reports Ok |
| `Savepoints.Handle.Atomic` | resolute/src/executor.rs:494-525 | The method as written, against the all-or-nothing meaning |
| `Transactions.TransactionOutcome` | resolute/src/pooled.rs:271-406 | A transaction on a pooled handle, its body nested to any depth, comes to exactly what the savepoint-free meaning of its body says, for every fate of COMMIT: accepted, refused, lost before or after it ran |
| `Transactions.TransactionIsAtomic` | resolute/src/pooled.rs:371-406 | All or nothing, for every body: Err leaves the database unchanged unless COMMIT took effect and only its answer was lost; Ok means the body's effects if and only if COMMIT was not refused, as that of an aborted transaction is |
| `Transactions.LostAnswerIsErr` | resolute/src/pooled.rs:371-374 | A run that ends in Err with the database changed |
| `Transactions.RefusedCommitIsOk` | resolute/src/query.rs:758-764 | A run that ends in Ok with the database unchanged, since a refusal is drained unseen |
| `Transactions.SwallowedErrorIsOk` | resolute/src/query.rs:758-764 | A body that ignores a failed statement ends in Ok with nothing of its work kept |
| `Transactions.WithTransactionOutcome` | resolute/src/executor.rs:551-571 | For bodies without nested blocks, `with_transaction` on a plain client comes to the same in every fate |
| `Transactions.NestedBlockEscapes` | resolute/src/executor.rs:257-279 | With a nested block it does not: the inner COMMIT ends the outer transaction, whose Err then leaves behind the block's change and that of a later statement |
| `StatementCache.CounterOfName` | pg-wired/src/async_conn.rs:423-426 | Parsing a generated name gives back the number it was made from |
| `StatementCache.PublishSize` | pg-wired/src/async_conn.rs:431-458 | Publishing never takes the cache over 256 entries |
| `StatementCache.PublishInserts` | pg-wired/src/async_conn.rs:431-458 | Publishing puts the statement in under its own name and number; no other entry changes, and only the victim may leave, from a cache of 256 |
| `StatementCache.PublishedIsFound` | pg-wired/src/async_conn.rs:381-459 | A lookup behind a publication is a hit with the cached name, allocates nothing and asks for no Parse |
| `StatementCache.Statements.LookupOrAlloc` | pg-wired/src/async_conn.rs:381-398 | A hit returns the cached name and allocates nothing; a miss allocates the next name and caches nothing |
| `StatementCache.Statements.FindOldest` | pg-wired/src/async_conn.rs:435-438 | The entry with the smallest allocation number |
| `StatementCache.Statements.CacheStatement` | pg-wired/src/async_conn.rs:419-459 | Afterwards the statement is cached; a new one under the given name and that name's number; first publisher wins; at 256 entries exactly the oldest goes and its Close is queued if there is room; nothing else changes |
| `StatementCache.Statements.InvalidateStatement` | pg-wired/src/async_conn.rs:559-565 | Removes this text and nothing else |
| `StatementCache.ApplyInv` | pg-wired/src/async_conn.rs:381-459 | Every lookup, publish, eviction, invalidation, clear, failed Parse, retry (also one whose second lookup finds a name another task published) and server-side loss keeps the invariant of cache, request queue and server |
| `StatementCache.CachedNamesAreOwn` | pg-wired/src/async_conn.rs:381-459 | In every reachable state each cached name was allocated for exactly its own text, distinct entries have distinct names, the cache has at most 256 entries, and the server knows a cached name only as that text |
| `StatementCache.RunsItsOwnText` | pg-wired/src/async_conn.rs:381-459 | Whatever a request runs on the server is the text the caller asked for |
| `StatementCache.UnknownOnlyAfterLoss` | pg-wired/src/async_conn.rs:559-575 | A statement is unknown to the server only if the request carried no Parse and its name had been closed, discarded, dropped, or its Parse had failed |
| `StaleRetry.RetryIsFreshAfterRaise` | pg-wired/src/async_conn.rs:652-663 | After a stale refusal the single retry does what a fresh Parse does in the state the refusal left |
| `StaleRetry.CachedAgreesExactly` | pg-wired/src/async_conn.rs:636-667 | Executing through the cache gives the reply and database of a fresh Parse if and only if not `Diverges`, a condition on the state before the call: open transaction, and the cached statement gone or the statement failing with one of the two codes itself; two requests at most, and when |
| `StaleRetry.AttemptIsStale` | pg-wired/src/async_conn.rs:567-575 | In an open transaction the first request is refused as stale if and only if the cached name is absent or stale on the server, or the text itself fails with one of the two codes |
| `StaleRetry.DroppedStatementShows` | pg-wired/src/async_conn.rs:652-663 | A state within the invariant in which a fresh Parse answers and the cached run gets 25P02 |
| `StaleRetry.OwnErrorIsHidden` | pg-wired/src/async_conn.rs:652-663 | A statement that itself fails with 0A000 in a transaction is reported as 25P02 |
| `StaleRetry.ExecuteKeepsInv` | resolute/src/query.rs:236-246 | Neither retrying form ever makes a cached name stand for another text |
| `StaleRetry.SecondRunSendsNoParse` | pg-wired/src/async_conn.rs:636-667 | What the cache is for: the statement just executed is cached, and executed again it sends no Parse, allocates no name, and does what a fresh Parse would do |
| `StaleRetry.SessionAgrees` | pg-wired/src/async_conn.rs:636-667 | Over a whole session, with statements dropped or invalidated and other sessions committing at any time, the database and the reply after every request are those of a client without a cache if and only if no request of it diverges |
| `StaleRetry.SessionAgreesWithoutBegin` | pg-wired/src/async_conn.rs:636-667 | They always are for every session that is not in a transaction and opens none, whatever the server drops or invalidates |
| `StaleRetry.SessionAgreesWhileKept` | pg-wired/src/async_conn.rs:636-667 | They are with transactions, if the server keeps its prepared statements and no statement raises one of the two codes itself; evictions and DISCARD ALL included |
| `StaleRetry.TransactionRetryIsFresh` | pg-wired/src/async_conn.rs:585-634 | `exec_transaction`, from any state and with any setup script: setup, a fresh Parse and COMMIT, begun again after a refusal where the refused try has left the database, without the work of any transaction open before; two tries at most, and when |
| `StaleRetry.TransactionAgrees` | pg-wired/src/async_conn.rs:576-584 | Outside a transaction, with a setup that commits nothing by itself, database and reply are always those of a fresh Parse, whatever the server dropped and whatever the statement raises |
| `StaleRetry.RetryUnnoticedExactly` | pg-wired/src/async_conn.rs:608-630 | For every setup and state: no statement can tell a retried transaction from an undisturbed one if and only if the setup, run again on what it has committed, comes to the same |
| `StaleRetry.SetupCommitsTwice` | pg-wired/src/async_conn.rs:608-630 | A setup that commits by itself is run twice by the retry |
| `NamedParams.TokenShape` | resolute/src/named_params.rs:27-173 | What a token is, without the lexer: comments, literals, identifiers, dollar bodies and casts reach exactly to their first terminator; nothing of the kind begins at a single character; a parameter is a maximal word behind a colon that begins with a letter or an underscore |
| `NamedParams.TokensSpellInput` | resolute/src/named_params.rs:27-173 | The tokens spell the input back, character for character |
| `NamedParams.CopyLineComment` | resolute/src/named_params.rs:29-35 | The loop copies exactly the comment |
| `NamedParams.CopyBlockComment` | resolute/src/named_params.rs:38-52 | The loop copies exactly the comment, and stops one character early when it is not closed |
| `NamedParams.CopyLiteral` | resolute/src/named_params.rs:55-73 | The loop copies exactly the literal, doubled quotes included |
| `NamedParams.CopyIdentifier` | resolute/src/named_params.rs:76-88 | The loop copies exactly the quoted identifier |
| `NamedParams.CopyDollarBody` | resolute/src/named_params.rs:98-129 | The loop copies up to and including the first matching tag, or to the end |
| `NamedParams.Allocate` | resolute/src/named_params.rs:157-164 | A name keeps its first index; a new one gets the next |
| `NamedParams.Advance` | resolute/src/named_params.rs:27-173 | One iteration emits one token's replacement and moves past it |
| `NamedParams.Rewrite` | resolute/src/named_params.rs:19-176 | The nested loops terminate on every input and refine the recursive lexer |
| `NamedParams.NamesAreFirstOccurrences` | resolute/src/named_params.rs:157-164 | The names are duplicate-free and in the order in which they first occur |
| `NamedParams.NothingIsLost` | resolute/src/named_params.rs:148-168 | Every emitted index is in range, and putting the names back for the emitted pieces restores the input exactly |
| `NamedParams.BindingsPreserved` | resolute/src/query.rs:1015-1029 | Evaluating the rewritten statement with the resolved vector equals evaluating the original under the name map, every name standing for its first binding; resolving fails exactly when some used name has no binding, with the first such name |
| `NamedParams.FindIsFirst` | resolute/src/executor.rs:204-218 | The search finds the value of the first binding of that very name, and nothing exactly if no binding has it |
| `NamedParams.ResolveAt` | resolute/src/executor.rs:204-218 | Resolving gives each name the value of its first binding, or fails with the first name that has none |
| `NamedParams.EvalNamedAt` | resolute/src/executor.rs:204-218 | What the original means under the name map, over indexes of the bindings: its text, each parameter with the value of the first binding of its name; the first unbound name is the error |
| `NamedParams.TextRestoresExactly` | resolute/src/named_params.rs:148-168 | Reading the output text back restores the input if and only if the input mentions no `$k` with k up to the number of names |
| `ServerReading.TextReadsAsBound` | resolute/src/named_params.rs:148-168 | For every text: the server's lexer, given the emitted text and the resolved vector, reads exactly the original with its names bound, if and only if that lexer, run over the original, meets no misreading |
| `ServerReading.GluedParameterIsLost` | resolute/src/named_params.rs:148-168 | Of `f:a` the server reads one identifier and no parameter |
| `ServerReading.DigitParameterIsRead` | resolute/src/named_params.rs:148-168 | A digit begins no identifier: in `1:a` the parameter is read |
| `Numeric.Decode` | resolute/src/decode.rs:121-208 | For every input: short input is refused in the two ways the code distinguishes, negative counts and scales end as their wrapped sizes make them, any other text is that of sign, integer and fraction groups, and for digits below 10000 the text whose value is stated below |
| `Numeric.FieldsOfSent` | resolute/src/decode.rs:126-143 | The fields are read from where the server puts them: count, weight, sign, scale, and then the digits |
| `Numeric.RawIsText` | resolute/src/decode.rs:166-204 | Signed 16-bit digits and valid ones are rendered alike when all are in range |
| `Numeric.PushInteger` | resolute/src/decode.rs:166-178 | The loop writes the integer groups, missing ones as zeros, for any 16-bit digits |
| `Numeric.PushFraction` | resolute/src/decode.rs:181-204 | The loops write exactly `dscale` characters of the fractional groups, for any 16-bit digits |
| `Numeric.WrapIsHarmless` | resolute/src/decode.rs:188-202 | Wrapping of the 16-bit index never selects a wrong digit |
| `Numeric.DecodedTextIsTheNumber` | resolute/src/decode.rs:121-208 | The text reads back as sign and sum of digit times 10000^(weight - i), truncated to `dscale` places, for every weight below the limit and every scale |
| `Numeric.RightExactlyBelowTheLimit` | resolute/src/decode.rs:166-168 | For all weights: right if and only if the weight is below 32767 or all digits are zero |
| `NumericSyntax.TryFrom` | resolute/src/newtypes.rs:45-97 | Accepts exactly the trimmed text that is a literal of the documented grammar, and keeps it |
| `NumericSyntax.TrimExactly` | resolute/src/newtypes.rs:46 | Trimming removes white space at both ends, all of it and nothing else |
| `NumericSyntax.Scan` | resolute/src/newtypes.rs:54-95 | The scanning loops decide the scanner function |
| `NumericSyntax.ScansIsLiteral` | resolute/src/newtypes.rs:54-95 | What the greedy scan accepts is a literal |
| `NumericSyntax.LiteralScans` | resolute/src/newtypes.rs:54-95 | Every literal is accepted by the greedy scan |
| `NumericSyntax.DecodedTextIsAccepted` | resolute/src/newtypes.rs:45-97 | Everything the decoder produces is accepted unchanged |
| `Calendar.CivilIsCalendar` | resolute/src/migrate.rs:115-126 | The closed formula gives, for every day count, the date reached by counting day by day with the Gregorian leap rule |
| `Calendar.VersionValue` | resolute/src/migrate.rs:104-129 | Up to year 9999 the version has 14 digits and is the number made of date and time of day |
| `Calendar.LaterIsLarger` | resolute/src/migrate.rs:104-129 | A later second has a strictly larger version |
| `Migrations.NextInv` | resolute/src/migrate.rs:142-297 | Every step of runners, server, crashes and lost sessions keeps the invariant |
| `Migrations.TableMatchesHistory` | resolute/src/migrate.rs:162-201 | In every state the tracking table is what the committed scripts make it, and no script commits twice without a revert between |
| `Migrations.CommitsAPrefix` | resolute/src/migrate.rs:162-201 | Whatever becomes of a call, it committed an ascending prefix of its plan, and all of it if it reports success; the plan of a run is every script that was not in the table, that of a revert the largest version of the table |
| `Migrations.OneTransactionAtATime` | resolute/src/migrate.rs:203-219 | At most one live session is inside a migration transaction, and it holds the advisory lock |
| `MigrationRunner.Database.Apply` | resolute/src/migrate.rs:180-196 | Script and row commit together or not at all; without refusals exactly if the version was not applied yet |
| `MigrationRunner.Database.RunPending` | resolute/src/migrate.rs:169-200 | The loop applies a prefix of the pending list, all of it on success |
| `MigrationRunner.Database.RunInner` | resolute/src/migrate.rs:162-201 | Table and history grow by exactly the prefix that was applied, failure included; success means that every script of the directory has been run; without refusals and unreadable files there is no failure |
| `MigrationRunner.Database.RevertInner` | resolute/src/migrate.rs:238-297 | Reverts the largest applied version or nothing; an error changes nothing, and without refusals occurs exactly if that version's scripts are missing |
| `MigrationRunner.SortIsCorrect` | resolute/src/migrate.rs:398 | The sort by version permutes and orders |
| `MigrationRunner.ScriptsCount` | resolute/src/migrate.rs:376-397 | Every script is collected as often as it is listed, and nothing else is |
| `MigrationRunner.ParsesAs` | resolute/src/migrate.rs:377-396 | A file of digits, an underscore, any name and `.up.sql` is the script of that version and name, with the down file beside it |
| `MigrationRunner.CollectScripts` | resolute/src/migrate.rs:376-397 | The first entry that cannot be listed, or up script without a numeric prefix, is the scan's error; otherwise all up scripts with version, name and down file; other files are ignored |
| `MigrationRunner.ScanMigrations` | resolute/src/migrate.rs:371-400 | Empty without a directory, an error if it cannot be read, else the first such error or all scripts, each once, in ascending order |
| `MigrationRunner.CreatedIsScanned` | resolute/src/migrate.rs:83-92 | A created pair is found by the scan with the version of its timestamp and its own down file, and with its name if and only if that has no dot |
| `MigrationRunner.OrderedByCreation` | resolute/src/migrate.rs:371-400 | Scripts created at different seconds sort in the order of their creation |
| `Frontend.SumParams` | pg-wired/src/protocol/frontend.rs:41-47 | The precomputed size is the number of bytes the parameters take |
| `Frontend.EncodeParse` | pg-wired/src/protocol/frontend.rs:16-32 | Appends tag, exact length and body of Parse |
| `Frontend.EncodeBind` | pg-wired/src/protocol/frontend.rs:33-86 | Appends tag, exact length and body of Bind |
| `Frontend.EncodeSasl` | pg-wired/src/protocol/frontend.rs:126-134 | Appends tag, exact length and body of SASLInitialResponse |
| `Frontend.EncodeMessage` | pg-wired/src/protocol/frontend.rs:14-163 | For every message, the length computed ahead is that of the bytes written after it |
| `Frontend.EncodeMessages` | pg-wired/src/protocol/frontend.rs:7-11 | A batch is appended to one buffer in order |
| `Frontend.MessageRound` | pg-wired/src/protocol/frontend.rs:14-163 | A decoder for section 55.7 of the PostgreSQL 16 documentation gets the message back and consumes exactly its bytes, whatever follows |
| `Frontend.BatchRoundTrip` | pg-wired/src/protocol/frontend.rs:7-163 | Every coalesced list of messages is split back into that list |
| `BinaryValues.EncodeParam` | resolute/src/encode.rs:21-28 | Writing the length into its slot afterwards gives the length-prefixed value |
| `BinaryValues.EncodeArray` | resolute/src/encode.rs:189-211 | Header and length-prefixed elements, in order; `ServerBinary.ServerReceives` says what the header is to the server |
| `BinaryValues.EncodeSpan` | resolute/src/range.rs:84-118 | Flag byte, then the finite bounds, each length-prefixed |
| `BinaryValues.EncodeRecord` | resolute-derive/src/pg_composite.rs:52-157 | Field count, then type, length and value per field, with NULL for an absent optional field |
| `BinaryValues.DecodeArray` | resolute/src/decode.rs:278-344 | The loop with its moving offset against the recursive decoder, every error included |
| `BinaryValues.DecodeRecord` | resolute-derive/src/pg_composite.rs:76-172 | The generated field-by-field decoder against the recursive decoder, every error included |
| `BinaryValues.FlagsRound` | resolute/src/range.rs:79-197 | The four flag bits are independent and read back as written |
| `BinaryValues.ValueRound` | resolute/src/decode.rs:278-344 | At any depth of arrays, ranges and composites, decoding inverts encoding, absent bounds and optional fields included |
| `BinaryValues.ParamRound` | resolute/src/encode.rs:21-28 | The same through the back-patched length prefix, with anything behind it |
| `ServerBinary.ServerReceives` | resolute/src/encode.rs:184-211 | The server's own readers get exactly the value at any depth of nesting, checking what the client's decoder skips: dimensions, null flag, element and field types, lower bound, and that nothing is left over |
| `Bytes.NetworkOrder` | resolute/src/encode.rs:1-4 | Numbers are read with the first byte weighing most |
| `DataRow.ReadInline` | pg-wired/src/protocol/backend.rs:175-185 | The loop over the inline table reads exactly the entries or fails as they do |
| `DataRow.ReadHeap` | pg-wired/src/protocol/backend.rs:187-193 | The loop over the heap table does the same |
| `DataRow.ParseDataRow` | pg-wired/src/protocol/backend.rs:164-194 | Both table forms hold the same entries, every one inside the body and within 32 bits |
| `DataRow.RowRoundTrip` | pg-wired/src/protocol/types.rs:238-267 | A row the server sent is read back cell by cell through either table; `try_cell` tells NULL from out of range, `cell` does not |
| `DataRow.AcceptsExactlyRows` | pg-wired/src/protocol/backend.rs:164-228 | The parser accepts exactly the bodies that begin with some row's bytes |
| `Columnar.PushNull` | pg-wired-js/src/lib.rs:160-162 | Setting one bit leaves all others |
| `Columnar.RowsToColumnar` | pg-wired-js/src/lib.rs:135-172 | The loops produce the concatenated cells, their start offsets with a terminator, and one bit per cell |
| `Columnar.OffsetsMonotone` | pg-wired-js/src/lib.rs:149-168 | The offsets never decrease and stay inside the data |
| `Columnar.CellRoundTrip` | pg-wired-js/src-ts/index.ts:218-226 | The accessor gives back exactly the original cell, NULL distinct from empty |
| `Columnar.RightExactly` | pg-wired-js/src-ts/index.ts:220-221 | For every index below 2^32: right if and only if the index is below 2^31 or the cell is not NULL |
| `BatchExecute.Partition` | pg-wired-js/src/lib.rs:924-940 | Exactly the first uses of texts not yet known run serially, and every query is in one of the two lists, once |
| `BatchExecute.Batch.RunAll` | pg-wired-js/src/lib.rs:942-983 | Whatever the queries and their tasks come to: results land in their own slots, the first failure in order is reported, and a text becomes known only when its query succeeded |
| `BatchExecute.Batch.Execute` | pg-wired-js/src/lib.rs:915-989 | Results in push order if and only if all succeeded, else the error of the first query to fail, the serial ones coming first; queries run in parallel only with texts already known |

## Left out

Assumptions the models make about their surroundings:

- In `Multiplexer` replies have known tags and bodies their parsers accept; after any other body the reader gives up in the middle of a reply, and an unknown tag is skipped (`pg-wired/src/protocol/backend.rs:76-83`). `Framing` covers both.
- Of message bodies other than DataRow only whether they are accepted is modelled (`Bodies`), and of ReadyForQuery the status; the field values of RowDescription, errors and authentication are not.
- COPY FROM STDIN is started only through `copy_in` and `copy_in_stream`.
- Transactions on pooled clients are opened only through `begin` and `begin_with`, their handles are not leaked, and the futures of begin, commit, rollback and `atomic` run to completion; in particular the five-minute request timeout does not strike BEGIN.
- Migration scripts contain no transaction control, the directory does not change during a run, and versions are unique.
- `warm_up` is not called (it pushes connections before counting them), and `min_idle` is at most `max_size`.

Weaker than the code, or narrower:

- StaleRetry.SessionAgrees: its condition speaks of each state of the cached run, since what the cache holds by then depends on every drop and eviction before; `StaleRetry.SessionAgreesWithoutBegin` and `StaleRetry.SessionAgreesWhileKept` have conditions on the session alone. Statements are functions on values rather than methods on a class, because the comparison is between two whole executions; cache updates in place are in `StatementCache.Statements`. The server executes a valid prepared statement as it executes its text, and the client runs one request at a time. Another session's commit changes the committed database and what an open transaction sees in any way, but does not depend on that transaction.
- StaleRetry.TransactionRetryIsFresh: nothing is lost on the way and COMMIT of a live transaction is accepted; for lost and refused ones see `Transactions`.
- StatementCache.RunsItsOwnText: parameter types are not modelled, since the cache is keyed by text alone; statements the user's own SQL prepares under a name of the form `s` plus a number are excluded, and the 64-bit counter does not wrap.
- Savepoints.ExecRefines: raw SQL with transaction control, savepoints defined by user SQL, and several `atomic` blocks running at once on one transaction are excluded; the 64-bit counter does not wrap. What the server keeps of a lost connection's open transaction is nothing; the loss of COMMIT itself is in `Transactions`.
- Transactions.WithTransactionOutcome: for bodies without nested blocks; with them `with_transaction` and `atomic` on a plain client send BEGIN inside BEGIN, and `Transactions.NestedBlockEscapes` shows that the statement then fails. BEGIN itself is answered or lost, never refused.
- Numeric.Decode: sixteen-bit and size arithmetic wraps, as in a release build, where a debug build panics; a panic or an allocation no machine can satisfy is the outcome `Aborts`. The code knows no NaN or infinity and renders their sign words as those of a number, and so does the model.
- NamedParams.TextRestoresExactly: the character classes are a parameter standing for Unicode's, of which only this is used: `$` and `:` are no word characters and ASCII digits are.
- ServerReading.TextReadsAsBound: the server's lexer is modelled with the rewriter's notion of comments and literals; PostgreSQL's nested comments and escape strings are known to neither. A `$1` of the caller's own counts as misread, since the server takes it for a parameter. The character classes also have letters among word characters and no quote, dash or slash among them.
- Calendar.LaterIsLarger: up to year 9999, after which versions have more digits.
- MigrationRunner.CreatedIsScanned: names with path separators are excluded. File names that are not UTF-8 count as files of another kind, and what writing or reading a file may fail with is a parameter or left out.
- MigrationRunner.Database.RunInner: one run with nothing lost; that it cannot fail without refusals is for distinct versions; crashes, lost sessions and lost answers to COMMIT are in `Migrations`.
- BinaryValues.ValueRound: leaf values are integers of a fixed width, booleans, and byte strings; floats are their bit patterns, text is its bytes, UTF-8 validity is not checked. Encoded values are shorter than 2^31 bytes. Numeric and inet values are sent as text and have no binary round trip. Sizes are 64 bits wide; an overflowing sum of offset and length, where a debug build panics at the sum and a release build at the slice, is the error `Panics`, and so is the capacity of a negative element count.
- ServerBinary.ServerReceives: object identifiers are below 2^32. The server is taken to accept only what stands for one of the model's values, so arrays with NULLs or another lower bound are refused although a real server knows them; it also canonicalizes ranges, which is not modelled.
- Frontend.BatchRoundTrip: no NUL inside C strings, counts below 2^15, lengths below 2^31, as the protocol requires; the two SASL messages share a tag, so the first of them must be the initial response.
- DataRow.ParseDataRow: bodies shorter than 2^31 bytes, which the frame size limit guarantees.
- Columnar.RowsToColumnar: rows all of the stated width and less than 2^32 bytes in total; the cells are ASCII, so JavaScript's string indexes are byte offsets. An index of 2^32 or more does not arise, because a JavaScript array holds fewer elements and each cell has one in `offsets`.
- BatchExecute.Batch.RunAll: what each query comes to is an arbitrary input, since it is sent at most once; a lost task is one of its failures. Parallel queries are taken in push order, the order in which their results are awaited.
- SessionData.WorkIsKeptOrGone: one session at a time; what other sessions commit meanwhile does not enter a transaction's work. A statement's effect is an arbitrary function of the database it sees.
- PooledSession.Wire.Reset: one reset at a time, without cancellation; interleavings are in `SessionHygiene`.
- AsyncConn.Connection.WriterRound: each round is one uninterrupted stretch of a run, for the reader with its reply already on the wire; interleavings are in `Multiplexer`. The flag that tells callers of a dead connection is cleared elsewhere, and dropping the reader task is not followed. To the machine a failed write sends whole messages.
- ConnPool.ConnPool.Drain: ends before the wait for the connections still out, since what ends that wait are calls of other tasks. The test in the wait's loop is `ConnPool.ConnPool.DrainComplete`; that the wait ends is not claimed.
- ConnPool.ConnPool.Get: each method is one uninterrupted run of the machine; interleavings and cancelled attempts are in `Pool`. Bulk updates of a counter are counted one by one.
- Pool.NeverOverCapacity: counts connections until destroy accounting, not open sockets; a broken connection is still held while its replacement is made.

Not modelled:

- Liveness: that a drain completes and that no waiter sleeps while a connection is idle.
- That an Ok of `simple_query`, of an inner `atomic` or of `rollback` means the server accepted the command: the drain collector hides errors. For COMMIT see `Transactions`.
- Sockets, TLS, timers, task scheduling, hooks, pool metrics read from outside, the command line, the JavaScript glue, and procedural-macro token handling.
- SCRAM, MD5 and certificate parsing.
- The pipeline's own statement cache (`pg-wired/src/pipeline.rs`), which publishes before Parse has succeeded.
- The retry and reconnect wrappers, `has_named_params`, and text-format decoding.
- Drift validation, status and seeding of migrations.
