# SQL plugin: a verified model

A Dafny model of the SQL backend plugin of an MCP gateway, and proofs about it. It covers
the two change watches, the `pgoutput` decoder, keyset streams, placeholder rewriting,
statement scanning, transaction groups, the circuit breaker, the pool registry and the
interval printer. Verify the whole of it with `dafny verify dfyconfig.toml`.

Code that changes things in place is modelled in place: `PostgresCdc`, `Reader`, `Watch`,
`TxHandle`, `CircuitBreaker` and `PoolRegistry` are classes whose methods are proved
against functions of the old state, and loops stay loops. What the program promises is then
proved of those functions, for every input or over every run.

| file | what it models |
|---|---|
| `WatchPgCdc.dfy`, `WatchPgCdcPeek.dfy` | `postgres_cdc`: progress, peeks, acknowledgements, settling |
| `WatchPgCdcRuns.dfy`, `WatchPgCdcTheorems.dfy` | the same as a state machine, and what every run keeps |
| `WatchPgCdcReach.dfy`, `WatchPgCdcDelivery.dfy`, `WatchPgCdcOrder.dfy` | which changes can still come, which were handed out, and in what order |
| `WatchPgCdcProgress.dfy`, `WatchPgCdcCycles.dfy` | how the slot gets on |
| `WatchPgCdcStalls.dfy` | runs that stall, and one that loses a change |
| `PgOutput.dfy`, `PgOutputFormat.dfy`, `PgOutputReader.dfy`, `PgOutputBytes.dfy`, `LsnText.dfy` | the `pgoutput` messages, their decoder, their bytes, LSN text |
| `Keyset.dfy`, `WatchChanges.dfy`, `WatchChangesRuns.dfy` | keyset tables, `sql_changes` and its runs |
| `Stream.dfy` | `row_mode: stream` cursors |
| `Params.dfy`, `ParamsText.dfy`, `StatementScan.dfy`, `StatementComments.dfy` | placeholders, single statements, comments |
| `Transaction.dfy`, `Breaker.dfy`, `Pool.dfy`, `Interval.dfy` | one component each |
| `Wrappers.dfy`, `Sequences.dfy`, `Decimal.dfy` | shared helpers |

## What is assumed

- The slot is an ever growing list of transactions in commit order. End LSNs grow, a
  change lies before the end of its own transaction, no two transactions share an LSN, and
  a transaction peeked again has the same changes. LSNs of different transactions may
  interleave, and changes of one transaction may share one. That is all the results about
  LSNs and acknowledgements need. That every *change* the slot passes was handed out holds
  exactly when no two changes of a transaction share an LSN (`NothingPassedUndelivered`),
  if the gateway acknowledges only receipts it was given (`Honest`). Only the progress
  results also assume that a change does not lie before the end of an earlier transaction
  (`Ordered`) and, for a delivery to come of it, that a TRUNCATE names a table
  (`HasEvents`). That the slot catches up is a matter of the gateway and the server too: it is
  proved where every peek reads a transaction if one is left and may hand out an event, the
  gateway acknowledges all in flight before the next receive (`Fair`), and advances are taken.
- A poll or a stream page asks an ordered table for the first rows after a key. New rows of
  a polled table come after all others.
- JSON, base64 and the HMAC of a cursor are any functions; the first two invert their
  encoders and base64 text has no dot (`CodecOk`).
- The database of a transaction group is any type, and a statement any function on it.
- Times are numbers passed in. Each call of the breaker and the registry is one step.

## Where the code differs from what it says

- A peek is to give at most `max` deliveries. A TRUNCATE of several tables is never split,
  so it can give more (`TruncateOverfills`; exactly when: `WithinMax`).
- Changes are known by their LSN alone. Of two changes of a transaction that share one, the
  second is never handed out, in any run (`SecondIsNeverHandedOut`), and the slot passes it
  all the same (`SharedLsnRun`).
- A change is said to lie after the end of every earlier transaction. Where transactions
  overlap it need not, and once the earlier transaction is consumed it comes no more in
  that session (`OverlapStalls`). Exactly when a change still comes: its transaction is past
  the slot and the change not before what is consumed (`ComesAgainExactly`); after a
  reconnect, only the first (`ReconnectReaches`). Meanwhile the slot passes no LSN that is
  not acknowledged (`NeverPassesUnacknowledged`).
- A failed advance is retried after a reconnect, when its transactions are tracked anew.
  The tracked transactions are then no longer a prefix of the unconfirmed ones
  (`GapOpensExactly`), and a released change of them comes no more either
  (`RetriedAdvanceStalls`).
- A peek that fails at a relation not described keeps in flight what it had handed out up to
  there, though its deliveries are dropped. Those changes are not handed out in that session
  (`LostInFlight`); a reconnect brings them back (`ReconnectReaches`).
- The single-statement scan does not know comments, which the same file skips in front of a
  keyword. It agrees with a reading that skips them on texts whose comments hold no quote and
  no semicolon, but for a comment after the semicolon (`AgreesOnPlainComments`). An apostrophe
  in a comment hides what follows (`ApostropheHides`, `TwoStatementsPass`), and a semicolon in
  one ends the statement (`SemicolonInComment`).
- The placeholder rewriter pushes bytes as characters, so text that is not ASCII comes out
  changed (`NamesPutBack`, `AccentIsDoubled`).
- `settle_ms` is cut to whole seconds, so a row can be read up to a second early
  (`SettleIsCutToSeconds`, `SettleReadsEarly`).
- A watch with `start: latest` whose host stored nothing starts over at the newest row
  after a restart and gives up the rows before it, or at `initial` if that row lacks its key
  (`RestartGivesUp`, `RowIsGivenUp`).
- `max_rows: 0` is accepted and ends a stream before its first row
  (`FollowingVisitsEveryRow`, `ZeroRowsEndTheStream`).

## Model

| member | source | states |
|---|---|---|
| `WatchPgCdc.PostgresCdc.Advance` | src/watch_pg_cdc.rs:138-153 | drops exactly the leading transactions with no unsettled one at or before them, with all their bookkeeping, returns the last of them, and ends |
| `WatchPgCdc.PostgresCdc.Forget` | src/watch_pg_cdc.rs:144-147 | the changes of a dropped transaction leave `owner` and `delivered`, and nothing else does |
| `WatchPgCdc.PostgresCdc.Connect` | src/watch_pg_cdc.rs:504-506 | a new session forgets its progress and keeps the position still to advance to |
| `WatchPgCdc.PostgresCdc.CountNew` | src/watch_pg_cdc.rs:344-359 | counts the changes neither consumed nor in flight |
| `WatchPgCdc.PostgresCdc.Read` | src/watch_pg_cdc.rs:255-278 | growing the limit ends, with `max` new changes, the end of the output or the largest limit |
| `WatchPgCdc.PostgresCdc.Commit` | src/watch_pg_cdc.rs:295-307 | a Commit makes its transaction own its changes and keeps earlier acks, unless it is consumed |
| `WatchPgCdc.PostgresCdc.Apply` | src/watch_pg_cdc.rs:279-340 | the row loop is the fold over the rows; it fails only at a change of an undescribed relation, with exactly the rows before it applied |
| `WatchPgCdc.PostgresCdc.Ack` | src/watch_pg_cdc.rs:538-549 | an ack is recorded with the transaction that owns the change, and with no other |
| `WatchPgCdc.PostgresCdc.Release` | src/watch_pg_cdc.rs:552-561 | a released change is no longer in flight |
| `WatchPgCdc.PostgresCdc.Settle` | src/watch_pg_cdc.rs:364-392 | asks for the later of its own position and the one left over, and keeps it exactly if the advance fails |
| `WatchPgCdc.ChangeEvents` | src/watch_pg_cdc.rs:396-484 | succeeds exactly when every table of the change is described, with one event, or one per table of a TRUNCATE, each of the change's own kind, LSN and table |
| `WatchPgCdc.DeliveriesReport` | src/watch_pg_cdc.rs:326-337 | the deliveries of a change report its events in order: insert, update or delete as the message is, a TRUNCATE with its options, the table, the LSN, and the receipt with the last |
| `WatchPgCdc.Deliver` | src/watch_pg_cdc.rs:326-337 | only the last event of a change carries its receipt |
| `WatchPgCdc.DropFirst` | src/watch_pg_cdc.rs:139-151 | dropping the first transaction, if settled, is one more of the leading ones |
| `WatchPgCdc.DropsAll` | src/watch_pg_cdc.rs:139-153 | the loop ends with exactly the leading transactions dropped |
| `WatchPgCdcPeek.PeekRefines` | src/watch_pg_cdc.rs:283-340 | the row loop with its open transaction is a fold over whole transactions |
| `WatchPgCdcPeek.PeekFills` | src/watch_pg_cdc.rs:313-340 | afterwards every unconsumed change read is in flight or `max` deliveries are out, and a fresh change read gives a delivery |
| `WatchPgCdcPeek.Peek` | src/watch_pg_cdc.rs:255-340 | a whole peek reads a prefix of the unconfirmed transactions, not an empty one if there are any, and delivers something if the largest read holds a fresh change; it fails only at an undescribed relation, with exactly the transactions and changes before it applied |
| `WatchPgCdcPeek.StopIsPart` | src/watch_pg_cdc.rs:283-326 | a row loop that stops at a change has done whole transactions and the changes of the next before it, and dropped its deliveries |
| `WatchPgCdcPeek.FreshIsRead` | src/watch_pg_cdc.rs:265-278 | whichever way the growing read ends, it holds a fresh change if the largest read does |
| `WatchPgCdcPeek.PeekReports` | src/watch_pg_cdc.rs:313-340 | every delivery of a peek reports a change it read that was fresh, with that change's own kind and table |
| `WatchPgCdcPeek.NewChangesCounts` | src/watch_pg_cdc.rs:344-359 | the count that ends the growing read is the number of rows that are fresh changes |
| `WatchPgCdcPeek.HandsOutExactly` | src/watch_pg_cdc.rs:313-340 | what is handed out is the fresh changes first at their LSN, in commit order, up to `max` events |
| `WatchPgCdcPeek.WithinMax` | src/watch_pg_cdc.rs:313-340 | no more than `max` deliveries exactly when a whole number of those changes has `max` events or all have no more |
| `WatchPgCdcPeek.TruncateOverfills` | src/watch_pg_cdc.rs:313-336 | two deliveries where one was asked for |
| `WatchPgCdcPeek.SharedLsnIsLost` | src/watch_pg_cdc.rs:313-326 | one peek with room for all and everything fresh hands out all events exactly when no two changes share an LSN |
| `WatchPgCdcRuns.SettledMeansAcked` | src/watch_pg_cdc.rs:141-143 | the length test means that every change is acknowledged |
| `WatchPgCdcRuns.StepKeeps` | src/watch_pg_cdc.rs:113-392 | every commit, connect, peek, ack, release and settle, failed or not, keeps the invariant; a peek may fail after any part of what it reads |
| `WatchPgCdcRuns.RunKeeps` | src/watch_pg_cdc.rs:113-392 | so does every run |
| `WatchPgCdcTheorems.NeverPassesUnacknowledged` | src/watch_pg_cdc.rs:135-392 | over every run the slot never passes a change whose LSN is not acknowledged, across reconnects, failed advances and interleaved LSNs |
| `WatchPgCdcDelivery.GivenAreDelivered` | src/watch_pg_cdc.rs:313-340 | the deliveries are those of exactly the changes counted as handed out, in order |
| `WatchPgCdcDelivery.PeekDelivers` | src/watch_pg_cdc.rs:283-340 | so it is for each transaction a peek reads |
| `WatchPgCdcDelivery.SecondIsNeverHandedOut` | src/watch_pg_cdc.rs:313-326 | over every run, the second change of a transaction at an LSN is never handed out |
| `WatchPgCdcDelivery.ConfirmedIsHandedOut` | src/watch_pg_cdc.rs:135-392 | over every run with acks of receipts handed out, a change the slot has passed was handed out exactly when it is the first at its LSN |
| `WatchPgCdcDelivery.NothingPassedUndelivered` | src/watch_pg_cdc.rs:135-392 | so every change passed was handed out exactly when no two changes of a passed transaction share an LSN |
| `WatchPgCdcStalls.SharedLsnRun` | src/watch_pg_cdc.rs:313-326 | a run of honest acks in which the slot passes a change never handed out |
| `WatchPgCdcOrder.GivenInOrder` | src/watch_pg_cdc.rs:313-340 | a peek hands out the changes of a transaction in order |
| `WatchPgCdcOrder.HandedOutInCommitOrder` | src/watch_pg_cdc.rs:283-392 | in a session, whatever runs between two peeks, everything the later one hands out and nobody released comes after all the earlier one did, in commit order |
| `WatchPgCdcTheorems.HandedOutOncePerRelease` | src/watch_pg_cdc.rs:313-340 | in a session a change is handed out at most once more than it was released |
| `WatchPgCdcTheorems.ReachableProgress` | src/watch_pg_cdc.rs:113-133 | tracked changes are the transaction's, acks are among them, `owner` agrees, and the length test means all acknowledged |
| `WatchPgCdcTheorems.GapFreeExactly` | src/watch_pg_cdc.rs:295-307 | what is tracked is a gap-free prefix of the unconsumed transactions exactly while nothing confirmed is tracked |
| `WatchPgCdcTheorems.GapFreeWithoutPending` | src/watch_pg_cdc.rs:364-392 | it is, in every session begun without a position left over, and the slot is never asked to go back |
| `WatchPgCdcTheorems.GapOpensExactly` | src/watch_pg_cdc.rs:371-392 | a settle ends that exactly if it takes a left-over position at or past a transaction still tracked |
| `WatchPgCdcTheorems.AdvanceStopsAtUnacked` | src/watch_pg_cdc.rs:138-153 | the first transaction left after an advance has a change not acknowledged |
| `WatchPgCdcTheorems.StalePeek` | src/watch_pg_cdc.rs:296-326 | a peek of consumed transactions delivers and registers nothing |
| `WatchPgCdcTheorems.OrderedPeekDelivers` | src/watch_pg_cdc.rs:313-340 | with ordered LSNs, a peek that reads an unconsumed change not in flight delivers |
| `WatchPgCdcProgress.PeekPutsInFlight` | src/watch_pg_cdc.rs:283-340 | with ordered LSNs, a peek with room to spare puts every unconsumed change it reads in flight and tracks its transaction |
| `WatchPgCdcProgress.FirstReceiveConfirmsNothing` | src/watch_pg_cdc.rs:510-536 | `receive` settles before its deliveries are returned: the first one of a session confirms nothing exactly when the first unconfirmed transaction has a change |
| `WatchPgCdcCycles.ReceiveConfirmsFirst` | src/watch_pg_cdc.rs:510-536 | with all in flight acknowledged and ordered LSNs, a receive that puts nothing more in flight confirms the first unconfirmed transaction |
| `WatchPgCdcCycles.CycleGetsOn` | src/watch_pg_cdc.rs:510-549 | a receive and the acks after it bring the slot to the tip, or leave fewer changes waiting or transactions unconfirmed |
| `WatchPgCdcCycles.CyclesCatchUp` | src/watch_pg_cdc.rs:255-392 | however few transactions each peek reads, from one on, and whatever `max` from 1 on, more receives, each followed by acks of all in flight, than there are changes waiting and transactions unconfirmed bring the slot to the tip |
| `WatchPgCdcCycles.SessionCatchesUp` | src/watch_pg_cdc.rs:486-549 | so does every session begun, after any run, with no advance left over |
| `WatchPgCdcReach.ComesAgainExactly` | src/watch_pg_cdc.rs:313-326 | a change not in flight can come again in this session exactly when its transaction is past the slot and it is not before what is consumed |
| `WatchPgCdcReach.ReconnectReaches` | src/watch_pg_cdc.rs:504-506 | after a reconnect, exactly when its transaction is past the slot |
| `WatchPgCdcReach.ReleaseBringsBack` | src/watch_pg_cdc.rs:552-561 | a released change is no longer in flight and a peek with room hands it out again, while its transaction is past the slot and it is not before what is consumed |
| `WatchPgCdcReach.LostInFlight` | src/watch_pg_cdc.rs:313-326 | what a failed peek has put in flight is handed out in no run without a reconnect or a release of it |
| `WatchPgCdcReach.StuckUntilReconnect` | src/watch_pg_cdc.rs:313-326 | a stuck change is handed out no more times and the slot stays within its bound, through every run without a reconnect or an ack of that change |
| `WatchPgCdcStalls.RetriedAdvanceStalls` | src/watch_pg_cdc.rs:364-392 | a run with a retried advance that reaches such a state |
| `WatchPgCdcStalls.OverlapStalls` | src/watch_pg_cdc.rs:313-326 | a run with overlapping transactions that reaches one |
| `PgOutputReader.Reader.Take` | src/pgoutput.rs:82-91 | takes the next `n` bytes and moves past them, or fails if fewer are left |
| `PgOutputReader.Reader.String` | src/pgoutput.rs:120-129 | reads up to the first zero byte, or fails if there is none |
| `PgOutputReader.Reader.Tuple` | src/pgoutput.rs:130-152 | reads the counted values as the inverse of their format does |
| `PgOutputReader.Reader.ReadRelation` | src/pgoutput.rs:169-198 | reads a Relation as the inverse of its format does, and keeps name, type and key flag of each column |
| `PgOutputReader.Reader.ReadUpdate` | src/pgoutput.rs:210-226 | reads an Update with or without its old row as the inverse of its format does |
| `PgOutputReader.Reader.ReadTruncate` | src/pgoutput.rs:238-250 | reads the counted oids and both options |
| `PgOutputReader.Decode` | src/pgoutput.rs:155-253 | on every input, gives what the format's inverse gives |
| `PgOutputFormat.WireComplete` | src/pgoutput.rs:155-253 | every message the format can write is read back whole, whatever follows |
| `PgOutputFormat.WireSound` | src/pgoutput.rs:155-253 | whatever is read is a valid message of the format, followed by what was left |
| `PgOutputFormat.DecodeInvertsEncode` | src/pgoutput.rs:155-253 | decoding inverts encoding for all seven messages, and appended bytes change nothing |
| `PgOutputFormat.DecodesExactlyTheFormat` | src/pgoutput.rs:155-253 | exactly the bytes that start with an encoding decode, to its message |
| `PgOutputFormat.StrictPrefixFails` | src/pgoutput.rs:155-253 | every strict prefix is an error |
| `PgOutputFormat.CommitPrefix` | src/pgoutput.rs:163-168 | a Commit may lack its timestamp and nothing before it |
| `PgOutputFormat.PrefixFree` | src/pgoutput.rs:155-253 | no message's encoding is a prefix of another's |
| `PgOutputBytes.ReadsWhatIsWritten` | src/pgoutput.rs:155-253 | each of the seven messages, written byte by byte from its own fields and any values of those not kept, is decoded as that very message, whatever follows |
| `PgOutputBytes.DecodesExactlyWritten` | src/pgoutput.rs:155-253 | on all bytes, a message is decoded exactly if they start with a writing of it, and `Other` exactly for an unknown first byte |
| `LsnText.LsnRoundTrip` | src/pgoutput.rs:301-309 | parsing the text of an LSN gives it back, for all 64 bits |
| `LsnText.LsnIsWritten` | src/pgoutput.rs:301-303 | its text is the high half, one slash and the low half, in upper-case hexadecimal without zeros in front |
| `Params.RewritePlaceholders` | src/params.rs:61-124 | the loop gives the text woven from the tokens with placeholders 1 to N, and the names in order |
| `Params.RewriteColon` | src/params.rs:81-116 | an unquoted colon is copied as a cast or alone, or replaced with its name as the next placeholder |
| `Params.OrderIsExact` | src/params.rs:61-124 | the names are those after each unquoted colon that is not half of a `::` and has a name, left to right |
| `ParamsText.RewritesExactly` | src/params.rs:61-124 | the rewritten text is the original with the k-th placeholder, that of the k-th name, replaced by `$k` for PostgreSQL and `?` otherwise, and nothing else changed, for ASCII text |
| `ParamsText.QuotesClose` | src/params.rs:71-80 | a quote mark opens what lies before the next of its kind, which closes it; the other kind does nothing in between |
| `ParamsText.QuotedBindsNothing` | src/params.rs:71-81 | nothing between two such marks is a placeholder |
| `ParamsText.NameCharacters` | src/params.rs:92 | names are made of ASCII letters, digits and underscores |
| `Params.NamesPutBack` | src/params.rs:61-124 | putting the names back gives the text exactly when it is ASCII |
| `Params.AccentIsDoubled` | src/params.rs:117-119 | two bytes beyond ASCII that come out as four |
| `Params.RewriteIsIdempotent` | src/params.rs:61-124 | rewriting again, for any driver, finds no name and changes nothing |
| `Params.CollectBoundParams` | src/params.rs:146-180 | binds the k-th name's value at k, or fails at the first name without one |
| `StatementScan.RejectMultiStatement` | src/config.rs:1223-1260 | accepts exactly the texts with nothing but white space after an unquoted semicolon |
| `StatementScan.SpaceCharacters` | src/config.rs:1252 | the ASCII white space after it |
| `StatementScan.VerdictSurvivesRewrite` | src/config.rs:1223-1260 | a text passes exactly when its rewritten form does |
| `StatementScan.StripLeading` | src/config.rs:1345-1371 | drops exactly the leading white space and comments |
| `StatementScan.NothingHides` | src/config.rs:1345-1371 | what is left starts with neither |
| `StatementScan.SkipsExactly` | src/config.rs:1345-1371 | what is dropped ends exactly where white space and comments fill it and none starts |
| `StatementScan.CommentIsSkipped` | src/config.rs:1345-1371 | a comment of either kind put in front changes nothing of what is left |
| `StatementScan.UnclosedSkipsAll` | src/config.rs:1345-1371 | an unclosed one leaves nothing |
| `StatementComments.AgreesOnPlainComments` | src/config.rs:1223-1260 | for texts whose comments hold no quote and no semicolon, the scan accepts exactly what is one statement with comments skipped and has no comment after its semicolon |
| `StatementComments.CommentDoesNotMatter` | src/config.rs:1345-1371 | a comment in front changes nothing for the reading that skips comments |
| `StatementComments.ApostropheHides` | src/config.rs:1223-1260 | an apostrophe in a leading comment makes the scan accept whatever follows without another one |
| `StatementComments.SemicolonInComment` | src/config.rs:1223-1260 | a semicolon in a leading comment makes it reject whatever is not blank from there on |
| `StatementComments.TwoStatementsPass` | src/config.rs:1223-1260 | texts of two statements it accepts |
| `WatchChanges.Compile` | src/watch_changes.rs:185-328 | gives a plan exactly for the specs that meet every check, binding exactly the allowed placeholders |
| `WatchChanges.CheckKeyColumns` | src/watch_changes.rs:196-219 | accepts exactly key columns with a name and an initial value each, and no other initial value |
| `WatchChanges.CompilePage` | src/watch_changes.rs:246-279 | accepts exactly one unprivileged statement that binds each allowed placeholder and no other |
| `WatchChanges.BindsExactly` | src/watch_changes.rs:246-279 | an accepted page query binds the limit, the settle time if there is one, and each key column, and no other name |
| `WatchChanges.CompileLatest` | src/watch_changes.rs:280-304 | `latest` needs its query, which binds nothing |
| `WatchChanges.PageArgsAreRight` | src/watch_changes.rs:335-360 | for an accepted spec every argument is the limit, the settle time or its key column's value; no index or slice fails |
| `WatchChanges.QuerySeesTheKey` | src/watch_changes.rs:335-360 | each key column is bound, and by every use of its name |
| `WatchChanges.SettleIsCutToSeconds` | src/watch_changes.rs:343-345 | the settle time is exact exactly for whole seconds, and less than a second late otherwise |
| `WatchChanges.SettleReadsEarly` | src/watch_changes.rs:343-345 | with 1500 milliseconds rows one second old are read |
| `WatchChanges.RowKey` | src/watch_changes.rs:363-368 | a key exists exactly when every key column is there and not null, and holds their values in order |
| `WatchChanges.OpIsTheOneNamed` | src/watch_changes.rs:94-102 | a value names a change exactly if it is the text `insert`, `update` or `delete` in any letter case |
| `WatchChanges.EmitsExactly` | src/watch_changes.rs:372-401 | a row read gives an event exactly if it names a change, or there is no op column, and is not too large: of that change, with the row and its key |
| `WatchChanges.EventsAreDelivered` | src/watch_changes.rs:666-714 | so rows read deliver those events, in order, and no others |
| `WatchChanges.ResumeKey` | src/watch_changes.rs:425-440 | gives a key exactly for the cursors of this version that hold it with one value per key column |
| `WatchChanges.CursorResumes` | src/watch_changes.rs:389-440 | the cursor of a row's event resumes at that row's key |
| `WatchChangesRuns.StartsAtNewest` | src/watch_changes.rs:635-661 | a first start is past every row for `latest` with a keyed newest row, and at `initial` otherwise |
| `WatchChanges.Watch.Poll` | src/watch_changes.rs:666-714 | ends; reads a prefix of the rows after the key, emits exactly their events, fewer than 500 plus a batch and than the host's queue holds; stops at a row without its key |
| `WatchChanges.Watch.OnePage` | src/watch_changes.rs:678-708 | a page moves the key past exactly the rows it read, at most a batch |
| `WatchChanges.Watch.ReadRow` | src/watch_changes.rs:686-707 | a row is emitted or skipped and the key moves to it, or it has no key and nothing moves |
| `Keyset.AfterMoves` | src/watch_changes.rs:677-708 | asking again from the last row's key gives exactly the rows not yet read |
| `WatchChangesRuns.StepKeeps` | src/watch_changes.rs:594-714 | growth, polls, storing and restarts keep the invariant |
| `WatchChangesRuns.NothingLostOrRepeated` | src/watch_changes.rs:594-714 | over every run, what was emitted is the events of exactly the rows after the start and not after the key, in order, each of the change its row names |
| `WatchChangesRuns.CaughtUp` | src/watch_changes.rs:666-714 | with no row after the key, every row after the start that names a change and is not too large was delivered as that change |
| `WatchChangesRuns.DeliveredInOrder` | src/watch_changes.rs:666-714 | keys strictly grow along what was delivered |
| `WatchChangesRuns.PollIsAStep` | src/watch_changes.rs:666-714 | what a poll promises is a reading step of the runs |
| `WatchChangesRuns.AlwaysResumes` | src/watch_changes.rs:425-440 | the cursor of a stored event always resumes the watch |
| `WatchChangesRuns.BeginningStays` | src/watch_changes.rs:635-661 | a watch from the beginning counts from `initial` through every restart |
| `WatchChangesRuns.RestartOwesTheSame` | src/watch_changes.rs:594-661 | a restart owes the same events exactly if something was stored or no row to deliver lies between the old start and the new |
| `WatchChangesRuns.RestartGivesUp` | src/watch_changes.rs:594-661 | so `latest` with nothing stored gives up all it owes, or starts at `initial` if the newest row has no key; otherwise nothing is given up |
| `WatchChangesRuns.RowIsGivenUp` | src/watch_changes.rs:594-661 | with every accepted `latest` spec on one number column, a run in which a row read and not stored is never emitted again |
| `WatchChangesRuns.ByNumberIsAccepted` | src/watch_changes.rs:185-328 | there is such a spec |
| `Stream.ConstantTimeEq` | src/stream.rs:238-247 | is equality |
| `Stream.DecodeCursor` | src/stream.rs:222-236 | decodes every token as the specification does that the next two rows are about |
| `Stream.CursorRoundTrip` | src/stream.rs:208-236 | a minted cursor decodes to its payload, of version 1 only |
| `Stream.AcceptsExactlySigned` | src/stream.rs:222-236 | a token is accepted exactly when it is a text, signed, that is base64 of the JSON of a version 1 payload |
| `Stream.ApplyStreamCursor` | src/lib.rs:3379-3469 | binds the cursor's key or the initial one, drops `_cursor`, and fails for exactly the other arguments and tokens |
| `Stream.StandsForExactly` | src/lib.rs:3379-3469 | a `_cursor` is taken exactly if it is absent or null, for the initial key, or an accepted token of this binding with a value for each column, for its key |
| `Stream.AppliedExactly` | src/lib.rs:3379-3469 | the query is given that key, no `_cursor`, and the caller's other arguments unchanged |
| `Stream.QuerySeesKeyset` | src/lib.rs:3462-3467 | the query sees exactly that key, whatever the caller sent for it |
| `Stream.BindKeepsOthers` | src/lib.rs:3462-3467 | no other argument is touched |
| `Stream.MintNextCursor` | src/lib.rs:3479-3512 | the cursor is null exactly for no rows or a last row that lacks a key column |
| `Stream.MintedHoldsKey` | src/lib.rs:3479-3512 | otherwise it decodes to the last row's key, for this binding |
| `Stream.Execute` | src/lib.rs:2653-2670 | a call applies the cursor, gives the first `max_rows` rows, says truncated exactly if there were more, and mints from the last row left |
| `Stream.FollowedIsPrefix` | src/lib.rs:2653-2670 | after any number of calls the rows given are a prefix, longer with each call |
| `Stream.FollowingVisitsEveryRow` | src/lib.rs:2653-2670 | following the cursors gives every row once and in order, exactly when `max_rows` lets a row through |
| `Stream.ZeroRowsEndTheStream` | src/lib.rs:3233-3242 | with `max_rows` 0 a stream of one row ends without it |
| `Transaction.TxHandle.Execute` | src/transaction.rs:154-204 | the transaction is put back, or gone if a row does not decode; nothing is committed |
| `Transaction.TxHandle.ExecuteAffected` | src/transaction.rs:206-240 | the transaction is put back, whatever the statement does |
| `Transaction.TxHandle.Commit` | src/transaction.rs:242-245 | consumes the transaction; a second call fails and does nothing |
| `Transaction.TxHandle.Rollback` | src/transaction.rs:247-250 | the same, with nothing applied |
| `Transaction.RunNestedStep` | src/lib.rs:1019-1064 | succeeds on an open transaction with the statement run on its data with its parameters bound, and what the row mode makes of the batch; fails only if binding fails, the mode is unknown, the server refuses or a needed row does not decode; commits nothing |
| `Transaction.EitherRunsOrFails` | src/lib.rs:1019-1064 | those are exactly the cases in which a step does not run |
| `Transaction.StatementBindsItsNames` | src/lib.rs:1026-1038 | each placeholder of a statement sent is bound to the value of its own name |
| `Transaction.ExecuteTransaction` | src/lib.rs:1083-1131 | if it succeeds or the data changed, every statement ran in order and the data is what the last one left, with each id's last result; if all run it succeeds exactly when the commit is answered; if one fails, the data is unchanged and the error names it; one end per transaction |
| `Transaction.AllRanOnce` | src/lib.rs:1083-1131 | what a group does to given data is determined |
| `Transaction.FailureUndoes` | src/lib.rs:1108-1122 | where a step fails after those before it ran, the group does not run and no other step is the one to fail |
| `Breaker.CircuitBreaker.TryAdmit` | src/breaker.rs:186-223 | on every state, the admission and the state that the runs below go through |
| `Breaker.CircuitBreaker.RecordSuccess` | src/breaker.rs:227-238 | the state the runs below go through after a success |
| `Breaker.CircuitBreaker.RecordFailure` | src/breaker.rs:243-277 | the state the runs below go through after a failure |
| `Breaker.CircuitBreaker.Record` | src/breaker.rs:321-343 | a guard records one outcome; one dropped unrecorded is a success |
| `Breaker.RunKeeps` | src/breaker.rs:186-285 | over every run: half-open exactly while one probe is out; closed only below the threshold; opening time set exactly while not closed |
| `Breaker.TripsAreCounted` | src/breaker.rs:243-277 | `total_trips` is the number of times a run went from closed to open |
| `Breaker.NothingBeforeCooldown` | src/breaker.rs:186-201 | after a trip or a failed probe nothing is admitted until the cooldown has passed |
| `Breaker.ProbesAfterCooldown` | src/breaker.rs:186-223 | an open breaker admits a probe exactly once it has passed, and no second call beside it |
| `Breaker.StreakCounts` | src/breaker.rs:227-277 | over every run the streak is the number of ordinary failures since the last success |
| `Breaker.TripsExactly` | src/breaker.rs:251-277 | a closed breaker trips exactly at the failure that makes `failure_threshold` of them since the last success |
| `Breaker.ClosedAdmits` | src/breaker.rs:186-191 | in every run a closed breaker admits every call as an ordinary one and stays as it was |
| `Breaker.ProbeDecides` | src/breaker.rs:227-253 | in every run a probe's success closes the breaker and its failure opens it anew from then on |
| `Breaker.LateOutcomesDoNotMove` | src/breaker.rs:227-277 | ordinary calls still out do not move an open or half-open breaker |
| `Breaker.TurnedAway` | src/breaker.rs:192-223 | while a probe is out, or before the cooldown has passed, a call is turned away and changes nothing |
| `Pool.PoolRegistry.GetOrBuild` | src/pool.rs:213-260 | a hit gives the stored pool and stamps it, a failed build changes nothing, a miss evicts down to the limit and adds the new pool |
| `Pool.PoolRegistry.FindLru` | src/pool.rs:236-244 | finds the least `(last_used, digest)` |
| `Pool.PoolRegistry.EvictFor` | src/pool.rs:266-290 | leaves exactly the pools without the pair, and counts the others |
| `Pool.PoolRegistry.EvictForSecret` | src/pool.rs:303-315 | leaves none |
| `Pool.PoolRegistry.SweepIdle` | src/pool.rs:320-345 | leaves exactly the pools used within the window |
| `Pool.TrimmedKeepsNewest` | src/pool.rs:234-252 | eviction leaves the newest entries, as many as fit with one place free |
| `Pool.LookupLeavesOthers` | src/pool.rs:213-260 | a hit or a failed build leaves the other pools alone; a miss that builds leaves the newest of them |
| `Pool.OnlyLookupsAdd` | src/pool.rs:213-345 | only a lookup that missed and built adds a pool, with its credentials and time |
| `Pool.LastUseIsLastLookup` | src/pool.rs:225-229 | over every run the last use of an entry is the time of the last lookup of its digest |
| `Pool.SweepKeepsRecent` | src/pool.rs:320-345 | so a sweep keeps exactly the pools of digests looked up less than the window ago |
| `Pool.NeverOverfull` | src/pool.rs:213-260 | over every run the registry holds at most `pool_max_entries` pools, or one if that is 0 |
| `Pool.HitWasBuiltForDigest` | src/pool.rs:213-260 | an entry's pool was built by a lookup of its digest that missed, with its credentials |
| `Pool.RevokedStaysOut` | src/pool.rs:266-290 | after a revocation a pool carrying the pair was built by a later lookup that missed and brought the pair again |
| `Pool.RevocationReaches` | src/pool.rs:225-229 | revoking a lookup's pair evicts the pool it got exactly when that lookup built it or the building one had the pair |
| `Pool.RevocationClears` | src/pool.rs:266-290 | over every run whose lookups bring one profile's credentials, revoking a pair leaves no pool if it is one of them, and every pool if not |
| `Interval.FormatFracMicros` | src/driver/interval.rs:190-198 | strips trailing zeros from six digits |
| `Interval.FracReads` | src/driver/interval.rs:190-198 | the decimals write exactly the fraction, in at most six digits |
| `Interval.PgIntervalToIso8601` | src/driver/interval.rs:82-160 | prints the text that the rows below read back |
| `Interval.IsoReadsBack` | src/driver/interval.rs:82-160 | a duration parser recovers exact months, days and microseconds exactly when the signs agree, and the absolute value otherwise |
| `Interval.IsoIsNormal` | src/driver/interval.rs:82-160 | the text is in lowest terms: no zero field, months below a year, minutes and seconds below 60, no trailing zero; zero is `PT0S` |
| `Interval.IsoIsInjective` | src/driver/interval.rs:82-160 | intervals of uniform sign print differently |
| `Interval.MixedPrintsAbsolute` | src/driver/interval.rs:82-160 | a mixed interval prints as its absolute value |

## Left out

- `WatchPgCdc.ChangeEvents`: event payloads are not modelled (row values, transaction id, commit time, `value_of`, `row_of`), because they come from column decoding.
- The gap event for a slot that was created again: the results are about one continuing slot.
- `WatchPgCdcPeek.Peek`: the slot's output does not change during one call, since the growing reads are of one slot.
- Creating slots and publications, connection handling, backoff, tickers and threads: I/O and timing.
- `PgOutputReader.Reader.String`: text stays bytes, so the lossy UTF-8 decoding is not modelled.
- `PgOutputReader.Reader.Tuple`: as `String`.
- `PgOutputReader.Reader.ReadRelation`: as `String`.
- `PgOutputReader.Reader.ReadUpdate`: as `String`.
- `PgOutputReader.Decode`: as `String`.
- `StatementScan.RejectMultiStatement`: white space beyond ASCII is not modelled; the code also takes it after the semicolon, so a no-break space there passes the code and not the model.
- `StatementScan.StripLeading`: white space beyond ASCII is not modelled; the code trims it too.
- PostgreSQL dollar quoting, which the statement scanner does not know either.
- `Params.RewritePlaceholders`: UTF-8 of the rewritten text beyond what one pushed byte becomes.
- `WatchChanges.Compile`: which of several errors is reported is not stated; the connection's own validation and the privileged-DDL test are parameters.
- `WatchChanges.Watch.Poll`: the table does not change during one poll, since a table that grew for ever with rows to skip would keep it going; over runs it may grow between any two reads.
- Event ids, event times and JSON sizes of `sql_changes`: the id and the time are left out, the size is a parameter.
- Rows of a polled table that change place or disappear.
- Stream configuration checks, signing keys and every claim about the strength of hashes.
- `Breaker.RunKeeps`: each call is one step; interleavings inside `try_admit`, and the 32-bit wrap of the streak, are not modelled.
- Session variables inside a transaction, which a group leaves empty.
- `Interval.PgIntervalToIso8601`: the warning for mixed signs.
- Offset paging, caches, cost, metrics, schema derivation, LISTEN/NOTIFY, token rotation and the rest of configuration: the host composes offsets, and the others keep no state between calls that a guarantee here rests on.
