# Stelling, modelled in Dafny

Stelling is a Go library of service building blocks. This project models its four
stateful pieces and proves what they promise:

- **SQLite migrations** (`sqlite/migrationx`, `sqlite/migration`). One specification of
  `Migrate` (`MigrationSpec`), two imperative migrators proved against it, one over a
  `database/sql` transaction (`TransactionMigrator`) and one over named savepoints
  (`SavepointMigrator`), both side by side and in turn (`MigratorsCompared`), whole runs of calls
  (`MigrationPaths`), any number of concurrent migrators (`ConcurrentMigrators`), and the
  loader with its file names (`FileNames`, `Positions`, `Loader`) on whole directories
  (`Directories`).
- **Interceptors** (`fxgrpc/interceptors.go`, `fxlogging/interceptor`). The in-place nil
  removal and sort (`Interceptors`), the trace id through a whole call (`TraceIds`), and
  the payload capture and finish logs of streams (`StreamLogs`).
- **Concurrent components**. The connection cache as an object (`ConnManager`), as a
  protocol over lock steps (`ConnProtocol`), its linearisability (`ConnHistory`), its
  freedom from deadlock (`ConnProgress`) and the object and the protocol side by side
  (`ConnAlone`); the certificate reloader (`CertReloader`).
- **Config flag extraction** (`ConfigFlags`).

## What turned out not to hold as documented

- `SortInterceptors` says "Any nil items will be removed". The loop skips the item after
  each nil it removes, so this holds exactly when no two nils are adjacent
  (`Interceptors.AllNilsRemovedIff`); two nils leave one behind
  (`Interceptors.AdjacentNilsSurvive`). A surviving nil makes the sort, or the chain builder
  behind it, dereference nil.
- The two `Migrate` functions are interchangeable on a database, whatever the scripts do and
  whichever statements fail, if and only if its first version cell is not NULL or the target
  does not exist (`MigrationSpec.MigratorsInterchangeable`): `Scan` refuses NULL,
  `ColumnInt64` reads it as 0 (`MigrationSpec.NullVersionSplitsTheMigrators`).
- A version stands for a schema if and only if no down script, run where the ups lead,
  completes anywhere but one step back (`MigrationPaths.ConsistentForeverIff`,
  `MigrationPaths.AstrayDownIsNoticed`); the code does not check this.
- The start and the finish log of a call carry one trace id behind the inject-logger
  interceptor (`TraceIds.OneTraceIdPerCall`). Without it, they do if and only if the request
  came with an id or two fresh identifiers are the same (`TraceIds.OneLogIdWithoutInjectIff`).
- The number in "up migration for migration %d is missing" is the least missing one
  exactly when no position d, with d + 1 below the least missing number, is used by two files
  (`Positions.ReportedNumber`, `Positions.DuplicateMisleadsTheReport`).
- "The file flag can be specified at most once" does not count file flags with an empty
  value: the arguments are accepted if and only if every file flag but the last is empty and
  none lacks its value (`ConfigFlags.GetConfigPath`, `ConfigFlags.EmptyFlagMayRepeat`).

## Assumptions

- A failed commit or rollback leaves the committed database unchanged, and a `sql.Tx` is
  over after `Commit` or `Rollback` whatever they return.
- Scripts do not touch `schema_migrations` and do not commit or roll back themselves. A
  script is an arbitrary function of its text and the schema that may break off at any
  point and leave anything behind; any statement may also fail by itself.
- ROLLBACK TO and the RELEASE after it succeed (the vendored `sqlitex.Save` panics
  otherwise). A SAVEPOINT that fails was interrupted, and so is everything after it.
- Both drivers see the same first row of `schema_migrations`; its cells are NULL or
  64-bit integers.
- Transactions are serialisable: a transaction works on the state at its first statement,
  and a commit that writes is refused if another commit came in between. A transaction
  that wrote nothing may always commit. The outermost savepoint is such a transaction.
- The statements about the schema of whole runs have a hypothesis on the scripts, only where
  the ups lead from the initial schema: a down goes one step back or breaks off
  (`MigrationPaths.NeverAstray`, which is also necessary), or always goes back
  (`MigrationPaths.Undoes`) where a way down has to exist. What is said about single calls,
  serialisability and exactly-once holds for all scripts and all databases.
- The interceptor lists hold pointers, as all four chain builders do, and any sort compares
  every item when there are two or more.

## Model

| member | source | states |
|---|---|---|
| `MigrationSpec.MigratorsInterchangeable` | sqlite/migration/migration.go:25-36 | For a given database and target, the two migrators succeed or fail together and commit equal states for all scripts and all statement outcomes, if and only if the first version cell is not NULL or the target is too high; negative versions included |
| `MigrationSpec.NullVersionSplitsTheMigrators` | sqlite/migrationx/migration.go:27-40 | A concrete database on which one migrator fails and the other runs a script |
| `MigrationSpec.EnsureVersions` | sqlite/migrationx/migration.go:18-25 | A missing version table becomes an empty one; an existing one is kept row for row |
| `MigrationSpec.WhyRefused` | sqlite/migrationx/migration.go:175-197 | Without accidental faults a call is refused for a target that does not exist, an unreadable version, or a version above the number of scripts, which is the number reported; otherwise only a script can make it fail; no table and no row stand for version 0 |
| `MigratorsCompared.MigrateBoth` | sqlite/migrationx/migration.go:175-217 | Both packages called on equal databases with equal step outcomes succeed or fail together and end with equal committed databases, unless the first stored version is NULL, in which case the transaction one fails |
| `MigratorsCompared.UseInTurn` | sqlite/migrationx/migration.go:166-217 | Uses of both packages one after the other, on fresh handles and connections over one database, leave exactly what the run of calls says, and so the schema of the recorded version if no down leads astray |
| `TransactionMigrator.Handle.DbVersion` | sqlite/migration/migration.go:25-36 | Fails exactly for a failing query, a missing table, NULL or a negative value in the first row; otherwise returns 0 without rows and else the number that `setDbVersion` wrote there |
| `TransactionMigrator.Handle.SetDbVersion` | sqlite/migration/migration.go:38-49 | Replaces all rows by one, or names the statement that failed |
| `TransactionMigrator.Handle.RunDowns` | sqlite/migration/migration.go:120-130 | The signed descending loop ends at target - 1, even -1; it starts exactly the planned downs up to the first that fails |
| `TransactionMigrator.Handle.RunUps` | sqlite/migration/migration.go:131-140 | Starts exactly the planned ups up to the first that fails |
| `TransactionMigrator.Handle.Rewrite` | sqlite/migration/migration.go:120-147 | Scripts and version row together, with the first failing statement |
| `TransactionMigrator.Handle.Migrate` | sqlite/migration/migration.go:80-152 | Succeeds exactly when the specification does and commits its database; on any failure nothing is committed; the transaction is closed on every path; the error names the failing step and whether the rollback failed; exactly the scripts in between are started, and none behind one that fails |
| `TransactionMigrator.Handle.Up` | sqlite/migration/migration.go:71-74 | Migrates to the number of scripts, with the errors and started scripts of that call |
| `TransactionMigrator.Handle.Down` | sqlite/migration/migration.go:76-78 | Migrates to 0, with the errors and started scripts of that call |
| `SavepointMigrator.Innermost` | vendor/zombiezen.com/go/sqlite/sqlitex/savepoint.go:86-120 | RELEASE and ROLLBACK TO act on the innermost savepoint of a name, names being reused |
| `SavepointMigrator.Conn.EndSave` | vendor/zombiezen.com/go/sqlite/sqlitex/savepoint.go:71-125 | The deferred release: releases on success, rolls back to the savepoint on error, does nothing after an abort |
| `SavepointMigrator.Conn.ExecuteScript` | vendor/zombiezen.com/go/sqlite/sqlitex/exec.go:377-414 | A script that fails half-way leaves connection and savepoint stack as they were |
| `SavepointMigrator.Conn.EnsureVersionSchema` | sqlite/migrationx/migration.go:21-25 | The nested savepoint is gone on every path; success creates the table if it was missing |
| `SavepointMigrator.Conn.DbVersion` | sqlite/migrationx/migration.go:27-40 | Fails exactly for a failing query or a missing table; no row and NULL are version 0; any other cell is the one `setDbVersion` writes for the version returned, so negative values are versions from 2^63 on |
| `SavepointMigrator.Conn.SetDbVersion` | sqlite/migrationx/migration.go:42-51 | Replaces all rows by one, or names the statement that failed |
| `SavepointMigrator.Conn.RunDowns` | sqlite/migrationx/migration.go:199-204 | As in the other package, every script in its own savepoint |
| `SavepointMigrator.Conn.RunUps` | sqlite/migrationx/migration.go:205-211 | As in the other package, every script in its own savepoint |
| `SavepointMigrator.Conn.Rewrite` | sqlite/migrationx/migration.go:199-216 | Scripts and version row together, with the first failing statement; the stack is kept unless a statement aborted |
| `SavepointMigrator.Conn.Migrate` | sqlite/migrationx/migration.go:175-217 | For every entry stack: success is exactly the specification's, the stack is unchanged, and it commits if the stack was empty; on failure nothing is committed and stack and pending state are restored, unless one of the executed statements made the engine abort everything; the error is that of the first failing step, a savepoint that could not be opened showing at the step behind it; exactly the scripts in between are started, and none behind one that fails |
| `SavepointMigrator.Conn.Up` | sqlite/migrationx/migration.go:166-169 | Migrates to the number of up scripts, with the errors and started scripts of that call |
| `SavepointMigrator.Conn.Down` | sqlite/migrationx/migration.go:171-173 | Migrates to 0, with the errors and started scripts of that call |
| `MigrationPaths.DownsStayOnPath` | sqlite/migrationx/migration.go:199-204 | Downs that complete from a reached version lead to the schema of the lower version, if no down leads astray |
| `MigrationPaths.DownsRetrace` | sqlite/migrationx/migration.go:199-204 | From any reached version the downs complete and lead to the schema of the lower version, if each down undoes its up on the schemas the ups reach |
| `MigrationPaths.MigrateReachesTarget` | sqlite/migrationx/migration.go:175-217 | A success ends in the schema the target stands for and records it, if no down leads astray; upwards, or if the downs undo the ups, and without accidental faults, a call succeeds exactly when the target exists and its ups complete on the initial schema |
| `MigrationPaths.RunsStayConsistent` | sqlite/migrationx/migration.go:166-217 | After any calls of either package, some failing anywhere, the schema is the first v ups applied to the initial one, v being the recorded version, if no down leads astray |
| `MigrationPaths.ConsistentForeverIff` | sqlite/migrationx/migration.go:166-217 | On a database at version 0 the schema is the one its version stands for after every run of calls if and only if no down, run where the ups lead, completes anywhere but one step back |
| `MigrationPaths.AstrayDownIsNoticed` | sqlite/migrationx/migration.go:199-204 | A down that does not undo its up: up and back ends at version 0 in another schema |
| `MigrationPaths.SchemaDependsOnVersionOnly` | sqlite/migrationx/migration.go:166-217 | Two runs that end at one version end in one schema |
| `MigrationPaths.PathIndependence` | sqlite/migrationx/migration.go:175-217 | If going over b reaches c, the direct call reaches c too, in the same schema and version; downs that break off are allowed |
| `MigrationPaths.UpThenDownRestores` | sqlite/migrationx/migration.go:166-173 | After a successful Up, Down succeeds and restores the initial schema, if each down undoes its up on the schemas the ups reach |
| `ConcurrentMigrators.CommitIsOneCall` | sqlite/migration/migration.go:80-152 | For all scripts and databases and any interleaving, a transaction that may commit holds exactly what one undisturbed call on its snapshot would commit, and has run exactly the planned scripts |
| `ConcurrentMigrators.EveryCommittedStateIsSerial` | sqlite/migration/migration.go:80-152 | For all scripts and databases, any number of migrators, any targets, any interleaving: the successful writers, called one after the other, all succeed and leave the committed database, and its schema is what the scripts that ran in committed transactions make of the initial one |
| `ConcurrentMigrators.EveryCommittedStateIsConsistent` | sqlite/migration/migration.go:80-152 | Under the same interleavings, if no down leads astray, every committed schema is the first v ups applied to the initial one |
| `ConcurrentMigrators.EachScriptTakesEffectOnce` | sqlite/migrationx/migration_test.go:507-574 | For all scripts and databases, with one common target: either the target is recorded and the scripts that ran in committed transactions are exactly those in between, each once, in order, or the database is as it was and no call has returned success; always the latter if the target or the recorded version is out of range or unreadable |
| `ConcurrentMigrators.CommitSucceedsUnlessOvertaken` | sqlite/migrationx/migration_test.go:507-574 | In every run a migrator that gets to commit returns success, unless it has written and another writer overtook it, which changes nothing; with one common target, success means that the target is recorded |
| `ConcurrentMigrators.AbandonedCallLeavesNoTrace` | sqlite/migration/migration.go:80-152 | A call that fails after any statements before its commit has changed nothing |
| `ConcurrentMigrators.UndisturbedMigratorIsOneCall` | sqlite/migration/migration.go:80-152 | On every database, for every target and all scripts, the statements of a migrator that nobody disturbs change exactly what the specified call changes: nothing where it fails, and where it succeeds, also when the target is recorded already, the database, the planned effects and one success |
| `FileNames.LastEndingIsLast` | sqlite/migrationx/migration.go:134-134 | The greedy `.*` reaches the last ending on the line |
| `FileNames.FindMatchIsChosen` | sqlite/migrationx/migration.go:134-137 | If anything matches, the search finds the leftmost match with the longest `.*` |
| `FileNames.FoundIffDescribed` | sqlite/migrationx/migration.go:134-140 | The search succeeds exactly on the names made of any text, digits 0 to 9, an underscore, a title on one line, `.up.sql` or `.down.sql`, and any text |
| `FileNames.ParseMigrationMeaning` | sqlite/migrationx/migration.go:136-150 | Returns position and direction of the chosen match exactly if the position is in 1..2^64-1, else rejects |
| `FileNames.ParseMigrationRejects` | sqlite/migrationx/migration.go:136-140 | A name without a match is never a migration |
| `FileNames.FileNameRoundTrip` | sqlite/migrationx/migration.go:134-150 | A name made of zeros, a position, an underscore, a title and `.up.sql` or `.down.sql` parses to that position and direction, for every position, zero padding and newline-free title |
| `FileNames.BaseTen` | sqlite/migrationx/migration.go:141-144 | Numbers are printed and read in base ten |
| `Positions.NoMismatchIsOneToN` | sqlite/migrationx/migration.go:103-114 | The check over the sorted list passes exactly if the positions are 1..n, each once |
| `Positions.ReportedNumber` | sqlite/migrationx/migration.go:105-109 | The reported number is the least missing one if and only if no position d with d + 1 below it is used twice |
| `Positions.DistinctReport` | sqlite/migrationx/migration.go:105-109 | With distinct positions the reported number is always the least missing one |
| `Positions.DuplicateMisleadsTheReport` | sqlite/migrationx/migration.go:105-109 | Positions 1, 1, 2 are reported as lacking 2 |
| `Loader.SelectSelects` | sqlite/migrationx/migration.go:88-99 | Every entry that is a file and whose name parses in the direction is taken as often as it is listed, and nothing else is |
| `Loader.Split` | sqlite/migrationx/migration.go:88-99 | The two lists hold, counted, exactly the files whose names parse as ups and as downs |
| `Loader.CheckContiguous` | sqlite/migrationx/migration.go:105-114 | The comparison in wrapping 64-bit arithmetic finds the first position that is not its index plus one |
| `Loader.ReadScripts` | sqlite/migrationx/migration.go:115-131 | Succeeds exactly if all files are readable and stores each content at its index; an error names the first unreadable file in the order up 1, down 1, up 2, ... |
| `Loader.NewMigrationsFromFS` | sqlite/migrationx/migration.go:81-132 | Succeeds exactly if ups and downs each have positions 1..n once and all files are readable; the scripts are then the contents at their positions; every error is characterised, an unreadable file being the first selected one in reading order |
| `Directories.LoadsIsDeterministic` | sqlite/migrationx/migration.go:100-131 | The contract of the loader determines scripts and errors, whatever the order of the files and the unstable sort |
| `Directories.ListingOrderIsIrrelevant` | sqlite/migrationx/migration.go:81-132 | Two listings of the same entries in different orders load the same scripts or fail with the same error |
| `Directories.PrintedDirectoryLoads` | sqlite/migrationx/migration.go:81-150 | n ups and n downs under printed names, with any padding and one-line titles, listed in any order among sub-directories and other names, load exactly their contents in order |
| `Interceptors.SurvivorsExactly` | fxgrpc/interceptors.go:119-125 | Survivors are every interceptor and exactly the nils at odd offsets in their run |
| `Interceptors.SurvivorCount` | fxgrpc/interceptors.go:119-125 | As many are removed as half of every run of nils, rounded up |
| `Interceptors.InterceptorsConserved` | fxgrpc/interceptors.go:119-125 | No interceptor is lost, duplicated or invented |
| `Interceptors.AllNilsRemovedIff` | fxgrpc/interceptors.go:108-125 | All nils go if and only if no two are adjacent |
| `Interceptors.AdjacentNilsSurvive` | fxgrpc/interceptors.go:119-125 | Of two adjacent nils one is left, also beside an interceptor |
| `Interceptors.RemoveNils` | fxgrpc/interceptors.go:119-125 | The loop over the shrinking window leaves exactly the survivors in the window |
| `Interceptors.SortInterceptors` | fxgrpc/interceptors.go:86-132 | The survivors fill the front of the caller's list in ascending order of their registered weights, its tail is unchanged; a nil that has to be compared panics and leaves the list unchanged |
| `Interceptors.SecondCallSameWeights` | fxgrpc/interceptors.go:113-132 | A second call on the returned list keeps its length and yields the same weight at every index, in ascending order |
| `Interceptors.BuildChain` | fxgrpc/interceptors.go:49-55 | Succeeds exactly without adjacent nils, and the chain holds every registered interceptor in ascending order of the registered weights |
| `TraceIds.TraceIdFromContext` | fxlogging/interceptor/context.go:33-46 | The present id, or a fresh non-empty one marked as new |
| `TraceIds.OrderOfSources` | fxlogging/interceptor/context.go:33-46 | A stored id that is not empty wins, then the span's id, then a fresh one; an empty stored id does not count |
| `TraceIds.Injected` | fxlogging/interceptor/inject_logger_interceptor.go:13-24 | The passed context and its logger name one id; the span and an id already present stay as they were |
| `TraceIds.StreamsLikeUnary` | fxlogging/interceptor/inject_logger_interceptor.go:38-53 | A stream call threads its context like a unary call |
| `TraceIds.OneTraceIdPerCall` | fxlogging/logging.go:123-145 | Every registration order without adjacent nils and every placing of equal weights: if the interceptors from weight 49 on cooperate, start logs, finish logs and handler logger carry one id, unary and stream |
| `TraceIds.RegisteredWeightsCooperate` | fxlogging/logging.go:123-145 | Injecting at weight 49 and logging at 50 meet the conditions under which one id is guaranteed |
| `TraceIds.DefaultServerLogs` | fxlogging/interceptor/logging_interceptor.go:145-171 | Inject and logging alone give start log, handler, finish log, in this order, with the id of the request |
| `TraceIds.OneLogIdWithoutInjectIff` | fxlogging/interceptor/logging_interceptor.go:86-89 | For every chain without the inject interceptor that leaves the trace id alone, all log lines of a call, unary or stream, carry one id if and only if the request came with one or the identifiers drawn for the lines are the same |
| `TraceIds.LoggingAloneSplitsTheId` | fxlogging/interceptor/logging_interceptor.go:86-89 | The logging interceptor alone: start and finish log agree if and only if the request came with an id or the next two fresh identifiers are the same |
| `ConnManager.Manager.Get` | fxgrpc/conn_manager.go:127-151 | A known address returns its connection; an unknown one is dialed once and remembered; a failed dial changes nothing; what is returned stays cached under its address and nothing cached changes |
| `ConnAlone.UndisturbedGet` | fxgrpc/conn_manager.go:127-151 | The lock steps of one caller nobody interrupts: cache, created connections, result and lock state at the end |
| `ConnAlone.LoserReturnsTheConnection` | fxgrpc/conn_manager.go:137-151 | A caller that missed and finds the address cached meanwhile returns that connection and creates none |
| `ConnAlone.UndisturbedStop` | fxgrpc/conn_manager.go:92-102 | An uninterrupted Stop, in any order of the addresses and whatever fails, closes each connection once, reports whether all succeeded and lets go of the lock |
| `ConnAlone.GetBoth` | fxgrpc/conn_manager.go:127-151 | The object and the undisturbed protocol, on equal caches, return the same connection and leave equal caches |
| `ConnProgress.NoCallIsStuck` | fxgrpc/conn_manager.go:92-151 | From every reachable state all calls under way can return, every Get with a result and every Stop with its report |
| `ConnProgress.WhoBlocks` | fxgrpc/conn_manager.go:92-151 | In every reachable state a reader is kept out exactly by a writer, and a writer exactly by whoever holds the lock |
| `ConnManager.Manager.Stop` | fxgrpc/conn_manager.go:92-102 | Closes every connection exactly once, and fails exactly if some Close fails |
| `ConnProtocol.StepKeepsInv` | fxgrpc/conn_manager.go:127-151 | Every lock step keeps mutual exclusion, the cache invariant and the memo history |
| `ConnHistory.CacheIsAMemoTable` | fxgrpc/conn_manager.go:127-151 | In every interleaving: at most one connection per address; successful results agree exactly when their addresses do; the history is a run of an atomic memo table, and every result handed out is counted in it |
| `ConnHistory.CallsAreLinearised` | fxgrpc/conn_manager.go:127-151 | Each finished call has an event of its own in the history, appended between its begin and its return, in real-time order; every event belongs to exactly one call, finished or about to return |
| `ConnProtocol.WriteOnce` | fxgrpc/conn_manager.go:137-151 | A cached connection is never removed or replaced |
| `ConnProtocol.StopClosesEverythingOnce` | fxgrpc/conn_manager.go:92-102 | Each finished Stop closed every connection created until it released the lock exactly once, and returned nil exactly if all succeeded |
| `CertReloader.ReadersSeeValidCertificates` | fxcert-reloader/cert-reloader.go:54-101 | In every interleaving the certificate exists, is the latest stored load, no success is passed over, failed loads are never seen, and observed loads never go backwards |
| `CertReloader.EveryReadIsCurrent` | fxcert-reloader/cert-reloader.go:56-66 | In every interleaving a reader under the lock gets the load stored last at that moment, and nothing else is handed out; the read lock is free exactly when nobody stores |
| `CertReloader.GetReturnsLatest` | fxcert-reloader/cert-reloader.go:56-66 | In every run, a call while nobody stores gets exactly one certificate, the one stored last |
| `CertReloader.RoundPublishes` | fxcert-reloader/cert-reloader.go:80-98 | A successful round publishes the new load, a failed one keeps the certificate; then the goroutine waits again |
| `CertReloader.NewLoadIsServed` | fxcert-reloader/cert-reloader.go:54-98 | A reader after a successful round gets the new load, whatever was handed out before |
| `CertReloader.StartedReloader` | fxcert-reloader/cert-reloader.go:75-125 | Construction fails exactly if the first load does; a started reloader serves that load |
| `CertReloader.StopFinishes` | fxcert-reloader/cert-reloader.go:103-109 | Between rounds the goroutine sees the cancellation and Stop returns |
| `CertReloader.NothingStoredAfterStop` | fxcert-reloader/cert-reloader.go:103-109 | In every run, after Stop has returned nothing is stored by any further steps, and the last successful load is the published one |
| `ConfigFlags.Scan` | config/config.go:179-239 | The loop with lookahead, for any way of examining one argument |
| `ConfigFlags.GetConfigPath` | config/config.go:175-240 | Succeeds exactly if each separate flag is followed by an argument without a dash and every file flag but the last has an empty value; returns the last value and the other arguments in order; an error comes from the first flag that cannot be accepted, with the path and arguments scanned before it |
| `ConfigFlags.EmptyFlagMayRepeat` | config/config.go:209-235 | `-f= -f=x` is accepted with path x, `-f=x -f=` is not |
| `ConfigFlags.SecondScanIsIdentity` | config/config.go:172-240 | Scanning the result again finds nothing and changes nothing |
| `ConfigFlags.Spellings` | config/config.go:184-207 | Both names with one or two dashes are file flags, bare or with a value |
| `ConfigFlags.FileFlagIff` | config/config.go:184-207 | An argument is a file flag if and only if it is one of the four spellings, bare or with a value behind the first equals sign; one that begins with a dash is no separate value |
| `ConfigFlags.OtherArgumentsPass` | config/config.go:184-207 | Arguments none of which is such a spelling come back unchanged with an empty path |
| `ConfigFlags.MissingValueIsRejected` | config/config.go:214-228 | A separate flag at the end, or before an argument with a dash, is rejected wherever it stands |
| `ConfigFlags.InsertedFlagIsUndone` | config/config.go:175-240 | Any spelling of the flag with a value, inserted anywhere among flag-free arguments, is undone exactly |
| `StreamLogs.FirstReceivedMeaning` | fxlogging/interceptor/logging_interceptor.go:183-196 | The captured payload was received successfully, is a protobuf message, and nothing before it is |
| `StreamLogs.MonitoredServerStream.RecvMsg` | fxlogging/interceptor/logging_interceptor.go:183-196 | The status passes through; the payload is the first protobuf message received successfully, set once |
| `StreamLogs.LoggedServerCall` | fxlogging/interceptor/logging_interceptor.go:198-227 | Over any run of receives the statuses and the handler's error pass through, the start log has no payload and the finish log has the first one received |
| `StreamLogs.MonitoredClientStream.SendMsg` | fxlogging/interceptor/logging_interceptor.go:279-290 | The status passes through; the payload is the first protobuf message sent, set once |
| `StreamLogs.MonitoredClientStream.RecvMsg` | fxlogging/interceptor/logging_interceptor.go:292-304 | The status passes through; end of stream appends a finish log without error, a failure one with its error, a success one exactly if the response is unary |
| `StreamLogs.FirstSentMeaning` | fxlogging/interceptor/logging_interceptor.go:279-290 | The payload is the protobuf message before which none was sent |
| `StreamLogs.ExactlyOneFinishLog` | fxlogging/interceptor/logging_interceptor.go:292-304 | A run with one terminal receive has exactly one finish log, with the payload captured by then and the error received, end of stream being none |

## Left out

- Sorting in place: `sort.Sort` is modelled on sequences (`Common.SortByKey`), so that only the result of a sort is captured, not its swaps.
- `TraceIds.OneTraceIdPerCall`: asks interceptors of weight 49 and 50 to preserve the trace id and those from 49 on to preserve the logger, because the sort may place equal weights either way.
- Waiting: writer preference of `sync.RWMutex`, busy timeouts and retries; the protocols allow more interleavings than the locks do.
- The panics of `sqlitex.Save` when SAVEPOINT or ROLLBACK TO itself fails.
- `NewMigrations` on two slices, which only compares their lengths; its result is the hypothesis `Migrations.Valid`.
- The unary logging interceptors of clients, whose calls are the server's without a context change, and the message text, level and fields of log lines.
- Lifecycle wiring of modules, TLS set-up and certificate parsing, HTTP and gRPC servers, tracing, metrics, sentry and pprof.
- `Load` beyond the file flag, the struct validators, authorisation and the protobuf codec.
