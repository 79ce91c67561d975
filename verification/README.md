# sql-code-generator: a verified model

The program is a C client and server. Clients upload an entity-relationship schema as JSON, ask for the
`CREATE TABLE` text, and send batches of SQL INSERT statements. The server keeps the schema and its rows in
memory, checks every batch against the schema's constraints in a child process, and applies it as a job of
a single worker. This project models that server and its client in Dafny and proves what they promise:

- **The INSERT engine.** The hand-written readers (identifiers, values, column lists, tuples, statements,
  the statement splitter) are index loops, each proved equal to a recursive reading of the text. A
  statement adds the rows it spells in any layout: keyword case, blanks, bare or quoted values, bare or
  delimited names, with or without a column list. Printing
  rows as INSERT statements and reading them back is a round trip exactly when no `;` is misjudged by the
  splitter, statements and rows fit their buffers, and every value fits its own, has no outer blanks and
  is not the text `NULL`. For every text, the splitter cuts where the value reader's literals say exactly
  when every `;` has an even number of quotes before it that only one of the two takes for an edge.
- **The store.** A batch that fits its tables is accepted exactly when inserting its rows one at a time
  succeeds, with the same tables at the end and the same first violation otherwise. Over every run of
  loads (complete or stopped half-way) and inserts, every NOT NULL, PRIMARY KEY, UNIQUE and FOREIGN KEY
  rule holds of every stored row, and between loads each table holds exactly the rows of the INSERT
  requests performed with success, in order.
- **The server.** The interface thread, the worker and the administrator are interleaved steps. Over all
  runs requests are first in, first out; a visible job's status is decided by where its request is; an
  accepted cancel command holds back everything of its client until it has failed one request, untouched,
  unless another client's command comes first; each upload is exactly its own client's chunks. The queue's
  monitor never loses a wakeup, and from the stop signal on every schedule ends with all threads gone.
- **The wire and the transfers.** Any sequence of messages survives any segmentation; a download that
  succeeds has written exactly the generated text, and, when it was not cut, that text alone tells the
  whole schema.
- **The poll loops and the client table.** Each ready descriptor is served once although the list is
  compacted while it is walked; the administrator's two-slot array is never overrun; the table's count is
  the number of its sessions in every run.

Where the code is narrower than its intent, the code is followed and the exact condition is proved:

- The capacity check looks only at the rows stored before the batch (`src/model.c:878`), so a batch may
  run past a table's row array. That is the outcome `RowsOverrun`; it cannot happen when the batch `Fits`,
  and `OverrunReached` is a run of ordinary requests that ends in it.
- A column list with more than 32 names writes past the column map (`src/model.c:659`). That is the outcome
  `ColumnMapOverrun`, reached by a printed list exactly beyond 32 names (`NamesRead`).
- A quoted `'NULL'` becomes NULL and quoted text is trimmed (`src/model.c:572-579`): `ValueRoundTrip`.
- The splitter takes a quote after a backslash for an escaped one (`src/model.c:792`), the value reader does
  not; the splitter counts a quote in the middle of a bare value, the reader does not:
  `SplitAgreesWithValues`, `BackslashHidesSeparator`, `StrayQuoteHidesSeparator`. A printed batch that is
  cut in the wrong place is always refused: `SplitOrRefused`.
- The administrator's flag names one client, so a second accepted command replaces the first
  (`src/server.c:1143-1144`): `CommandLost`. A request past the test is finished whatever the flag says:
  `FlagIgnoredPastTest`.
- A descriptor on which a client connects twice keeps a session after it is closed (`src/server.c:608-618`):
  `ClosedButHeld`, `HeldInRuns`, `NoneStranded`.
- The parent reads the child's verdict with one `read` and takes an interrupted read for a refusal
  (`src/server.c:696-709`): `ChildValidateInsert`.

One module is one file. `Text`, `Schema`, `SchemaLoad`, `SchemaDocument`, `SchemaRelations`, `Constraints`,
`Integrity`, `InsertSyntax`, `InsertTotality`, `InsertOrigins`, `InsertRoundTrip`, `InsertLayouts`,
`StatementSplit`, `BatchRoundTrip`, `InsertLoops`, `Store`, `Overrun` and `SchemaSql` follow `src/model.c`;
`Wire` follows `src/protocol.c`; `Transfer` follows `src/client.c` and the server's side of it; `Jobs`,
`RequestQueue`, `QueueMonitor`, `ServerRuns`, `QueueRefinement`, `Cancellation`, `InsertRuns`, `JobOutcomes`,
`ChildPipe`, `Registry` and `PollLoops` follow `src/server.c`; `EndToEnd` joins the wire, the transfers, the
server's runs and the schema text.

## Model

| member | source | states |
|---|---|---|
| `Text.TrimMeans` | src/model.c:79-97 | Trimming a text with blanks around a core that has no outer blanks gives back exactly the core. |
| `Text.TrimInPlace` | src/model.c:79-97 | The in-place loop leaves in the buffer exactly the trimmed text. |
| `Text.FindCIAt` | src/model.c:118-140 | The search ends at the first place where the keyword begins, letter case ignored, or at the end. |
| `Text.FindCIFirst` | src/model.c:118-140 | The specification's result is the first place where the keyword begins, or the end. |
| `Text.StartsCIExactly` | src/model.c:103-112 | A text starts with a keyword exactly when it is as long and agrees letter by letter, case ignored. |
| `Text.CharacterCodes` | src/model.c:83-89 | Blanks, word characters and lower case are those of the C locale, by their codes. |
| `Schema.TableIndex` | src/model.c:197-204 | The result is the first table of that name, and -1 exactly when there is none. |
| `Schema.ColumnIndex` | src/model.c:210-217 | The result is the first column of that name, and -1 exactly when there is none. |
| `Constraints.ValueExists` | src/model.c:835-857 | Found exactly when the value is non-NULL in that column of a stored row or of an earlier row of the batch. |
| `Constraints.ValidateBatchRows` | src/model.c:871-936 | The nested loops report the batch's first violation, or none. |
| `Constraints.RowAccepted` | src/model.c:873-933 | A row passes exactly when its table has room and every cell obeys NOT NULL, uniqueness against stored and earlier rows, and its reference. |
| `Constraints.RowRefused` | src/model.c:877-932 | A row is refused for its table being full, or else for the first column whose cell breaks a rule, with the first rule it breaks. |
| `Constraints.BatchRefused` | src/model.c:873-933 | A batch is refused for its first row that is refused, judged with the rows before it. |
| `Constraints.BatchIsSequential` | src/model.c:871-1007 | A batch that fits behaves exactly as its rows inserted one at a time: same acceptance, same first violation, same tables; one that does not fit is always refused row by row. |
| `Constraints.OverfullBatchPasses` | src/model.c:877-882 | The check on stored rows alone accepts some batch that overfills a table. |
| `Overrun.NullsApplied` | src/model.c:877-882 | A batch of n NULL rows for a table of k rows passes every check while k is below 1024; it is stored exactly when k + n is at most 1024 and otherwise runs past the row array. |
| `Overrun.OverrunReached` | src/model.c:999-1003 | From the initial store, one load and four stored batches lead to a two-row statement that passes every check and overruns the table. |
| `Integrity.AcceptedRowKeepsIntegrity` | src/model.c:884-932 | Storing one accepted row keeps every column's constraints, its own and those that refer to it. |
| `Integrity.AcceptedBatchKeepsIntegrity` | src/model.c:984-1007 | An accepted batch that fits keeps every NOT NULL, PRIMARY KEY, UNIQUE and FOREIGN KEY rule. |
| `InsertTotality.AcceptedBatch` | src/model.c:780-829 | For every text, an accepted batch has 1 to 256 rows, each for an existing table, as wide as it, with values of at most 127 characters. |
| `InsertOrigins.RowsOriginate` | src/model.c:588-829 | For every accepted text, each row comes in order from one of its statements, with that statement's table, one tuple's values in its listed columns, and NULL in all others. |
| `InsertTotality.TupleMeans` | src/model.c:721-771 | An accepted tuple has one value per listed column, and its row is those values laid over NULLs. |
| `InsertTotality.PlaceMeans` | src/model.c:743-746 | An unlisted column keeps what it had; a column listed several times takes its last value. |
| `InsertTotality.NoTablesNoBatch` | src/model.c:991-993 | No text is an acceptable batch while no table is loaded, although apply does not check for that. |
| `InsertRoundTrip.LiteralRead` | src/model.c:540-561 | A text with its quotes doubled is read back up to its closing quote. |
| `InsertRoundTrip.ValueRoundTrip` | src/model.c:534-583 | A quoted text comes back unchanged exactly when it is shorter than 128, has no outer blanks and is not `NULL`. |
| `InsertLayouts.QuotedValue` | src/model.c:540-579 | A quoted value is stored as its first 127 characters without the blanks around them, and as NULL when they read NULL. |
| `InsertLayouts.UnclosedValue` | src/model.c:540-579 | So is a quoted value whose closing quote is missing. |
| `InsertLayouts.BareValue` | src/model.c:562-579 | A bare value runs to the next comma or parenthesis and is stored without the blanks around it, cut to 127 characters, and as NULL when it reads NULL. |
| `InsertLayouts.EmptyValue` | src/model.c:562-579 | An empty place between delimiters is the empty text. |
| `InsertLayouts.EveryLayout` | src/model.c:572-579 | Every text falls into blanks, a core, blanks and what does not fit, so these laws settle what any value is stored as. |
| `InsertLayouts.ValuesRead` | src/model.c:732-769 | Values written in any of these ways fill the listed columns in order, with a comma before the parenthesis or not. |
| `InsertLayouts.WrittenNamesRead` | src/model.c:641-674 | A column list is read in any layout: names bare or delimited, blanks around them, a trailing comma or not. |
| `InsertLayouts.AnyLayoutRead` | src/model.c:588-774 | A statement in any layout adds exactly the rows it spells: keywords in any case, names bare or delimited, the column list present or not, values bare or quoted, blanks and commas wherever the reader passes over them. |
| `InsertRoundTrip.IdentifierRead` | src/model.c:158-191 | After any blanks, a name of fewer than 64 word characters is read back whole, whatever follows it that is no word character. |
| `InsertRoundTrip.NamesRead` | src/model.c:641-674 | A printed column list is read back in full up to 32 names and overruns the column map exactly beyond. |
| `InsertRoundTrip.TuplesRead` | src/model.c:698-771 | Printed tuples are read back as their rows, in order, and what follows them is read next; the batch overflows exactly beyond 256 rows. |
| `InsertRoundTrip.StatementRead` | src/model.c:588-774 | A printed INSERT statement adds exactly its rows, whatever follows it is read as more tuples, and the batch overflows exactly beyond 256 rows. |
| `BatchRoundTrip.CutStatement` | src/model.c:730-756 | A printed statement cut inside a literal is refused. |
| `BatchRoundTrip.OverrunStatement` | src/model.c:698-713 | A printed statement that runs on past its `;` is refused. |
| `BatchRoundTrip.LiteralSlices` | src/model.c:784-821 | Split by its literals, a printed batch falls into exactly the printed statements. |
| `BatchRoundTrip.SplitOrRefused` | src/model.c:784-821 | A printed batch is split as it was printed, or it is refused. |
| `BatchRoundTrip.PrintedBatchRead` | src/model.c:780-829 | A printed batch is accepted exactly when every `;` has an even number of backslash-preceded quotes before it, every statement fits its buffer and there are at most 256 rows; then it is read as the rows it means, each value as the store keeps it. |
| `BatchRoundTrip.RoundTrip` | src/model.c:588-829 | Rows printed as INSERT statements are read back unchanged and in order exactly when the batch is accepted and every value survives its buffer, trimming and the NULL test. |
| `StatementSplit.LiteralsAreValues` | src/model.c:534-561 | Where a value may start, the spans taken for literals are exactly what the value reader consumes. |
| `StatementSplit.SplitAgreesWithValues` | src/model.c:791-796 | For every text, the splitter cuts where the value reader's literals say exactly when every `;` has an even number of quotes before it that only one of the two takes for an edge. |
| `StatementSplit.StrayQuoteHidesSeparator` | src/model.c:562-570 | A quote in the middle of a bare value hides the separator after it from the splitter but not from the reader. |
| `StatementSplit.LiteralsHaveParity` | src/model.c:540-561 | In a text in which every quote belongs to a literal, cutting outside literals is cutting where the number of quotes so far is even. |
| `StatementSplit.SplitAgreesExactly` | src/model.c:791-796 | In such a text, the splitter cuts where the literals say exactly when every `;` has an even number of backslash-preceded quotes before it. |
| `StatementSplit.SplitAgreesWithoutEscapes` | src/model.c:784-821 | In such a text it always does when no quote follows a backslash. |
| `StatementSplit.BackslashHidesSeparator` | src/model.c:792-794 | A literal that ends in a backslash hides the separator after it. |
| `StatementSplit.SplitIsLossless` | src/model.c:784-821 | The raw slices rejoined with `;` are the text. |
| `InsertLoops.ReadIdentifier` | src/model.c:158-191 | The scanning loop finds the identifier its grammar describes, delimited or bare, and does not move when there is none. |
| `InsertLoops.ReadLiteral` | src/model.c:540-561 | The loop leaves in the buffer what fits of the literal's text and stops after its closing quote. |
| `InsertLoops.ReadBare` | src/model.c:562-570 | The loop leaves in the buffer what fits of the text before a comma or parenthesis. |
| `InsertLoops.ReadValue` | src/model.c:534-583 | One value: cut, trimmed, NULL or text, as the specification of values says. |
| `InsertLoops.ReadColumnList` | src/model.c:641-674 | The loop's column map, its errors and its overrun are those of the recursive reading. |
| `InsertLoops.ReadTuple` | src/model.c:721-767 | The loop over values fills exactly the row of the recursive reading, or fails with its error. |
| `InsertLoops.ReadTuples` | src/model.c:698-771 | The tuple loop adds exactly the rows of the recursive reading to the batch in place. |
| `InsertLoops.ReadStatement` | src/model.c:588-774 | One statement of the batch, with its errors in the code's order. |
| `InsertLoops.ReadBatch` | src/model.c:780-829 | The splitting loop with its parity flag reads exactly the batch of the specification. |
| `SchemaLoad.OtherRelationsKeep` | src/model.c:445-475 | A relation changes no column but the one it starts from. |
| `SchemaLoad.LastRelationWins` | src/model.c:445-475 | The last relation that starts from a column decides what the column references. |
| `SchemaLoad.LoadLeaves` | src/model.c:362-481 | A load that fails before its table list changes nothing; any other leaves only well-formed tables without rows. |
| `SchemaDocument.ColumnReadBack` | src/model.c:335-356 | A column written as a document entry is loaded as itself exactly when its names fit, a primary key is NOT NULL, and the referenced table has no dot. |
| `SchemaDocument.TableReadBack` | src/model.c:391-442 | A table entry is loaded as the table it was written from exactly when all its columns are and there are 1 to 32 of them; it fails exactly without columns. |
| `SchemaDocument.DocumentReadBack` | src/model.c:362-481 | A whole document is loaded as the schema it was written from exactly when that schema fits the store, whatever was stored before. |
| `SchemaRelations.RelationRefers` | src/model.c:457-473 | A relation from `ft.fc` to `tt.tc` makes that one column refer to that table and column, names as their buffers keep them, and changes nothing else. |
| `SchemaRelations.RelationLoaded` | src/model.c:446-475 | In a whole load it does so unless a later relation starts from the same column. |
| `SchemaRelations.RelationalReadBack` | src/model.c:362-481 | A schema that fits the store, written with its references as relations, is loaded as itself exactly when every reference fits its buffers, names a table without a dot, and names no column without a table. |
| `SchemaRelations.ColumnDefaults` | src/model.c:335-356 | A missing type is TEXT, a missing flag is false, a number other than 0 is true, and a primary key is NOT NULL. |
| `SchemaRelations.QualifiedRead` | src/model.c:223-234 | A qualified name is cut to 127 characters, then at its first dot, and then each part to 63. |
| `SchemaRelations.ColumnCut` | src/model.c:335-356 | Names, types and references longer than their buffers are cut to them, and the flags come through. |
| `SchemaRelations.TablesInOrder` | src/model.c:387-443 | A load reads table after table until one fails, the list ends, or 32 are loaded. |
| `SchemaRelations.ColumnsInOrder` | src/model.c:416-433 | A table's columns are read one after another until one fails, the list ends, or 32 are read. |
| `SchemaRelations.StoppedLoad` | src/model.c:391-413 | A load that fails at an entry keeps the tables before it and applies no relation. |
| `Store.ChildAndParentAgree` | src/model.c:956-1007 | On every state and text, validating accepts exactly when applying passes every check. |
| `Store.InsertedOneByOne` | src/model.c:984-1007 | An inserted text leaves the tables of its rows inserted one at a time; a refused batch that fits is refused one by one for the same violation; one that would overrun is refused one by one. |
| `Store.InsertKeepsIntegrity` | src/model.c:984-1007 | An INSERT request keeps every constraint. |
| `Store.RunKeepsIntegrity` | src/server.c:810-886 | From the initial store, after any sequence of loads, inserts and other requests, every constraint holds of every stored row. |
| `Store.TableStore.Load` | src/model.c:362-481 | The table array after a load, whole or stopped half-way, is what the specification of loading says. |
| `Store.TableStore.LoadTableList` | src/model.c:384-443 | A table becomes visible only when all its columns have been read. |
| `Store.TableStore.LoadRelationList` | src/model.c:445-475 | The relation loop updates the table array in place, relation by relation. |
| `Store.TableStore.LoadRelation` | src/model.c:457-473 | One relation changes the reference of the one column it starts from, in place. |
| `Store.TableStore.Apply` | src/model.c:984-1007 | All rows are appended or nothing changes, with the outcome of the specification. |
| `Store.TableStore.AppendRows` | src/model.c:999-1003 | The loop appends every row to its table in order; it leaves the row arrays exactly when the batch does not fit. |
| `Store.ReadTable` | src/model.c:397-440 | One table entry with the loop over its columns. |
| `SchemaSql.CapJoin` | src/model.c:61-73 | Cutting a text piece by piece at the buffer's size is cutting the whole. |
| `SchemaSql.AppendF` | src/model.c:61-73 | The buffer then holds all that was appended so far, cut to its size less one. |
| `SchemaSql.AppendColumn` | src/model.c:500-522 | One column line, constraint by constraint, is appended as its rendering. |
| `SchemaSql.GenerateSql` | src/model.c:487-528 | For every schema and buffer the output is the untruncated rendering cut to the buffer's size less one. |
| `SchemaSql.PrintedText` | src/model.c:491-525 | A table with a primary key and a column with every other constraint is printed with these words and no others. |
| `SchemaSql.ReferenceRead` | src/model.c:516-518 | A printed reference is decoded as the table and column it names. |
| `SchemaSql.TypeRead` | src/model.c:504 | A type, blanks and parentheses included, is told apart from the constraints printed after it. |
| `SchemaSql.ColumnsRead` | src/model.c:500-522 | Printed column lines are decoded as the columns, up to what a primary key hides. |
| `SchemaSql.RenderSame` | src/model.c:495-525 | The text depends on names, types and constraints only, never on rows. |
| `SchemaSql.DecodeRender` | src/model.c:487-528 | When nothing is cut, and no type spells out a constraint or ends in a comma, the text determines every table, column, type and constraint, up to the unique flag a primary key hides. |
| `Wire.NtohlInvertsHtonl` | src/protocol.c:168-172 | Four bytes in network order are the number that was sent. |
| `Wire.HeaderRoundTrip` | src/protocol.c:165-200 | A header comes back from its sixteen bytes. |
| `Wire.HeaderLayout` | src/protocol.c:165-172 | On the wire stand the payload's size, the client, the operation and zero flags, in this order, each with its most significant byte first, and then the payload. |
| `Wire.ReceiveEncoded` | src/protocol.c:165-225 | A message comes back with its size, client, operation and payload, and nothing after it is touched, exactly when its payload is within the limit; a larger one is refused. |
| `Wire.ReceiveCut` | src/protocol.c:187-225 | A stream cut inside a message never yields it. |
| `Wire.StreamRoundTrip` | src/protocol.c:165-225 | Any sequence of messages is returned in order, each with its size, client, operation and payload, with no residue. |
| `Wire.StreamPrefix` | src/protocol.c:187-225 | A connection that drops anywhere delivers exactly the messages sent completely before. |
| `Wire.Descriptor.ReadFull` | src/protocol.c:29-52 | Under any short reads and interrupts: the exact bytes; or the end of the stream, all of it consumed; or a failed call, with fewer bytes than asked consumed. |
| `Wire.Descriptor.WriteFull` | src/protocol.c:58-76 | All the data, or a proper prefix of it when a call fails. |
| `Wire.Descriptor.SendMessage` | src/protocol.c:165-181 | The stream gets the whole message, or a proper prefix of it when a call fails. |
| `Wire.Descriptor.RecvMessage` | src/protocol.c:187-225 | The result is the message at the head of the stream, its end, or its refusal, independent of segmentation. |
| `Jobs.SlotHolds` | src/server.c:393-409 | The ring slot of a job among the last 128 created holds that job. |
| `Jobs.SlotInWindow` | src/server.c:384-409 | No slot holds a job outside the last 128, or one that belongs elsewhere. |
| `Jobs.SlotUpdated` | src/server.c:411-419 | Updating a visible job changes its slot and no other. |
| `Jobs.JobTable.Create` | src/server.c:393-409 | Creating a job appends it to the unbounded log. |
| `Jobs.JobTable.Find` | src/server.c:384-391 | The search finds exactly the jobs among the last 128, with the log's entry. |
| `Jobs.JobTable.Update` | src/server.c:411-426 | Updating changes the log's entry while it is visible and nothing after it has been evicted. |
| `Jobs.ReplyMeans` | src/server.c:428-463 | A client is told of exactly its own jobs among the last 128; another client's job or an evicted one is not found, and an identifier below 1 is invalid. |
| `Jobs.JobTable.Answer` | src/server.c:428-463 | The reply is the log's entry exactly when the job asked for is visible and the asking client's own; `last` asks for the client's newest, for identifiers below 128. |
| `Jobs.History.Add` | src/server.c:371-375 | A history line is appended to the unbounded log, cut to its buffer. |
| `Jobs.History.Report` | src/model.c:1050-1060 | The report is exactly the newest 128 lines in order. |
| `RequestQueue.Queue.Link` | src/server.c:477-491 | Pushing a node appends its request to the queue's contents, in place in the linked list. |
| `RequestQueue.Queue.Unlink` | src/server.c:573-588 | Popping takes the oldest request, and nothing from an empty queue. |
| `QueueMonitor.NoLostWakeup` | src/server.c:568-591 | In every reachable state a blocked worker with no signal coming has an empty queue and the broadcast still before it. |
| `QueueMonitor.IdleWorkerBlocks` | src/server.c:568-576 | With nothing to do the worker blocks and cannot move by itself. |
| `QueueMonitor.PushWakesWorker` | src/server.c:477-491 | A request pushed while the worker is blocked wakes it and is served. |
| `QueueMonitor.RoundTurns` | src/server.c:1171-1181 | A round starts when the one before is used up, may have up to 256 turns, and each request takes one. |
| `QueueMonitor.PushedAreServedInOrder` | src/server.c:477-591 | In every interleaving, pushed = served, then in the worker's hands, then queued. |
| `QueueMonitor.MutualExclusion` | src/server.c:477-591 | At most one thread is between lock and unlock. |
| `QueueMonitor.ShutdownEnds` | src/server.c:1412-1421 | From the stop signal on every schedule is bounded by what is left of the interface thread's round, is at most 7 steps after the broadcast, and ends with all three threads gone, spurious wakeups or not. |
| `QueueRefinement.PushAndTakeMatch` | src/server.c:477-591 | Exactly when the requests in the monitor allow a push or a take, the server's runs can make it. |
| `QueueRefinement.OneQueue` | src/server.c:477-591 | However finely the threads interleave, a monitor run and a server run with the same pushes, takes and finishes hold the same requests in the same places. |
| `ServerRuns.FirstInFirstOut` | src/server.c:1238-1246 | In every run, received = processed, in hand, queued, being submitted; the outstanding job ids increase. |
| `ServerRuns.VisibleStatus` | src/server.c:789-940 | A visible job is DONE or ERROR exactly when processed, RUNNING exactly when executed, QUEUED exactly when waiting. |
| `ServerRuns.OneRunning` | src/server.c:806-808 | At most one visible job is RUNNING. |
| `ServerRuns.JobsMoveForward` | src/server.c:411-426 | Between any two moments of a run no visible job moves backwards. |
| `Cancellation.CommandStrikesOnce` | src/server.c:810-817 | Over every run without a further command: either the flag still names the client and nothing of the client has been processed or has changed a table or file, or its first request to reach the test failed there, untouched, and the flag has been down since. |
| `Cancellation.CommandLost` | src/server.c:1137-1151 | At the client's next test an accepted command strikes exactly when the last command accepted by then names the client; otherwise the request is performed as if none had been given. |
| `Cancellation.FlagIgnoredPastTest` | src/server.c:863-905 | A request past the test is applied and finished in the same way whatever the flag says. |
| `Cancellation.ActiveFromStart` | src/server.c:803-805 | In every run the active client is the one whose request is being performed, and none otherwise. |
| `Cancellation.ConnectedIs` | src/server.c:1200-1217 | In every run a client may be named exactly when it connected after it last disconnected. |
| `Cancellation.UnaskedRuns` | src/server.c:810 | While no command is pending no request is cancelled. |
| `ServerRuns.CountersAgree` | src/server.c:893-905 | Total is the requests finished; cancellations are bounded by accepted commands and counted among the failed. |
| `ServerRuns.TablesAlwaysGood` | src/server.c:863-886 | At every moment of every run every constraint holds, and the parent never refuses what its child accepted. |
| `InsertRuns.InsertJudged` | src/server.c:863-869 | A batch that fits is passed on exactly when inserting its rows one at a time succeeds, and judging it changes no table. |
| `InsertRuns.AcceptedIsStored` | src/server.c:874-881 | An accepted batch that fits leaves the tables of inserting its rows one at a time, and its request succeeds. |
| `InsertRuns.RowsAreInserted` | src/server.c:863-886 | In every run, between loads each table holds what it held and then exactly the rows of the INSERT requests performed with success, in order. |
| `JobOutcomes.JobGiven` | src/server.c:1238-1246 | Operations 12, 20, 21 and 30 get the next job, QUEUED and the client's own; the others get none. |
| `JobOutcomes.PerformedOutcome` | src/server.c:819-891 | Unless its child accepts an INSERT, a request past the flag is performed at once, with the success its calls and its document allow and with its own reply. |
| `JobOutcomes.UndefinedExactly` | src/model.c:659 | Performing a request leaves the program undefined exactly when an INSERT the grammar accepts lists more columns than the column map holds. |
| `JobOutcomes.OwnJobOnly` | src/server.c:411-426 | Starting and finishing a request change its own visible job and no other. |
| `JobOutcomes.FinishedStays` | src/server.c:411-426 | In every run a finished job never changes again while it can be seen. |
| `JobOutcomes.StatusTells` | src/server.c:899-904 | A finished job is DONE exactly when its request succeeded, with the reply cut to its buffer, for as long as it can be seen. |
| `JobOutcomes.CountersCount` | src/server.c:895-904 | In every run each counter has counted exactly its own events. |
| `JobOutcomes.CountersFromStart` | src/model.c:242-247 | From the start of the server the counters are the whole tally. |
| `ServerRuns.UploadIsOwnChunks` | src/server.c:630-660 | In every interleaving a client's file is its own writes since its own last begin. |
| `Transfer.SendGeneratedSqlFile` | src/server.c:720-784 | Whatever call fails, the stream has carried a beginning of a download of exactly the text, complete on success. |
| `Transfer.StreamFile` | src/server.c:747-780 | The read loop sends the text in non-empty chunks of what each read delivers, in order and without loss. |
| `Transfer.ServeDownload` | src/server.c:810-914 | With the final reply the stream carries a trace that ends in END after the whole text or in ERROR, cut only if the connection fails. |
| `Transfer.OwnTrace` | src/server.c:749-777 | Every message of a download goes under the client's own identifier. |
| `Transfer.ReceiveFile` | src/client.c:212-262 | The client returns 0 exactly when an END has been reached, with the file and the unread rest the trace determines; whatever fails, it has written a prefix of that file. |
| `Transfer.DownloadAgrees` | src/client.c:201-262 | Every trace the server can emit stops the client: END with exactly the text, ERROR with the part sent, nothing left unread. |
| `Transfer.DownloadCut` | src/client.c:216-223 | A trace cut anywhere never counts as success and leaves a prefix of the text. |
| `Transfer.Request` | src/client.c:64-96 | A request succeeds only when it was sent whole and its reply was OK. |
| `Transfer.UploadFile` | src/client.c:122-196 | Success means the stream carried exactly the file in chunks that fit and every message was acknowledged; failure, a part of such an upload. |
| `EndToEnd.UploadArrives` | src/server.c:1238-1246 | What an upload puts on the wire arrives as a begin, the same chunks, and an end, all under the client's identifier. |
| `EndToEnd.KnownOps` | src/server.c:819-891 | Messages 10 to 12, 20, 21 and 30 are the requests they stand for, with their payload, and every other number stays unknown. |
| `EndToEnd.UploadStored` | src/server.c:819-836 | In every run, once a client's begin has been performed and while none of its later upload requests fails or is cancelled, its file is exactly the chunks performed since, whatever came before and whatever the others do. |
| `EndToEnd.UploadedSchemaIsLoaded` | src/server.c:837-848 | The end of an upload loads exactly the document the client has sent since its begin. |
| `EndToEnd.DownloadedSchema` | src/server.c:720-784 | A finished download is the generated text cut to the buffer, and when it was not cut the file alone tells the whole schema. |
| `EndToEnd.RunKeepsSchema` | src/server.c:863-886 | Until another upload ends no run changes a table's name, columns or constraints. |
| `EndToEnd.SchemaThereAndBack` | src/server.c:837-862 | A schema written as a document and uploaded among any other traffic is the one loaded, and a download performed any time before the next upload ends, whatever rows have come in, tells that schema as far as its text can show it. |
| `ChildPipe.UnpackRead` | src/server.c:684-713 | However short the read, the verdict is the child's; a full read has the whole message. |
| `ChildPipe.WaitedMeans` | src/server.c:699-705 | Interrupted waits are repeated, and the first other answer decides. |
| `ChildPipe.ChildValidateInsert` | src/server.c:666-715 | Nothing is accepted that the child refuses; what it accepts is refused only when `pipe`, `fork` or `waitpid` fails or the one read brings nothing, with the message for that case. |
| `Registry.RegisterAdds` | src/server.c:961-976 | A CONNECT adds one session under a fresh identifier while a slot is free and none otherwise; the count stays exact. |
| `Registry.RemoveEnds` | src/server.c:608-618 | Closing a descriptor ends exactly one of its sessions, or nothing; the count stays exact. |
| `Registry.ClosedButHeld` | src/server.c:608-618 | A closed descriptor still holds a session exactly when it held two or more; other descriptors' sessions are unchanged. |
| `Registry.LookupExact` | src/server.c:1066-1073 | Lookup by identifier succeeds exactly for the sessions and finds their descriptor. |
| `Registry.RunsStayConsistent` | src/server.c:1200-1202 | In every run the count is the number of sessions, identifiers in use are distinct, and none is handed out twice. |
| `Registry.HeldInRuns` | src/server.c:1192-1217 | In every run a descriptor holds one session per connection that found room, less one per close. |
| `Registry.ClientTable.Connect` | src/server.c:961-976 | The loop fills the first free slot and spends an identifier even when there is none. |
| `Registry.ClientTable.Remove` | src/server.c:608-618 | The loop frees the first slot of the descriptor and corrects the count. |
| `Registry.ClientTable.FdById` | src/server.c:1054-1073 | The loop finds the descriptor of an identifier in use, or -1. |
| `PollLoops.RemovePollFd` | src/server.c:945-956 | The entry leaves the array, the others close up in order, and its client is removed. |
| `PollLoops.KeptInOrder` | src/server.c:945-956 | The survivors of a round are an increasing choice of its entries. |
| `PollLoops.KeptPolled` | src/server.c:1181-1247 | After a round the listening descriptor is still first, descriptors are distinct, and there are at most 256. |
| `PollLoops.ServedOnce` | src/server.c:1181-1247 | Each ready descriptor is served exactly once and no other is. |
| `PollLoops.RoundSessions` | src/server.c:1192-1217 | Over a round a descriptor's sessions change only by its own message, and the table stays consistent. |
| `PollLoops.RoundIsRun` | src/server.c:1192-1217 | Over rounds the client table goes through exactly the connections and closes of the messages received, in order. |
| `PollLoops.GoneAreGone` | src/server.c:1193-1217 | A ready client leaves the list exactly when it said BYE or its connection is lost. |
| `PollLoops.NoneStranded` | src/server.c:1192-1217 | A round leaves a session without its connection exactly when a client that went had connected more than once. |
| `PollLoops.OrdinaryInterface.AcceptClient` | src/server.c:982-1015 | A usable connection is appended while there is room, and is not ready in this round. |
| `PollLoops.OrdinaryInterface.ServeEntry` | src/server.c:1182-1217 | One turn of the loop: what happens to the list, the index and the client table. |
| `PollLoops.OrdinaryInterface.Round` | src/server.c:1181-1247 | A whole round of removals and acceptances leaves exactly the survivors in order, having served exactly the ready ones. |
| `PollLoops.AdminInterface.AcceptAdmin` | src/server.c:1021-1049 | A second administrator is refused, and that keeps the two-slot array within bounds. |
| `PollLoops.AdminInterface.DropAdmin` | src/server.c:1274-1314 | After a timeout, a BYE or a lost connection one entry is left and nobody is connected. |
| `PollLoops.AdminInterface.Round` | src/server.c:1264-1317 | At every loop head the entries are one plus one if an administrator is connected, in whatever order events come, and who is connected is decided by them. |

## Left out

- The JSON reader and the PostgreSQL grammar are foreign libraries: a document is an already read tree, and the syntax verdict is a parameter.
- Sockets, `poll`, `fork`, `accept` and file calls appear as scripts of short, interrupted or failing transfers, a set of ready descriptors, and parameters for what a call returns.
- Data races on the shared state: every function outside the queue's monitor is one atomic step, so a cancel command that arrives after the test of the same request waits for the client's next one.
- Integer widths: identifiers, counters and lengths are unbounded, except for the 32-bit fields of the wire header; the wrap-around of job and client identifiers is not modelled.
- Timestamps, elapsed times, logging, configuration, usage texts and the wording of errors.
- The blocklist, the address table, the other administrator reports, the administrator's own client, the interactive shell and the Python client.
- The rows of a table are a sequence inside the table's value, so writing past a row array, or past the column map, is an explicit outcome after which nothing is promised.
- Text is the characters before the terminator, so an embedded NUL in a payload or a document is not modelled; characters are bytes and the letter classes are those of the C locale.
- A message with a positive size and no payload, which `send_message` would send as a bare header, is not modelled; no caller does so.
- Transfer.UploadFile: starts after the file has been opened; a path is shorter than 4096 characters, as it must be to be opened.
- ServerRuns.TablesAlwaysGood: a batch that overruns a row array ends the run, because the C program is undefined from there on.
- EndToEnd.UploadStored: promises nothing once an upload request of the client has failed after its last begin; a failed write may leave part of a chunk in the file.
- QueueRefinement.OneQueue: relates runs that make the same moves; it does not build the server run for a given monitor run, since the monitor does not say how a request is performed.
- StatementSplit.SplitAgreesWithValues: takes every quote behind a `(` or `,` and blanks for the start of a value, also inside a delimited name that holds such text.
- BatchRoundTrip.RoundTrip: is about bare names of fewer than 64 word characters, column lists of at most 32 names without repeats, and at least one tuple a statement.
- PollLoops.AdminInterface.Round: accepted descriptors are positive, as they are while standard input is open; the code takes descriptor 0 for no administrator.
- Registry.RegisterAdds: descriptors are positive for the same reason; a slot with descriptor 0 is a free one.
