# SqlWorker core in Dafny

`ASqlWorker` is the driver-independent base class of SqlWorker, a small ADO.NET data-access
helper. The worker owns one connection and remembers four things:
- whether a transaction is open;
- when the last reconnect attempt failed;
- a reconnect pause;
- a registry of the data readers it has handed out.

It builds INSERT and UPDATE statements from parameter names and completes a query with
missing `@name` placeholders. It replaces null parameter values by DBNull before
executing, and it turns the rows of a reader into lists of scalars, pairs or records.

This project models that class and proves what it guarantees.

| module | file | what it holds |
|---|---|---|
| `Wrappers`, `Faults` | `wrappers.dfy` | `Option`, `Result` and `Outcome`. `Fault` names the exceptions the class can raise. |
| `Text` | `text.dfy` | Ordinal substring search (`IndexOf(...) != -1`), `Join`, a comma splitter, and `String.IsNullOrWhiteSpace`. |
| `Parameters` | `parameters.dfy` | `DbParameter` as a name and a value (C# null, DBNull or a value), the in-place null workaround, `NotNullParams`, and `IsNullableParams` over a model of `System.Type`. |
| `SqlBuilder` | `sql_builder.dfy` | `QueryWithParams` and the INSERT and UPDATE texts, each as a specification function plus the loop that builds it. |
| `Materialise` | `materialise.dfy` | Result sets as `seq<seq<Option<V>>>` (`None` is DBNull), the `while (dr.Read())` loops, and `DataReaderToObj` over an explicit field list. |
| `Worker` | `worker.dfy` | `class SqlWorker<V>`: connection state, debounce, transaction flag, reader registry, and a log of the driver calls that change state. |
| `Scenarios` | `scenarios.dfy` | Call sequences on a fresh worker, each with the outcome it must produce. |

How the driver is modelled:
- Calls into the driver are not executed. The worker's `log` records, in order, the calls that change the state of the connection, the transaction, a command or a reader:
  - `Conn.Open` and `Conn.Close`;
  - `BeginTransaction`, `Commit` and `Rollback`;
  - `ExecuteNonQuery` and `ExecuteReader`, with the command text and the parameters;
  - a reader's `Close` and `Dispose`, and a command's `Dispose`.

  So "never calls `Conn.Open`" reads as "the log gains no `ConnOpen`".
- `Conn.CreateCommand`, `Parameters.AddRange`, `cmd.Transaction = _transaction` and `dr.Read` are not logged. `Conn.State` and `IsClosed` are read from the model's state (`connState`, `closed`).
- A reader handle that `ExecuteReader` returns is never one still in `Readers`. A handle whose reader has left the registry may come back (`Scenarios.ReusedHandleIsClosedAgain`).
- What the driver returns is a parameter of the modelled method:
  - the connection state after `Conn.Open()`;
  - the row set and the reader handle behind `ExecuteReader`;
  - the count `ExecuteNonQuery` reports.
- `DateTime.Now` becomes a `now` argument counted in ticks.
- An exception becomes a `Failure`/`Fail` value carrying a `Fault`.

Class and loop structure:
- The C# `todo` delegate of `GetStructFromDB` is a function from the result set to a `Result`.
- Each materialiser splits `GetStructFromDB` at the delegate call. `StartReader` runs every step up to `Readers.Add(dr)`. Then the materialiser's own row loop runs (`ReadRows`, `ReadRecords`, …). `FinishReader` runs the steps after `todo(dr)` returns.
- All reader-based calls share one twostate predicate, `SqlWorker.ReadDone`, which states the state afterwards.

Behaviour of the code a caller may not expect:
- `TransactionCommit` and `TransactionRollback` close and dispose of every registered reader, but they never clear `Readers`. A reader stays registered after the commit (`Scenarios.ThrowingReaderInTransaction`).
- The pop from `Readers` and the closing of the connection in `GetStructFromDB` are not in a `finally`. If `todo` throws, the reader stays registered and open, and the connection stays open (`SqlWorker.ReadDone` with `returned == false`).
- `OpenConnection` returns `true` without opening when the debounce does not apply and nothing asks for a reopen. "Does not apply" means the pause is not positive, or the connection is already open. "Nothing asks" means a transaction is open, or `ReopenIfNotInTransaction` is false. So with a zero pause it can report success on a closed connection.
- The constructor sets `LastDisconnect` from the *argument*. With the default pause it is null, so the first `OpenConnection` on a fresh worker only records the time and fails, and the next one to succeed comes two minutes later (`Scenarios.DefaultPauseDefersFirstOpen`). With an explicit pause, the first attempt opens at once.
- The placeholder test of `QueryWithParams` is a substring test: a parameter `id` counts as present in a query that mentions `@idx` (`SqlBuilder.PrefixNameCountsAsPresent`).

## Model

| member | source | states |
|---|---|---|
| Text.ContainsChar | SqlWorker/ASqlWorker.cs:62 | `IndexOf('@') != -1` as a substring test says the same as `'@' in s`. |
| Text.IsNullOrWhiteSpace | SqlWorker/ASqlWorker.cs:243 | A null string counts as blank. A string counts iff every character in it is .NET white space. |
| Text.IsNullOrWhiteSpaceExamples | SqlWorker/ASqlWorker.cs:243 | The empty string and `" \t\r\n"` count as blank; `" id = 1 "` does not. |
| Parameters.NormalizedAll | SqlWorker/ASqlWorker.cs:74-78 | Normalising keeps the length and every name. It leaves every parameter whose value is not C# null as it was. It turns each null value into DBNull, so no null remains. |
| Parameters.SqlParameterNullWorkaround | SqlWorker/ASqlWorker.cs:74-78 | The array is rewritten in place; afterwards it holds the normalised parameters of the array before the call. |
| Parameters.NormalizedAllIdempotent | SqlWorker/ASqlWorker.cs:74-78 | Running the workaround a second time changes nothing. |
| Parameters.NotNullParams | SqlWorker/ASqlWorker.cs:80-85 | The result keeps exactly the parameters whose value is not null: each one it holds comes from the input, and none of them is null. It is no longer than the input. |
| Parameters.NotNullParamsConcat | SqlWorker/ASqlWorker.cs:80-85 | The filter keeps order: filtering a concatenation is concatenating the filtered parts. |
| Parameters.NotNullParamsOfNormalized | SqlWorker/ASqlWorker.cs:74-85 | After the null workaround the filter drops nothing. |
| Parameters.IsNullableParams | SqlWorker/ASqlWorker.cs:101-107 | The accumulated flag is true iff every type is a generic instance of ``System.Nullable`1``. |
| SqlBuilder.QueryWithParams | SqlWorker/ASqlWorker.cs:55-69 | The loop computes `WithParams`. A null array returns the query unchanged. The query is always a prefix of the result. |
| SqlBuilder.AppendMissingExtends | SqlWorker/ASqlWorker.cs:63-67 | The placeholder loop only ever appends to the text. |
| SqlBuilder.AppendMissingCovers | SqlWorker/ASqlWorker.cs:63-67 | After the loop, every parameter's `@name` occurs in the text. |
| SqlBuilder.AppendMissingSaturated | SqlWorker/ASqlWorker.cs:63-67 | When every `@name` already occurs, the loop appends nothing. |
| SqlBuilder.WithParamsCovers | SqlWorker/ASqlWorker.cs:55-69 | With parameters, the result starts with the query and contains every `@name`. |
| SqlBuilder.WithParamsIdempotent | SqlWorker/ASqlWorker.cs:55-69 | Completing an already completed query with the same parameters changes nothing. |
| SqlBuilder.WithParamsFirstSeparator | SqlWorker/ASqlWorker.cs:60-66 | If anything is appended, the first appended text is `" @"` when the query has no `'@'` and `", @"` when it has one. |
| SqlBuilder.Separator | SqlWorker/ASqlWorker.cs:65 | The separator always ends in `" @"`. It is exactly that iff it is the first one, and otherwise it starts with a comma. |
| SqlBuilder.AppendMissingSplit | SqlWorker/ASqlWorker.cs:63-67 | From the second turn on, the flag is false: the rest of the loop runs on the text the first `k` turns built. |
| SqlBuilder.LaterSeparators | SqlWorker/ASqlWorker.cs:65-66 | At turn `k >= 1`, `names[k]` is appended after `", @"` exactly when `"@" + names[k]` does not occur in the text so far. The later turns keep that text as a prefix. |
| SqlBuilder.BareQueryGainsPlaceholder | SqlWorker/ASqlWorker.cs:62-65 | A query with no `'@'` and one parameter `n` becomes `query + " @" + n`. |
| SqlBuilder.PrefixNameCountsAsPresent | SqlWorker/ASqlWorker.cs:65 | No `@id` placeholder is added to `"exec GetItem @idx"`, because `@idx` contains `@id`. |
| SqlBuilder.InsertText | SqlWorker/ASqlWorker.cs:184-194 | The two loops build exactly `InsertSql`: `INSERT INTO T (p0, …) VALUES (@p0, …);`. With no parameters the source fails at `param[0]`, modelled as `IndexOutOfRange`. |
| SqlBuilder.InsertListsAgree | SqlWorker/ASqlWorker.cs:184-194 | For comma-free names, the column list splits back into the names. The placeholder list splits into the same names prefixed by `@`, in the same order and the same number. |
| SqlBuilder.InsertPassesThrough | SqlWorker/ASqlWorker.cs:184-197 | `QueryWithParams`, applied to the INSERT text with its own parameters, leaves it unchanged. |
| SqlBuilder.SetText | SqlWorker/ASqlWorker.cs:215-218 | The SET loop builds `UPDATE T SET v0 = @v0, …`. |
| SqlBuilder.AssignmentListCovers | SqlWorker/ASqlWorker.cs:215-224 | Every name's `@name` occurs in a joined list of assignments. |
| SqlBuilder.UpdateText | SqlWorker/ASqlWorker.cs:213-224 | The loops build exactly `UpdateSql`. With no values they fail with `IndexOutOfRange`. |
| SqlBuilder.AppendConditions | SqlWorker/ASqlWorker.cs:220-224 | The WHERE loop appends ` WHERE c0 = @c0 AND …` to the text iff there are conditions, and appends nothing otherwise. |
| SqlBuilder.UpdateWhereClause | SqlWorker/ASqlWorker.cs:220-224 | A ` WHERE c0 = @c0 AND …` clause is appended iff the condition array is non-empty. |
| SqlBuilder.UpdatePassesThrough | SqlWorker/ASqlWorker.cs:215-228 | `QueryWithParams` with the parameters Values ++ Condition leaves the UPDATE text unchanged. |
| SqlBuilder.UpdateWhereText | SqlWorker/ASqlWorker.cs:236-244 | The loop builds exactly `UpdateWhereSql`. With no values it fails with `IndexOutOfRange`. |
| SqlBuilder.UpdateWhereLiteral | SqlWorker/ASqlWorker.cs:243-244 | `" WHERE " + condition` is appended iff the condition string is not null or white space. |
| SqlBuilder.UpdateWherePassesThrough | SqlWorker/ASqlWorker.cs:238-246 | `QueryWithParams` with the values leaves the string-condition UPDATE text unchanged. |
| Materialise.Cell | SqlWorker/ASqlWorker.cs:376 | `dr[i]` succeeds iff the row has a column `i`, and then it yields that cell. |
| Materialise.NullableScalar | SqlWorker/ASqlWorker.cs:376 | A row is never skipped. It yields column 0, with DBNull as null, and fails only when there is no column 0. |
| Materialise.NonNullScalar | SqlWorker/ASqlWorker.cs:382 | A row yields its column-0 value iff that cell is not DBNull, and fails only when there is no column 0. |
| Materialise.NonNullPair | SqlWorker/ASqlWorker.cs:412-415 | A row yields the pair of its first two cells iff neither is DBNull. It fails only when the row has fewer than two columns. |
| Materialise.CastPair | SqlWorker/ASqlWorker.cs:404 | Column 0 is cast before column 1 is read. A row yields the pair of its first two cells iff both are present. An empty row fails with `IndexOutOfRange`, and a DBNull in column 0 fails with `InvalidCast`, also on a one-column row. With column 0 present, a missing column 1 fails with `IndexOutOfRange` and a DBNull in it with `InvalidCast`. |
| Materialise.CastPairCastsFirst | SqlWorker/ASqlWorker.cs:404 | `[DBNull]` fails with `InvalidCast` and `[1]` with `IndexOutOfRange`. `[DBNull, DBNull]` fails with `InvalidCast`, and `[1, 2, DBNull]` gives `(1, 2)`. |
| Materialise.ReadRows | SqlWorker/ASqlWorker.cs:307-310 | The `while (dr.Read())` loop computes `Collect`: the kept items in row order, or the first row's failure. |
| Materialise.CollectFailureStops | SqlWorker/ASqlWorker.cs:307-310 | Once a row throws, the rows after it do not matter. |
| Materialise.CollectConcat | SqlWorker/ASqlWorker.cs:307-310 | Reading `a ++ b` gives the items of `a` followed by those of `b`, unless one of them fails. |
| Materialise.EveryRowMapsInOrder | SqlWorker/ASqlWorker.cs:302-313 | The list succeeds iff `todo` succeeds on every row. Then it has one entry per row, namely `todo` of that row, in order. |
| Materialise.NullableScalarsKeepEveryRow | SqlWorker/ASqlWorker.cs:371-377 | For a nullable `T` the list has one entry per row: column 0, with DBNull as null. |
| Materialise.NonNullScalarsSkipDbNull | SqlWorker/ASqlWorker.cs:378-384 | For a non-nullable `T` the list is exactly the non-DBNull column-0 values, in row order. |
| Materialise.ScalarsNeedAColumn | SqlWorker/ASqlWorker.cs:376-382 | A row without a column 0 makes both branches fail with `IndexOutOfRange`. |
| Materialise.ScalarsExample | SqlWorker/ASqlWorker.cs:369-385 | Column 0 values `1, DBNull, 3` give `[1, 3]` in the non-nullable branch and `[1, null, 3]` in the nullable one. |
| Materialise.NonNullPairsKeepComplete | SqlWorker/ASqlWorker.cs:406-418 | The non-nullable tuple branch keeps a row iff both its first two cells are non-DBNull, in row order. |
| Materialise.PairsExample | SqlWorker/ASqlWorker.cs:406-418 | `(1,2), (3,DBNull), (DBNull,4)` give `[(1,2)]`. |
| Materialise.WellShapedLookup | SqlWorker/ASqlWorker.cs:438 | In a result set whose rows have a cell per column, `dr[name]` fails iff no column has the name. Otherwise it yields the cell of the first column with that name. |
| Materialise.ColumnIndex | SqlWorker/ASqlWorker.cs:438 | The indexer by name finds the first column with that name, and it finds none iff no column has the name. |
| Materialise.Lookup | SqlWorker/ASqlWorker.cs:438 | `dr[name]` fails with `ColumnNotFound` iff no column has the name. Otherwise, on a full row, it yields the cell of the first column with that name. |
| Materialise.AssignField | SqlWorker/ASqlWorker.cs:438 | The column is looked up for every property, get-only ones included. A property succeeds iff its column exists and, when it is settable and its cell is not DBNull, the value is assignable. A failure carries the lookup's exception or `NotAssignable`, and a get-only property never fails with `NotAssignable`. On success only that property can change, and it changes exactly when it is settable and its cell is not DBNull. |
| Materialise.AssignFieldTolerant | SqlWorker/ASqlWorker.cs:426-427 | A failing property leaves the record unchanged and appends its exception to `Errors`. A succeeding one leaves `Errors` unchanged. |
| Materialise.Defaults | SqlWorker/ASqlWorker.cs:423 | `new T()` has a value for every field. |
| Materialise.DefaultsAt | SqlWorker/ASqlWorker.cs:423 | When field names are unique, `new T()` holds each field's default. |
| Materialise.AssignAllSucceedsIff | SqlWorker/ASqlWorker.cs:436-439 | The strict mapping succeeds iff every field has a column and every non-DBNull value of a settable field is assignable to it. |
| Materialise.AssignAllContents | SqlWorker/ASqlWorker.cs:436-439 | After a successful mapping the record has the same fields as before. Each settable field holds its column's value, or keeps its old value when the column is DBNull. A get-only field keeps its old value. Every other entry is unchanged. |
| Materialise.ToRecordContents | SqlWorker/ASqlWorker.cs:433-442 | In a successfully built record each settable field holds its column's value, or its default when the column is DBNull. A get-only field keeps its default. |
| Materialise.DataReaderToObj | SqlWorker/ASqlWorker.cs:433-442 | The property loop computes `ToRecord` from `new T()`. It stops at the first missing column or at the first value a settable property rejects. |
| Materialise.AssignAllFailureStops | SqlWorker/ASqlWorker.cs:436-439 | Once a property throws, the later properties do not matter. |
| Materialise.TolerantAgreesWithStrict | SqlWorker/ASqlWorker.cs:421-442 | The tolerant loop only appends to `Errors`. It appends nothing iff the strict loop succeeds, and then both build the same record. Otherwise the first error appended is the one the strict loop throws. |
| Materialise.DataReaderToObjTolerant | SqlWorker/ASqlWorker.cs:421-431 | The property loop with `try`/`catch` computes `AssignAllTolerant` from `new T()`. |
| Materialise.ReadRecords | SqlWorker/ASqlWorker.cs:332-340 | The row loop of the strict `GetListFromDB` maps each row with `DataReaderToObj`, in order. |
| Materialise.TolerantRecordsKeepEveryRow | SqlWorker/ASqlWorker.cs:348-356 | The tolerant list has one record per row, and errors are only appended. |
| Materialise.AssignAllTolerantShift | SqlWorker/ASqlWorker.cs:421-431 | The tolerant mapper's record does not depend on the `Errors` list it is given; it only appends its own errors to it. |
| Materialise.TolerantRecordsContents | SqlWorker/ASqlWorker.cs:348-356 | Record `k` is the tolerant mapping of row `k`, and the strict record whenever that row reports no error. `Errors` receives each row's errors, in row order. |
| Materialise.ReadRecordsTolerant | SqlWorker/ASqlWorker.cs:348-356 | The row loop of the tolerant `GetListFromDB` computes `TolerantRecords`. |
| Worker.CloseLogFinalisesAll | SqlWorker/ASqlWorker.cs:124 | The close loop disposes of every registered reader and closes each one not yet closed. It never closes a reader twice and touches no other reader. |
| Worker.SqlWorker.constructor | SqlWorker/ASqlWorker.cs:25-29 | The pause is the argument or two minutes. `LastDisconnect` is null iff no argument was given, and `now - pause` otherwise. The constructor does not touch `Conn`, which a subclass supplies; the model assumes that connection starts closed. No transaction is open, and nothing is registered. |
| Worker.SqlWorker.OpenConnection | SqlWorker/ASqlWorker.cs:31-53 | This method has four cases and the state each leaves. (1) Debouncing with no failure recorded: it records `now` and returns false without touching the driver. (2) Inside the pause: it returns false and changes nothing. (3) Not debouncing, and a transaction is open or no reopen was asked: it returns true and changes nothing. (4) Otherwise it closes the connection unless it is closed, opens it, clears `LastDisconnect` and the transaction flag, and returns whether the state is Open. |
| Worker.SqlWorker.TransactionBegin | SqlWorker/ASqlWorker.cs:110-119 | With a transaction open it fails with `TransactionExists` and changes nothing. Otherwise it opens the connection if needed, begins a transaction and sets the flag. |
| Worker.SqlWorker.CloseReaders | SqlWorker/ASqlWorker.cs:124 | The loop makes the close and dispose calls `CloseLog` lists and marks every registered reader closed. It leaves the registry as it was. |
| Worker.SqlWorker.TransactionCommit | SqlWorker/ASqlWorker.cs:121-128 | With no transaction it fails with `NoTransaction` and changes nothing. Otherwise it closes the readers, commits, and closes the connection iff `closeConn`. It clears the flag and keeps the registry. |
| Worker.SqlWorker.TransactionRollback | SqlWorker/ASqlWorker.cs:130-137 | The same as commit, with a rollback. |
| Worker.SqlWorker.DoInTransaction | SqlWorker/ASqlWorker.cs:139-144 | It fails like `TransactionBegin` when a transaction is open. If the action throws, the transaction stays open. Otherwise it ends with a commit, and the connection is closed iff `closeConn`. |
| Worker.SqlWorker.ExecuteNonQuery | SqlWorker/ASqlWorker.cs:162-174 | The parameters are normalised in place. The command is run with the completed text and the normalised parameters, after opening the connection if needed. Afterwards the connection is open iff a transaction is open. It returns the driver's count and leaves the flag and the registry alone. |
| Worker.SqlWorker.InsertValues | SqlWorker/ASqlWorker.cs:180-197 | With no parameters it fails with `IndexOutOfRange` and makes no driver call. Otherwise it runs exactly the INSERT text with the normalised parameters, with the same connection handling as `ExecuteNonQuery`. |
| Worker.SqlWorker.UpdateValues | SqlWorker/ASqlWorker.cs:211-229 | With no values it fails with `IndexOutOfRange`. Otherwise it runs exactly the UPDATE … WHERE text with the normalised Values ++ Condition, also when both arrays are the same array. |
| Worker.SqlWorker.ToArray | SqlWorker/ASqlWorker.cs:226-228 | `param.ToArray()` is a new array holding Values ++ Condition. |
| Worker.SqlWorker.UpdateValuesWhere | SqlWorker/ASqlWorker.cs:234-247 | With no values it fails with `IndexOutOfRange`. Otherwise it runs exactly the UPDATE text with the literal condition and the normalised values. |
| Worker.SqlWorker.StartReader | SqlWorker/ASqlWorker.cs:261-270 | It normalises the parameters, opens the connection if needed and executes the reader. The handle must not be in the registry already. The new reader is open, even when its handle was seen before. It is pushed at index `Count`, which is returned. |
| Worker.SqlWorker.FinishReader | SqlWorker/ASqlWorker.cs:273-279 | It closes and disposes of the reader, and removes entry `drid`. It disposes of the command and closes the connection iff no transaction is open. |
| Worker.SqlWorker.GetStructFromDB | SqlWorker/ASqlWorker.cs:259-282 | It returns `todo`'s result, and the parameters are normalised in place. On normal return the registry is what it was before the call, and the connection is closed iff no transaction is open. If `todo` throws, the reader stays registered and the connection stays open. |
| Worker.SqlWorker.GetListFromDBSingleProcessing | SqlWorker/ASqlWorker.cs:302-313 | It returns the list `EveryRow` collects (see `EveryRowMapsInOrder`), with the reader bookkeeping of `GetStructFromDB`. |
| Worker.SqlWorker.GetListFromDB | SqlWorker/ASqlWorker.cs:330-341 | It returns one record per row by the strict mapping, or the first row's failure, with the reader bookkeeping of `GetStructFromDB`. |
| Worker.SqlWorker.GetListFromDBTolerant | SqlWorker/ASqlWorker.cs:346-357 | It returns one record per row together with the extended error list, and always returns normally. |
| Worker.SqlWorker.GetScalarsListFromDB | SqlWorker/ASqlWorker.cs:369-385 | For a nullable `T` it keeps every row's column 0. Otherwise it keeps only the non-DBNull cells; see the two scalar lemmas. |
| Worker.SqlWorker.GetTupleFromDB | SqlWorker/ASqlWorker.cs:397-419 | The nullable branch runs only when both types are nullable. There, each row goes through `CastPair`, so the first DBNull among the two cells fails with `InvalidCast`. Otherwise only complete rows are kept; see `NonNullPairsKeepComplete`. |
| Scenarios.DefaultPauseDefersFirstOpen | SqlWorker/ASqlWorker.cs:25-41 | With the default pause, the first attempt and one a tick short of two minutes later both fail. The attempt at two minutes opens. |
| Scenarios.ExplicitPauseOpensAtOnce | SqlWorker/ASqlWorker.cs:25-53 | With any explicit pause the first attempt opens at once, with a single `Open` call. |
| Scenarios.FailedOpenBacksOff | SqlWorker/ASqlWorker.cs:31-53 | After an open that leaves the connection unusable, the next attempt only records the time. The attempt a full pause after that closes and reopens. |
| Scenarios.TransactionGuards | SqlWorker/ASqlWorker.cs:110-137 | A second begin and a rollback without a transaction are refused and make no driver call. |
| Scenarios.NonQueryOutsideTransaction | SqlWorker/ASqlWorker.cs:162-174 | A non-query on a fresh worker runs as open, execute with the completed text and a DBNull parameter, dispose, close. |
| Scenarios.ThrowingReaderInTransaction | SqlWorker/ASqlWorker.cs:121-128 | When `todo` throws inside a transaction, its reader is closed and disposed only by the commit, and it stays in the registry. |
| Scenarios.ReusedHandleIsClosedAgain | SqlWorker/ASqlWorker.cs:267-279 | A reader handle that comes back from a later `ExecuteReader` is a new, open reader, so the commit closes it before disposing of it. |

## Left out

- `DbParameterConstructor` and `DictionaryToDbParameters` (87-99) are left out, with every overload that takes a dictionary. They depend on the concrete driver and on dictionary enumeration order.
- The overloads that wrap a single parameter or none into an array (153-160, 202-209, 250-257 and the like) are left out. Each one is the array overload applied to `[p]` or `[]`.
- The `ReturnIdentity` path of `InsertValues` (196-198), `SCOPE_IDENTITY()` and `Decimal.ToInt32`, is left out.
- Exception messages are left out. An exception is a `Fault`, and the tolerant `DataReaderToObj` appends that `Fault` where the source appends `e.ToString()`.
- Driver failures are left out. `TransactionBegin`, `ExecuteNonQuery` and `GetStructFromDB` assume `Conn.Open()` leaves the connection open and `Close()` leaves it closed. Only `OpenConnection` is told the state after `Open`.
- `cmd.Transaction = _transaction` and the transaction handle are represented only by the `BeginTx`, `CommitTx` and `RollbackTx` calls in the log.
- `IndexOf` with a string argument is culture-sensitive in .NET. The model uses ordinal substring search.
- `Worker.SqlWorker.UpdateValues`: `DbParameter` objects are references in the source, so normalising the combined list also changes the objects in the `Condition` array. The model treats parameters as values, so the `Condition` array is not changed. The executed parameters are normalised as in the source.
- Reflection is left out. The properties of `T` are an explicit field list with defaults and a flag for get-only properties, whose `SetValue` neither assigns nor throws. `PropertyDescriptor.SetValue` succeeding is an `accepts` predicate, and the casts `(T)` are the identity on the value type `V`.
- `DoInTransaction`: the action is modelled only by whether it returns or throws, not by what it does.
- `GetScalarsListFromDB` reaches the rows through `GetListFromDBSingleProcessing` in its nullable branch. The model runs the same row loop inside the same single reader call, so the driver calls are the same.
- The `i != null` test in the close loop is left out: readers are never null in the model.
- `DateTime` arithmetic overflow is left out. Times and pauses are unbounded tick counts.
- `SqlWorker/SWParameters.cs` is not part of this model. It is a list subclass with a single append helper.
- Concurrency is left out: the class has no locking and no threads.
- Null arguments are left out, because Dafny arrays and strings cannot be null. A null parameter array makes `ExecuteNonQuery`, `InsertValues` and `GetStructFromDB` throw in the workaround loop (76) before `QueryWithParams` sees it, so the null case of `WithParams` is reachable only from `QueryWithParams` itself. A null `Condition` array throws at 220, and a null `Errors` list throws at 427 on the first error.
- The delegates are pure functions of the rows. In the source `todo` receives the live reader and may call back into the worker or read rows itself. A `todo` that catches a failing nested reader call returns with that reader still in `Readers`. A `todo` that commits makes line 279 close the connection. The model promises `ReadDone` only for a `todo` that does neither.
- `DataReaderToObj` is modelled for a class `T`. For a struct `T`, `SetValue` at 438 writes to a boxed copy, so the source returns `new T()` unchanged; `ToRecordContents` and `AssignAllContents` do not describe that case.
- `Materialise.ColumnIndex`: the name match is exact and case-sensitive. The source's `dr[name]` is the driver's indexer, which falls back to a case-insensitive match when no column matches exactly.
- `Materialise.Lookup`: it inherits the exact-case match of `ColumnIndex`, so a column that differs from a property name only in case is `ColumnNotFound` in the model, where a driver would usually find it.
- Overriding is left out. Every member of `ASqlWorker` is virtual and `Conn` is abstract. The model is the base-class behaviour with nothing overridden, over one connection that starts closed.
