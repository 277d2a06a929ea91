/**
 * `ASqlWorker`: one connection, its transaction flag, the reconnect debounce and the
 * registry of open readers. The driver is abstract: each call into it is recorded in
 * `log`, and what it returns (rows, affected counts, reader handles, the state after
 * `Open`) comes in as a parameter.
 */
module Worker {
  import opened Wrappers
  import opened Faults
  import opened Parameters
  import opened SqlBuilder
  import opened Materialise

  /** `Conn.State`; `Other` is Connecting, Executing, Fetching or Broken. */
  datatype ConnState = Open | Closed | Other

  /** A `DbDataReader` the driver handed out. */
  type ReaderId = nat

  /** A call into the driver, in the order the worker makes them. */
  datatype DriverCall<V> =
    | ConnOpen
    | ConnClose
    | BeginTx
    | CommitTx
    | RollbackTx
    | ExecNonQuery(text: string, params: seq<Param<V>>)
    | ExecReader(text: string, params: seq<Param<V>>)
    | ReaderClose(reader: ReaderId)
    | ReaderDispose(reader: ReaderId)
    | CommandDispose

  /** `new TimeSpan(0, 2, 0)` in ticks of 100 ns. */
  const DefaultReconnectPause: int := 1_200_000_000

  function ReaderSet(rs: seq<ReaderId>): set<ReaderId>
  {
    set r | r in rs
  }

  /**
   * The calls of `foreach (var i in Readers) { if (!i.IsClosed) i.Close(); i.Dispose(); }`
   * when the readers in `closed` are already closed.
   */
  function CloseLog<V>(rs: seq<ReaderId>, closed: set<ReaderId>): seq<DriverCall<V>>
    decreases |rs|
  {
    if rs == [] then []
    else (if rs[0] in closed then [] else [ReaderClose(rs[0])]) + [ReaderDispose(rs[0])]
         + CloseLog(rs[1..], closed + {rs[0]})
  }

  /**
   * Finalising a transaction disposes of every registered reader, closes each one that was
   * still open, and touches no other reader and nothing else.
   */
  lemma {:induction false} CloseLogFinalisesAll<V>(rs: seq<ReaderId>, closed: set<ReaderId>)
    ensures forall r | r in rs :: ReaderDispose(r) in CloseLog<V>(rs, closed)
    ensures forall r | r in rs && r !in closed :: ReaderClose(r) in CloseLog<V>(rs, closed)
    ensures forall c | c in CloseLog<V>(rs, closed) :: (c.ReaderClose? || c.ReaderDispose?) && c.reader in rs
    ensures forall c | c in CloseLog<V>(rs, closed) && c.ReaderClose? :: c.reader !in closed
    ensures forall i, j | 0 <= i < j < |CloseLog<V>(rs, closed)| && CloseLog<V>(rs, closed)[i].ReaderClose? ::
      CloseLog<V>(rs, closed)[j] != CloseLog<V>(rs, closed)[i]
    decreases |rs|
  {
    if rs != [] {
      var rest := CloseLog<V>(rs[1..], closed + {rs[0]});
      CloseLogFinalisesAll<V>(rs[1..], closed + {rs[0]});
      forall r | r in rs[1..] ensures r in rs { }
      var chunk: seq<DriverCall<V>> := (if rs[0] in closed then [] else [ReaderClose(rs[0])]) + [ReaderDispose(rs[0])];
      var log := CloseLog<V>(rs, closed);
      assert log == chunk + rest;
      forall i, j | 0 <= i < j < |log| && log[i].ReaderClose? ensures log[j] != log[i]
      {
        if i >= |chunk| {
          assert log[i] == rest[i - |chunk|] && log[j] == rest[j - |chunk|];
        } else if j >= |chunk| {
          // the only close in `chunk` is of `rs[0]`, which `rest` treats as closed
          assert log[j] == rest[j - |chunk|];
          assert log[j] in rest;
        }
      }
    }
  }

  /** The list a materialiser returns, tagged with how the branch treats `T`. */
  datatype ScalarList<V> = Nullables(items: seq<Option<V>>) | NonNulls(values: seq<V>)

  function AsNullables<V>(r: Result<seq<Option<V>>, Fault>): Result<ScalarList<V>, Fault>
  {
    match r
    case Failure(e) => Failure(e)
    case Success(xs) => Success(Nullables(xs))
  }

  function AsNonNulls<V>(r: Result<seq<V>, Fault>): Result<ScalarList<V>, Fault>
  {
    match r
    case Failure(e) => Failure(e)
    case Success(xs) => Success(NonNulls(xs))
  }

  class SqlWorker<V> {
    var connState: ConnState
    /** `ReConnectPause.Ticks`. */
    var pause: int
    /** `LastDisconnect` as a tick count. */
    var lastDisconnect: Option<int>
    /** `_transactionIsOpened`. */
    var txOpen: bool
    /** `Readers`. */
    var readers: seq<ReaderId>
    /** The readers whose `IsClosed` is true. */
    var closed: set<ReaderId>
    /** Every driver call made so far. */
    var log: seq<DriverCall<V>>

    /**
     * `ASqlWorker(reconnectPause)`: `LastDisconnect = Now - reconnectPause` uses the
     * argument, so it is null exactly when the default pause is taken. The constructor does
     * not touch `Conn`, which a subclass supplies; the model assumes it starts closed.
     */
    constructor (reconnectPause: Option<int>, now: int)
      ensures pause == (if reconnectPause.None? then DefaultReconnectPause else reconnectPause.value)
      ensures lastDisconnect == (if reconnectPause.None? then None else Some(now - reconnectPause.value))
      ensures connState == Closed && !txOpen && readers == [] && closed == {} && log == []
    {
      pause := if reconnectPause.None? then DefaultReconnectPause else reconnectPause.value;
      lastDisconnect := if reconnectPause.None? then None else Some(now - reconnectPause.value);
      connState := Closed;
      txOpen := false;
      readers := [];
      closed := {};
      log := [];
    }

    /** The debounce applies: not open and a positive pause. */
    predicate Backoff()
      reads this
    {
      connState != Open && pause > 0
    }

    /**
     * `OpenConnection(ReopenIfNotInTransaction)` at time `now`; `stateAfterOpen` is what
     * `Conn.State` reads after `Conn.Open()`.
     */
    method OpenConnection(reopenIfNotInTransaction: bool, now: int, stateAfterOpen: ConnState) returns (ok: bool)
      modifies this
      // first failure: remember the time, do not open
      ensures old(Backoff()) && old(lastDisconnect).None? ==>
        !ok && lastDisconnect == Some(now) && connState == old(connState) && txOpen == old(txOpen)
        && log == old(log) && readers == old(readers) && closed == old(closed) && pause == old(pause)
      // inside the pause window: nothing happens
      ensures old(Backoff()) && old(lastDisconnect).Some? && now - old(lastDisconnect).value < old(pause) ==>
        !ok && unchanged(this)
      // open (or no pause) and nothing asks for a reopen: reuse as is
      ensures !old(Backoff()) && (old(txOpen) || !reopenIfNotInTransaction) ==>
        ok && unchanged(this)
      // otherwise: close if not closed, open, forget the failure and the transaction
      ensures (if old(Backoff())
               then old(lastDisconnect).Some? && now - old(lastDisconnect).value >= old(pause)
               else !old(txOpen) && reopenIfNotInTransaction) ==>
        && lastDisconnect == None && !txOpen && connState == stateAfterOpen
        && log == old(log) + (if old(connState) != Closed then [ConnClose] else []) + [ConnOpen]
        && ok == (stateAfterOpen == Open)
        && readers == old(readers) && closed == old(closed) && pause == old(pause)
    {
      if connState != Open && pause > 0 {
        if lastDisconnect == None {
          lastDisconnect := Some(now);
          return false;
        }
        if now - lastDisconnect.value < pause {
          return false;
        }
      } else {
        if txOpen || !reopenIfNotInTransaction {
          return true;
        }
      }
      lastDisconnect := None;
      if connState != Closed {
        connState := Closed;
        log := log + [ConnClose];
      }
      connState := stateAfterOpen;
      log := log + [ConnOpen];
      txOpen := false;
      ok := connState == Open;
    }

    /** The calls `if (Conn.State != ConnectionState.Open) Conn.Open();` makes. */
    function OpenIfNeeded(s: ConnState): seq<DriverCall<V>>
    {
      if s != Open then [ConnOpen] else []
    }

    /** `TransactionBegin`. */
    method TransactionBegin() returns (r: Outcome<Fault>)
      modifies this
      ensures old(txOpen) ==> r == Fail(TransactionExists) && unchanged(this)
      ensures !old(txOpen) ==>
        && r == Pass && txOpen && connState == Open
        && log == old(log) + OpenIfNeeded(old(connState)) + [BeginTx]
        && readers == old(readers) && closed == old(closed)
        && pause == old(pause) && lastDisconnect == old(lastDisconnect)
    {
      if txOpen {
        return Fail(TransactionExists);
      }
      if connState != Open {
        connState := Open;
        log := log + [ConnOpen];
      }
      log := log + [BeginTx];
      txOpen := true;
      r := Pass;
    }

    /** The close-and-dispose loop over `Readers`; the registry itself is kept. */
    method CloseReaders()
      modifies this
      ensures log == old(log) + CloseLog(old(readers), old(closed))
      ensures closed == old(closed) + ReaderSet(old(readers))
      ensures readers == old(readers) && connState == old(connState) && txOpen == old(txOpen)
      ensures pause == old(pause) && lastDisconnect == old(lastDisconnect)
    {
      var calls := log;
      var done := closed;
      var i := 0;
      while i < |readers|
        invariant 0 <= i <= |readers|
        invariant done == old(closed) + ReaderSet(readers[..i])
        invariant calls + CloseLog(readers[i..], done) == old(log) + CloseLog(readers, old(closed))
      {
        var dr := readers[i];
        assert readers[i..][1..] == readers[i + 1..];
        if dr !in done {
          calls := calls + [ReaderClose(dr)];
        }
        calls := calls + [ReaderDispose(dr)];
        assert readers[..i + 1] == readers[..i] + [dr];
        assert ReaderSet(readers[..i + 1]) == ReaderSet(readers[..i]) + {dr};
        done := done + {dr};
        i := i + 1;
      }
      assert readers[i..] == [];
      assert readers[..i] == readers;
      log := calls;
      closed := done;
    }

    /** `TransactionCommit(closeConn)`. */
    method TransactionCommit(closeConn: bool) returns (r: Outcome<Fault>)
      modifies this
      ensures !old(txOpen) ==> r == Fail(NoTransaction) && unchanged(this)
      ensures old(txOpen) ==>
        && r == Pass && !txOpen
        && log == old(log) + CloseLog(old(readers), old(closed)) + [CommitTx]
                  + (if closeConn then [ConnClose] else [])
        && connState == (if closeConn then Closed else old(connState))
        && readers == old(readers) && closed == old(closed) + ReaderSet(old(readers))
        && pause == old(pause) && lastDisconnect == old(lastDisconnect)
    {
      if !txOpen {
        return Fail(NoTransaction);
      }
      CloseReaders();
      log := log + [CommitTx];
      if closeConn {
        connState := Closed;
        log := log + [ConnClose];
      }
      txOpen := false;
      r := Pass;
    }

    /** `TransactionRollback(closeConn)`. */
    method TransactionRollback(closeConn: bool) returns (r: Outcome<Fault>)
      modifies this
      ensures !old(txOpen) ==> r == Fail(NoTransaction) && unchanged(this)
      ensures old(txOpen) ==>
        && r == Pass && !txOpen
        && log == old(log) + CloseLog(old(readers), old(closed)) + [RollbackTx]
                  + (if closeConn then [ConnClose] else [])
        && connState == (if closeConn then Closed else old(connState))
        && readers == old(readers) && closed == old(closed) + ReaderSet(old(readers))
        && pause == old(pause) && lastDisconnect == old(lastDisconnect)
    {
      if !txOpen {
        return Fail(NoTransaction);
      }
      CloseReaders();
      log := log + [RollbackTx];
      if closeConn {
        connState := Closed;
        log := log + [ConnClose];
      }
      txOpen := false;
      r := Pass;
    }

    /**
     * `DoInTransaction(todo, closeConn)`: begin, the action, commit. `actionReturns` says
     * whether `todo()` returned normally; if it threw, the transaction stays open.
     */
    method DoInTransaction(actionReturns: bool, closeConn: bool) returns (r: Outcome<Fault>)
      modifies this
      ensures old(txOpen) ==> r == Fail(TransactionExists) && unchanged(this)
      ensures !old(txOpen) && !actionReturns ==>
        && r == Fail(ActionThrew) && txOpen && connState == Open
        && log == old(log) + OpenIfNeeded(old(connState)) + [BeginTx]
        && readers == old(readers) && closed == old(closed)
      ensures !old(txOpen) && actionReturns ==>
        && r == Pass && !txOpen
        && log == old(log) + OpenIfNeeded(old(connState)) + [BeginTx]
                  + CloseLog(old(readers), old(closed)) + [CommitTx]
                  + (if closeConn then [ConnClose] else [])
        && connState == (if closeConn then Closed else Open)
        && readers == old(readers) && closed == old(closed) + ReaderSet(old(readers))
      ensures pause == old(pause) && lastDisconnect == old(lastDisconnect)
    {
      r := TransactionBegin();
      if r.Fail? {
        return;
      }
      if !actionReturns {
        return Fail(ActionThrew);
      }
      r := TransactionCommit(closeConn);
    }

    /**
     * `ExecuteNonQuery(Command, param)`: nulls become DBNull, the placeholders are
     * completed, the connection is opened if needed and closed again when no transaction
     * is open. `affected` is what the driver's `ExecuteNonQuery` returns.
     */
    method ExecuteNonQuery(command: string, param: array<Param<V>>, affected: int) returns (n: int)
      modifies this, param
      ensures param[..] == NormalizedAll(old(param[..]))
      ensures n == affected
      ensures log == old(log) + OpenIfNeeded(old(connState))
                     + [ExecNonQuery(WithParams(command, Some(Names(old(param[..])))), NormalizedAll(old(param[..])))]
                     + (if txOpen then [] else [CommandDispose, ConnClose])
      ensures connState == (if txOpen then Open else Closed)
      ensures txOpen == old(txOpen) && readers == old(readers) && closed == old(closed)
      ensures pause == old(pause) && lastDisconnect == old(lastDisconnect)
    {
      SqlParameterNullWorkaround(param);
      assert Names(param[..]) == Names(old(param[..]));
      var text := QueryWithParams(command, Some(Names(param[..])));
      if connState != Open {
        connState := Open;
        log := log + [ConnOpen];
      }
      log := log + [ExecNonQuery(text, param[..])];
      n := affected;
      if !txOpen {
        log := log + [CommandDispose];
      }
      if !txOpen {
        connState := Closed;
        log := log + [ConnClose];
      }
    }

    /** `InsertValues(TableName, param)` without `ReturnIdentity`. */
    method InsertValues(table: string, param: array<Param<V>>, affected: int) returns (r: Result<int, Fault>)
      modifies this, param
      ensures param[..] == NormalizedAll(old(param[..]))
      ensures param.Length == 0 ==> r == Failure(IndexOutOfRange) && unchanged(this)
      ensures param.Length > 0 ==>
        && r == Success(affected)
        && log == old(log) + OpenIfNeeded(old(connState))
                  + [ExecNonQuery(InsertSql(table, Names(old(param[..]))).value, NormalizedAll(old(param[..])))]
                  + (if txOpen then [] else [CommandDispose, ConnClose])
        && connState == (if txOpen then Open else Closed)
        && txOpen == old(txOpen) && readers == old(readers) && closed == old(closed)
        && pause == old(pause) && lastDisconnect == old(lastDisconnect)
    {
      SqlParameterNullWorkaround(param);
      ghost var names := Names(old(param[..]));
      assert Names(param[..]) == names;
      var q := InsertText(table, Names(param[..]));
      if q.Failure? {
        return Failure(q.error);
      }
      InsertPassesThrough(table, names);
      NormalizedAllIdempotent(old(param[..]));
      var n := ExecuteNonQuery(q.value, param, affected);
      r := Success(n);
    }

    /** Copies the parameters into a new array, as `param.ToArray()` does. */
    method ToArray(ps: seq<Param<V>>) returns (a: array<Param<V>>)
      ensures fresh(a) && a[..] == ps
    {
      a := new Param<V>[|ps|](i requires 0 <= i < |ps| => ps[i]);
    }

    /** `UpdateValues(TableName, Values, Condition[])`. */
    method UpdateValues(table: string, values: array<Param<V>>, condition: array<Param<V>>, affected: int)
      returns (r: Result<int, Fault>)
      modifies this, values
      ensures values[..] == NormalizedAll(old(values[..]))
      ensures values.Length == 0 ==> r == Failure(IndexOutOfRange) && unchanged(this)
      ensures values.Length > 0 ==>
        && r == Success(affected)
        && log == old(log) + OpenIfNeeded(old(connState))
                  + [ExecNonQuery(UpdateSql(table, Names(old(values[..])), Names(old(condition[..]))).value,
                                  NormalizedAll(old(values[..]) + old(condition[..])))]
                  + (if txOpen then [] else [CommandDispose, ConnClose])
        && connState == (if txOpen then Open else Closed)
        && txOpen == old(txOpen) && readers == old(readers) && closed == old(closed)
        && pause == old(pause) && lastDisconnect == old(lastDisconnect)
    {
      SqlParameterNullWorkaround(values);
      ghost var vs := old(values[..]);
      ghost var cs := old(condition[..]);
      // `condition` may be `values` itself, in which case it was normalised too
      if condition == values {
        assert condition[..] == NormalizedAll(cs);
      } else {
        assert condition[..] == cs;
      }
      NamesOfNormalized(vs);
      NamesOfNormalized(cs);
      NormalizedAllIdempotent(cs);
      var q := UpdateText(table, Names(values[..]), Names(condition[..]));
      if q.Failure? {
        return Failure(q.error);
      }
      var all := ToArray(values[..] + condition[..]);
      NormalizedConcat(values[..], condition[..]);
      NormalizedConcat(vs, cs);
      NormalizedAllIdempotent(vs);
      UpdatePassesThrough(table, Names(vs), Names(cs));
      var n := ExecuteNonQuery(q.value, all, affected);
      r := Success(n);
    }

    /** `UpdateValues(TableName, Values, String Condition)`, `None` for a null condition. */
    method UpdateValuesWhere(table: string, values: array<Param<V>>, condition: Option<string>, affected: int)
      returns (r: Result<int, Fault>)
      modifies this, values
      ensures values[..] == NormalizedAll(old(values[..]))
      ensures values.Length == 0 ==> r == Failure(IndexOutOfRange) && unchanged(this)
      ensures values.Length > 0 ==>
        && r == Success(affected)
        && log == old(log) + OpenIfNeeded(old(connState))
                  + [ExecNonQuery(UpdateWhereSql(table, Names(old(values[..])), condition).value,
                                  NormalizedAll(old(values[..])))]
                  + (if txOpen then [] else [CommandDispose, ConnClose])
        && connState == (if txOpen then Open else Closed)
        && txOpen == old(txOpen) && readers == old(readers) && closed == old(closed)
        && pause == old(pause) && lastDisconnect == old(lastDisconnect)
    {
      SqlParameterNullWorkaround(values);
      ghost var vs := old(values[..]);
      assert Names(values[..]) == Names(vs);
      var q := UpdateWhereText(table, Names(values[..]), condition);
      if q.Failure? {
        return Failure(q.error);
      }
      UpdateWherePassesThrough(table, Names(vs), condition);
      NormalizedAllIdempotent(vs);
      var n := ExecuteNonQuery(q.value, values, affected);
      r := Success(n);
    }

    /**
     * The state after a reader-based call `ExecuteReader(command, ps)` on the reader `dr`:
     * when `todo` returned (`returned`), the reader was closed, the registry is what it was
     * and the connection is closed unless a transaction is open; when `todo` threw, the
     * reader stays registered and the connection stays open.
     */
    twostate predicate ReadDone(command: string, ps: seq<Param<V>>, dr: ReaderId, returned: bool)
      reads this
    {
      && pause == old(pause) && lastDisconnect == old(lastDisconnect) && txOpen == old(txOpen)
      && readers == (if returned then old(readers) else old(readers) + [dr])
      && closed == (if returned then old(closed) + {dr} else old(closed) - {dr})
      && connState == (if returned && !txOpen then Closed else Open)
      && log == old(log) + OpenIfNeeded(old(connState))
                + [ExecReader(WithParams(command, Some(Names(ps))), NormalizedAll(ps))]
                + (if returned then [ReaderClose(dr), ReaderDispose(dr), CommandDispose]
                                    + (if txOpen then [] else [ConnClose])
                   else [])
    }

    /**
     * `GetStructFromDB` up to `Readers.Add(dr)`: returns the slot `drid = Readers.Count`. The
     * reader `ExecuteReader` hands out is open; its handle may be one seen before, so long as
     * that reader is no longer in the registry.
     */
    method StartReader(command: string, param: array<Param<V>>, dr: ReaderId) returns (drid: nat)
      requires dr !in readers
      modifies this, param
      ensures param[..] == NormalizedAll(old(param[..]))
      ensures drid == |old(readers)| && readers == old(readers) + [dr]
      ensures connState == Open
      ensures log == old(log) + OpenIfNeeded(old(connState))
                     + [ExecReader(WithParams(command, Some(Names(old(param[..])))), NormalizedAll(old(param[..])))]
      ensures closed == old(closed) - {dr}
      ensures txOpen == old(txOpen)
      ensures pause == old(pause) && lastDisconnect == old(lastDisconnect)
    {
      SqlParameterNullWorkaround(param);
      assert Names(param[..]) == Names(old(param[..]));
      var text := QueryWithParams(command, Some(Names(param[..])));
      if connState != Open {
        connState := Open;
        log := log + [ConnOpen];
      }
      log := log + [ExecReader(text, param[..])];
      closed := closed - {dr};
      drid := |readers|;
      readers := readers + [dr];
    }

    /** `GetStructFromDB` after `todo` returned: close, dispose, `Readers.RemoveAt(drid)`. */
    method FinishReader(dr: ReaderId, drid: nat)
      requires drid < |readers|
      modifies this
      ensures readers == old(readers[..drid] + readers[drid + 1..])
      ensures closed == old(closed) + {dr}
      ensures log == old(log) + [ReaderClose(dr), ReaderDispose(dr), CommandDispose]
                     + (if txOpen then [] else [ConnClose])
      ensures connState == (if txOpen then old(connState) else Closed)
      ensures txOpen == old(txOpen) && pause == old(pause) && lastDisconnect == old(lastDisconnect)
    {
      log := log + [ReaderClose(dr), ReaderDispose(dr)];
      closed := closed + {dr};
      readers := readers[..drid] + readers[drid + 1..];
      log := log + [CommandDispose];
      if !txOpen {
        connState := Closed;
        log := log + [ConnClose];
      }
    }

    /**
     * `GetStructFromDB(Command, param, todo)`: `rs` is what `ExecuteReader` yields and `dr`
     * the reader it hands out.
     */
    method GetStructFromDB<T>(command: string, param: array<Param<V>>, todo: ResultSet<V> -> Result<T, Fault>,
                              rs: ResultSet<V>, dr: ReaderId) returns (r: Result<T, Fault>)
      requires dr !in readers
      modifies this, param
      ensures param[..] == NormalizedAll(old(param[..]))
      ensures r == todo(rs)
      ensures ReadDone(command, old(param[..]), dr, r.Success?)
    {
      var drid := StartReader(command, param, dr);
      r := todo(rs);
      if r.Failure? {
        return;
      }
      FinishReader(dr, drid);
    }

    /** `GetListFromDBSingleProcessing(Command, param, todo)`: a value per row. */
    method GetListFromDBSingleProcessing<T>(command: string, param: array<Param<V>>,
                                            convert: Row<V> -> Result<T, Fault>, rs: ResultSet<V>, dr: ReaderId)
      returns (r: Result<seq<T>, Fault>)
      requires dr !in readers
      modifies this, param
      ensures param[..] == NormalizedAll(old(param[..]))
      ensures r == Collect(rs.rows, row => EveryRow(convert, row))
      ensures ReadDone(command, old(param[..]), dr, r.Success?)
    {
      var drid := StartReader(command, param, dr);
      r := ReadRows(rs.rows, row => EveryRow(convert, row));
      if r.Failure? {
        return;
      }
      FinishReader(dr, drid);
    }

    /** `GetListFromDB<T>(procname, param)`: a record per row, strict mapping. */
    method GetListFromDB(command: string, param: array<Param<V>>, fields: seq<Field<V>>,
                         accepts: (string, V) -> bool, rs: ResultSet<V>, dr: ReaderId)
      returns (r: Result<seq<Record<V>>, Fault>)
      requires dr !in readers
      modifies this, param
      ensures param[..] == NormalizedAll(old(param[..]))
      ensures r == Collect(rs.rows, row => RecordRow(fields, rs.columns, accepts, row))
      ensures ReadDone(command, old(param[..]), dr, r.Success?)
    {
      var drid := StartReader(command, param, dr);
      r := ReadRecords(rs, fields, accepts);
      if r.Failure? {
        return;
      }
      FinishReader(dr, drid);
    }

    /** `GetListFromDB<T>(procname, param, Exceptions)`: mapping errors go to `Exceptions`. */
    method GetListFromDBTolerant(command: string, param: array<Param<V>>, fields: seq<Field<V>>,
                                 accepts: (string, V) -> bool, rs: ResultSet<V>, dr: ReaderId,
                                 exceptions: seq<Fault>)
      returns (recs: seq<Record<V>>, errs: seq<Fault>)
      requires dr !in readers
      modifies this, param
      ensures param[..] == NormalizedAll(old(param[..]))
      ensures (recs, errs) == TolerantRecords(rs.rows, fields, rs.columns, accepts, exceptions)
      ensures ReadDone(command, old(param[..]), dr, true)
    {
      var drid := StartReader(command, param, dr);
      recs, errs := ReadRecordsTolerant(rs, fields, accepts, exceptions);
      FinishReader(dr, drid);
    }

    /** `GetScalarsListFromDB<T>(procname, param)` for the type `t`. */
    method GetScalarsListFromDB(t: ClrType, command: string, param: array<Param<V>>, rs: ResultSet<V>, dr: ReaderId)
      returns (r: Result<ScalarList<V>, Fault>)
      requires dr !in readers
      modifies this, param
      ensures param[..] == NormalizedAll(old(param[..]))
      ensures IsNullableType(t) ==> r == AsNullables(Collect(rs.rows, NullableScalar))
      ensures !IsNullableType(t) ==> r == AsNonNulls(Collect(rs.rows, NonNullScalar))
      ensures ReadDone(command, old(param[..]), dr, r.Success?)
    {
      var includingNulls := IsNullableParams([t]);
      assert includingNulls <==> IsNullableType([t][0]);
      var drid := StartReader(command, param, dr);
      if includingNulls {
        var xs := ReadRows(rs.rows, NullableScalar);
        r := AsNullables(xs);
      } else {
        var xs := ReadRows(rs.rows, NonNullScalar);
        r := AsNonNulls(xs);
      }
      if r.Failure? {
        return;
      }
      FinishReader(dr, drid);
    }

    /** `GetTupleFromDB<T1, T2>(query, param)` for the types `t1` and `t2`. */
    method GetTupleFromDB(t1: ClrType, t2: ClrType, command: string, param: array<Param<V>>,
                          rs: ResultSet<V>, dr: ReaderId)
      returns (r: Result<seq<(V, V)>, Fault>)
      requires dr !in readers
      modifies this, param
      ensures param[..] == NormalizedAll(old(param[..]))
      ensures IsNullableType(t1) && IsNullableType(t2) ==> r == Collect(rs.rows, CastPair)
      ensures !(IsNullableType(t1) && IsNullableType(t2)) ==> r == Collect(rs.rows, NonNullPair)
      ensures ReadDone(command, old(param[..]), dr, r.Success?)
    {
      var includingNulls := IsNullableParams([t1, t2]);
      assert includingNulls <==> IsNullableType([t1, t2][0]) && IsNullableType([t1, t2][1]);
      var drid := StartReader(command, param, dr);
      if includingNulls {
        r := ReadRows(rs.rows, CastPair);
      } else {
        r := ReadRows(rs.rows, NonNullPair);
      }
      if r.Failure? {
        return;
      }
      FinishReader(dr, drid);
    }
  }
}
