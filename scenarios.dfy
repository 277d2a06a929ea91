/** Call sequences on a fresh `SqlWorker`, with what they are guaranteed to produce. */
module Scenarios {
  import opened Wrappers
  import opened Faults
  import opened Parameters
  import opened Materialise
  import opened Worker

  /**
   * With the default pause the first open attempt only starts the clock, and nothing is
   * opened until two minutes have passed since then.
   */
  method DefaultPauseDefersFirstOpen(now: int) returns (first: bool, early: bool, late: bool)
    ensures !first && !early && late
  {
    var w := new SqlWorker<int>(None, now);
    first := w.OpenConnection(true, now, Open);
    early := w.OpenConnection(true, now + DefaultReconnectPause - 1, Open);
    late := w.OpenConnection(true, now + DefaultReconnectPause, Open);
  }

  /** With an explicit pause the first attempt opens at once. */
  method ExplicitPauseOpensAtOnce(p: int, now: int) returns (ok: bool, calls: seq<DriverCall<int>>)
    ensures ok && calls == [ConnOpen]
  {
    var w := new SqlWorker<int>(Some(p), now);
    ok := w.OpenConnection(true, now, Open);
    calls := w.log;
  }

  /**
   * After an open that leaves the connection unusable, the next attempt only records the
   * time of failure, and the one a full pause later reopens.
   */
  method FailedOpenBacksOff(p: int, now: int) returns (a: bool, b: bool, c: bool, calls: seq<DriverCall<int>>)
    requires p > 0
    ensures !a && !b && c
    ensures calls == [ConnOpen, ConnClose, ConnOpen]
  {
    var w := new SqlWorker<int>(Some(p), now);
    a := w.OpenConnection(true, now, Other);
    b := w.OpenConnection(true, now + 1, Open);
    c := w.OpenConnection(true, now + 1 + p, Open);
    calls := w.log;
  }

  /**
   * Begin, a second begin, commit, then a rollback: the second begin is refused because a
   * transaction is open, and the rollback because none is; neither makes a driver call.
   */
  method TransactionGuards(now: int)
    returns (r1: Outcome<Fault>, r2: Outcome<Fault>, r3: Outcome<Fault>, r4: Outcome<Fault>,
             calls: seq<DriverCall<int>>)
    ensures r1 == Pass && r2 == Fail(TransactionExists) && r3 == Pass && r4 == Fail(NoTransaction)
    ensures calls == [ConnOpen, BeginTx, CommitTx, ConnClose]
  {
    var w := new SqlWorker<int>(None, now);
    r1 := w.TransactionBegin();
    r2 := w.TransactionBegin();
    r3 := w.TransactionCommit(true);
    r4 := w.TransactionRollback(true);
    calls := w.log;
  }

  /** Outside a transaction a non-query opens, runs, and closes the connection again. */
  method NonQueryOutsideTransaction(now: int) returns (n: int, calls: seq<DriverCall<int>>, state: ConnState)
    ensures n == 3 && state == Closed
    ensures calls == [ConnOpen, ExecNonQuery("exec Touch @id", [Param("id", DbNull)]), CommandDispose, ConnClose]
  {
    var w := new SqlWorker<int>(None, now);
    var ps := new Param<int>[1];
    ps[0] := Param("id", Null);
    assert ps[..] == [Param("id", Null)];
    assert Names(ps[..]) == ["id"];
    assert NormalizedAll(ps[..]) == [Param("id", DbNull)];
    SqlBuilder.BareQueryGainsPlaceholder("exec Touch", "id");
    assert "exec Touch" + " @" + "id" == "exec Touch @id";
    n := w.ExecuteNonQuery("exec Touch", ps, 3);
    calls := w.log;
    state := w.connState;
  }

  /**
   * A `todo` that throws inside a transaction leaves its reader registered and open; the
   * commit then closes and disposes of it, and the reader stays in the registry.
   */
  method ThrowingReaderInTransaction(now: int)
    returns (r: Result<int, Fault>, c: Outcome<Fault>, calls: seq<DriverCall<int>>, registry: seq<ReaderId>)
    ensures r == Failure(InvalidCast) && c == Pass
    ensures calls == [ConnOpen, BeginTx, ExecReader("select 1", []), ReaderClose(7), ReaderDispose(7), CommitTx]
    ensures registry == [7]
  {
    var w := new SqlWorker<int>(None, now);
    var b := w.TransactionBegin();
    var ps := new Param<int>[0];
    var todo: ResultSet<int> -> Result<int, Fault> := s => Failure(InvalidCast);
    assert SqlBuilder.WithParams("select 1", Some([])) == "select 1";
    r := w.GetStructFromDB("select 1", ps, todo, ResultSet(["c"], [[Some(1)]]), 7);
    c := w.TransactionCommit(false);
    calls := w.log;
    registry := w.readers;
  }

  /** A successful read with handle 7 outside a transaction, then `TransactionBegin`. */
  method ReadThenBegin(now: int) returns (w: SqlWorker<int>, ps: array<Param<int>>, first: Result<int, Fault>)
    ensures fresh(w) && fresh(ps) && ps[..] == []
    ensures first == Success(1)
    ensures w.log == [ConnOpen, ExecReader("select 1", []), ReaderClose(7), ReaderDispose(7), CommandDispose, ConnClose,
                      ConnOpen, BeginTx]
    ensures w.readers == [] && w.closed == {7} && w.txOpen && w.connState == Open
  {
    w := new SqlWorker<int>(None, now);
    ps := new Param<int>[0];
    var ok: ResultSet<int> -> Result<int, Fault> := s => Success(1);
    assert ps[..] == [] && Names(ps[..]) == [] && NormalizedAll(ps[..]) == [];
    assert SqlBuilder.WithParams("select 1", Some([])) == "select 1";
    first := w.GetStructFromDB("select 1", ps, ok, ResultSet(["c"], [[Some(1)]]), 7);
    ghost var log1 := [ConnOpen, ExecReader("select 1", []), ReaderClose(7), ReaderDispose(7), CommandDispose, ConnClose];
    assert w.log == log1 && w.readers == [] && w.closed == {7} && w.connState == Closed && !w.txOpen;
    var b := w.TransactionBegin();
    assert w.log == log1 + [ConnOpen, BeginTx];
  }

  /**
   * A reader handle that comes back from a later `ExecuteReader` is a new, open reader: the
   * commit closes it before disposing of it, although the earlier reader with that handle
   * was closed.
   */
  method ReusedHandleIsClosedAgain(now: int)
    returns (first: Result<int, Fault>, second: Result<int, Fault>, calls: seq<DriverCall<int>>)
    ensures first == Success(1) && second == Failure(InvalidCast)
    ensures calls == [ConnOpen, ExecReader("select 1", []), ReaderClose(7), ReaderDispose(7), CommandDispose, ConnClose,
                      ConnOpen, BeginTx, ExecReader("select 1", []), ReaderClose(7), ReaderDispose(7), CommitTx]
  {
    var w, ps;
    w, ps, first := ReadThenBegin(now);
    ghost var log1 := w.log;
    var throws: ResultSet<int> -> Result<int, Fault> := s => Failure(InvalidCast);
    assert Names(ps[..]) == [] && NormalizedAll(ps[..]) == [];
    assert SqlBuilder.WithParams("select 1", Some([])) == "select 1";
    second := w.GetStructFromDB("select 1", ps, throws, ResultSet(["c"], [[Some(1)]]), 7);
    assert w.log == log1 + [ExecReader("select 1", [])];
    assert w.readers == [7] && w.closed == {} && w.txOpen;
    assert [7][1..] == [];
    assert CloseLog<int>([7], {}) == [ReaderClose(7), ReaderDispose(7)];
    ghost var log2 := w.log;
    var c := w.TransactionCommit(false);
    assert w.log == log2 + [ReaderClose(7), ReaderDispose(7)] + [CommitTx];
    calls := w.log;
  }
}
