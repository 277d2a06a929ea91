/**
 * Turning the rows of a result set into values: the `while (dr.Read())` loops of the
 * materialisers and the name-matching record mapper `DataReaderToObj`.
 */
module Materialise {
  import opened Wrappers
  import opened Faults

  /** One row as the reader shows it: a cell per column, `None` for DBNull. */
  type Row<V> = seq<Option<V>>

  /** What `ExecuteReader` returns: the column names and the rows, in stream order. */
  datatype ResultSet<V> = ResultSet(columns: seq<string>, rows: seq<Row<V>>)
  {
    /** Every row has a cell per column, as `FieldCount` promises for a reader. */
    predicate WellShaped()
    {
      forall k | 0 <= k < |rows| :: |rows[k]| == |columns|
    }
  }

  /** `dr[i]`: the cell at ordinal `i`, or the exception for a column that is not there. */
  function Cell<V>(row: Row<V>, i: nat): (r: Result<Option<V>, Fault>)
    ensures r.Success? <==> i < |row|
    ensures r.Success? ==> r.value == row[i]
  {
    if i < |row| then Success(row[i]) else Failure(IndexOutOfRange)
  }

  // ---------------------------------------------------------------------------
  // The row loop
  // ---------------------------------------------------------------------------

  /**
   * The list a `while (dr.Read())` loop builds when `step` says what each row contributes:
   * `Some(x)` is added, `None` means the row is skipped, a failure is the exception that
   * ends the loop (the first one in stream order).
   */
  function Collect<V, T>(rows: seq<Row<V>>, step: Row<V> -> Result<Option<T>, Fault>): Result<seq<T>, Fault>
    decreases |rows|
  {
    if rows == [] then Success([])
    else
      match Collect(rows[..|rows| - 1], step)
      case Failure(e) => Failure(e)
      case Success(xs) =>
        match step(rows[|rows| - 1])
        case Failure(e) => Failure(e)
        case Success(None) => Success(xs)
        case Success(Some(x)) => Success(xs + [x])
  }

  /** An exception in the first `j` rows is the exception of the whole loop. */
  lemma {:induction false} CollectFailureStops<V, T>(rows: seq<Row<V>>, j: nat, step: Row<V> -> Result<Option<T>, Fault>)
    requires j <= |rows|
    requires Collect(rows[..j], step).Failure?
    ensures Collect(rows, step) == Collect(rows[..j], step)
    decreases |rows|
  {
    if j < |rows| {
      assert rows[..|rows| - 1][..j] == rows[..j];
      CollectFailureStops(rows[..|rows| - 1], j, step);
    } else {
      assert rows[..j] == rows;
    }
  }

  /** Reading the stream in two halves: the lists are concatenated, a failure wins. */
  lemma {:induction false} CollectConcat<V, T>(a: seq<Row<V>>, b: seq<Row<V>>, step: Row<V> -> Result<Option<T>, Fault>)
    ensures Collect(a + b, step) ==
      match Collect(a, step)
      case Failure(e) => Failure(e)
      case Success(xs) =>
        match Collect(b, step)
        case Failure(e) => Failure(e)
        case Success(ys) => Success(xs + ys)
    decreases |b|
  {
    if b == [] {
      assert a + b == a;
      if Collect(a, step).Success? {
        assert Collect(a, step).value + [] == Collect(a, step).value;
      }
    } else {
      var b' := b[..|b| - 1];
      var last := b[|b| - 1];
      assert (a + b)[..|a + b| - 1] == a + b';
      assert (a + b)[|a + b| - 1] == last;
      CollectConcat(a, b', step);
      assert Collect(a + b, step) ==
        match Collect(a + b', step)
        case Failure(e) => Failure(e)
        case Success(xs) =>
          match step(last)
          case Failure(e) => Failure(e)
          case Success(None) => Success(xs)
          case Success(Some(x)) => Success(xs + [x]);
      if Collect(a, step).Success? && Collect(b', step).Success? && step(last).Success? {
        var xs, ys := Collect(a, step).value, Collect(b', step).value;
        if step(last).value.Some? {
          assert xs + ys + [step(last).value.value] == xs + (ys + [step(last).value.value]);
        }
      }
    }
  }

  /** The loop of `GetStructFromDB`'s delegates: reads every row, in order. */
  method ReadRows<V, T>(rows: seq<Row<V>>, step: Row<V> -> Result<Option<T>, Fault>)
    returns (r: Result<seq<T>, Fault>)
    ensures r == Collect(rows, step)
  {
    var output: seq<T> := [];
    var i := 0;
    while i < |rows|
      invariant 0 <= i <= |rows|
      invariant Collect(rows[..i], step) == Success(output)
    {
      assert rows[..i + 1][..i] == rows[..i];
      var x := step(rows[i]);
      if x.Failure? {
        CollectFailureStops(rows, i + 1, step);
        return Failure(x.error);
      }
      if x.value.Some? {
        output := output + [x.value.value];
      }
      i := i + 1;
    }
    assert rows[..i] == rows;
    r := Success(output);
  }

  // ---------------------------------------------------------------------------
  // GetListFromDBSingleProcessing: every row through the caller's converter
  // ---------------------------------------------------------------------------

  /** `output.Add(todo(dr))`: every row contributes what the converter returns. */
  function EveryRow<V, T>(convert: Row<V> -> Result<T, Fault>, row: Row<V>): Result<Option<T>, Fault>
  {
    match convert(row)
    case Failure(e) => Failure(e)
    case Success(x) => Success(Some(x))
  }

  /**
   * The list has one entry per row, the converter's value for that row in stream order,
   * exactly when the converter returns normally on every row.
   */
  lemma {:induction false} EveryRowMapsInOrder<V, T>(rows: seq<Row<V>>, convert: Row<V> -> Result<T, Fault>)
    ensures var r := Collect(rows, row => EveryRow(convert, row));
      && (r.Success? <==> forall k | 0 <= k < |rows| :: convert(rows[k]).Success?)
      && (r.Success? ==> (|r.value| == |rows| &&
            forall k | 0 <= k < |rows| :: r.value[k] == convert(rows[k]).value))
    decreases |rows|
  {
    if rows != [] {
      var init := rows[..|rows| - 1];
      EveryRowMapsInOrder(init, convert);
      forall k | 0 <= k < |init| ensures init[k] == rows[k] { }
    }
  }

  // ---------------------------------------------------------------------------
  // GetScalarsListFromDB
  // ---------------------------------------------------------------------------

  /** Nullable `T`: `dr[0] == DBNull.Value ? null : (T)dr[0]`, every row contributes. */
  function NullableScalar<V>(row: Row<V>): (r: Result<Option<Option<V>>, Fault>)
    ensures r.Success? <==> |row| >= 1
    ensures r.Success? ==> r.value == Some(row[0])
  {
    match Cell(row, 0)
    case Failure(e) => Failure(e)
    case Success(c) => Success(Some(c))
  }

  /** Non-nullable `T`: `if (dr[0] != DBNull.Value) result.Add((T)dr[0])`. */
  function NonNullScalar<V>(row: Row<V>): (r: Result<Option<V>, Fault>)
    ensures r.Success? <==> |row| >= 1
    ensures r.Success? ==> (r.value.Some? <==> row[0].Some?) && r.value == row[0]
  {
    Cell(row, 0)
  }

  /** Column 0 of every row. */
  function Column0<V>(rows: seq<Row<V>>): (c: seq<Option<V>>)
    requires forall k | 0 <= k < |rows| :: |rows[k]| >= 1
    ensures |c| == |rows|
  {
    seq(|rows|, k requires 0 <= k < |rows| => rows[k][0])
  }

  /** The present values of a list of optional values, in order. */
  function Somes<U>(xs: seq<Option<U>>): seq<U>
    decreases |xs|
  {
    if xs == [] then []
    else if xs[|xs| - 1].Some? then Somes(xs[..|xs| - 1]) + [xs[|xs| - 1].value]
    else Somes(xs[..|xs| - 1])
  }

  /** Nullable `T`: one entry per row, DBNull as null. */
  lemma {:induction false} NullableScalarsKeepEveryRow<V>(rows: seq<Row<V>>)
    requires forall k | 0 <= k < |rows| :: |rows[k]| >= 1
    ensures Collect(rows, NullableScalar) == Success(Column0(rows))
    decreases |rows|
  {
    if rows != [] {
      var init := rows[..|rows| - 1];
      NullableScalarsKeepEveryRow(init);
      assert Column0(rows) == Column0(init) + [rows[|rows| - 1][0]];
    }
  }

  /** Non-nullable `T`: exactly the non-DBNull column-0 values, in row order. */
  lemma {:induction false} NonNullScalarsSkipDbNull<V>(rows: seq<Row<V>>)
    requires forall k | 0 <= k < |rows| :: |rows[k]| >= 1
    ensures Collect(rows, NonNullScalar) == Success(Somes(Column0(rows)))
    decreases |rows|
  {
    if rows != [] {
      var init := rows[..|rows| - 1];
      var last := rows[|rows| - 1];
      NonNullScalarsSkipDbNull(init);
      assert Column0(rows)[..|rows| - 1] == Column0(init);
      assert Column0(rows)[|rows| - 1] == last[0];
      assert NonNullScalar(last) == Success(last[0]);
      var c := Column0(rows);
      assert rows[..|rows| - 1] == init;
    }
  }

  /** A result without a column 0 makes both branches throw at its first row. */
  lemma ScalarsNeedAColumn<V>(rows: seq<Row<V>>)
    requires |rows| >= 1 && |rows[0]| == 0
    ensures Collect(rows, NonNullScalar) == Failure(IndexOutOfRange)
    ensures Collect(rows, NullableScalar) == Failure(IndexOutOfRange)
  {
    assert rows[..1] == [rows[0]];
    assert [rows[0]][..0] == [];
    CollectFailureStops(rows, 1, NonNullScalar);
    CollectFailureStops(rows, 1, NullableScalar);
  }

  /** Over the rows 1, DBNull, 3: `int` yields [1, 3] and `int?` yields [1, null, 3]. */
  lemma ScalarsExample()
    ensures Collect([[Some(1)], [None], [Some(3)]], NonNullScalar) == Success([1, 3])
    ensures Collect([[Some(1)], [None], [Some(3)]], NullableScalar) == Success([Some(1), None, Some(3)])
  {
    var rows: seq<Row<int>> := [[Some(1)], [None], [Some(3)]];
    NonNullScalarsSkipDbNull(rows);
    NullableScalarsKeepEveryRow(rows);
    assert Column0(rows) == [Some(1), None, Some(3)];
    var c := Column0(rows);
    assert c[..2][..1] == [Some(1)];
    assert Somes([Some(1)]) == Somes([]) + [1];
    assert Somes(c[..2]) == [1];
    assert Somes(c) == [1, 3];
  }

  // ---------------------------------------------------------------------------
  // GetTupleFromDB
  // ---------------------------------------------------------------------------

  /** Not all types nullable: add `(x0, x1)` only when neither cell is DBNull. */
  function NonNullPair<V>(row: Row<V>): (r: Result<Option<(V, V)>, Fault>)
    ensures r.Success? <==> |row| >= 2
    ensures r.Success? ==> (r.value.Some? <==> row[0].Some? && row[1].Some?)
    ensures r.Success? && r.value.Some? ==> r.value.value == (row[0].value, row[1].value)
  {
    match Cell(row, 0)
    case Failure(e) => Failure(e)
    case Success(x0) =>
      match Cell(row, 1)
      case Failure(e) => Failure(e)
      case Success(x1) =>
        if x0.Some? && x1.Some? then Success(Some((x0.value, x1.value))) else Success(None)
  }

  /**
   * All types nullable: `(T1)dr[0], (T2)dr[1]` with no check, evaluated left to right;
   * unboxing DBNull throws, so a DBNull in column 0 fails before column 1 is read.
   */
  function CastPair<V>(row: Row<V>): (r: Result<Option<(V, V)>, Fault>)
    ensures r.Success? <==> |row| >= 2 && row[0].Some? && row[1].Some?
    ensures r.Success? ==> r.value == Some((row[0].value, row[1].value))
    ensures |row| == 0 ==> r == Failure(IndexOutOfRange)
    ensures |row| >= 1 && row[0].None? ==> r == Failure(InvalidCast)
    ensures |row| == 1 && row[0].Some? ==> r == Failure(IndexOutOfRange)
    ensures |row| >= 2 && row[0].Some? && row[1].None? ==> r == Failure(InvalidCast)
  {
    match Cell(row, 0)
    case Failure(e) => Failure(e)
    case Success(x0) =>
      if x0.None? then Failure(InvalidCast)
      else
        match Cell(row, 1)
        case Failure(e) => Failure(e)
        case Success(x1) =>
          if x1.None? then Failure(InvalidCast) else Success(Some((x0.value, x1.value)))
  }

  /** A one-column row whose cell is DBNull fails on the cast, not on the missing column. */
  lemma CastPairCastsFirst()
    ensures CastPair<int>([None]) == Failure(InvalidCast)
    ensures CastPair<int>([Some(1)]) == Failure(IndexOutOfRange)
    ensures CastPair<int>([None, None]) == Failure(InvalidCast)
    ensures CastPair<int>([Some(1), Some(2), None]) == Success(Some((1, 2)))
  {
  }

  /** The pairs of rows whose two first cells are both present, in row order. */
  function PresentPairs<V>(rows: seq<Row<V>>): seq<(V, V)>
    requires forall k | 0 <= k < |rows| :: |rows[k]| >= 2
    decreases |rows|
  {
    if rows == [] then []
    else
      var last := rows[|rows| - 1];
      if last[0].Some? && last[1].Some? then PresentPairs(rows[..|rows| - 1]) + [(last[0].value, last[1].value)]
      else PresentPairs(rows[..|rows| - 1])
  }

  /** A row is kept iff both column 0 and column 1 are non-DBNull; the order is kept. */
  lemma {:induction false} NonNullPairsKeepComplete<V>(rows: seq<Row<V>>)
    requires forall k | 0 <= k < |rows| :: |rows[k]| >= 2
    ensures Collect(rows, NonNullPair) == Success(PresentPairs(rows))
    decreases |rows|
  {
    if rows != [] {
      var last := rows[|rows| - 1];
      NonNullPairsKeepComplete(rows[..|rows| - 1]);
      assert Cell(last, 0) == Success(last[0]) && Cell(last, 1) == Success(last[1]);
      assert NonNullPair(last) == if last[0].Some? && last[1].Some? then Success(Some((last[0].value, last[1].value))) else Success(None);
    }
  }

  /** One partly DBNull row is dropped, not half-kept. */
  lemma PairsExample()
    ensures Collect([[Some(1), Some(2)], [Some(3), None], [None, Some(4)]], NonNullPair)
            == Success([(1, 2)])
  {
    var rows: seq<Row<int>> := [[Some(1), Some(2)], [Some(3), None], [None, Some(4)]];
    NonNullPairsKeepComplete(rows);
    assert rows[..2][..1] == [[Some(1), Some(2)]];
    assert [[Some(1), Some(2)]][..0] == [];
    assert PresentPairs(rows[..2][..1]) == [(1, 2)];
  }

  // ---------------------------------------------------------------------------
  // DataReaderToObj
  // ---------------------------------------------------------------------------

  /**
   * A property of the record type, with the value `new T()` gives it; `settable` is false
   * for a get-only property, whose `SetValue` neither assigns nor throws.
   */
  datatype Field<V> = Field(name: string, default: V, settable: bool)

  /** A record: property name to value. */
  type Record<V> = map<string, V>

  /** `new T()`: every property at its default. */
  function Defaults<V>(fields: seq<Field<V>>): (r: Record<V>)
    ensures forall k | 0 <= k < |fields| :: fields[k].name in r
    decreases |fields|
  {
    if fields == [] then map[]
    else Defaults(fields[..|fields| - 1])[fields[|fields| - 1].name := fields[|fields| - 1].default]
  }

  /** No two properties share a name, as in a .NET type. */
  predicate UniqueNames<V>(fields: seq<Field<V>>)
  {
    forall i, j | 0 <= i < j < |fields| :: fields[i].name != fields[j].name
  }

  lemma {:induction false} DefaultsAt<V>(fields: seq<Field<V>>, k: nat)
    requires UniqueNames(fields) && k < |fields|
    ensures Defaults(fields)[fields[k].name] == fields[k].default
    decreases |fields|
  {
    if k < |fields| - 1 {
      DefaultsAt(fields[..|fields| - 1], k);
    }
  }

  /** The first ordinal with that column name. */
  function ColumnIndex(columns: seq<string>, name: string): (r: Option<nat>)
    ensures r.Some? ==> r.value < |columns| && columns[r.value] == name
    ensures r.None? <==> name !in columns
    ensures r.Some? ==> name !in columns[..r.value]
    decreases |columns|
  {
    if columns == [] then None
    else if columns[0] == name then Some(0)
    else match ColumnIndex(columns[1..], name)
      case None => None
      case Some(i) => Some(i + 1)
  }

  /** `dr[name]`: the cell of the named column, or the exception for an unknown column. */
  function Lookup<V>(columns: seq<string>, row: Row<V>, name: string): (r: Result<Option<V>, Fault>)
    ensures name !in columns ==> r == Failure(ColumnNotFound(name))
    ensures name in columns && |row| == |columns| ==>
      r.Success? && exists i | 0 <= i < |columns| :: columns[i] == name && name !in columns[..i] && r.value == row[i]
  {
    match ColumnIndex(columns, name)
    case None => Failure(ColumnNotFound(name))
    case Some(i) => Cell(row, i)
  }

  /**
   * In a well-shaped result set, `dr[name]` fails exactly for an unknown column, and
   * otherwise gives the cell of the first column with that name.
   */
  lemma WellShapedLookup<V>(rs: ResultSet<V>, k: nat, name: string)
    requires rs.WellShaped() && k < |rs.rows|
    ensures Lookup(rs.columns, rs.rows[k], name).Success? <==> name in rs.columns
    ensures name in rs.columns ==>
      Lookup(rs.columns, rs.rows[k], name).value == rs.rows[k][ColumnIndex(rs.columns, name).value]
  {
  }

  /**
   * The field can be mapped strictly: its column exists, and a present value is assignable
   * when the property is settable.
   */
  predicate FieldMaps<V>(columns: seq<string>, row: Row<V>, accepts: (string, V) -> bool, f: Field<V>)
  {
    var c := Lookup(columns, row, f.name);
    c.Success? && (f.settable && c.value.Some? ==> accepts(f.name, c.value.value))
  }

  /**
   * One turn of the strict loop: the column is looked up for every property, and a present
   * value is stored only through a settable one.
   */
  function AssignField<V>(rec: Record<V>, f: Field<V>, columns: seq<string>, row: Row<V>,
                          accepts: (string, V) -> bool): (r: Result<Record<V>, Fault>)
    ensures r.Success? <==> FieldMaps(columns, row, accepts, f)
    ensures r.Failure? ==>
      r.error == (if Lookup(columns, row, f.name).Failure? then Lookup(columns, row, f.name).error else NotAssignable(f.name))
    ensures !f.settable && r.Failure? ==> r.error != NotAssignable(f.name)
    ensures r.Success? ==>
      var stores := f.settable && Lookup(columns, row, f.name).value.Some?;
      && r.value.Keys == rec.Keys + (if stores then {f.name} else {})
      && (forall n | n in rec && n != f.name :: r.value[n] == rec[n])
      && (stores ==> r.value[f.name] == Lookup(columns, row, f.name).value.value)
      && (!stores ==> r.value == rec)
  {
    match Lookup(columns, row, f.name)
    case Failure(e) => Failure(e)
    case Success(None) => Success(rec)
    case Success(Some(v)) =>
      if !f.settable then Success(rec)
      else if accepts(f.name, v) then Success(rec[f.name := v])
      else Failure(NotAssignable(f.name))
  }

  /** The strict loop over the fields, from the record `init` on. */
  function AssignAll<V>(init: Record<V>, fields: seq<Field<V>>, columns: seq<string>, row: Row<V>,
                        accepts: (string, V) -> bool): Result<Record<V>, Fault>
    decreases |fields|
  {
    if fields == [] then Success(init)
    else
      match AssignAll(init, fields[..|fields| - 1], columns, row, accepts)
      case Failure(e) => Failure(e)
      case Success(rec) => AssignField(rec, fields[|fields| - 1], columns, row, accepts)
  }

  /** `DataReaderToObj<T>(dr)` on one row. */
  function ToRecord<V>(fields: seq<Field<V>>, columns: seq<string>, row: Row<V>,
                       accepts: (string, V) -> bool): Result<Record<V>, Fault>
  {
    AssignAll(Defaults(fields), fields, columns, row, accepts)
  }

  /** The strict mapper throws iff some field's column is missing or its value is rejected. */
  lemma {:induction false} AssignAllSucceedsIff<V>(init: Record<V>, fields: seq<Field<V>>, columns: seq<string>,
                                                   row: Row<V>, accepts: (string, V) -> bool)
    ensures AssignAll(init, fields, columns, row, accepts).Success?
            <==> forall k | 0 <= k < |fields| :: FieldMaps(columns, row, accepts, fields[k])
    decreases |fields|
  {
    if fields != [] {
      var init' := fields[..|fields| - 1];
      AssignAllSucceedsIff(init, init', columns, row, accepts);
      forall k | 0 <= k < |init'| ensures init'[k] == fields[k] { }
    }
  }

  /**
   * On success, every settable field whose column holds a value has that value, every field
   * whose column is DBNull or whose property is get-only keeps what it had, and no other key
   * changes.
   */
  lemma {:induction false} AssignAllContents<V>(init: Record<V>, fields: seq<Field<V>>, columns: seq<string>,
                                                row: Row<V>, accepts: (string, V) -> bool)
    requires UniqueNames(fields)
    requires forall k | 0 <= k < |fields| :: fields[k].name in init
    requires AssignAll(init, fields, columns, row, accepts).Success?
    ensures var rec := AssignAll(init, fields, columns, row, accepts).value;
      && rec.Keys == init.Keys
      && (forall k | 0 <= k < |fields| ::
            var c := Lookup(columns, row, fields[k].name);
            c.Success? && rec[fields[k].name] == (if fields[k].settable && c.value.Some? then c.value.value else init[fields[k].name]))
      && (forall n | n in init && (forall k | 0 <= k < |fields| :: fields[k].name != n) :: rec[n] == init[n])
    decreases |fields|
  {
    if fields != [] {
      var fs := fields[..|fields| - 1];
      var f := fields[|fields| - 1];
      assert UniqueNames(fs);
      AssignAllContents(init, fs, columns, row, accepts);
      forall k | 0 <= k < |fs| ensures fs[k] == fields[k] && fs[k].name != f.name { }
    }
  }

  /**
   * `DataReaderToObj<T>(dr)`: a settable property takes its column's value unless that is
   * DBNull; a get-only property keeps its default.
   */
  lemma ToRecordContents<V>(fields: seq<Field<V>>, columns: seq<string>, row: Row<V>,
                            accepts: (string, V) -> bool)
    requires UniqueNames(fields)
    requires ToRecord(fields, columns, row, accepts).Success?
    ensures var rec := ToRecord(fields, columns, row, accepts).value;
      forall k | 0 <= k < |fields| ::
        var c := Lookup(columns, row, fields[k].name);
        c.Success? && fields[k].name in rec
        && rec[fields[k].name] == (if fields[k].settable && c.value.Some? then c.value.value else fields[k].default)
  {
    AssignAllContents(Defaults(fields), fields, columns, row, accepts);
    forall k | 0 <= k < |fields|
      ensures Defaults(fields)[fields[k].name] == fields[k].default
    {
      DefaultsAt(fields, k);
    }
  }

  /** One turn of the tolerant loop: the exception is appended to `Errors` and the loop goes on. */
  function AssignFieldTolerant<V>(rec: Record<V>, errors: seq<Fault>, f: Field<V>, columns: seq<string>,
                                  row: Row<V>, accepts: (string, V) -> bool): (r: (Record<V>, seq<Fault>))
    ensures AssignField(rec, f, columns, row, accepts).Success? ==>
      r == (AssignField(rec, f, columns, row, accepts).value, errors)
    ensures AssignField(rec, f, columns, row, accepts).Failure? ==>
      r == (rec, errors + [AssignField(rec, f, columns, row, accepts).error])
  {
    match AssignField(rec, f, columns, row, accepts)
    case Failure(e) => (rec, errors + [e])
    case Success(rec') => (rec', errors)
  }

  /** The tolerant loop over the fields. */
  function AssignAllTolerant<V>(init: Record<V>, errors: seq<Fault>, fields: seq<Field<V>>,
                                columns: seq<string>, row: Row<V>, accepts: (string, V) -> bool)
    : (Record<V>, seq<Fault>)
    decreases |fields|
  {
    if fields == [] then (init, errors)
    else
      var (rec, errs) := AssignAllTolerant(init, errors, fields[..|fields| - 1], columns, row, accepts);
      AssignFieldTolerant(rec, errs, fields[|fields| - 1], columns, row, accepts)
  }

  /**
   * The tolerant mapper only ever appends to `Errors`; it adds nothing exactly when the
   * strict mapper returns, and then both give the same record; otherwise the first error
   * it adds is the exception the strict mapper throws.
   */
  lemma {:induction false} TolerantAgreesWithStrict<V>(init: Record<V>, errors: seq<Fault>, fields: seq<Field<V>>,
                                                       columns: seq<string>, row: Row<V>, accepts: (string, V) -> bool)
    ensures var (rec, errs) := AssignAllTolerant(init, errors, fields, columns, row, accepts);
      && errors <= errs
      && AssignAll(init, fields, columns, row, accepts)
         == (if errs == errors then Success(rec) else Failure(errs[|errors|]))
    decreases |fields|
  {
    if fields != [] {
      TolerantAgreesWithStrict(init, errors, fields[..|fields| - 1], columns, row, accepts);
    }
  }

  /** `DataReaderToObj<T>(dr)`: the `foreach` over the properties. */
  method DataReaderToObj<V>(fields: seq<Field<V>>, columns: seq<string>, row: Row<V>,
                            accepts: (string, V) -> bool) returns (r: Result<Record<V>, Fault>)
    ensures r == ToRecord(fields, columns, row, accepts)
  {
    var result := Defaults(fields);
    var i := 0;
    while i < |fields|
      invariant 0 <= i <= |fields|
      invariant AssignAll(Defaults(fields), fields[..i], columns, row, accepts) == Success(result)
    {
      assert fields[..i + 1][..i] == fields[..i];
      var f := fields[i];
      var c := Lookup(columns, row, f.name);
      if c.Failure? {
        r := Failure(c.error);
        AssignAllFailureStops(Defaults(fields), fields, i + 1, columns, row, accepts);
        return;
      }
      if c.value.Some? && f.settable {
        if !accepts(f.name, c.value.value) {
          r := Failure(NotAssignable(f.name));
          AssignAllFailureStops(Defaults(fields), fields, i + 1, columns, row, accepts);
          return;
        }
        result := result[f.name := c.value.value];
      }
      i := i + 1;
    }
    assert fields[..i] == fields;
    r := Success(result);
  }

  lemma {:induction false} AssignAllFailureStops<V>(init: Record<V>, fields: seq<Field<V>>, j: nat, columns: seq<string>,
                                                    row: Row<V>, accepts: (string, V) -> bool)
    requires j <= |fields|
    requires AssignAll(init, fields[..j], columns, row, accepts).Failure?
    ensures AssignAll(init, fields, columns, row, accepts) == AssignAll(init, fields[..j], columns, row, accepts)
    decreases |fields|
  {
    if j < |fields| {
      assert fields[..|fields| - 1][..j] == fields[..j];
      AssignAllFailureStops(init, fields[..|fields| - 1], j, columns, row, accepts);
    } else {
      assert fields[..j] == fields;
    }
  }

  /** `DataReaderToObj<T>(dr, Errors)`: the same loop with a `try`/`catch` around each turn. */
  method DataReaderToObjTolerant<V>(fields: seq<Field<V>>, columns: seq<string>, row: Row<V>,
                                    accepts: (string, V) -> bool, errors: seq<Fault>)
    returns (rec: Record<V>, errs: seq<Fault>)
    ensures (rec, errs) == AssignAllTolerant(Defaults(fields), errors, fields, columns, row, accepts)
  {
    rec := Defaults(fields);
    errs := errors;
    var i := 0;
    while i < |fields|
      invariant 0 <= i <= |fields|
      invariant AssignAllTolerant(Defaults(fields), errors, fields[..i], columns, row, accepts) == (rec, errs)
    {
      assert fields[..i + 1][..i] == fields[..i];
      var f := fields[i];
      var c := Lookup(columns, row, f.name);
      if c.Failure? {
        errs := errs + [c.error];
      } else if c.value.Some? && f.settable {
        if accepts(f.name, c.value.value) {
          rec := rec[f.name := c.value.value];
        } else {
          errs := errs + [NotAssignable(f.name)];
        }
      }
      i := i + 1;
    }
    assert fields[..i] == fields;
  }

  // ---------------------------------------------------------------------------
  // GetListFromDB: a record per row
  // ---------------------------------------------------------------------------

  /** `result.Add(DataReaderToObj<T>(dr))`. */
  function RecordRow<V>(fields: seq<Field<V>>, columns: seq<string>, accepts: (string, V) -> bool, row: Row<V>)
    : Result<Option<Record<V>>, Fault>
  {
    EveryRow(r => ToRecord(fields, columns, r, accepts), row)
  }

  /** The delegate of the strict `GetListFromDB`: the row loop around `DataReaderToObj`. */
  method ReadRecords<V>(rs: ResultSet<V>, fields: seq<Field<V>>, accepts: (string, V) -> bool)
    returns (r: Result<seq<Record<V>>, Fault>)
    ensures r == Collect(rs.rows, row => RecordRow(fields, rs.columns, accepts, row))
  {
    ghost var step := row => RecordRow(fields, rs.columns, accepts, row);
    var output: seq<Record<V>> := [];
    var i := 0;
    while i < |rs.rows|
      invariant 0 <= i <= |rs.rows|
      invariant Collect(rs.rows[..i], step) == Success(output)
    {
      assert rs.rows[..i + 1][..i] == rs.rows[..i];
      var x := DataReaderToObj(fields, rs.columns, rs.rows[i], accepts);
      if x.Failure? {
        CollectFailureStops(rs.rows, i + 1, step);
        return Failure(x.error);
      }
      output := output + [x.value];
      i := i + 1;
    }
    assert rs.rows[..i] == rs.rows;
    r := Success(output);
  }

  /** The tolerant `GetListFromDB`: a record for every row, the errors of all rows in order. */
  function TolerantRecords<V>(rows: seq<Row<V>>, fields: seq<Field<V>>, columns: seq<string>,
                              accepts: (string, V) -> bool, errors: seq<Fault>): (seq<Record<V>>, seq<Fault>)
    decreases |rows|
  {
    if rows == [] then ([], errors)
    else
      var (recs, errs) := TolerantRecords(rows[..|rows| - 1], fields, columns, accepts, errors);
      var (rec, errs') := AssignAllTolerant(Defaults(fields), errs, fields, columns, rows[|rows| - 1], accepts);
      (recs + [rec], errs')
  }

  /** The tolerant list never drops a row, and `Errors` only grows. */
  lemma {:induction false} TolerantRecordsKeepEveryRow<V>(rows: seq<Row<V>>, fields: seq<Field<V>>, columns: seq<string>,
                                                          accepts: (string, V) -> bool, errors: seq<Fault>)
    ensures var (recs, errs) := TolerantRecords(rows, fields, columns, accepts, errors);
      |recs| == |rows| && errors <= errs
    decreases |rows|
  {
    if rows != [] {
      var (recs, errs) := TolerantRecords(rows[..|rows| - 1], fields, columns, accepts, errors);
      TolerantRecordsKeepEveryRow(rows[..|rows| - 1], fields, columns, accepts, errors);
      TolerantAgreesWithStrict(Defaults(fields), errs, fields, columns, rows[|rows| - 1], accepts);
    }
  }

  /** The tolerant mapper only appends to the list it is given: its record does not depend on it. */
  lemma {:induction false} AssignAllTolerantShift<V>(init: Record<V>, errors: seq<Fault>, fields: seq<Field<V>>,
                                                     columns: seq<string>, row: Row<V>, accepts: (string, V) -> bool)
    ensures var (rec, errs) := AssignAllTolerant(init, [], fields, columns, row, accepts);
      AssignAllTolerant(init, errors, fields, columns, row, accepts) == (rec, errors + errs)
    decreases |fields|
  {
    if fields == [] {
      assert errors + [] == errors;
    } else {
      AssignAllTolerantShift(init, errors, fields[..|fields| - 1], columns, row, accepts);
      var (rec, errs) := AssignAllTolerant(init, [], fields[..|fields| - 1], columns, row, accepts);
      match AssignField(rec, fields[|fields| - 1], columns, row, accepts)
      case Failure(e) =>
        assert errors + errs + [e] == errors + (errs + [e]);
      case Success(_) =>
    }
  }

  /** The errors the tolerant mapper reports for each row, in row order. */
  function RowErrors<V>(rows: seq<Row<V>>, fields: seq<Field<V>>, columns: seq<string>,
                        accepts: (string, V) -> bool): seq<Fault>
    decreases |rows|
  {
    if rows == [] then []
    else RowErrors(rows[..|rows| - 1], fields, columns, accepts)
         + AssignAllTolerant(Defaults(fields), [], fields, columns, rows[|rows| - 1], accepts).1
  }

  /**
   * Record `k` of the tolerant list is the tolerant mapping of row `k`. It is the strict
   * record whenever that row reports no error. `Errors` receives each row's errors in row
   * order.
   */
  lemma {:induction false} TolerantRecordsContents<V>(rows: seq<Row<V>>, fields: seq<Field<V>>, columns: seq<string>,
                                                      accepts: (string, V) -> bool, errors: seq<Fault>)
    ensures var (recs, errs) := TolerantRecords(rows, fields, columns, accepts, errors);
      && |recs| == |rows|
      && (forall k | 0 <= k < |rows| ::
            recs[k] == AssignAllTolerant(Defaults(fields), [], fields, columns, rows[k], accepts).0)
      && (forall k | 0 <= k < |rows| && AssignAllTolerant(Defaults(fields), [], fields, columns, rows[k], accepts).1 == [] ::
            ToRecord(fields, columns, rows[k], accepts) == Success(recs[k]))
      && errs == errors + RowErrors(rows, fields, columns, accepts)
    decreases |rows|
  {
    var (recs, errs) := TolerantRecords(rows, fields, columns, accepts, errors);
    if rows == [] {
      assert errors + [] == errors;
    } else {
      var init := rows[..|rows| - 1];
      var last := rows[|rows| - 1];
      TolerantRecordsContents(init, fields, columns, accepts, errors);
      var (recs0, errs0) := TolerantRecords(init, fields, columns, accepts, errors);
      AssignAllTolerantShift(Defaults(fields), errs0, fields, columns, last, accepts);
      var e := AssignAllTolerant(Defaults(fields), [], fields, columns, last, accepts).1;
      assert errs == errors + RowErrors(init, fields, columns, accepts) + e;
      assert errors + RowErrors(init, fields, columns, accepts) + e == errors + (RowErrors(init, fields, columns, accepts) + e);
      forall k | 0 <= k < |rows|
        ensures recs[k] == AssignAllTolerant(Defaults(fields), [], fields, columns, rows[k], accepts).0
      {
        if k < |init| {
          assert rows[k] == init[k];
        }
      }
    }
    forall k | 0 <= k < |rows| && AssignAllTolerant(Defaults(fields), [], fields, columns, rows[k], accepts).1 == []
      ensures ToRecord(fields, columns, rows[k], accepts) == Success(recs[k])
    {
      TolerantAgreesWithStrict(Defaults(fields), [], fields, columns, rows[k], accepts);
    }
  }

  /** The delegate of the tolerant `GetListFromDB`. */
  method ReadRecordsTolerant<V>(rs: ResultSet<V>, fields: seq<Field<V>>, accepts: (string, V) -> bool,
                                errors: seq<Fault>) returns (recs: seq<Record<V>>, errs: seq<Fault>)
    ensures (recs, errs) == TolerantRecords(rs.rows, fields, rs.columns, accepts, errors)
  {
    recs, errs := [], errors;
    var i := 0;
    while i < |rs.rows|
      invariant 0 <= i <= |rs.rows|
      invariant TolerantRecords(rs.rows[..i], fields, rs.columns, accepts, errors) == (recs, errs)
    {
      assert rs.rows[..i + 1][..i] == rs.rows[..i];
      var rec;
      rec, errs := DataReaderToObjTolerant(fields, rs.columns, rs.rows[i], accepts, errs);
      recs := recs + [rec];
      i := i + 1;
    }
    assert rs.rows[..i] == rs.rows;
  }
}
