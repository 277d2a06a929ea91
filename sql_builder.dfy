/** The SQL text builders: placeholder completion, INSERT and UPDATE statements. */
module SqlBuilder {
  import opened Wrappers
  import opened Faults
  import opened Text

  // ---------------------------------------------------------------------------
  // QueryWithParams
  // ---------------------------------------------------------------------------

  /** The separator written before an appended placeholder. */
  function Separator(first: bool): (r: string)
    ensures |r| >= 2 && r[|r| - 2..] == " @"
    ensures first <==> |r| == 2
    ensures !first ==> |r| == 3 && r[0] == ','
  {
    if first then " @" else ", @"
  }

  /**
   * The placeholder loop from `q` on: each name whose "@name" is not yet found in the text
   * is appended; only the very first turn of the loop may use the " @" separator.
   */
  function AppendMissing(q: string, names: seq<string>, first: bool): string
    decreases |names|
  {
    if names == [] then q
    else
      var q' := if Contains(q, "@" + names[0]) then q else q + Separator(first) + names[0];
      AppendMissing(q', names[1..], false)
  }

  /** `QueryWithParams(Query, Params)`, with `None` for a null parameter array. */
  function WithParams(query: string, params: Option<seq<string>>): string
  {
    match params
    case None => query
    case Some(names) => AppendMissing(query, names, '@' !in query)
  }

  /** The loop only ever appends. */
  lemma {:induction false} AppendMissingExtends(q: string, names: seq<string>, first: bool)
    ensures q <= AppendMissing(q, names, first)
    decreases |names|
  {
    if names != [] {
      var q' := if Contains(q, "@" + names[0]) then q else q + Separator(first) + names[0];
      AppendMissingExtends(q', names[1..], false);
    }
  }

  lemma ContainsInPrefix(q: string, r: string, t: string)
    requires q <= r && Contains(q, t)
    ensures Contains(r, t)
  {
    assert r == q + r[|q|..];
    ContainsInConcat(q, r[|q|..], t);
  }

  /** A name appended after a separator ending in '@' is found as "@name". */
  lemma AppendedNameOccurs(q: string, sep: string, n: string)
    requires |sep| >= 1 && sep[|sep| - 1] == '@'
    ensures Contains(q + sep + n, "@" + n)
  {
    assert sep == sep[..|sep| - 1] + "@";
    assert q + sep + n == (q + sep[..|sep| - 1]) + ("@" + n);
    ContainsSelf("@" + n);
    ContainsInConcat(q + sep[..|sep| - 1], "@" + n, "@" + n);
  }

  /** After the loop, "@name" can be found for every parameter name. */
  lemma {:induction false} AppendMissingCovers(q: string, names: seq<string>, first: bool, k: nat)
    requires k < |names|
    ensures Contains(AppendMissing(q, names, first), "@" + names[k])
    decreases |names|
  {
    var q' := if Contains(q, "@" + names[0]) then q else q + Separator(first) + names[0];
    var r := AppendMissing(q, names, first);
    assert r == AppendMissing(q', names[1..], false);
    if k == 0 {
      if !Contains(q, "@" + names[0]) {
        AppendedNameOccurs(q, Separator(first), names[0]);
      }
      AppendMissingExtends(q', names[1..], false);
      ContainsInPrefix(q', r, "@" + names[0]);
    } else {
      AppendMissingCovers(q', names[1..], false, k - 1);
      assert names[1..][k - 1] == names[k];
    }
  }

  /** When every "@name" is already there, the loop appends nothing. */
  lemma {:induction false} AppendMissingSaturated(q: string, names: seq<string>, first: bool)
    requires forall k | 0 <= k < |names| :: Contains(q, "@" + names[k])
    ensures AppendMissing(q, names, first) == q
    decreases |names|
  {
    if names != [] {
      assert Contains(q, "@" + names[0]);
      forall k | 0 <= k < |names[1..]|
        ensures Contains(q, "@" + names[1..][k])
      {
        assert names[1..][k] == names[k + 1];
      }
      AppendMissingSaturated(q, names[1..], false);
    }
  }

  /** The query is a prefix of the result, and every parameter's "@name" occurs in it. */
  lemma WithParamsCovers(query: string, names: seq<string>)
    ensures query <= WithParams(query, Some(names))
    ensures forall k | 0 <= k < |names| :: Contains(WithParams(query, Some(names)), "@" + names[k])
  {
    AppendMissingExtends(query, names, '@' !in query);
    forall k | 0 <= k < |names|
      ensures Contains(WithParams(query, Some(names)), "@" + names[k])
    {
      AppendMissingCovers(query, names, '@' !in query, k);
    }
  }

  /** Completing the placeholders of an already completed query changes nothing. */
  lemma WithParamsIdempotent(query: string, params: Option<seq<string>>)
    ensures WithParams(WithParams(query, params), params) == WithParams(query, params)
  {
    if params.Some? {
      var r := WithParams(query, params);
      WithParamsCovers(query, params.value);
      AppendMissingSaturated(r, params.value, '@' !in r);
    }
  }

  lemma {:induction false} AppendMissingFirstSeparator(q: string, names: seq<string>, first: bool)
    requires first ==> '@' !in q
    ensures var r := AppendMissing(q, names, first);
      r != q ==> |r| >= |q| + |Separator(first)| && r[|q|..|q| + |Separator(first)|] == Separator(first)
    decreases |names|
  {
    if names != [] {
      var r := AppendMissing(q, names, first);
      if Contains(q, "@" + names[0]) {
        if first {
          ContainsSelf("@");
          ContainsInConcat("@", names[0], "@");
          ContainsTransitive(q, "@" + names[0], "@");
          ContainsChar(q, '@');
          assert false;
        }
        AppendMissingFirstSeparator(q, names[1..], false);
      } else {
        var q' := q + Separator(first) + names[0];
        AppendMissingExtends(q', names[1..], false);
        assert q'[|q|..|q| + |Separator(first)|] == Separator(first);
      }
    }
  }

  /**
   * The first placeholder appended is written " @name" when the query held no '@' at all,
   * and ", @name" otherwise.
   */
  lemma WithParamsFirstSeparator(query: string, names: seq<string>)
    ensures var r := WithParams(query, Some(names));
      r != query ==>
        if '@' in query then |r| >= |query| + 3 && r[|query|..|query| + 3] == ", @"
        else |r| >= |query| + 2 && r[|query|..|query| + 2] == " @"
  {
    AppendMissingFirstSeparator(query, names, '@' !in query);
  }

  /** From the second turn on the flag is false: the rest of the loop continues from the text so far. */
  lemma {:induction false} AppendMissingSplit(q: string, names: seq<string>, first: bool, k: nat)
    requires 1 <= k <= |names|
    ensures AppendMissing(q, names, first) == AppendMissing(AppendMissing(q, names[..k], first), names[k..], false)
    decreases k
  {
    var q' := if Contains(q, "@" + names[0]) then q else q + Separator(first) + names[0];
    assert names[..k][0] == names[0];
    assert names[..k][1..] == names[1..][..k - 1];
    if k == 1 {
      assert AppendMissing(q', [], false) == q';
    } else {
      AppendMissingSplit(q', names[1..], false, k - 1);
      assert names[1..][k - 1..] == names[k..];
    }
  }

  /**
   * Turn `k >= 1` of the loop, on the text `t` the earlier turns built: `names[k]` is appended
   * after ", @" exactly when "@" + `names[k]` does not occur in `t`, and what it leaves is
   * kept by the later turns.
   */
  lemma LaterSeparators(q: string, names: seq<string>, first: bool, k: nat)
    requires 1 <= k < |names|
    ensures var t := AppendMissing(q, names[..k], first);
      && AppendMissing(q, names[..k + 1], first)
         == (if Contains(t, "@" + names[k]) then t else t + ", @" + names[k])
      && AppendMissing(q, names[..k + 1], first) <= AppendMissing(q, names, first)
  {
    var t := AppendMissing(q, names[..k], first);
    AppendMissingSplit(q, names[..k + 1], first, k);
    assert names[..k + 1][..k] == names[..k];
    assert names[..k + 1][k..] == [names[k]];
    assert [names[k]][1..] == [];
    var t' := if Contains(t, "@" + names[k]) then t else t + Separator(false) + names[k];
    assert AppendMissing(t, [names[k]], false) == AppendMissing(t', [], false);
    AppendMissingSplit(q, names, first, k + 1);
    AppendMissingExtends(AppendMissing(q, names[..k + 1], first), names[k + 1..], false);
  }

  /** A query with no placeholder at all gets its single parameter after " @". */
  lemma BareQueryGainsPlaceholder(query: string, name: string)
    requires '@' !in query
    ensures WithParams(query, Some([name])) == query + " @" + name
  {
    if Contains(query, "@" + name) {
      ContainsSelf("@");
      ContainsInConcat("@", name, "@");
      ContainsTransitive(query, "@" + name, "@");
      ContainsChar(query, '@');
    }
    assert !Contains(query, "@" + name);
    assert [name][1..] == [];
    assert AppendMissing(query, [name], true) == AppendMissing(query + " @" + name, [], false);
  }

  /**
   * The membership test is a substring test: a parameter `id` counts as present in a
   * query that only mentions `@idx`, so no `@id` placeholder is appended.
   */
  lemma PrefixNameCountsAsPresent()
    ensures WithParams("exec GetItem @idx", Some(["id"])) == "exec GetItem @idx"
  {
    var q := "exec GetItem @idx";
    assert q[13..16] == "@" + "id";
    assert OccursAt(q, "@" + "id", 13);
    assert q[13] == '@';
    assert AppendMissing(q, ["id"], false) == AppendMissing(q, [], false);
  }

  /** `QueryWithParams`: the `foreach` loop with its `firstParam` flag. */
  method QueryWithParams(query: string, params: Option<seq<string>>) returns (r: string)
    ensures r == WithParams(query, params)
    ensures params.None? ==> r == query
    ensures query <= r
  {
    if params.None? {
      return query;
    }
    var names := params.value;
    var newq := query;
    var firstParam := true;
    if '@' in newq {
      firstParam := false;
    }
    var i := 0;
    while i < |names|
      invariant 0 <= i <= |names|
      invariant AppendMissing(newq, names[i..], firstParam) == WithParams(query, params)
      invariant i > 0 ==> !firstParam
    {
      if !Contains(newq, "@" + names[i]) {
        newq := newq + Separator(firstParam) + names[i];
      }
      firstParam := false;
      assert names[i..][1..] == names[i + 1..];
      i := i + 1;
    }
    assert names[i..] == [];
    r := newq;
    WithParamsCovers(query, names);
  }

  // ---------------------------------------------------------------------------
  // InsertValues and UpdateValues text
  // ---------------------------------------------------------------------------

  /** The names with '@' in front: the placeholders. */
  function Marked(names: seq<string>): (r: seq<string>)
    ensures |r| == |names|
  {
    seq(|names|, i requires 0 <= i < |names| => "@" + names[i])
  }

  /** `name = @name` for each name. */
  function Assignments(names: seq<string>): (r: seq<string>)
    ensures |r| == |names|
  {
    seq(|names|, i requires 0 <= i < |names| => names[i] + " = @" + names[i])
  }

  function ColumnList(names: seq<string>): string
  {
    Join(names, ", ")
  }

  function PlaceholderList(names: seq<string>): string
  {
    Join(Marked(names), ", ")
  }

  /** The text `InsertValues` builds; `param[0]` on an empty array throws. */
  function InsertSql(table: string, names: seq<string>): Result<string, Fault>
  {
    if |names| == 0 then Failure(IndexOutOfRange)
    else Success("INSERT INTO " + table + " (" + ColumnList(names) + ") VALUES ("
                 + PlaceholderList(names) + ");")
  }

  /** `SET` list of `UpdateValues`. */
  function SetList(values: seq<string>): string
  {
    Join(Assignments(values), ", ")
  }

  /** `WHERE` list of the parameter-condition `UpdateValues`. */
  function ConditionList(conditions: seq<string>): string
  {
    Join(Assignments(conditions), " AND ")
  }

  /** The text of `UpdateValues(TableName, Values, Condition[])`; `Values[0]` may throw. */
  function UpdateSql(table: string, values: seq<string>, conditions: seq<string>): Result<string, Fault>
  {
    if |values| == 0 then Failure(IndexOutOfRange)
    else Success("UPDATE " + table + " SET " + SetList(values)
                 + (if |conditions| > 0 then " WHERE " + ConditionList(conditions) else ""))
  }

  /** The text of `UpdateValues(TableName, Values, String Condition)`. */
  function UpdateWhereSql(table: string, values: seq<string>, condition: Option<string>): Result<string, Fault>
  {
    if |values| == 0 then Failure(IndexOutOfRange)
    else Success("UPDATE " + table + " SET " + SetList(values)
                 + (if IsNullOrWhiteSpace(condition) then "" else " WHERE " + condition.value))
  }

  /** Columns and placeholders are the same names, equally many, in the same order. */
  lemma InsertListsAgree(names: seq<string>)
    requires |names| >= 1
    requires forall i | 0 <= i < |names| :: ',' !in names[i]
    ensures SplitList(ColumnList(names)) == names
    ensures SplitList(PlaceholderList(names)) == Marked(names)
    ensures |SplitList(ColumnList(names))| == |SplitList(PlaceholderList(names))|
  {
    SplitJoin(names);
    forall i | 0 <= i < |names|
      ensures ',' !in Marked(names)[i]
    {
      assert Marked(names)[i] == "@" + names[i];
    }
    SplitJoin(Marked(names));
  }

  lemma ContainsInsideWrapping(a: string, b: string, c: string, t: string)
    requires Contains(b, t)
    ensures Contains(a + b + c, t)
  {
    ContainsInConcat(a, b, t);
    ContainsInConcat(a + b, c, t);
  }

  /** Each `name = @name` item holds the placeholder "@name". */
  lemma AssignmentsHoldPlaceholders(names: seq<string>, k: nat)
    requires k < |names|
    ensures Contains(Assignments(names)[k], "@" + names[k])
  {
    var n := names[k];
    assert Assignments(names)[k] == (n + " = ") + ("@" + n);
    ContainsSelf("@" + n);
    ContainsInConcat(n + " = ", "@" + n, "@" + n);
  }

  lemma AssignmentListCovers(names: seq<string>, sep: string, k: nat)
    requires k < |names|
    ensures Contains(Join(Assignments(names), sep), "@" + names[k])
  {
    AssignmentsHoldPlaceholders(names, k);
    JoinContainsItem(Assignments(names), sep, k);
    ContainsTransitive(Join(Assignments(names), sep), Assignments(names)[k], "@" + names[k]);
  }

  /** The INSERT text already names every placeholder, so `ExecuteNonQuery` sends it as is. */
  lemma InsertPassesThrough(table: string, names: seq<string>)
    requires |names| >= 1
    ensures WithParams(InsertSql(table, names).value, Some(names)) == InsertSql(table, names).value
  {
    var q := InsertSql(table, names).value;
    forall k | 0 <= k < |names|
      ensures Contains(q, "@" + names[k])
    {
      JoinContainsItem(Marked(names), ", ", k);
      ContainsInsideWrapping("INSERT INTO " + table + " (" + ColumnList(names) + ") VALUES (",
                             PlaceholderList(names), ");", "@" + names[k]);
    }
    AppendMissingSaturated(q, names, '@' !in q);
  }

  /**
   * The parameter-condition UPDATE text names every value and condition placeholder, so
   * `ExecuteNonQuery` sends it as is with the parameters `Values ++ Condition`.
   */
  lemma UpdatePassesThrough(table: string, values: seq<string>, conditions: seq<string>)
    requires |values| >= 1
    ensures WithParams(UpdateSql(table, values, conditions).value, Some(values + conditions))
            == UpdateSql(table, values, conditions).value
  {
    var q := UpdateSql(table, values, conditions).value;
    var head := "UPDATE " + table + " SET ";
    var tail := if |conditions| > 0 then " WHERE " + ConditionList(conditions) else "";
    assert q == head + SetList(values) + tail;
    var all := values + conditions;
    forall k | 0 <= k < |all|
      ensures Contains(q, "@" + all[k])
    {
      if k < |values| {
        AssignmentListCovers(values, ", ", k);
        ContainsInsideWrapping(head, SetList(values), tail, "@" + values[k]);
      } else {
        AssignmentListCovers(conditions, " AND ", k - |values|);
        ContainsInsideWrapping(" WHERE ", ConditionList(conditions), "", "@" + all[k]);
        assert " WHERE " + ConditionList(conditions) + "" == tail;
        ContainsInConcat(head + SetList(values), tail, "@" + all[k]);
      }
    }
    AppendMissingSaturated(q, all, '@' !in q);
  }

  /** The string-condition UPDATE text likewise names every value placeholder. */
  lemma UpdateWherePassesThrough(table: string, values: seq<string>, condition: Option<string>)
    requires |values| >= 1
    ensures WithParams(UpdateWhereSql(table, values, condition).value, Some(values))
            == UpdateWhereSql(table, values, condition).value
  {
    var q := UpdateWhereSql(table, values, condition).value;
    var head := "UPDATE " + table + " SET ";
    var tail := if IsNullOrWhiteSpace(condition) then "" else " WHERE " + condition.value;
    assert q == head + SetList(values) + tail;
    forall k | 0 <= k < |values|
      ensures Contains(q, "@" + values[k])
    {
      AssignmentListCovers(values, ", ", k);
      ContainsInsideWrapping(head, SetList(values), tail, "@" + values[k]);
    }
    AppendMissingSaturated(q, values, '@' !in q);
  }

  /**
   * A WHERE clause is added exactly when there are conditions, and it is added after the
   * SET list that the condition-free statement ends with.
   */
  lemma UpdateWhereClause(table: string, values: seq<string>, conditions: seq<string>)
    requires |values| >= 1
    ensures |conditions| == 0 <==> UpdateSql(table, values, conditions) == UpdateSql(table, values, [])
    ensures |conditions| > 0 ==>
      UpdateSql(table, values, conditions).value
      == UpdateSql(table, values, []).value + " WHERE " + ConditionList(conditions)
  {
  }

  /** The literal condition is appended after " WHERE " exactly when it is not blank. */
  lemma UpdateWhereLiteral(table: string, values: seq<string>, condition: Option<string>)
    requires |values| >= 1
    ensures IsNullOrWhiteSpace(condition) <==>
      UpdateWhereSql(table, values, condition) == UpdateSql(table, values, [])
    ensures !IsNullOrWhiteSpace(condition) ==>
      UpdateWhereSql(table, values, condition).value
      == UpdateSql(table, values, []).value + " WHERE " + condition.value
  {
    if !IsNullOrWhiteSpace(condition) {
      var a := UpdateSql(table, values, []).value;
      assert |a + " WHERE " + condition.value| > |a|;
    }
  }

  /** `InsertValues` text: two `for` loops over the parameters. */
  method InsertText(table: string, names: seq<string>) returns (r: Result<string, Fault>)
    ensures r == InsertSql(table, names)
  {
    if |names| == 0 {
      return Failure(IndexOutOfRange);
    }
    var q := "INSERT INTO " + table + " (" + names[0];
    var i := 1;
    while i < |names|
      invariant 1 <= i <= |names|
      invariant q == "INSERT INTO " + table + " (" + Join(names[..i], ", ")
    {
      assert names[..i + 1][..i] == names[..i];
      q := q + ", " + names[i];
      i := i + 1;
    }
    assert names[..i] == names;
    var head := q;
    q := q + ") VALUES (@" + names[0];
    i := 1;
    while i < |names|
      invariant 1 <= i <= |names|
      invariant q == head + ") VALUES (" + Join(Marked(names)[..i], ", ")
    {
      assert Marked(names)[..i + 1][..i] == Marked(names)[..i];
      q := q + ", @" + names[i];
      i := i + 1;
    }
    assert Marked(names)[..i] == Marked(names);
    q := q + ");";
    r := Success(q);
  }

  /** The `SET a = @a, b = @b` loop shared by both `UpdateValues` bodies. */
  method SetText(table: string, values: seq<string>) returns (q: string)
    requires |values| >= 1
    ensures q == "UPDATE " + table + " SET " + SetList(values)
  {
    q := "UPDATE " + table + " SET " + values[0] + " = @" + values[0];
    var i := 1;
    while i < |values|
      invariant 1 <= i <= |values|
      invariant q == "UPDATE " + table + " SET " + Join(Assignments(values)[..i], ", ")
    {
      assert Assignments(values)[..i + 1][..i] == Assignments(values)[..i];
      q := q + ", " + values[i] + " = @" + values[i];
      i := i + 1;
    }
    assert Assignments(values)[..i] == Assignments(values);
  }

  /** The `WHERE c0 = @c0 AND …` part of `UpdateValues(TableName, Values, Condition[])`, appended to `q`. */
  method AppendConditions(q0: string, conditions: seq<string>) returns (q: string)
    ensures q == q0 + (if |conditions| > 0 then " WHERE " + ConditionList(conditions) else "")
  {
    q := q0;
    if |conditions| == 0 {
      assert q == q0 + "";
      return;
    }
    q := q + " WHERE " + conditions[0] + " = @" + conditions[0];
    var i := 1;
    while i < |conditions|
      invariant 1 <= i <= |conditions|
      invariant q == q0 + " WHERE " + Join(Assignments(conditions)[..i], " AND ")
    {
      assert Assignments(conditions)[..i + 1][..i] == Assignments(conditions)[..i];
      q := q + " AND " + conditions[i] + " = @" + conditions[i];
      i := i + 1;
    }
    assert Assignments(conditions)[..i] == Assignments(conditions);
    assert q == q0 + (" WHERE " + ConditionList(conditions));
  }

  /** `UpdateValues(TableName, Values, Condition[])` text. */
  method UpdateText(table: string, values: seq<string>, conditions: seq<string>)
    returns (r: Result<string, Fault>)
    ensures r == UpdateSql(table, values, conditions)
  {
    if |values| == 0 {
      return Failure(IndexOutOfRange);
    }
    var q := SetText(table, values);
    q := AppendConditions(q, conditions);
    r := Success(q);
  }

  /** `UpdateValues(TableName, Values, String Condition)` text. */
  method UpdateWhereText(table: string, values: seq<string>, condition: Option<string>)
    returns (r: Result<string, Fault>)
    ensures r == UpdateWhereSql(table, values, condition)
  {
    if |values| == 0 {
      return Failure(IndexOutOfRange);
    }
    var q := SetText(table, values);
    if !IsNullOrWhiteSpace(condition) {
      q := q + " WHERE " + condition.value;
      assert q == "UPDATE " + table + " SET " + SetList(values) + (" WHERE " + condition.value);
    } else {
      assert q == "UPDATE " + table + " SET " + SetList(values) + "";
    }
    r := Success(q);
  }
}
