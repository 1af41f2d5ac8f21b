/** DataAccess::select, update and delete (src/DataAccess.php:41-151): each assembles one
    statement from quoted, whitelisted names and binds every caller value through a named
    placeholder. */
module Statements {
  import opened Outcomes
  import opened PhpText
  import opened PhpArrays
  import opened Quoting
  import opened Executor
  import opened Discovery
  import opened Binding
  import opened OrderBy

  /** select's column argument: one name passed as a string, or a list of names. */
  datatype Columns = One(name: string) | Many(names: seq<string>)

  /** A string column argument is read as a one-element list. */
  function ColumnList(cols: Columns): seq<string>
  {
    match cols
    case One(name) => [name]
    case Many(names) => names
  }

  /** The WHERE part of select, update and delete: empty when no filter column survives,
      else WHERE and the filter clauses joined by AND. */
  function WherePart(fields: seq<string>, prefix: string): (w: string)
    ensures w == "" <==> |fields| == 0
  {
    match BindFieldsText(QuoteAll(fields), " AND ", prefix)
    case None => ""
    case Some(clauses) => " WHERE " + clauses
  }

  // ---------------------------------------------------------------- select

  /** The statement select builds (src/DataAccess.php:43-56). */
  function SelectQuery(pdo: Connection, table: string, cols: Columns, filter: Assoc, orderBy: string): Query
  {
    var columns := FilterColumns(pdo, table, ColumnList(cols));
    var sqlCols := if |columns| == 0 then "*" else Join(QuoteAll(columns), ",");
    var fields := FilterColumns(pdo, table, Keys(filter));
    Query("SELECT " + sqlCols + " FROM " + Quote(table) + WherePart(fields, "w_") + OrderByClause(orderBy),
          Named(BindMap(fields, filter, "w_")))
  }

  /** select (src/DataAccess.php:41-58): the rows, or false when execution fails; never a
      row count or a statement handle. */
  function Select(pdo: Connection, table: string, cols: Columns, filter: Assoc, orderBy: string): (r: RunResult)
    ensures r.RowSet? || r.Failed?
  {
    var q := SelectQuery(pdo, table, cols, filter, orderBy);
    SelectFetchesRows(pdo, table, cols, filter, orderBy);
    Run(q.sql, Execute(pdo, q.sql, q.bind))
  }

  /** Every statement select builds is one run answers with rows. */
  lemma SelectFetchesRows(pdo: Connection, table: string, cols: Columns, filter: Assoc, orderBy: string)
    ensures Classify(SelectQuery(pdo, table, cols, filter, orderBy).sql) == FetchRows
  {
    var columns := FilterColumns(pdo, table, ColumnList(cols));
    var sqlCols := if |columns| == 0 then "*" else Join(QuoteAll(columns), ",");
    var fields := FilterColumns(pdo, table, Keys(filter));
    var q, w, o := Quote(table), WherePart(fields, "w_"), OrderByClause(orderBy);
    var rest := sqlCols + " FROM " + q + w + o;
    AppendAssociative("SELECT ", sqlCols, " FROM ");
    AppendAssociative("SELECT ", sqlCols + " FROM ", q);
    AppendAssociative("SELECT ", sqlCols + " FROM " + q, w);
    AppendAssociative("SELECT ", sqlCols + " FROM " + q + w, o);
    TickAround(sqlCols + " FROM ", table, w + o);
    AppendAssociative(sqlCols + " FROM " + q, w, o);
    QuotedTextHasContent(rest);
    ClassifySelect(rest);
  }

  /** A single column name selects exactly as the list holding only that name. */
  lemma SelectOneColumnAsList(pdo: Connection, table: string, name: string, filter: Assoc, orderBy: string)
    ensures SelectQuery(pdo, table, One(name), filter, orderBy) == SelectQuery(pdo, table, Many([name]), filter, orderBy)
  {
  }

  /** With no column, no filter and no order, select reads every column of every row. */
  lemma SelectEverything(pdo: Connection, table: string)
    ensures SelectQuery(pdo, table, Many([]), [], "") == Query("SELECT * FROM " + Quote(table), Named(map[]))
  {
    assert Keys([]) == [];
    assert "SELECT " + "*" + " FROM " + Quote(table) == "SELECT * FROM " + Quote(table);
  }

  /** When no requested column is whitelisted, select asks for all columns. */
  lemma SelectStarWhenNoColumnSurvives(pdo: Connection, table: string, cols: Columns, filter: Assoc, orderBy: string)
    requires forall c :: c in ColumnList(cols) ==> Whitelist(pdo, table).Some? ==> c !in Whitelist(pdo, table).value
    ensures var sql := SelectQuery(pdo, table, cols, filter, orderBy).sql;
      |sql| >= 14 + |Quote(table)| && sql[..14 + |Quote(table)|] == "SELECT * FROM " + Quote(table)
  {
    var columns := FilterColumns(pdo, table, ColumnList(cols));
    assert |columns| == 0 by {
      if Whitelist(pdo, table).Some? {
        IntersectDropsUnknown(ColumnList(cols), Whitelist(pdo, table).value);
      }
    }
    var fields := FilterColumns(pdo, table, Keys(filter));
    var q, w, o := Quote(table), WherePart(fields, "w_"), OrderByClause(orderBy);
    var sql := SelectQuery(pdo, table, cols, filter, orderBy).sql;
    assert sql == "SELECT " + "*" + " FROM " + q + w + o;
    StarFrom();
    AppendAssociative("SELECT * FROM " + q, w, o);
    PrefixOfAppend("SELECT * FROM " + q, w + o);
  }

  // A literal or arithmetic step, stated apart only to keep the enclosing proof cheap for the solver.
  lemma StarFrom()
    ensures "SELECT " + "*" + " FROM " == "SELECT * FROM "
  {
  }

  // A literal or arithmetic step, stated apart only to keep the enclosing proof cheap for the solver.
  lemma PrefixOfAppend(a: string, b: string)
    ensures (a + b)[..|a|] == a
  {
  }

  /** A filter whose keys are all unknown to the table selects as if there were no filter. */
  lemma SelectIgnoresUnknownFilterKeys(pdo: Connection, table: string, cols: Columns, filter: Assoc, orderBy: string)
    requires forall k :: k in Keys(filter) ==> Whitelist(pdo, table).Some? ==> k !in Whitelist(pdo, table).value
    ensures SelectQuery(pdo, table, cols, filter, orderBy) == SelectQuery(pdo, table, cols, [], orderBy)
  {
    if Whitelist(pdo, table).Some? {
      IntersectDropsUnknown(Keys(filter), Whitelist(pdo, table).value);
    }
  }

  /** Caller values reach only the bind array: two filters over the same keys give the
      same statement text. */
  lemma SelectTextIgnoresValues(pdo: Connection, table: string, cols: Columns, f1: Assoc, f2: Assoc, orderBy: string)
    requires Keys(f1) == Keys(f2)
    ensures SelectQuery(pdo, table, cols, f1, orderBy).sql == SelectQuery(pdo, table, cols, f2, orderBy).sql
  {
  }

  /** The WHERE clauses and the bind array agree one to one: clause i compares the quoted
      i-th surviving column with placeholder i, that placeholder is bound to the caller's
      value for the column, and the bind array holds nothing else. */
  lemma WhereClausesMatchBind(fields: seq<string>, params: Assoc, prefix: string)
    ensures forall i :: 0 <= i < |fields| ==>
      BindClauses(QuoteAll(fields), prefix)[i] == Quote(fields[i]) + " = " + Placeholder(prefix, i)
    ensures forall i :: 0 <= i < |fields| ==>
      && Placeholder(prefix, i) in BindMap(fields, params, prefix)
      && BindMap(fields, params, prefix)[Placeholder(prefix, i)] == Lookup(params, fields[i])
    ensures forall k :: k in BindMap(fields, params, prefix) ==>
      exists i :: 0 <= i < |fields| && k == Placeholder(prefix, i)
    ensures |BindMap(fields, params, prefix)| == |fields|
  {
    BindMapKeys(fields, params, prefix);
    BindMapValues(fields, params, prefix);
    BindMapSize(fields, params, prefix);
  }

  // ---------------------------------------------------------------- update

  /** The statement update builds (src/DataAccess.php:110-127): an empty data array is
      refused before anything is built; a data array with no whitelisted key leaves the
      SET part empty. */
  function UpdateQuery(pdo: Connection, table: string, data: Assoc, filter: Assoc): (r: Result<Query>)
    ensures r.Thrown? <==> |data| == 0
    ensures r.Thrown? ==> r.message == "empty request"
  {
    if |data| == 0 then Thrown("empty request")
    else
      var fields := FilterColumns(pdo, table, Keys(data));
      var sets := match BindFieldsText(QuoteAll(fields), ",", "u_") case None => "" case Some(t) => t;
      var whereFields := FilterColumns(pdo, table, Keys(filter));
      Ok(Query("UPDATE " + Quote(table) + " SET " + sets + WherePart(whereFields, "w_"),
               Named(BindMap(fields, data, "u_") + BindMap(whereFields, filter, "w_"))))
  }

  /** update (src/DataAccess.php:108-129): the affected-row count, or false when execution
      fails. */
  function Update(pdo: Connection, table: string, data: Assoc, filter: Assoc): (r: Result<RunResult>)
    ensures r.Thrown? <==> |data| == 0
    ensures r.Ok? ==> r.value.RowCount? || r.value.Failed?
  {
    match UpdateQuery(pdo, table, data, filter)
    case Thrown(message) => Thrown(message)
    case Ok(q) =>
      UpdateCountsRows(pdo, table, data, filter);
      Ok(Run(q.sql, Execute(pdo, q.sql, q.bind)))
  }

  /** Every statement update builds is one run answers with a row count. */
  lemma UpdateCountsRows(pdo: Connection, table: string, data: Assoc, filter: Assoc)
    requires UpdateQuery(pdo, table, data, filter).Ok?
    ensures Classify(UpdateQuery(pdo, table, data, filter).value.sql) == AffectedRows
  {
    var fields := FilterColumns(pdo, table, Keys(data));
    var sets := match BindFieldsText(QuoteAll(fields), ",", "u_") case None => "" case Some(t) => t;
    var whereFields := FilterColumns(pdo, table, Keys(filter));
    var q, w := Quote(table), WherePart(whereFields, "w_");
    var rest := q + " SET " + sets + w;
    AppendAssociative("UPDATE ", q, " SET ");
    AppendAssociative("UPDATE ", q + " SET ", sets);
    AppendAssociative("UPDATE ", q + " SET " + sets, w);
    assert rest[0] == q[0] == '`';
    QuotedTextHasContent(rest);
    ClassifyUpdate(rest);
  }

  /** The SET and WHERE placeholders never collide: the bind array holds one entry per
      surviving data column and one per surviving filter column, each bound to its own
      caller value. */
  lemma UpdateBindsBothParts(pdo: Connection, table: string, data: Assoc, filter: Assoc)
    requires |data| > 0
    ensures var fields, whereFields := FilterColumns(pdo, table, Keys(data)), FilterColumns(pdo, table, Keys(filter));
      var bind := UpdateQuery(pdo, table, data, filter).value.bind.named;
      && |bind| == |fields| + |whereFields|
      && (forall i :: 0 <= i < |fields| ==>
            Placeholder("u_", i) in bind && bind[Placeholder("u_", i)] == Lookup(data, fields[i]))
      && (forall i :: 0 <= i < |whereFields| ==>
            Placeholder("w_", i) in bind && bind[Placeholder("w_", i)] == Lookup(filter, whereFields[i]))
  {
    var fields, whereFields := FilterColumns(pdo, table, Keys(data)), FilterColumns(pdo, table, Keys(filter));
    MergedBind(fields, data, whereFields, filter);
  }

  /** The SET entries and the WHERE entries of update's bind array, merged. */
  lemma MergedBind(fields: seq<string>, data: Assoc, whereFields: seq<string>, filter: Assoc)
    ensures var bind := BindMap(fields, data, "u_") + BindMap(whereFields, filter, "w_");
      && |bind| == |fields| + |whereFields|
      && (forall i :: 0 <= i < |fields| ==>
            Placeholder("u_", i) in bind && bind[Placeholder("u_", i)] == Lookup(data, fields[i]))
      && (forall i :: 0 <= i < |whereFields| ==>
            Placeholder("w_", i) in bind && bind[Placeholder("w_", i)] == Lookup(filter, whereFields[i]))
  {
    var sets, wheres := BindMap(fields, data, "u_"), BindMap(whereFields, filter, "w_");
    WhereClausesMatchBind(fields, data, "u_");
    WhereClausesMatchBind(whereFields, filter, "w_");
    SetAndWhereKeysDisjoint(fields, data, whereFields, filter);
    assert (sets + wheres).Keys == sets.Keys + wheres.Keys;
    assert |sets.Keys + wheres.Keys| == |sets.Keys| + |wheres.Keys|;
  }

  lemma SetAndWhereKeysDisjoint(fields: seq<string>, data: Assoc, whereFields: seq<string>, filter: Assoc)
    ensures BindMap(fields, data, "u_").Keys !! BindMap(whereFields, filter, "w_").Keys
  {
    var sets, wheres := BindMap(fields, data, "u_"), BindMap(whereFields, filter, "w_");
    BindMapKeys(fields, data, "u_");
    BindMapKeys(whereFields, filter, "w_");
    forall k | k in sets.Keys
      ensures k !in wheres.Keys
    {
      var i :| 0 <= i < |fields| && k == Placeholder("u_", i);
      forall j: nat | j < |whereFields|
        ensures k != Placeholder("w_", j)
      {
        SetAndWherePlaceholdersDiffer(i, j);
      }
    }
  }

  /** A filter whose keys are all unknown to the table, the empty filter included, updates
      as if there were no filter: the statement has no WHERE part and binds only the SET
      values. */
  lemma UpdateIgnoresUnknownFilterKeys(pdo: Connection, table: string, data: Assoc, filter: Assoc)
    requires forall k :: k in Keys(filter) ==> Whitelist(pdo, table).Some? ==> k !in Whitelist(pdo, table).value
    ensures UpdateQuery(pdo, table, data, filter) == UpdateQuery(pdo, table, data, [])
  {
    if Whitelist(pdo, table).Some? {
      IntersectDropsUnknown(Keys(filter), Whitelist(pdo, table).value);
    }
  }

  /** Caller values reach only the bind array: data and filters over the same keys give
      the same outcome, and the same statement text when it is built. */
  lemma UpdateTextIgnoresValues(pdo: Connection, table: string, d1: Assoc, d2: Assoc, f1: Assoc, f2: Assoc)
    requires Keys(d1) == Keys(d2) && Keys(f1) == Keys(f2)
    ensures UpdateQuery(pdo, table, d1, f1).Ok? <==> UpdateQuery(pdo, table, d2, f2).Ok?
    ensures UpdateQuery(pdo, table, d1, f1).Ok? ==>
      UpdateQuery(pdo, table, d1, f1).value.sql == UpdateQuery(pdo, table, d2, f2).value.sql
  {
    assert |d1| == |Keys(d1)| == |Keys(d2)| == |d2|;
  }

  /** When the table's columns cannot be discovered, update still writes its statement,
      with an empty SET part, no WHERE part and nothing bound. */
  lemma UpdateWithEmptySet(pdo: Connection, table: string, data: Assoc, filter: Assoc)
    requires |data| > 0
    requires Whitelist(pdo, table).None?
    ensures UpdateQuery(pdo, table, data, filter) == Ok(Query("UPDATE " + Quote(table) + " SET ", Named(map[])))
  {
    assert FilterColumns(pdo, table, Keys(data)) == [];
    assert FilterColumns(pdo, table, Keys(filter)) == [];
    assert QuoteAll([]) == [];
    assert WherePart([], "w_") == "";
    assert "UPDATE " + Quote(table) + " SET " + "" + "" == "UPDATE " + Quote(table) + " SET ";
  }

  // ---------------------------------------------------------------- delete

  /** The statement delete builds (src/DataAccess.php:143-149); its placeholders carry no
      prefix. */
  function DeleteQuery(pdo: Connection, table: string, filter: Assoc): Query
  {
    var whereFields := FilterColumns(pdo, table, Keys(filter));
    Query("DELETE FROM " + Quote(table) + WherePart(whereFields, ""), Named(BindMap(whereFields, filter, "")))
  }

  /** delete (src/DataAccess.php:141-151): the affected-row count, or false when execution
      fails. */
  function Delete(pdo: Connection, table: string, filter: Assoc): (r: RunResult)
    ensures r.RowCount? || r.Failed?
  {
    var q := DeleteQuery(pdo, table, filter);
    DeleteCountsRows(pdo, table, filter);
    Run(q.sql, Execute(pdo, q.sql, q.bind))
  }

  /** Every statement delete builds is one run answers with a row count. */
  lemma DeleteCountsRows(pdo: Connection, table: string, filter: Assoc)
    ensures Classify(DeleteQuery(pdo, table, filter).sql) == AffectedRows
  {
    var whereFields := FilterColumns(pdo, table, Keys(filter));
    var rest := "FROM " + Quote(table) + WherePart(whereFields, "");
    var q, w := Quote(table), WherePart(whereFields, "");
    DeleteFrom();
    AppendAssociative("DELETE ", "FROM ", q);
    AppendAssociative("DELETE ", "FROM " + q, w);
    TickAround("FROM ", table, w);
    QuotedTextHasContent(rest);
    ClassifyDelete(rest);
  }

  // A literal or arithmetic step, stated apart only to keep the enclosing proof cheap for the solver.
  lemma DeleteFrom()
    ensures "DELETE FROM " == "DELETE " + "FROM "
  {
  }

  /** Caller values reach only the bind array: two filters over the same keys give the
      same statement text. */
  lemma DeleteTextIgnoresValues(pdo: Connection, table: string, f1: Assoc, f2: Assoc)
    requires Keys(f1) == Keys(f2)
    ensures DeleteQuery(pdo, table, f1).sql == DeleteQuery(pdo, table, f2).sql
  {
  }

  /** A filter with no whitelisted key, the empty filter included, deletes every row of
      the table. */
  lemma DeleteWithoutFilterDeletesAll(pdo: Connection, table: string, filter: Assoc)
    requires forall k :: k in Keys(filter) ==> Whitelist(pdo, table).Some? ==> k !in Whitelist(pdo, table).value
    ensures DeleteQuery(pdo, table, filter) == Query("DELETE FROM " + Quote(table), Named(map[]))
  {
    if Whitelist(pdo, table).Some? {
      IntersectDropsUnknown(Keys(filter), Whitelist(pdo, table).value);
    }
  }
}
