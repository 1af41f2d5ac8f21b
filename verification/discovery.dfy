/** DataAccess::filter and filterKeys (src/DataAccess.php:203-207, 250-273): the column
    whitelist of a table is discovered afresh with a per-driver statement, and the caller's
    column names are cut down to those that occur in it. */
module Discovery {
  import opened Outcomes
  import opened PhpArrays
  import opened Quoting
  import opened Executor

  /** A discovery statement and the row field that holds a column's name. */
  datatype DiscoveryQuery = DiscoveryQuery(sql: string, key: string)

  /** The discovery statement filter picks from the driver name (src/DataAccess.php:252-263);
      the table name is quoted and written into the text, not bound. */
  function DiscoveryStatement(driver: string, table: string): DiscoveryQuery
  {
    var quoted := Quote(table);
    if driver == "sqlite" then DiscoveryQuery("PRAGMA " + "table_info(" + quoted + ");", "name")
    else if driver == "mysql" then DiscoveryQuery("DESCRIBE " + quoted + ";", "Field")
    else DiscoveryQuery("SELECT " + SchemaColumns + quoted + ";", "column_name")
  }

  const SchemaColumns := "column_name FROM information_schema.columns WHERE table_name = "

  /** $record[$key]: a missing field reads as null, which compares as the empty string. */
  function ColumnName(record: Row, key: string): string
  {
    if key in record then record[key] else ""
  }

  function ColumnNames(rows: seq<Row>, key: string): (names: seq<string>)
    ensures |names| == |rows|
  {
    seq(|rows|, i requires 0 <= i < |rows| => ColumnName(rows[i], key))
  }

  /** The column names the connection reports for `table`, or None when the discovery
      statement does not execute. */
  function Whitelist(pdo: Connection, table: string): Option<seq<string>>
  {
    var d := DiscoveryStatement(pdo.driver, table);
    match Execute(pdo, d.sql, Positional([]))
    case None => None
    case Some(e) => Some(ColumnNames(e.rows, d.key))
  }

  /** array_values(array_intersect(columns, whitelist)). */
  function Intersect(columns: seq<string>, whitelist: seq<string>): seq<string>
  {
    if |columns| == 0 then []
    else if columns[0] in whitelist then [columns[0]] + Intersect(columns[1..], whitelist)
    else Intersect(columns[1..], whitelist)
  }

  /** filter's result: the caller's columns that the table's discovered column list holds,
      or nothing when the discovery statement does not execute. Discovery.Filter shows that
      running the statement through run gives this. */
  function FilterColumns(pdo: Connection, table: string, columns: seq<string>): seq<string>
  {
    match Whitelist(pdo, table)
    case Some(names) => Intersect(columns, names)
    case None => []
  }

  /** The caller's columns that occur in field `key` of the rows `list` holds, or nothing
      when `list` is not an array of rows. */
  function Listed(columns: seq<string>, list: RunResult, key: string): seq<string>
  {
    match list
    case RowSet(rows) => Intersect(columns, ColumnNames(rows, key))
    case _ => []
  }

  /** filter (src/DataAccess.php:250-273): the discovery statement is run, then the names
      are collected by CollectListed. */
  method Filter(pdo: Connection, table: string, columns: seq<string>) returns (fields: seq<string>)
    ensures fields == FilterColumns(pdo, table, columns)
  {
    var d := DiscoveryStatement(pdo.driver, table);
    var list := Run(d.sql, Execute(pdo, d.sql, Positional([])));
    fields := CollectListed(columns, list, d.key);
    DiscoveryReturnsRows(pdo.driver, table);
  }

  /** The rest of filter (src/DataAccess.php:265-272): the discovered names are collected one
      row at a time, and the caller's columns are intersected with them. */
  method CollectListed(columns: seq<string>, list: RunResult, key: string) returns (fields: seq<string>)
    ensures fields == Listed(columns, list, key)
  {
    if list.RowSet? {
      var found: seq<string> := [];
      for i := 0 to |list.rows|
        invariant |found| == i
        invariant forall j :: 0 <= j < i ==> found[j] == ColumnName(list.rows[j], key)
      {
        found := found + [ColumnName(list.rows[i], key)];
      }
      assert found == ColumnNames(list.rows, key);
      fields := Intersect(columns, found);
    } else {
      fields := [];
    }
  }

  /** filterKeys (src/DataAccess.php:203-207): filter applied to an array's keys. */
  method FilterKeys(pdo: Connection, table: string, params: Assoc) returns (fields: seq<string>)
    ensures fields == FilterColumns(pdo, table, Keys(params))
  {
    fields := Filter(pdo, table, Keys(params));
  }

  /** `a` is `b` with some elements left out, the rest in their order. */
  predicate IsSubsequence(a: seq<string>, b: seq<string>)
    decreases |b|
  {
    if |a| == 0 then true
    else if |b| == 0 then false
    else if a[0] == b[0] then IsSubsequence(a[1..], b[1..])
    else IsSubsequence(a, b[1..])
  }

  /** The intersection keeps, in the caller's order and with repetitions, exactly the
      columns that are in the whitelist. */
  lemma {:induction false} IntersectCharacterized(columns: seq<string>, whitelist: seq<string>)
    ensures IsSubsequence(Intersect(columns, whitelist), columns)
    ensures forall c :: c in Intersect(columns, whitelist) ==> c in whitelist
    ensures forall c :: c in whitelist ==> multiset(Intersect(columns, whitelist))[c] == multiset(columns)[c]
    decreases |columns|
  {
    if |columns| > 0 {
      var rest := Intersect(columns[1..], whitelist);
      IntersectCharacterized(columns[1..], whitelist);
      assert columns == [columns[0]] + columns[1..];
      if columns[0] in whitelist {
        assert ([columns[0]] + rest)[1..] == rest;
      } else if |rest| > 0 {
        assert rest[0] in whitelist;
      }
    }
  }

  /** Every column is kept exactly when every column is whitelisted. */
  lemma {:induction false} IntersectKeepsAllIff(columns: seq<string>, whitelist: seq<string>)
    ensures (Intersect(columns, whitelist) == columns) <==> (forall c :: c in columns ==> c in whitelist)
    ensures |Intersect(columns, whitelist)| <= |columns|
    ensures |Intersect(columns, whitelist)| == |columns| <==> (forall c :: c in columns ==> c in whitelist)
    decreases |columns|
  {
    if |columns| > 0 {
      IntersectKeepsAllIff(columns[1..], whitelist);
      assert forall c :: c in columns[1..] ==> c in columns;
      if columns[0] in whitelist {
        assert forall c :: c in columns ==> c == columns[0] || c in columns[1..];
      }
    }
  }

  /** No column survives when none is whitelisted. */
  lemma {:induction false} IntersectDropsUnknown(columns: seq<string>, whitelist: seq<string>)
    requires forall c :: c in columns ==> c !in whitelist
    ensures Intersect(columns, whitelist) == []
    decreases |columns|
  {
    if |columns| > 0 {
      assert forall c :: c in columns[1..] ==> c in columns;
      IntersectDropsUnknown(columns[1..], whitelist);
    }
  }

  /** Every discovery statement is one that run answers with rows. */
  lemma DiscoveryReturnsRows(driver: string, table: string)
    ensures Classify(DiscoveryStatement(driver, table).sql) == FetchRows
  {
    var quoted := Quote(table);
    if driver == "sqlite" {
      assert "PRAGMA " + "table_info(" + quoted + ");" == "PRAGMA " + ("table_info(" + quoted + ");");
      assert ("table_info(" + quoted + ");")[11] == '`';
      QuotedTextHasContent("table_info(" + quoted + ");");
      ClassifyPragma("table_info(" + quoted + ");");
    } else if driver == "mysql" {
      assert "DESCRIBE " + quoted + ";" == "DESCRIBE " + (quoted + ";");
      assert (quoted + ";")[0] == '`';
      QuotedTextHasContent(quoted + ";");
      ClassifyDescribe(quoted + ";");
    } else {
      assert "SELECT " + SchemaColumns + quoted + ";" == "SELECT " + (SchemaColumns + quoted + ";");
      assert (SchemaColumns + quoted + ";")[|SchemaColumns|] == '`';
      QuotedTextHasContent(SchemaColumns + quoted + ";");
      ClassifySelect(SchemaColumns + quoted + ";");
    }
  }

  /** filter against the discovered column list: when the discovery statement does not
      execute, no column survives; otherwise the result is the caller's columns, in their
      order and with their repetitions, less every column not in the list. */
  lemma FilterKeepsWhitelistedColumns(pdo: Connection, table: string, columns: seq<string>)
    ensures Whitelist(pdo, table).None? ==> FilterColumns(pdo, table, columns) == []
    ensures Whitelist(pdo, table).Some? ==>
      var r, wl := FilterColumns(pdo, table, columns), Whitelist(pdo, table).value;
      && r == Intersect(columns, wl)
      && IsSubsequence(r, columns)
      && (forall c :: c in r ==> c in wl)
      && (forall c :: c in wl ==> multiset(r)[c] == multiset(columns)[c])
  {
    if Whitelist(pdo, table).Some? {
      IntersectCharacterized(columns, Whitelist(pdo, table).value);
    }
  }

  /** The statement the MySQL driver runs for a table whose name holds no backtick, such
      as `books` (tests/DataAccessTest.php:407): DESCRIBE of the name wrapped in backticks,
      read through the `Field` column. */
  lemma DiscoveryMySqlPlainName(table: string)
    requires forall i :: 0 <= i < |table| ==> table[i] != '`'
    ensures DiscoveryStatement("mysql", table) == DiscoveryQuery("DESCRIBE `" + table + "`;", "Field")
  {
    var q := Quote(table);
    assert q == "`" + table + "`" by {
      EscapeLeavesPlainNames(table);
    }
    assert DiscoveryStatement("mysql", table).sql == "DESCRIBE " + q + ";" by {
      assert "mysql" != "sqlite" by {
        assert "mysql"[0] != "sqlite"[0];
      }
    }
    assert "DESCRIBE " + q + ";" == "DESCRIBE `" + table + "`;" by {
      assert "DESCRIBE " + "`" == "DESCRIBE `" && "`" + ";" == "`;";
      Regrouped("DESCRIBE ", "`", table, "`", ";");
    }
  }

  // A literal or arithmetic step, stated apart only to keep the enclosing proof cheap for the solver.
  lemma Regrouped(a: string, b: string, t: string, c: string, d: string)
    ensures a + (b + t + c) + d == (a + b) + t + (c + d)
  {
  }
}
