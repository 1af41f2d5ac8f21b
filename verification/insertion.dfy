/** DataAccess::insert (src/DataAccess.php:68-95): one row or several rows in a single
    statement with positional `?` parameters. */
module Insertion {
  import opened Outcomes
  import opened PhpText
  import opened PhpArrays
  import opened Quoting
  import opened Executor
  import opened Discovery

  /** insert's data argument, by the shape insert tests it for: not an array at all; one
      associative row (its first value is not an array); or a list of rows (its first
      value is an array). */
  datatype InsertData = NotArray | Single(row: Assoc) | Bulk(rows: seq<Assoc>)

  /** The data is refused as `empty request`: not an array, or an empty one. */
  predicate Refused(data: InsertData)
  {
    match data
    case NotArray => true
    case Single(row) => |row| == 0
    case Bulk(rows) => |rows| == 0
  }

  /** The number of rows the statement writes. */
  function RowCount(data: InsertData): nat
  {
    match data
    case NotArray => 0
    case Single(_) => 1
    case Bulk(rows) => |rows|
  }

  /** The row whose keys name the columns: the data itself, or its first row. */
  function RequestRow(data: InsertData): Assoc
    requires !Refused(data)
  {
    if data.Bulk? then data.rows[0] else data.row
  }

  /** `(?,?,…)` with one `?` per column. */
  function PlaceholderGroup(n: nat): string
  {
    "(" + Join(Fill(n, "?"), ",") + ")"
  }

  /** The VALUES part: one group, or one group per row joined by commas. */
  function ValuesPart(n: nat, data: InsertData): string
  {
    if data.Bulk? then Join(Fill(|data.rows|, PlaceholderGroup(n)), ",") else PlaceholderGroup(n)
  }

  /** Each row's values, in the row's own key order. */
  function RowValues(rows: seq<Assoc>): (vs: seq<seq<Value>>)
    ensures |vs| == |rows|
  {
    seq(|rows|, i requires 0 <= i < |rows| => ArrayValues(rows[i]))
  }

  /** The positional parameters insert binds: every value of every row, unfiltered. */
  function BoundValues(data: InsertData): seq<Value>
  {
    match data
    case NotArray => []
    case Single(row) => ArrayValues(row)
    case Bulk(rows) => Flatten(RowValues(rows))
  }

  /** The statement text for the surviving columns. */
  function InsertText(table: string, fields: seq<string>, data: InsertData): string
  {
    var sqlCols := " (" + Join(QuoteAll(fields), ", ") + ")";
    "INSERT INTO " + Quote(table) + sqlCols + " VALUES " + ValuesPart(|fields|, data) + ";"
  }

  /** The statement insert builds, or the exception it throws first. */
  function InsertQuery(pdo: Connection, table: string, data: InsertData): (r: Result<Query>)
    ensures r.Thrown? <==> Refused(data)
    ensures r.Thrown? ==> r.message == "empty request"
  {
    if Refused(data) then Thrown("empty request")
    else
      var fields := FilterColumns(pdo, table, Keys(RequestRow(data)));
      Ok(Query(InsertText(table, fields, data), Positional(BoundValues(data))))
  }

  /** What insert returns: the affected-row count, or false when execution fails. */
  function InsertResult(pdo: Connection, table: string, data: InsertData): (r: Result<RunResult>)
    ensures r.Thrown? <==> Refused(data)
    ensures r.Ok? ==> r.value.RowCount? || r.value.Failed?
  {
    match InsertQuery(pdo, table, data)
    case Thrown(message) => Thrown(message)
    case Ok(q) =>
      InsertCountsRows(pdo, table, data);
      Ok(Run(q.sql, Execute(pdo, q.sql, q.bind)))
  }

  /** insert (src/DataAccess.php:68-95), merging the rows' values one row at a time. */
  method Insert(pdo: Connection, table: string, data: InsertData) returns (r: Result<RunResult>)
    ensures r == InsertResult(pdo, table, data)
  {
    if Refused(data) {
      return Thrown("empty request");
    }
    var requestFields := if data.Bulk? then data.rows[0] else data.row;
    var fields := FilterKeys(pdo, table, requestFields);
    var escapedFields := QuoteIdentifiers(fields);
    var insertPlaceholder := "(" + Join(Fill(|escapedFields|, "?"), ",") + ")";
    var insertValues: seq<Value>;
    if data.Bulk? {
      insertPlaceholder := Join(Fill(|data.rows|, insertPlaceholder), ",");
      insertValues := MergeRowValues(data.rows);
    } else {
      insertValues := ArrayValues(data.row);
    }
    var sqlCols := " (" + Join(escapedFields, ", ") + ")";
    var sql := "INSERT INTO " + Quote(table) + sqlCols + " VALUES " + insertPlaceholder + ";";
    assert InsertQuery(pdo, table, data) == Ok(Query(sql, Positional(insertValues))) by {
      assert sql == InsertText(table, fields, data);
      assert insertValues == BoundValues(data);
    }
    r := Ok(Run(sql, Execute(pdo, sql, Positional(insertValues))));
  }

  /** The `array_merge` loop of insert (src/DataAccess.php:83-86): the values of every row,
      each row's in its own key order, one row after another. */
  method MergeRowValues(rows: seq<Assoc>) returns (values: seq<Value>)
    ensures values == Flatten(RowValues(rows))
  {
    values := [];
    for i := 0 to |rows|
      invariant values == Flatten(RowValues(rows)[..i])
    {
      assert RowValues(rows)[..i + 1][..i] == RowValues(rows)[..i];
      values := values + ArrayValues(rows[i]);
    }
    assert RowValues(rows)[..|rows|] == RowValues(rows);
  }

  /** Caller values reach only the positional parameters: data of the same shape, with
      as many rows and the same keys in the row that names the columns, gives the same
      statement text. */
  lemma InsertTextIgnoresValues(pdo: Connection, table: string, d1: InsertData, d2: InsertData)
    requires !Refused(d1) && !Refused(d2)
    requires d1.Bulk? == d2.Bulk? && RowCount(d1) == RowCount(d2)
    requires Keys(RequestRow(d1)) == Keys(RequestRow(d2))
    ensures InsertQuery(pdo, table, d1).value.sql == InsertQuery(pdo, table, d2).value.sql
  {
    var fields := FilterColumns(pdo, table, Keys(RequestRow(d1)));
    assert ValuesPart(|fields|, d1) == ValuesPart(|fields|, d2);
  }

  /** Every statement insert builds is one run answers with a row count. */
  lemma InsertCountsRows(pdo: Connection, table: string, data: InsertData)
    requires !Refused(data)
    ensures Classify(InsertQuery(pdo, table, data).value.sql) == AffectedRows
  {
    var fields := FilterColumns(pdo, table, Keys(RequestRow(data)));
    var q := Quote(table);
    var tail := " (" + Join(QuoteAll(fields), ", ") + ")" + " VALUES " + ValuesPart(|fields|, data) + ";";
    InsertTextSplits(table, fields, data);
    TickAround("INTO ", table, tail);
    QuotedTextHasContent("INTO " + q + tail);
    ClassifyInsert("INTO " + q + tail);
  }

  /** The statement text opens with `INSERT `, the quoted table, then the column list and
      the placeholders. */
  lemma InsertTextSplits(table: string, fields: seq<string>, data: InsertData)
    ensures var tail := " (" + Join(QuoteAll(fields), ", ") + ")" + " VALUES " + ValuesPart(|fields|, data) + ";";
      InsertText(table, fields, data) == "INSERT " + ("INTO " + Quote(table) + tail)
      && |Quote(table)| > 0 && Quote(table)[0] == '`'
  {
    var q := Quote(table);
    var cols := " (" + Join(QuoteAll(fields), ", ") + ")";
    var vals := ValuesPart(|fields|, data);
    assert "INSERT INTO " == "INSERT " + "INTO ";
    AppendAssociative("INSERT ", "INTO ", q);
    AppendAssociative("INSERT ", "INTO " + q, cols);
    AppendAssociative("INSERT ", "INTO " + q + cols, " VALUES ");
    AppendAssociative("INSERT ", "INTO " + q + cols + " VALUES ", vals);
    AppendAssociative("INSERT ", "INTO " + q + cols + " VALUES " + vals, ";");
    AppendAssociative("INTO " + q, cols, " VALUES ");
    AppendAssociative("INTO " + q, cols + " VALUES ", vals);
    AppendAssociative("INTO " + q, cols + " VALUES " + vals, ";");
  }

  // ---------------------------------------------------------------- placeholder counts

  /** How often `c` occurs in `s`. */
  function Occurrences(s: string, c: char): nat
  {
    multiset(s)[c]
  }

  /** Joining k copies of a part with a glue free of `c` holds k times the part's `c`s. */
  lemma {:induction false} JoinFillOccurrences(k: nat, part: string, glue: string, c: char)
    requires c !in glue
    ensures Occurrences(Join(Fill(k, part), glue), c) == k * Occurrences(part, c)
  {
    if k == 1 {
      assert Fill(1, part) == [part];
    } else if k > 1 {
      var parts := Fill(k, part);
      assert parts[..k - 1] == Fill(k - 1, part);
      var prev := Join(Fill(k - 1, part), glue);
      JoinFillOccurrences(k - 1, part, glue, c);
      assert Join(parts, glue) == prev + glue + part;
      assert multiset(prev + glue + part) == multiset(prev) + multiset(glue) + multiset(part);
      assert multiset(glue)[c] == 0;
      MultiplySuccessor(k - 1, Occurrences(part, c));
    }
  }

  // A literal or arithmetic step, stated apart only to keep the enclosing proof cheap for the solver.
  lemma MultiplySuccessor(k: nat, x: nat)
    ensures (k + 1) * x == k * x + x
  {
  }

  /** A placeholder group holds one `?` per column. */
  lemma GroupOccurrences(n: nat)
    ensures Occurrences(PlaceholderGroup(n), '?') == n
  {
    var inner := Join(Fill(n, "?"), ",");
    QuestionMarks(n);
    Parenthesised(inner);
  }

  lemma QuestionMarks(n: nat)
    ensures Occurrences(Join(Fill(n, "?"), ","), '?') == n
  {
    JoinFillOccurrences(n, "?", ",", '?');
    assert multiset("?")['?'] == 1;
  }

  lemma Parenthesised(inner: string)
    ensures Occurrences("(" + inner + ")", '?') == Occurrences(inner, '?')
  {
    assert multiset("(" + inner + ")") == multiset("(") + multiset(inner) + multiset(")");
    assert multiset("(")['?'] == 0 && multiset(")")['?'] == 0;
  }

  /** The VALUES part holds one `?` per column for each row written. */
  lemma ValuesPartOccurrences(n: nat, data: InsertData)
    requires !data.NotArray?
    ensures Occurrences(ValuesPart(n, data), '?') == n * RowCount(data)
  {
    GroupOccurrences(n);
    if data.Bulk? {
      JoinFillOccurrences(|data.rows|, PlaceholderGroup(n), ",", '?');
      assert |data.rows| * n == n * |data.rows|;
    } else {
      assert n * 1 == n;
    }
  }

  /** Every row of the data has exactly as many values as there are surviving columns. */
  predicate RowsFit(data: InsertData, n: nat)
  {
    match data
    case NotArray => true
    case Single(row) => |row| == n
    case Bulk(rows) => forall i :: 0 <= i < |rows| ==> |rows[i]| == n
  }

  /** The number of values bound is the total size of the rows. */
  lemma {:induction false} FlattenUniformLength(groups: seq<seq<Value>>, n: nat)
    requires forall i :: 0 <= i < |groups| ==> |groups[i]| == n
    ensures |Flatten(groups)| == n * |groups|
  {
    if |groups| > 0 {
      FlattenUniformLength(groups[..|groups| - 1], n);
    }
  }

  /** Placeholders and bound values agree in number whenever every row has exactly one
      value per surviving column (n of them). */
  lemma CountsAgreeWhenRowsFit(n: nat, data: InsertData)
    requires !data.NotArray? && RowsFit(data, n)
    ensures Occurrences(ValuesPart(n, data), '?') == |BoundValues(data)| == n * RowCount(data)
  {
    if data.Bulk? {
      BulkCountsAgree(n, data.rows);
    } else {
      SingleRowCounts(n, data.row);
      assert n * RowCount(data) == n * 1 == n;
    }
  }

  lemma BulkCountsAgree(n: nat, rows: seq<Assoc>)
    requires RowsFit(Bulk(rows), n)
    ensures Occurrences(ValuesPart(n, Bulk(rows)), '?') == |BoundValues(Bulk(rows))| == n * |rows|
  {
    ValuesPartOccurrences(n, Bulk(rows));
    FlattenUniformLength(RowValues(rows), n);
  }

  /** For a single row the counts agree exactly when every key of the row is a column of
      the table. */
  lemma SingleRowCountsAgreeIffKeysKnown(pdo: Connection, table: string, row: Assoc)
    requires Whitelist(pdo, table).Some?
    ensures var n := |FilterColumns(pdo, table, Keys(row))|;
      Occurrences(ValuesPart(n, Single(row)), '?') == |BoundValues(Single(row))|
      <==> forall k :: k in Keys(row) ==> k in Whitelist(pdo, table).value
  {
    var wl := Whitelist(pdo, table).value;
    var n := |FilterColumns(pdo, table, Keys(row))|;
    assert n == |Intersect(Keys(row), wl)|;
    SingleRowCounts(n, row);
    IntersectKeepsAllIff(Keys(row), wl);
  }

  lemma SingleRowCounts(n: nat, row: Assoc)
    ensures Occurrences(ValuesPart(n, Single(row)), '?') == n
    ensures |BoundValues(Single(row))| == |Keys(row)|
  {
    GroupOccurrences(n);
    assert ValuesPart(n, Single(row)) == PlaceholderGroup(n);
  }

  // ---------------------------------------------------------------- finding

  /** As written, insert binds each row's values in that row's own key order: a second row
      that lists the same columns in another order sends its values to the wrong columns.
      Here both rows name columns a and b; the statement's columns are (a, b), and the
      second group's `a` placeholder receives 3, the value the caller gave for b. */
  lemma InsertMisbindsReorderedRow(pdo: Connection, table: string)
    requires Whitelist(pdo, table).Some?
    requires "a" in Whitelist(pdo, table).value && "b" in Whitelist(pdo, table).value
    ensures var data := Bulk([[("a", Int(1)), ("b", Int(2))], [("b", Int(3)), ("a", Int(4))]]);
      && FilterColumns(pdo, table, Keys(RequestRow(data))) == ["a", "b"]
      && InsertQuery(pdo, table, data).value.bind == Positional([Int(1), Int(2), Int(3), Int(4)])
      && Lookup(data.rows[1], "a") == Int(4)
  {
    var data := Bulk([[("a", Int(1)), ("b", Int(2))], [("b", Int(3)), ("a", Int(4))]]);
    ReorderedRowsColumns(pdo, table);
    ReorderedRowsValues();
    InsertBindsBoundValues(pdo, table, data);
  }

  lemma ReorderedRowsColumns(pdo: Connection, table: string)
    requires Whitelist(pdo, table).Some?
    requires "a" in Whitelist(pdo, table).value && "b" in Whitelist(pdo, table).value
    ensures FilterColumns(pdo, table, Keys([("a", Int(1)), ("b", Int(2))])) == ["a", "b"]
  {
    assert Keys([("a", Int(1)), ("b", Int(2))]) == ["a", "b"];
    BothKept(Whitelist(pdo, table).value);
  }

  lemma InsertBindsBoundValues(pdo: Connection, table: string, data: InsertData)
    requires !Refused(data)
    ensures InsertQuery(pdo, table, data).value.bind == Positional(BoundValues(data))
  {
  }

  lemma BothKept(wl: seq<string>)
    requires "a" in wl && "b" in wl
    ensures Intersect(["a", "b"], wl) == ["a", "b"]
  {
    assert ["a", "b"][1..] == ["b"];
    assert Intersect(["b"], wl) == ["b"];
  }

  lemma ReorderedRowsValues()
    ensures BoundValues(Bulk([[("a", Int(1)), ("b", Int(2))], [("b", Int(3)), ("a", Int(4))]]))
      == [Int(1), Int(2), Int(3), Int(4)]
  {
    var rows := [[("a", Int(1)), ("b", Int(2))], [("b", Int(3)), ("a", Int(4))]];
    var groups := RowValues(rows);
    assert groups[0] == ArrayValues(rows[0]) == [Int(1), Int(2)];
    assert groups[1] == ArrayValues(rows[1]) == [Int(3), Int(4)];
    assert groups == [[Int(1), Int(2)], [Int(3), Int(4)]];
    assert groups[..1] == [[Int(1), Int(2)]];
    assert groups[..1][..0] == [];
    assert Flatten(groups[..1]) == [Int(1), Int(2)];
  }

  /** As written, a key the table does not have still has its value bound: one `?` is
      written but two values are passed. */
  lemma InsertBindsUnknownColumn(pdo: Connection, table: string)
    requires Whitelist(pdo, table).Some?
    requires "a" in Whitelist(pdo, table).value && "zz" !in Whitelist(pdo, table).value
    ensures var data := Single([("a", Int(1)), ("zz", Int(2))]);
      var n := |FilterColumns(pdo, table, Keys(RequestRow(data)))|;
      && Occurrences(ValuesPart(n, data), '?') == 1
      && |BoundValues(data)| == 2
  {
    var row := [("a", Int(1)), ("zz", Int(2))];
    assert |FilterColumns(pdo, table, Keys(row))| == 1 by {
      assert Keys(row) == ["a", "zz"];
      OnlyFirstKept(Whitelist(pdo, table).value);
    }
    SingleRowCounts(1, row);
  }

  lemma OnlyFirstKept(wl: seq<string>)
    requires "a" in wl && "zz" !in wl
    ensures Intersect(["a", "zz"], wl) == ["a"]
  {
    assert ["a", "zz"][1..] == ["zz"];
    assert Intersect(["zz"], wl) == [];
  }

  /** The values the corrected insert binds: for each row, its value for each surviving
      column in column order, null where the row lacks the column. */
  function AlignedValues(fields: seq<string>, rows: seq<Assoc>): seq<Value>
  {
    Flatten(AlignedGroups(fields, rows))
  }

  /** One group per row, holding the row's value for each column in column order. */
  function AlignedGroups(fields: seq<string>, rows: seq<Assoc>): (groups: seq<seq<Value>>)
    ensures |groups| == |rows|
    ensures forall i :: 0 <= i < |rows| ==> |groups[i]| == |fields|
    ensures forall i, j :: 0 <= i < |rows| && 0 <= j < |fields| ==> groups[i][j] == Lookup(rows[i], fields[j])
  {
    seq(|rows|, i requires 0 <= i < |rows| =>
      seq(|fields|, j requires 0 <= j < |fields| => Lookup(rows[i], fields[j])))
  }

  /** The rows insert writes, a single row counting as a list of one. */
  function DataRows(data: InsertData): seq<Assoc>
  {
    match data
    case NotArray => []
    case Single(row) => [row]
    case Bulk(rows) => rows
  }

  /** insert with each row's values bound by column, as the statement's column list
      expects. */
  function InsertAlignedQuery(pdo: Connection, table: string, data: InsertData): (r: Result<Query>)
    ensures r.Thrown? <==> Refused(data)
  {
    if Refused(data) then Thrown("empty request")
    else
      var fields := FilterColumns(pdo, table, Keys(RequestRow(data)));
      Ok(Query(InsertText(table, fields, data), Positional(AlignedValues(fields, DataRows(data)))))
  }

  /** Value j of group i sits at position i * n + j of `flat`. */
  predicate PlacedAt(flat: seq<Value>, groups: seq<seq<Value>>, n: nat, i: nat, j: nat)
    requires i < |groups| && j < |groups[i]|
  {
    i * n + j < |flat| && flat[i * n + j] == groups[i][j]
  }

  /** A uniform list of groups, flattened: group i's value j sits at i * n + j. */
  lemma {:induction false} FlattenUniformAt(groups: seq<seq<Value>>, n: nat, i: nat, j: nat)
    requires forall k :: 0 <= k < |groups| ==> |groups[k]| == n
    requires i < |groups| && j < n
    ensures PlacedAt(Flatten(groups), groups, n, i, j)
    decreases |groups|
  {
    var m := |groups| - 1;
    var front := groups[..m];
    FlattenUniformLength(front, n);
    FlattenUniformLength(groups, n);
    assert Flatten(groups) == Flatten(front) + groups[m];
    if i < m {
      FlattenUniformAt(front, n, i, j);
      PositionBelow(i, j, n, m);
    } else {
      assert i * n == n * m by {
        assert i == m;
      }
    }
  }

  /** Position i * n + j lies inside the first m groups of n when i < m and j < n. */
  lemma PositionBelow(i: nat, j: nat, n: nat, m: nat)
    requires i < m && j < n
    ensures i * n + j < n * m
  {
    MultiplySuccessor(i, n);
    assert (i + 1) * n <= m * n;
  }

  lemma FlattenUniformIndex(groups: seq<seq<Value>>, n: nat)
    requires forall i :: 0 <= i < |groups| ==> |groups[i]| == n
    ensures forall i: nat, j: nat :: i < |groups| && j < n ==> PlacedAt(Flatten(groups), groups, n, i, j)
  {
    forall i: nat, j: nat | i < |groups| && j < n
      ensures PlacedAt(Flatten(groups), groups, n, i, j)
    {
      FlattenUniformAt(groups, n, i, j);
    }
  }

  /** The corrected insert writes one `?` per bound value, and the value at position
      i * n + j (n columns) is the caller's value for column j in row i. */
  lemma InsertAlignedBindsByColumn(pdo: Connection, table: string, data: InsertData)
    requires !Refused(data)
    ensures var fields := FilterColumns(pdo, table, Keys(RequestRow(data)));
      var rows := DataRows(data);
      var values := InsertAlignedQuery(pdo, table, data).value.bind.values;
      && Occurrences(ValuesPart(|fields|, data), '?') == |values|
      && values == AlignedValues(fields, rows)
      && forall i: nat, j: nat :: i < |rows| && j < |fields| ==>
           PlacedAt(values, AlignedGroups(fields, rows), |fields|, i, j)
  {
    var fields := FilterColumns(pdo, table, Keys(RequestRow(data)));
    AlignedCounts(fields, data);
    AlignedPlacement(fields, DataRows(data));
  }

  lemma AlignedCounts(fields: seq<string>, data: InsertData)
    requires !Refused(data)
    ensures Occurrences(ValuesPart(|fields|, data), '?') == |AlignedValues(fields, DataRows(data))|
  {
    var n := |fields|;
    FlattenUniformLength(AlignedGroups(fields, DataRows(data)), n);
    if data.Bulk? {
      ValuesPartOccurrences(n, data);
    } else {
      GroupOccurrences(n);
      assert ValuesPart(n, data) == PlaceholderGroup(n);
      assert n * 1 == n;
    }
  }

  lemma AlignedPlacement(fields: seq<string>, rows: seq<Assoc>)
    ensures forall i: nat, j: nat :: i < |rows| && j < |fields| ==>
      PlacedAt(AlignedValues(fields, rows), AlignedGroups(fields, rows), |fields|, i, j)
  {
    FlattenUniformIndex(AlignedGroups(fields, rows), |fields|);
  }
}
