/** DataAccess::run (src/DataAccess.php:225-239): the driver's prepare/execute is an input
    to the model, and what remains is how the trimmed statement's leading word decides the
    shape of the result. */
module Executor {
  import opened Outcomes
  import opened PhpText
  import opened PhpArrays

  /** A fetched row: column name to column text. */
  type Row = map<string, string>

  /** The three result shapes of run. */
  datatype Kind = FetchRows | AffectedRows | StatementHandle

  /** The leading-word tests of run: `^(select|describe|pragma) ` and
      `^(delete|insert|update|replace) `, case-insensitive, on the trimmed statement. */
  function Classify(sql: string): Kind
  {
    var t := Trim(sql, TrimCharacters);
    if OpensFetch(t) then FetchRows
    else if OpensChange(t) then AffectedRows
    else StatementHandle
  }

  /** `^(select|describe|pragma) ` with the `/i` flag. */
  predicate OpensFetch(t: string)
  {
    MatchesAt(t, 0, "select ") || MatchesAt(t, 0, "describe ") || MatchesAt(t, 0, "pragma ")
  }

  /** `^(delete|insert|update|replace) ` with the `/i` flag. */
  predicate OpensChange(t: string)
  {
    MatchesAt(t, 0, "delete ") || MatchesAt(t, 0, "insert ") || MatchesAt(t, 0, "update ")
    || MatchesAt(t, 0, "replace ")
  }

  /** What the driver reports for an executed statement. */
  datatype Executed = Executed(rows: seq<Row>, rowCount: nat)

  /** The value run returns: all rows, the affected-row count, the statement handle, or
      `false` when execution did not succeed. */
  datatype RunResult = RowSet(rows: seq<Row>) | RowCount(count: nat) | Handle | Failed

  /** The parameters a statement is executed with: named placeholders (select, update,
      delete) or positional `?` values (insert). */
  datatype Bind = Named(named: map<string, Value>) | Positional(values: seq<Value>)

  /** A statement text and the parameters run executes it with. */
  datatype Query = Query(sql: string, bind: Bind)

  /** The state of a DataAccess: its PDO connection, reduced to the driver name it reports
      and the outcome of executing each statement text with each parameter array. A pair
      that is not in `db` fails to execute. The connection is never replaced, so every
      operation reads it and none changes it. */
  datatype Connection = Connection(driver: string, db: map<(string, Bind), Executed>)

  /** PHP has a single empty array: an empty positional list and an empty named map are
      the same parameter array, written here as the empty named map. */
  function Normalized(bind: Bind): (b: Bind)
    ensures b != Positional([])
    ensures bind == Positional([]) ==> b == Named(map[])
    ensures bind != Positional([]) ==> b == bind
  {
    if bind == Positional([]) then Named(map[]) else bind
  }

  /** Both spellings of PHP's empty parameter array reach the same outcome. */
  lemma EmptyArraysExecuteAlike(pdo: Connection, sql: string)
    ensures Execute(pdo, sql, Positional([])) == Execute(pdo, sql, Named(map[]))
  {
  }

  /** prepare and execute of the trimmed text that run prepares. */
  function Execute(pdo: Connection, sql: string, bind: Bind): Option<Executed>
  {
    var key := (Trim(sql, TrimCharacters), Normalized(bind));
    if key in pdo.db then Some(pdo.db[key]) else None
  }

  /** run, given the driver's outcome of preparing and executing the statement. */
  function Run(sql: string, execution: Option<Executed>): (r: RunResult)
    ensures r.Failed? <==> execution.None?
    ensures r.RowSet? <==> execution.Some? && Classify(sql) == FetchRows
    ensures r.RowCount? <==> execution.Some? && Classify(sql) == AffectedRows
    ensures r.RowSet? ==> r.rows == execution.value.rows
    ensures r.RowCount? ==> r.count == execution.value.rowCount
  {
    match execution
    case None => Failed
    case Some(e) =>
      match Classify(sql)
      case FetchRows => RowSet(e.rows)
      case AffectedRows => RowCount(e.rowCount)
      case StatementHandle => Handle
  }

  lemma OpensWith(t: string, head: string, word: string)
    requires |head| <= |t| && t[..|head|] == head && |word| <= |head|
    ensures MatchesAt(t, 0, word) <==> ToLower(head[..|word|]) == word
  {
    assert t[0..|word|] == head[..|word|];
  }

  lemma DoesNotOpenWith(t: string, word: string, i: nat)
    requires i < |t| && i < |word| && LowerChar(t[i]) != word[i]
    ensures !MatchesAt(t, 0, word)
  {
  }

  /** `rest` holds a character that trim does not remove. */
  predicate HasContent(rest: string)
  {
    exists j :: 0 <= j < |rest| && rest[j] !in TrimCharacters
  }

  /** Text that holds a quoted name is not all whitespace. */
  lemma QuotedTextHasContent(rest: string)
    requires '`' in rest
    ensures HasContent(rest)
  {
    var j :| 0 <= j < |rest| && rest[j] == '`';
    assert rest[j] !in TrimCharacters;
  }

  /** The trimmed text of `head + rest` still opens with `head` when `head` does not start
      with a trimmed character and `rest` is not all whitespace. */
  lemma TrimmedOpening(head: string, rest: string)
    requires |head| > 0 && head[0] !in TrimCharacters
    requires HasContent(rest)
    ensures |Trim(head + rest, TrimCharacters)| > |head|
    ensures Trim(head + rest, TrimCharacters)[..|head|] == head
  {
    var j :| 0 <= j < |rest| && rest[j] !in TrimCharacters;
    TrimKeepsHead(head, rest, TrimCharacters, j);
  }

  /** A statement whose trimmed text opens with `head`, a fetching keyword written in any
      letter case, returns rows. */
  lemma FetchOpening(head: string, rest: string, word: string)
    requires |head| > 0 && head[0] !in TrimCharacters && HasContent(rest)
    requires |word| == |head| && ToLower(head) == word
    requires word == "select " || word == "describe " || word == "pragma "
    ensures Classify(head + rest) == FetchRows
  {
    var t := Trim(head + rest, TrimCharacters);
    TrimmedOpening(head, rest);
    OpensWith(t, head, word);
    assert head[..|word|] == head;
    assert OpensFetch(t);
  }

  /** A statement whose trimmed text opens with `head`, a changing keyword written in any
      letter case, returns a row count; the letters checked here rule out the fetching
      keywords. */
  lemma ChangeOpening(head: string, rest: string, word: string)
    requires |head| > 2 && head[0] !in TrimCharacters && HasContent(rest)
    requires |word| == |head| && ToLower(head) == word
    requires word == "delete " || word == "insert " || word == "update " || word == "replace "
    ensures Classify(head + rest) == AffectedRows
  {
    var t := Trim(head + rest, TrimCharacters);
    TrimmedOpening(head, rest);
    assert !OpensFetch(t) by {
      assert t[0] == head[0] && t[2] == head[2];
      assert LowerChar(t[0]) == word[0] && LowerChar(t[2]) == word[2];
      NotFetchOpening(t, word[0], word[2]);
    }
    assert OpensChange(t) by {
      OpensWith(t, head, word);
      assert head[..|word|] == head;
    }
  }

  /** The first and third letters of a changing keyword rule out the fetching ones. */
  lemma NotFetchOpening(t: string, first: char, third: char)
    requires |t| > 2 && LowerChar(t[0]) == first && LowerChar(t[2]) == third
    requires first != 's' && first != 'p' && (first == 'd' ==> third != 's')
    ensures !OpensFetch(t)
  {
    DoesNotOpenWith(t, "select ", 0);
    DoesNotOpenWith(t, "pragma ", 0);
    if first == 'd' {
      DoesNotOpenWith(t, "describe ", 2);
    } else {
      DoesNotOpenWith(t, "describe ", 0);
    }
  }

  /** Statements that open with SELECT and go on with more than whitespace return rows. */
  lemma ClassifySelect(rest: string)
    requires HasContent(rest)
    ensures Classify("SELECT " + rest) == FetchRows
  {
    assert LowerChar('C') == 'c' && LowerChar('E') == 'e' && LowerChar('L') == 'l' && LowerChar('S') == 's' && LowerChar('T') == 't';
    FetchOpening("SELECT ", rest, "select ");
  }

  /** Statements that open with DESCRIBE and go on with more than whitespace return rows. */
  lemma ClassifyDescribe(rest: string)
    requires HasContent(rest)
    ensures Classify("DESCRIBE " + rest) == FetchRows
  {
    assert LowerChar('B') == 'b' && LowerChar('C') == 'c' && LowerChar('D') == 'd' && LowerChar('E') == 'e' && LowerChar('I') == 'i' && LowerChar('R') == 'r' && LowerChar('S') == 's';
    FetchOpening("DESCRIBE ", rest, "describe ");
  }

  /** Statements that open with PRAGMA and go on with more than whitespace return rows. */
  lemma ClassifyPragma(rest: string)
    requires HasContent(rest)
    ensures Classify("PRAGMA " + rest) == FetchRows
  {
    assert LowerChar('A') == 'a' && LowerChar('G') == 'g' && LowerChar('M') == 'm' && LowerChar('P') == 'p' && LowerChar('R') == 'r';
    FetchOpening("PRAGMA ", rest, "pragma ");
  }

  /** Statements that open with DELETE and go on with more than whitespace return a row count. */
  lemma ClassifyDelete(rest: string)
    requires HasContent(rest)
    ensures Classify("DELETE " + rest) == AffectedRows
  {
    assert LowerChar('D') == 'd' && LowerChar('E') == 'e' && LowerChar('L') == 'l' && LowerChar('T') == 't';
    ChangeOpening("DELETE ", rest, "delete ");
  }

  /** Statements that open with INSERT and go on with more than whitespace return a row count. */
  lemma ClassifyInsert(rest: string)
    requires HasContent(rest)
    ensures Classify("INSERT " + rest) == AffectedRows
  {
    assert LowerChar('E') == 'e' && LowerChar('I') == 'i' && LowerChar('N') == 'n' && LowerChar('R') == 'r' && LowerChar('S') == 's' && LowerChar('T') == 't';
    ChangeOpening("INSERT ", rest, "insert ");
  }

  /** Statements that open with UPDATE and go on with more than whitespace return a row count. */
  lemma ClassifyUpdate(rest: string)
    requires HasContent(rest)
    ensures Classify("UPDATE " + rest) == AffectedRows
  {
    assert LowerChar('A') == 'a' && LowerChar('D') == 'd' && LowerChar('E') == 'e' && LowerChar('P') == 'p' && LowerChar('T') == 't' && LowerChar('U') == 'u';
    ChangeOpening("UPDATE ", rest, "update ");
  }

  /** A statement without any quoted name is classified the same way (the `SELECT 1` a
      driver accepts). */
  lemma ClassifySelectLiteral()
    ensures Classify("SELECT 1") == FetchRows
  {
    LiteralSplits();
    ClassifySelect("1");
  }

  // Stated apart only to keep the proof of ClassifySelectLiteral cheap for the solver.
  lemma LiteralSplits()
    ensures "SELECT 1" == "SELECT " + "1"
    ensures HasContent("1")
  {
    assert "1"[0] == '1';
  }

  /** Whitespace in front of a statement does not change its kind. */
  lemma ClassifyIgnoresLeadingWhitespace(c: char, sql: string)
    requires c in TrimCharacters
    ensures Classify([c] + sql) == Classify(sql)
  {
    assert ([c] + sql)[1..] == sql;
    assert TrimStart([c] + sql, TrimCharacters) == TrimStart(sql, TrimCharacters);
  }

  /** A statement opening with another word (the DDL run by tests/DataAccessTest.php:378)
      returns the statement handle. */
  lemma ClassifyOtherStatement()
    ensures Classify("ALTER TABLE books RENAME TO dvds") == StatementHandle
  {
    var a := "ALTER TABLE books RENAME TO dvds";
    assert a[0] == 'A' && a[|a| - 1] == 's';
    assert 'A' !in TrimCharacters && 's' !in TrimCharacters;
    assert TrimStart(a, TrimCharacters) == a;
    assert TrimEnd(a, TrimCharacters) == a;
    assert !OpensFetch(a) by {
      DoesNotOpenWith(a, "select ", 0);
      DoesNotOpenWith(a, "describe ", 0);
      DoesNotOpenWith(a, "pragma ", 0);
    }
    assert !OpensChange(a) by {
      DoesNotOpenWith(a, "delete ", 0);
      DoesNotOpenWith(a, "insert ", 0);
      DoesNotOpenWith(a, "update ", 0);
      DoesNotOpenWith(a, "replace ", 0);
    }
  }
}
