# simple-database-api: DataAccess, modelled in Dafny

`DataAccess` (src/DataAccess.php) is a thin layer over a PDO connection. It offers
`select`, `insert`, `update` and `delete` on one table at a time. Every table and column
name that reaches SQL text is wrapped in backticks by `quoteIdentifiers`. The column
names a caller passes to select, insert, update and delete are first checked against the
table's real column list; the ORDER BY column is not (it is only quoted). That list is
discovered afresh by `filter` with a driver-specific statement:
- `PRAGMA table_info` for sqlite;
- `DESCRIBE` for mysql;
- `information_schema.columns` for any other driver.

Caller values never reach the SQL text. `select`, `update` and `delete` bind them through
named placeholders (`:w_0`, `:u_1`, …). `insert` binds them as positional `?`
parameters. `run` trims the statement and executes it. Its result depends on the
statement's first word: the rows for select/describe/pragma, the affected-row count for
delete/insert/update/replace, and the statement handle otherwise. In the model, a
statement that does not execute gives `false`; the source sets PDO's exception error mode,
under which such a statement throws instead (see "Left out").

The model has no class. The object's only field, `$pdo`, is set once in the constructor
and never replaced, so it is the value `Executor.Connection`. It holds the driver name
and a finite map from (trimmed statement text, bind parameters) to what executing that
pair yields. A pair missing from the map is a statement that fails to execute. Every
operation reads the connection, and none changes it. The loops of the source are methods
proved equal to the functions that specify them:
- the array branch of `quoteIdentifiers`;
- the row loop of `filter`;
- the `$first` loop of `implodeBindFields`;
- the loop of `bindValues`;
- the `array_merge` loop of `insert`.

Modules:
- `Outcomes`: `Option` and `Result`. `Thrown(message)` stands for the `PDOException`
  that `insert` and `update` throw themselves.
- `PhpText`: `implode`, `trim`, `strtoupper`/`strtolower`, integer-to-string
  conversion, and `/i` matching.
- `PhpArrays`: ordered associative arrays as sequences of pairs, `array_values`,
  `array_fill`, and flattening.
- `Quoting`: `quoteIdentifiers`.
- `Executor`: `run` and the connection.
- `Discovery`: `filter` and `filterKeys`.
- `Binding`: `implodeBindFields` and `bindValues`.
- `OrderBy`: `createOrderByStatement`.
- `Statements`: `select`, `update` and `delete`.
- `Insertion`: `insert`, together with the finding below.

## Model

| member | source | states |
|---|---|---|
| Quoting.Escape | src/DataAccess.php:163 | The replacement's output is always a well-formed quoted-identifier body: only non-backtick characters and doubled backticks. |
| Quoting.Quote | src/DataAccess.php:167 | A quoted name is a backtick, a well-formed escaped body and a closing backtick. |
| Quoting.QuoteIdentifiers | src/DataAccess.php:159-166 | The array branch rewrites every entry in place with its quoted form, keeps the length, and agrees with quoting each name. |
| Quoting.UnescapeEscape | src/DataAccess.php:163 | Reading the escaped text back returns the name minus every backslash run that stood directly before a backtick. |
| Quoting.DropIsIdentity | src/DataAccess.php:163 | A name with no backslash directly before a backtick loses nothing to the replacement. |
| Quoting.QuoteRoundTrip | src/DataAccess.php:167 | Unquoting Quote(s) gives s minus the backslashes swallowed before backticks. |
| Quoting.QuoteInvertible | src/DataAccess.php:167 | Among names with no backslash before a backtick, Quote is undone by unquoting and is injective. |
| Quoting.QuotedNameCannotEscape | src/DataAccess.php:167 | Whatever the name holds, when Quote(name) is followed by text that does not start with a backtick, as in every statement the builders produce, the identifier it opens ends at its own closing backtick. |
| Quoting.EscapeLeavesPlainNames | src/DataAccess.php:163 | A name without backticks is left unchanged by the replacement, backslashes included. |
| Quoting.QuoteExampleOneTick | tests/DataAccessTest.php:38-41 | `1`st` quotes to `` `1``st` ``. |
| Quoting.QuoteExampleTwoTicks | tests/DataAccessTest.php:39-42 | `2``st` quotes to `` `2````st` ``. |
| Quoting.QuoteDropsBackslashesBeforeTick | src/DataAccess.php:163 | The two backslashes in `a\\`b` are swallowed together with the backtick they precede. |
| Quoting.QuoteKeepsOtherBackslashes | src/DataAccess.php:163 | A backslash that is not followed by a backtick is kept. |
| PhpText.DecimalString | src/DataAccess.php:297 | The decimal text of an array index is non-empty, all digits, and one character long exactly for indexes below 10. |
| PhpText.DecimalStringInjective | src/DataAccess.php:297 | Different indexes give different decimal texts. |
| PhpText.TrimKeepsHead | src/DataAccess.php:227 | trim leaves the opening of a statement in place when the statement holds a non-space character later. |
| Executor.Run | src/DataAccess.php:225-239 | run yields false exactly when execution fails. It yields the rows exactly when the trimmed statement opens with select/describe/pragma and a space, and the row count exactly when it opens with delete/insert/update/replace. The rows are the driver's fetched rows and the count is the driver's row count. |
| Executor.Classify | src/DataAccess.php:227-236 | Definition of the two leading-word tests on the trimmed statement; properties in Executor.Run and the Classify lemmas below. |
| Executor.Execute | src/DataAccess.php:227-229 | Definition: the connection's outcome for the trimmed statement and its parameters; properties in Executor.Run. |
| Executor.Normalized | src/DataAccess.php:229 | An empty positional list becomes the empty named map, so PHP's single empty array has one spelling; every other array is kept. |
| Executor.EmptyArraysExecuteAlike | src/DataAccess.php:229 | Executing a statement with either spelling of the empty parameter array gives the same outcome. |
| Executor.QuotedTextHasContent | src/DataAccess.php:227 | Text holding a backtick is not all whitespace, so trim keeps what precedes it. |
| Executor.FetchOpening | src/DataAccess.php:227-231 | A statement that opens with select/describe/pragma in any letter case and a space, followed by anything that is not only whitespace, is answered with rows. |
| Executor.ChangeOpening | src/DataAccess.php:227-233 | A statement that opens with delete/insert/update/replace in any letter case and a space, followed by anything that is not only whitespace, is answered with a row count. |
| Executor.ClassifySelect | src/DataAccess.php:230-231 | Every `SELECT ` statement with more than whitespace after the keyword is answered with rows. |
| Executor.ClassifyDescribe | src/DataAccess.php:230-231 | Every `DESCRIBE ` statement with more than whitespace after the keyword is answered with rows. |
| Executor.ClassifyPragma | src/DataAccess.php:230-231 | Every `PRAGMA ` statement with more than whitespace after the keyword is answered with rows. |
| Executor.ClassifyDelete | src/DataAccess.php:232-233 | Every `DELETE ` statement with more than whitespace after the keyword is answered with a row count. |
| Executor.ClassifyInsert | src/DataAccess.php:232-233 | Every `INSERT ` statement with more than whitespace after the keyword is answered with a row count. |
| Executor.ClassifyUpdate | src/DataAccess.php:232-233 | Every `UPDATE ` statement with more than whitespace after the keyword is answered with a row count. |
| Executor.ClassifySelectLiteral | src/DataAccess.php:230-231 | `SELECT 1`, which names no quoted identifier, is answered with rows. |
| Executor.ClassifyIgnoresLeadingWhitespace | src/DataAccess.php:227 | Whitespace in front of a statement does not change how run answers it. |
| Executor.ClassifyOtherStatement | tests/DataAccessTest.php:376-379 | An ALTER TABLE statement gets back the statement handle. |
| Discovery.DiscoveryStatement | src/DataAccess.php:252-263 | Definition of the per-driver statement and row key; properties in Discovery.DiscoveryReturnsRows and Discovery.DiscoveryMySqlPlainName. |
| Discovery.Whitelist | src/DataAccess.php:265-272 | Definition: the discovered column names, or none when discovery fails; properties in Discovery.FilterKeepsWhitelistedColumns. |
| Discovery.Intersect | src/DataAccess.php:270 | Definition of array_values(array_intersect); properties in Discovery.IntersectCharacterized, Discovery.IntersectKeepsAllIff and Discovery.IntersectDropsUnknown. |
| Discovery.FilterColumns | src/DataAccess.php:250-273 | Definition of filter's result through the discovered list; properties in Discovery.FilterKeepsWhitelistedColumns, and Discovery.Filter, which goes through run, is proved equal to it. |
| Discovery.Filter | src/DataAccess.php:250-273 | filter's result is FilterColumns: the discovery statement's run, reduced by Discovery.CollectListed. |
| Discovery.Listed | src/DataAccess.php:265-272 | Definition: the caller's columns intersected with the key field of each row, or nothing when the run yields no rows; properties in Discovery.FilterKeepsWhitelistedColumns. |
| Discovery.CollectListed | src/DataAccess.php:265-272 | The row loop collects each discovered row's column name, and the result is the caller's columns intersected with that list, or nothing when the run yields no rows. |
| Discovery.FilterKeys | src/DataAccess.php:203-207 | filterKeys is filter applied to the array's keys in their order. |
| Discovery.IntersectCharacterized | src/DataAccess.php:270 | array_values(array_intersect) keeps the caller's order as a subsequence. It keeps only whitelisted names, and keeps every whitelisted name as often as the caller gave it. |
| Discovery.IntersectKeepsAllIff | src/DataAccess.php:270 | Nothing is dropped exactly when every name is whitelisted, and the result is never longer than the input. |
| Discovery.IntersectDropsUnknown | src/DataAccess.php:270 | With no whitelisted name, nothing survives. |
| Discovery.DiscoveryReturnsRows | src/DataAccess.php:252-265 | Each of the three discovery statements is answered with rows by run. |
| Discovery.FilterKeepsWhitelistedColumns | src/DataAccess.php:250-273 | When discovery fails, filter returns nothing. Otherwise it returns exactly the caller's columns that appear in the discovered list, in order, with repetitions. |
| Discovery.DiscoveryMySqlPlainName | src/DataAccess.php:257-259 | Under mysql, a table name with no backtick (such as `books`, tests/DataAccessTest.php:407) is discovered with `DESCRIBE` of the name in backticks, read through the `Field` key. |
| Binding.Placeholder | src/DataAccess.php:297 | Definition of `:` + prefix + index; properties in Binding.PlaceholderInjective and Binding.SetAndWherePlaceholdersDiffer. |
| Binding.BindFieldsText | src/DataAccess.php:284-300 | Definition of implodeBindFields' result; Binding.ImplodeBindFields is proved equal to it, and Statements.WhereClausesMatchBind relates it to the bind array. |
| Binding.BindMap | src/DataAccess.php:313-319 | Definition of the entries bindValues writes; properties in Binding.BindMapKeys, Binding.BindMapValues and Binding.BindMapSize. |
| Binding.ImplodeBindFields | src/DataAccess.php:284-300 | The result is false for no fields. Otherwise it is the `column = :prefix<index>` clauses, one per field in order, with the glue between neighbours only. |
| Binding.BindValues | src/DataAccess.php:313-319 | The result is the incoming array overwritten with one entry per field position. |
| Binding.PlaceholderInjective | src/DataAccess.php:297 | Two positions share a placeholder only if they are the same position. |
| Binding.SetAndWherePlaceholdersDiffer | src/DataAccess.php:116-127 | A `u_` placeholder never equals a `w_` placeholder. |
| Binding.BindMapKeys | src/DataAccess.php:315-316 | The bind array's keys are exactly the placeholders of the field positions. |
| Binding.LastPlaceholderIsNew | src/DataAccess.php:315-316 | The next position's placeholder is not yet a key. |
| Binding.BindMapValues | src/DataAccess.php:316 | Placeholder i is bound to the caller's value for field i, or to null when the caller has none. |
| Binding.BindMapSize | src/DataAccess.php:315-316 | The bind array has exactly one entry per field. |
| Binding.BindValuesKeepsOtherEntries | src/DataAccess.php:313-319 | Entries of the incoming array under other keys are kept unchanged, and the resulting keys are the union of both key sets. |
| OrderBy.MatchOrderBy | src/DataAccess.php:186-188 | Definition of the pattern's two groups; properties in OrderBy.MatchesIffKeywordOccurs, OrderBy.DirectionIsKeyword and OrderBy.CutMatchesAlike. |
| OrderBy.OrderByClause | src/DataAccess.php:180-192 | Definition of createOrderByStatement; properties in OrderBy.ColumnStaysQuoted, OrderBy.TextAfterDirectionIgnored and the two test examples. |
| OrderBy.KeywordLength | src/DataAccess.php:186 | The alternation takes asc before desc before default, and the length it reports matches the keyword found there. |
| OrderBy.FirstDirection | src/DataAccess.php:186 | The lazy group stops at the leftmost position where a direction keyword starts, and no keyword starts earlier. |
| OrderBy.DirectionIsKeyword | src/DataAccess.php:188 | The direction is always ASC, DESC or DEFAULT. |
| OrderBy.MatchesIffKeywordOccurs | src/DataAccess.php:186 | preg_match succeeds exactly when a direction keyword occurs somewhere in the text, in any letter case. |
| OrderBy.TextAfterDirectionIgnored | src/DataAccess.php:186-191 | Everything after the leftmost keyword is ignored: cutting the text there gives the same clause. |
| OrderBy.CutMatchesAlike | src/DataAccess.php:186-188 | The match of the cut text equals the match of the whole text. |
| OrderBy.CutFindsSameKeyword | src/DataAccess.php:186 | In the cut text the leftmost keyword is at the same position with the same length. |
| OrderBy.FirstDirectionAt | src/DataAccess.php:186 | A keyword with none before it is the one the pattern finds. |
| OrderBy.ColumnStaysQuoted | src/DataAccess.php:182-191 | For any non-empty request, the clause is ORDER BY, a quoted column and a direction, and the quoted column closes at its own closing backtick. |
| OrderBy.NoKeywordAt | src/DataAccess.php:186 | No keyword starts at a character other than a or d in either case. |
| OrderBy.KeywordFoundAfterPlainColumn | src/DataAccess.php:186 | When no a or d precedes a keyword, that keyword is the one found. |
| OrderBy.OrderByWithoutDirectionExample | tests/DataAccessTest.php:354-359 | `1`st` gives `` ORDER BY `1``st`  `` with an empty direction. |
| OrderBy.OrderByAscExample | tests/DataAccessTest.php:361-366 | `1`st ASC` gives `` ORDER BY `1``st` ASC ``. |
| Statements.WherePart | src/DataAccess.php:50-51 | The WHERE part is empty exactly when no filter column survives. |
| Statements.SelectQuery | src/DataAccess.php:43-56 | Definition of the statement and bind array select builds; properties in the Select lemmas below. |
| Statements.Select | src/DataAccess.php:41-58 | select gives back the rows, or false when execution fails, never a count or a handle. |
| Statements.SelectFetchesRows | src/DataAccess.php:55-57 | Every statement select builds is answered with rows. |
| Statements.SelectOneColumnAsList | src/DataAccess.php:43 | A column given as a string selects like the list holding only it. |
| Statements.SelectEverything | src/DataAccess.php:41-57 | With no columns, no filter and no order, select reads every column of the quoted table with nothing bound. |
| Statements.SelectStarWhenNoColumnSurvives | src/DataAccess.php:44-45 | When no requested column is whitelisted, the statement starts `SELECT * FROM` and the quoted table. |
| Statements.SelectIgnoresUnknownFilterKeys | src/DataAccess.php:47-51 | A filter without whitelisted keys builds the same statement and bind as no filter. |
| Statements.SelectTextIgnoresValues | src/DataAccess.php:47-55 | Caller values never reach the statement text: filters over the same keys give the same SQL. |
| Statements.WhereClausesMatchBind | src/DataAccess.php:48-56 | Clause i compares quoted column i with placeholder i. That placeholder is bound to the caller's value for the column, and the bind array holds nothing else. |
| Statements.UpdateQuery | src/DataAccess.php:110-127 | An empty data array throws `empty request`, and any other builds a statement. |
| Statements.Update | src/DataAccess.php:108-129 | update throws exactly for empty data. Otherwise it gives back the row count or false. |
| Statements.UpdateCountsRows | src/DataAccess.php:124-128 | Every statement update builds is answered with a row count. |
| Statements.UpdateBindsBothParts | src/DataAccess.php:114-127 | The bind array has one entry per surviving SET column plus one per surviving WHERE column, each bound to its own caller value. |
| Statements.MergedBind | src/DataAccess.php:126-127 | Merging the SET and WHERE entries loses none of them. |
| Statements.SetAndWhereKeysDisjoint | src/DataAccess.php:126-127 | The SET and WHERE key sets are disjoint. |
| Statements.UpdateIgnoresUnknownFilterKeys | src/DataAccess.php:119-127 | A filter without whitelisted keys, the empty one included, builds the same statement and bind array as no filter: an update of every row. |
| Statements.UpdateTextIgnoresValues | src/DataAccess.php:110-127 | Caller values never reach the statement text: data and filters over the same keys are refused alike, and otherwise give the same SQL. |
| Statements.UpdateWithEmptySet | src/DataAccess.php:114-124 | When discovery fails, update still builds `UPDATE <table> SET ` with nothing bound. |
| Statements.DeleteQuery | src/DataAccess.php:143-149 | Definition of the statement and bind array delete builds; properties in Statements.DeleteCountsRows and Statements.DeleteWithoutFilterDeletesAll. |
| Statements.Delete | src/DataAccess.php:141-151 | delete gives back the row count or false. |
| Statements.DeleteCountsRows | src/DataAccess.php:148-150 | Every statement delete builds is answered with a row count. |
| Statements.DeleteTextIgnoresValues | src/DataAccess.php:143-149 | Caller values never reach the statement text: filters over the same keys give the same SQL. |
| Statements.DeleteWithoutFilterDeletesAll | src/DataAccess.php:143-149 | A filter without whitelisted keys, the empty one included, deletes every row of the quoted table with nothing bound. |
| Insertion.InsertText | src/DataAccess.php:91-92 | Definition of the statement text; properties in Insertion.InsertTextSplits and Insertion.InsertCountsRows. |
| Insertion.ValuesPart | src/DataAccess.php:79-82 | Definition of the VALUES part; properties in Insertion.ValuesPartOccurrences. |
| Insertion.BoundValues | src/DataAccess.php:83-89 | Definition of the values insert binds; properties in Insertion.CountsAgreeWhenRowsFit and the two as-written lemmas. |
| Insertion.InsertQuery | src/DataAccess.php:70-72 | Data that is not an array, or is empty, throws `empty request`, and anything else builds a statement. |
| Insertion.InsertResult | src/DataAccess.php:68-95 | insert throws exactly for refused data. Otherwise it gives back the row count or false. |
| Insertion.Insert | src/DataAccess.php:68-95 | The method, which merges the rows with Insertion.MergeRowValues, returns what InsertResult specifies. |
| Insertion.MergeRowValues | src/DataAccess.php:83-86 | The `array_merge` loop yields every row's values, each row in its own key order, one row after another. |
| Insertion.InsertTextIgnoresValues | src/DataAccess.php:74-92 | Caller values never reach the statement text: accepted data with the same shape, the same number of rows and the same keys in the row that names the columns gives the same SQL. |
| Insertion.InsertCountsRows | src/DataAccess.php:92-94 | Every statement insert builds is answered with a row count. |
| Insertion.InsertTextSplits | src/DataAccess.php:91-92 | The statement is `INSERT INTO`, the quoted table, the column list and the VALUES part. |
| Insertion.JoinFillOccurrences | src/DataAccess.php:80-82 | Joining k copies of a part holds k times the part's `?`s. |
| Insertion.GroupOccurrences | src/DataAccess.php:80 | A placeholder group holds one `?` per surviving column. |
| Insertion.ValuesPartOccurrences | src/DataAccess.php:80-82 | The VALUES part holds one `?` per column per row. |
| Insertion.FlattenUniformLength | src/DataAccess.php:84-86 | Merging rows of n values each gives n times the row count. |
| Insertion.CountsAgreeWhenRowsFit | src/DataAccess.php:79-89 | When every row has one value per surviving column, placeholders and bound values agree in number. |
| Insertion.SingleRowCountsAgreeIffKeysKnown | src/DataAccess.php:77-88 | For one row, the counts agree exactly when every key of the row is a column of the table. |
| Insertion.SingleRowCounts | src/DataAccess.php:80-88 | One row writes one `?` per surviving column and binds every one of its values. |
| Insertion.InsertMisbindsReorderedRow | src/DataAccess.php:83-86 | As written, a second row that lists columns a and b in the other order binds its b value to column a. |
| Insertion.InsertBindsUnknownColumn | src/DataAccess.php:77-88 | As written, a row with an unknown key writes one `?` but binds two values. |
| Insertion.AlignedGroups | src/DataAccess.php:83-89 | Definition of the corrected groups; properties in Insertion.InsertAlignedBindsByColumn and Insertion.FlattenUniformAt. |
| Insertion.InsertAlignedQuery | src/DataAccess.php:68-95 | The corrected insert throws exactly for refused data. |
| Insertion.InsertAlignedBindsByColumn | src/DataAccess.php:79-89 | Corrected: the statement has one `?` per bound value, and value i·n+j is row i's value for column j. |
| Insertion.FlattenUniformAt | src/DataAccess.php:84-86 | In merged rows of n values, value j of row i sits at position i·n+j. |

## Left out

- The PDO object is replaced by the `Connection` map from (trimmed statement, bind array) to an outcome. The following are inputs to the model or left out:
  - preparing and executing SQL;
  - what a database returns;
  - the error mode set in the constructor (src/DataAccess.php:24).
- Exceptions thrown by PDO are not modelled. Under the exception error mode, a failing statement throws instead of giving `false`. The model gives `false` (`Failed`) for every statement missing from the map, including the discovery statement inside `filter`.
- `createOrderByStatement` calls `filterKeys($table, [$orderBy])` and discards the result (src/DataAccess.php:190). The keys of `[$orderBy]` are `[0]`, so the call filters the integer 0, not the column name; it only runs the discovery statement again and has no effect on the clause, so it is not modelled. The ORDER BY column is never whitelisted.
- In the ORDER BY pattern, `.` does not match a newline. The model lets the column text span newlines.
- PHP's conversion of numeric-string keys to integers, and comparison of non-string values, are not modelled. Column names are strings.
- `insert` tests the data's first value, `$data[array_keys($data)[0]]`, with `is_array` to tell one row from several (src/DataAccess.php:74), and takes its column names from `$data[0]` for several rows. `InsertData` represents that decision by its constructor. Multi-row data whose keys are not 0, 1, … is not modelled.
- `InsertData.Bulk` holds only arrays. Multi-row data whose first element is an array but a later element is not makes `array_values($values)` at src/DataAccess.php:85 fail with a PHP error; that case is not modelled.
- `update` with data that is not an array is not modelled; its data is always an associative array.
- `implode($escapedFields, ', ')` uses the deprecated reversed argument order. It is modelled as the join with `, `.
- Floating-point values are not modelled. Bound values are null, booleans, integers or strings.
- Executor.ClassifySelect and the other Classify lemmas require something other than whitespace after the keyword; without it, trim removes the space that the patterns at src/DataAccess.php:230 and :232 demand, and the statement gets the handle.
- Statements.Select, Statements.Update, Statements.Delete and Insertion.InsertResult only state the shape of the result: rows, count or false. Which rows or count is whatever the connection map holds.

## Findings

| source | as written | input that shows it | evidently intended | confidence | as-written member | corrected member |
|---|---|---|---|---|---|---|
| src/DataAccess.php:83-89 | `insert` binds each row's values with `array_values`, in the row's own key order and without dropping keys that `filterKeys` removed from the column list. | Rows `[a=>1, b=>2]` and `[b=>3, a=>4]` bind 3 to the second row's `a`. A single row `[a=>1, zz=>2]` with `zz` unknown writes one `?` but binds two values. | Bind each row's value for each surviving column, in the column list's order. | not executed | Insertion.InsertMisbindsReorderedRow | Insertion.InsertAlignedBindsByColumn |
