/** DataAccess::createOrderByStatement (src/DataAccess.php:180-192): an ORDER BY clause
    read out of free text with the pattern `/\s*(.*?)\s*(asc|desc|default)/i`. */
module OrderBy {
  import opened Outcomes
  import opened PhpText
  import opened Quoting

  /** A direction keyword (asc, desc or default, in any letter case) starts at `at`. */
  predicate KeywordAt(s: string, at: nat)
  {
    MatchesAt(s, at, "asc") || MatchesAt(s, at, "desc") || MatchesAt(s, at, "default")
  }

  /** The length of the text the alternation matches at `at`, trying asc, desc and
      default in that order. */
  function KeywordLength(s: string, at: nat): (n: nat)
    requires KeywordAt(s, at)
    ensures at + n <= |s|
    ensures n == 3 ==> MatchesAt(s, at, "asc")
    ensures n == 4 ==> MatchesAt(s, at, "desc")
    ensures n == 7 ==> MatchesAt(s, at, "default")
    ensures n == 3 || n == 4 || n == 7
  {
    if MatchesAt(s, at, "asc") then 3 else if MatchesAt(s, at, "desc") then 4 else 7
  }

  /** The leftmost position at or after `from` where a direction keyword starts. */
  function FirstDirection(s: string, from: nat): (p: Option<nat>)
    requires from <= |s|
    ensures p.Some? ==> from <= p.value < |s| && KeywordAt(s, p.value)
    ensures p.Some? ==> forall j :: from <= j < p.value ==> !KeywordAt(s, j)
    ensures p.None? ==> forall j :: from <= j <= |s| ==> !KeywordAt(s, j)
    decreases |s| - from
  {
    if from == |s| then None
    else if KeywordAt(s, from) then Some(from)
    else FirstDirection(s, from + 1)
  }

  /** The pattern's two groups: the column text and the direction as upper-cased. */
  datatype OrderMatch = OrderMatch(column: string, direction: string)

  /** preg_match of the pattern: it matches when a direction keyword occurs anywhere; the
      lazy group then holds the text before the leftmost keyword, without the whitespace the
      two `\s*` consume on either side of it. */
  function MatchOrderBy(orderBy: string): Option<OrderMatch>
  {
    match FirstDirection(orderBy, 0)
    case None => None
    case Some(p) =>
      Some(OrderMatch(Trim(orderBy[..p], RegexSpaces), ToUpper(orderBy[p..p + KeywordLength(orderBy, p)])))
  }

  /** createOrderByStatement: nothing for an empty request; otherwise the quoted column
      and the direction, which is empty when the text names none and the whole text is then
      taken as the column. */
  function OrderByClause(orderBy: string): string
  {
    if orderBy == "" then ""
    else
      match MatchOrderBy(orderBy)
      case Some(m) => " ORDER BY " + Quote(m.column) + " " + m.direction + " "
      case None => " ORDER BY " + Quote(orderBy) + " " + "" + " "
  }

  /** Upper-casing ignores the letter case the text was written in. */
  lemma UpperOfLower(s: string, word: string)
    requires ToLower(s) == word
    ensures ToUpper(s) == ToUpper(word)
  {
    forall i | 0 <= i < |s|
      ensures ToUpper(s)[i] == ToUpper(word)[i]
    {
      assert word[i] == LowerChar(s[i]);
    }
  }

  lemma UpperAsc()
    ensures ToUpper("asc") == "ASC"
  {
    assert UpperChar('a') == 'A' && UpperChar('s') == 'S' && UpperChar('c') == 'C';
  }

  lemma UpperDesc()
    ensures ToUpper("desc") == "DESC"
  {
    assert UpperChar('d') == 'D' && UpperChar('e') == 'E' && UpperChar('s') == 'S';
    assert UpperChar('c') == 'C';
  }

  lemma UpperDefault()
    ensures ToUpper("default") == "DEFAULT"
  {
    assert UpperChar('d') == 'D' && UpperChar('e') == 'E' && UpperChar('f') == 'F';
    assert UpperChar('a') == 'A' && UpperChar('u') == 'U' && UpperChar('l') == 'L';
    assert UpperChar('t') == 'T';
  }

  /** The direction is always one of the three keywords in upper case. */
  lemma DirectionIsKeyword(orderBy: string)
    requires MatchOrderBy(orderBy).Some?
    ensures MatchOrderBy(orderBy).value.direction in ["ASC", "DESC", "DEFAULT"]
  {
    var p := FirstDirection(orderBy, 0).value;
    var n := KeywordLength(orderBy, p);
    var matched := orderBy[p..p + n];
    var direction := MatchOrderBy(orderBy).value.direction;
    assert direction == ToUpper(matched);
    if n == 3 {
      assert ToLower(matched) == "asc";
      UpperOfLower(matched, "asc");
      UpperAsc();
      assert direction == "ASC";
    } else if n == 4 {
      assert ToLower(matched) == "desc";
      UpperOfLower(matched, "desc");
      UpperDesc();
      assert direction == "DESC";
    } else {
      assert ToLower(matched) == "default";
      UpperOfLower(matched, "default");
      UpperDefault();
      assert direction == "DEFAULT";
    }
  }

  /** The pattern matches exactly when one of the keywords occurs somewhere in the text,
      in any letter case. */
  lemma MatchesIffKeywordOccurs(orderBy: string)
    ensures MatchOrderBy(orderBy).Some? <==> exists j :: 0 <= j <= |orderBy| && KeywordAt(orderBy, j)
  {
    if MatchOrderBy(orderBy).Some? {
      var p := FirstDirection(orderBy, 0).value;
      assert KeywordAt(orderBy, p);
    }
  }

  /** Whatever follows the leftmost keyword is dropped: the clause is the one for the text
      cut right after that keyword. */
  lemma TextAfterDirectionIgnored(orderBy: string)
    requires MatchOrderBy(orderBy).Some?
    ensures var p := FirstDirection(orderBy, 0).value;
      var cut := orderBy[..p + KeywordLength(orderBy, p)];
      OrderByClause(cut) == OrderByClause(orderBy)
  {
    var p := FirstDirection(orderBy, 0).value;
    var cut := orderBy[..p + KeywordLength(orderBy, p)];
    CutMatchesAlike(orderBy, p, KeywordLength(orderBy, p));
    assert cut != "";
  }

  lemma CutMatchesAlike(orderBy: string, p: nat, n: nat)
    requires FirstDirection(orderBy, 0) == Some(p)
    requires n == KeywordLength(orderBy, p)
    ensures MatchOrderBy(orderBy[..p + n]) == MatchOrderBy(orderBy)
  {
    var cut := orderBy[..p + n];
    CutFindsSameKeyword(orderBy, p, n);
    MatchFoundAt(orderBy, p, n);
    MatchFoundAt(cut, p, n);
    assert cut[..p] == orderBy[..p];
    assert cut[p..p + n] == orderBy[p..p + n];
  }

  lemma MatchFoundAt(s: string, p: nat, n: nat)
    requires FirstDirection(s, 0) == Some(p)
    requires n == KeywordLength(s, p)
    ensures MatchOrderBy(s) == Some(OrderMatch(Trim(s[..p], RegexSpaces), ToUpper(s[p..p + n])))
  {
  }

  /** In the text cut after the leftmost keyword, that keyword is still the leftmost and
      is matched with the same length. */
  lemma CutFindsSameKeyword(orderBy: string, p: nat, n: nat)
    requires FirstDirection(orderBy, 0) == Some(p)
    requires n == KeywordLength(orderBy, p)
    ensures FirstDirection(orderBy[..p + n], 0) == Some(p)
    ensures KeywordLength(orderBy[..p + n], p) == n
  {
    var cut := orderBy[..p + n];
    forall j | 0 <= j < p
      ensures !KeywordAt(cut, j)
    {
      CutKeywordAt(orderBy, p + n, j);
    }
    assert KeywordAt(cut, p) && KeywordLength(cut, p) == n by {
      CutKeepsMatches(orderBy, p + n, p, "asc");
      CutKeepsMatches(orderBy, p + n, p, "desc");
      CutKeepsMatches(orderBy, p + n, p, "default");
    }
    FirstDirectionAt(cut, 0, p);
  }

  /** A keyword found in the cut text is found in the whole text. */
  lemma CutKeywordAt(s: string, end: nat, at: nat)
    requires end <= |s|
    ensures KeywordAt(s[..end], at) ==> KeywordAt(s, at)
  {
    CutKeepsMatches(s, end, at, "asc");
    CutKeepsMatches(s, end, at, "desc");
    CutKeepsMatches(s, end, at, "default");
  }

  /** A word that fits before `end` is found in the text cut at `end` exactly when it is
      found in the whole text. */
  lemma CutKeepsMatches(s: string, end: nat, at: nat, word: string)
    requires end <= |s|
    ensures at + |word| <= end ==> (MatchesAt(s[..end], at, word) <==> MatchesAt(s, at, word))
    ensures MatchesAt(s[..end], at, word) ==> MatchesAt(s, at, word)
  {
    if at + |word| <= end {
      assert s[..end][at..at + |word|] == s[at..at + |word|];
    }
  }

  /** The leftmost keyword is found at `p` when none starts before it. */
  lemma {:induction false} FirstDirectionAt(s: string, from: nat, p: nat)
    requires from <= p <= |s|
    requires KeywordAt(s, p)
    requires forall j :: from <= j < p ==> !KeywordAt(s, j)
    ensures FirstDirection(s, from) == Some(p)
    decreases p - from
  {
    if from < p {
      FirstDirectionAt(s, from + 1, p);
    }
  }

  /** Whatever the request, the column reaches the statement inside its own quotes: a
      reader of the clause finds the closing backtick of the column right where the quoted
      name ends, followed by the direction. */
  lemma ColumnStaysQuoted(orderBy: string)
    requires orderBy != ""
    ensures exists column, direction ::
      && OrderByClause(orderBy) == " ORDER BY " + Quote(column) + " " + direction + " "
      && ClosingTick(Quote(column) + " " + direction + " ", 1) == |Quote(column)| - 1
  {
    var m := match MatchOrderBy(orderBy)
      case Some(m) => m
      case None => OrderMatch(orderBy, "");
    var column, direction := m.column, m.direction;
    QuotedNameCannotEscape(column, " " + direction + " ");
    assert Quote(column) + (" " + direction + " ") == Quote(column) + " " + direction + " ";
  }

  /** No keyword starts at a character other than a or d in either case. */
  lemma NoKeywordAt(s: string, j: nat)
    requires j < |s| && LowerChar(s[j]) != 'a' && LowerChar(s[j]) != 'd'
    ensures !KeywordAt(s, j)
  {
    if j + 3 <= |s| {
      assert ToLower(s[j..j + 3])[0] == LowerChar(s[j]);
    }
    if j + 4 <= |s| {
      assert ToLower(s[j..j + 4])[0] == LowerChar(s[j]);
    }
    if j + 7 <= |s| {
      assert ToLower(s[j..j + 7])[0] == LowerChar(s[j]);
    }
  }

  /** The leftmost keyword of a request is found at `p` when the characters before it are
      none of a, A, d, D. */
  lemma KeywordFoundAfterPlainColumn(s: string, p: nat)
    requires p <= |s| && KeywordAt(s, p)
    requires forall j :: 0 <= j < p ==> LowerChar(s[j]) != 'a' && LowerChar(s[j]) != 'd'
    ensures FirstDirection(s, 0) == Some(p)
  {
    forall j | 0 <= j < p
      ensures !KeywordAt(s, j)
    {
      NoKeywordAt(s, j);
    }
    FirstDirectionAt(s, 0, p);
  }

  /** A request without direction quotes the whole text and leaves the direction empty
      (tests/DataAccessTest.php:354-359). */
  lemma OrderByWithoutDirectionExample()
    ensures OrderByClause("1`st") == " ORDER BY `1``st`  "
  {
    NoDirectionExample();
    QuoteExampleOneTick();
    assert " ORDER BY " + "`1``st`" + " " + "" + " " == " ORDER BY `1``st`  " by {
      assert " ORDER BY " + "`1``st`" == " ORDER BY `1``st`";
      assert " ORDER BY `1``st`" + " " + "" == " ORDER BY `1``st` ";
      assert " ORDER BY `1``st` " + " " == " ORDER BY `1``st`  ";
    }
  }

  lemma NoDirectionExample()
    ensures MatchOrderBy("1`st") == None
  {
    var s := "1`st";
    assert s[0] == '1' && s[1] == '`' && s[2] == 's' && s[3] == 't';
    forall j | 0 <= j <= |s|
      ensures !KeywordAt(s, j)
    {
      if j < |s| {
        NoKeywordAt(s, j);
      }
    }
  }

  /** A request with a direction quotes the column before it and upper-cases the keyword
      (tests/DataAccessTest.php:361-366). */
  lemma OrderByAscExample()
    ensures OrderByClause("1`st ASC") == " ORDER BY `1``st` ASC "
  {
    var s := "1`st ASC";
    AscExampleMatch();
    assert s[0] == '1';
    ClauseOfMatch(s, OrderMatch("1`st", "ASC"));
    AscClauseText();
  }

  lemma AscClauseText()
    ensures " ORDER BY " + Quote("1`st") + " " + "ASC" + " " == " ORDER BY `1``st` ASC "
  {
    QuoteExampleOneTick();
    assert " ORDER BY " + "`1``st`" == " ORDER BY `1``st`";
    assert " ORDER BY `1``st`" + " " == " ORDER BY `1``st` ";
    assert " ORDER BY `1``st` " + "ASC" == " ORDER BY `1``st` ASC";
    assert " ORDER BY `1``st` ASC" + " " == " ORDER BY `1``st` ASC ";
  }

  lemma ClauseOfMatch(s: string, m: OrderMatch)
    requires s != "" && MatchOrderBy(s) == Some(m)
    ensures OrderByClause(s) == " ORDER BY " + Quote(m.column) + " " + m.direction + " "
  {
  }

  lemma AscExampleMatch()
    ensures MatchOrderBy("1`st ASC") == Some(OrderMatch("1`st", "ASC"))
  {
    var s := "1`st ASC";
    AscExampleKeyword();
    assert s[0] == '1' && s[1] == '`' && s[2] == 's' && s[3] == 't' && s[4] == ' ';
    KeywordFoundAfterPlainColumn(s, 5);
    assert s[5..8] == "ASC";
    UpperOfLower("ASC", "asc");
    UpperAsc();
    AscExampleColumn();
  }

  lemma AscExampleKeyword()
    ensures KeywordAt("1`st ASC", 5) && KeywordLength("1`st ASC", 5) == 3
    ensures ToLower("ASC") == "asc"
  {
    assert "1`st ASC"[5..8] == "ASC";
    assert LowerChar('A') == 'a' && LowerChar('S') == 's' && LowerChar('C') == 'c';
  }

  lemma AscExampleColumn()
    ensures Trim("1`st ASC"[..5], RegexSpaces) == "1`st"
  {
    var s := "1`st ASC";
    assert s[..5] == "1`st" + [' '];
    assert '1' !in RegexSpaces && 't' !in RegexSpaces && ' ' in RegexSpaces;
    assert ("1`st" + [' '])[..4] == "1`st";
  }
}
