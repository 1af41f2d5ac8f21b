/** Identifier quoting, DataAccess::quoteIdentifiers (src/DataAccess.php:159-168): every name
    that reaches SQL text is wrapped in backticks, with each backtick inside it doubled by
    preg_replace('#\\*`#', '``', ...), a replacement that also swallows the run of backslashes
    standing directly in front of a backtick. */
module Quoting {

  /** The number of backslashes `s` starts with. */
  function LeadingBackslashes(s: string): (k: nat)
    ensures k <= |s|
    ensures forall i :: 0 <= i < k ==> s[i] == '\\'
    ensures k < |s| ==> s[k] != '\\'
  {
    if |s| > 0 && s[0] == '\\' then 1 + LeadingBackslashes(s[1..]) else 0
  }

  /** `body` is made of characters other than a backtick and of doubled backticks only:
      the inside of a well-formed backtick-quoted identifier. */
  predicate Escaped(body: string)
    decreases |body|
  {
    if |body| == 0 then true
    else if body[0] != '`' then Escaped(body[1..])
    else |body| >= 2 && body[1] == '`' && Escaped(body[2..])
  }

  /** A well-formed quoted identifier: a backtick, an escaped body, a backtick. */
  predicate IsQuoted(q: string)
  {
    |q| >= 2 && q[0] == '`' && q[|q| - 1] == '`' && Escaped(q[1..|q| - 1])
  }

  /** preg_replace('#\\*`#', '``', s): scanning from the left, each backtick together with
      the backslashes directly before it becomes two backticks; all else is copied. */
  function Escape(s: string): (r: string)
    ensures Escaped(r)
    decreases |s|
  {
    if |s| == 0 then ""
    else
      var k := LeadingBackslashes(s);
      if k < |s| && s[k] == '`' then
        var r := "``" + Escape(s[k + 1..]);
        assert r[2..] == Escape(s[k + 1..]);
        r
      else
        var r := [s[0]] + Escape(s[1..]);
        assert r[1..] == Escape(s[1..]);
        r
  }

  /** quoteIdentifiers on a single name (src/DataAccess.php:167). */
  function Quote(name: string): (q: string)
    ensures IsQuoted(q)
  {
    var q := "`" + Escape(name) + "`";
    assert q[1..|q| - 1] == Escape(name);
    q
  }

  /** quoteIdentifiers on a list of names: each quoted, keys and length kept. */
  function QuoteAll(names: seq<string>): (qs: seq<string>)
  {
    seq(|names|, i requires 0 <= i < |names| => Quote(names[i]))
  }

  /** The array branch of quoteIdentifiers (src/DataAccess.php:161-165): each entry of the
      array is rewritten in place with its quoted form. */
  method QuoteIdentifiers(names: seq<string>) returns (quoted: seq<string>)
    ensures |quoted| == |names|
    ensures forall i :: 0 <= i < |names| ==> quoted[i] == Quote(names[i]) && IsQuoted(quoted[i])
    ensures quoted == QuoteAll(names)
  {
    quoted := names;
    for key := 0 to |quoted|
      invariant |quoted| == |names|
      invariant forall i :: 0 <= i < key ==> quoted[i] == Quote(names[i])
      invariant forall i :: key <= i < |names| ==> quoted[i] == names[i]
    {
      quoted := quoted[key := Quote(quoted[key])];
    }
  }

  /** What a reader of the quoted identifier gets back: doubled backticks halved. */
  function Unescape(body: string): string
    decreases |body|
  {
    if |body| == 0 then ""
    else if |body| >= 2 && body[0] == '`' && body[1] == '`' then "`" + Unescape(body[2..])
    else [body[0]] + Unescape(body[1..])
  }

  /** The name a quoted identifier denotes. */
  function Unquote(q: string): string
    requires |q| >= 2
  {
    Unescape(q[1..|q| - 1])
  }

  /** `s` with every run of backslashes standing directly before a backtick removed:
      what survives the quoting replacement. */
  function DropBackslashesBeforeTicks(s: string): string
    decreases |s|
  {
    if |s| == 0 then ""
    else
      var k := LeadingBackslashes(s);
      if k < |s| && s[k] == '`' then "`" + DropBackslashesBeforeTicks(s[k + 1..])
      else [s[0]] + DropBackslashesBeforeTicks(s[1..])
  }

  /** No backslash stands directly before a backtick in `s`. */
  predicate NoBackslashBeforeTick(s: string)
  {
    forall i :: 0 <= i < |s| - 1 && s[i] == '\\' ==> s[i + 1] != '`'
  }

  /** Reading the escaped text back gives the name less the dropped backslashes. */
  lemma {:induction false} UnescapeEscape(s: string)
    ensures Unescape(Escape(s)) == DropBackslashesBeforeTicks(s)
    decreases |s|
  {
    if |s| > 0 {
      var k := LeadingBackslashes(s);
      if k < |s| && s[k] == '`' {
        UnescapeEscape(s[k + 1..]);
        assert ("``" + Escape(s[k + 1..]))[2..] == Escape(s[k + 1..]);
      } else {
        UnescapeEscape(s[1..]);
        assert ([s[0]] + Escape(s[1..]))[1..] == Escape(s[1..]);
      }
    }
  }

  /** Without a backslash before a backtick nothing is dropped. */
  lemma {:induction false} DropIsIdentity(s: string)
    requires NoBackslashBeforeTick(s)
    ensures DropBackslashesBeforeTicks(s) == s
    decreases |s|
  {
    if |s| > 0 {
      var k := LeadingBackslashes(s);
      assert NoBackslashBeforeTick(s[1..]) by {
        forall i | 0 <= i < |s[1..]| - 1 && s[1..][i] == '\\'
          ensures s[1..][i + 1] != '`'
        {
          assert s[i + 1] == '\\';
        }
      }
      DropIsIdentity(s[1..]);
    }
  }

  /** Unquoting a quoted name gives the name back, less any backslashes that stood
      directly before a backtick. */
  lemma QuoteRoundTrip(s: string)
    ensures Unquote(Quote(s)) == DropBackslashesBeforeTicks(s)
  {
    var q := Quote(s);
    assert q[1..|q| - 1] == Escape(s);
    UnescapeEscape(s);
  }

  /** For names with no backslash before a backtick, quoting is undone by unquoting, so
      two such names never share a quoted form. */
  lemma QuoteInvertible(a: string, b: string)
    requires NoBackslashBeforeTick(a) && NoBackslashBeforeTick(b)
    ensures Unquote(Quote(a)) == a
    ensures Quote(a) == Quote(b) ==> a == b
  {
    QuoteRoundTrip(a);
    QuoteRoundTrip(b);
    DropIsIdentity(a);
    DropIsIdentity(b);
  }

  /** Escape copies a character that is neither a backtick nor a backslash. */
  lemma EscapePlain(c: char, rest: string)
    requires c != '`' && c != '\\'
    ensures Escape([c] + rest) == [c] + Escape(rest)
  {
    assert ([c] + rest)[1..] == rest;
  }

  /** Escape doubles a backtick, dropping the backslashes directly before it. */
  lemma EscapeTick(backslashes: nat, rest: string)
    ensures Escape(seq(backslashes, _ => '\\') + "`" + rest) == "``" + Escape(rest)
  {
    var run := seq(backslashes, _ => '\\');
    var s := run + "`" + rest;
    assert s == run + ("`" + rest);
    LeadingBackslashesOfRun(backslashes, "`" + rest);
    assert s[backslashes] == '`';
    assert s[backslashes + 1..] == rest;
    assert |s| > 0;
  }

  lemma {:induction false} LeadingBackslashesOfRun(n: nat, rest: string)
    requires |rest| == 0 || rest[0] != '\\'
    ensures LeadingBackslashes(seq(n, _ => '\\') + rest) == n
  {
    if n > 0 {
      assert (seq(n, _ => '\\') + rest)[1..] == seq(n - 1, _ => '\\') + rest;
      LeadingBackslashesOfRun(n - 1, rest);
    } else {
      assert seq(n, _ => '\\') + rest == rest;
    }
  }

  /** A backtick occurs in any text that holds a quoted name. */
  lemma TickAround(before: string, name: string, after: string)
    ensures '`' in before + Quote(name) + after
  {
    assert (before + Quote(name) + after)[|before|] == '`';
  }

  /** A name without a backtick is quoted by wrapping it alone: its backslashes are kept,
      since the replacement only drops those directly before a backtick. */
  lemma {:induction false} EscapeLeavesPlainNames(s: string)
    requires forall i :: 0 <= i < |s| ==> s[i] != '`'
    ensures Escape(s) == s
    decreases |s|
  {
    if |s| > 0 {
      EscapeLeavesPlainNames(s[1..]);
      var k := LeadingBackslashes(s);
      assert !(k < |s| && s[k] == '`');
      assert Escape(s) == [s[0]] + Escape(s[1..]);
      assert [s[0]] + s[1..] == s;
    }
  }

  /** The first quoted name exercised by the repository's tests (tests/DataAccessTest.php:38). */
  lemma QuoteExampleOneTick()
    ensures Quote("1`st") == "`1``st`"
  {
    EscapeTickBetween('1', 's', 't');
    assert "1`st" == ['1', '`', 's', 't'];
    assert "`" + ['1', '`', '`', 's', 't'] + "`" == "`1``st`";
  }

  /** The second quoted name exercised by the repository's tests (tests/DataAccessTest.php:39). */
  lemma QuoteExampleTwoTicks()
    ensures Quote("2``st") == "`2````st`"
  {
    EscapeTicksBetween('2', 's', 't');
    assert "2``st" == ['2', '`', '`', 's', 't'];
    assert "`" + ['2', '`', '`', '`', '`', 's', 't'] + "`" == "`2````st`";
  }

  lemma EscapeTickFirst(x: char, y: char)
    requires x != '`' && x != '\\' && y != '`' && y != '\\'
    ensures Escape(['`', x, y]) == ['`', '`', x, y]
  {
    EscapePlain(y, []);
    assert [y] + [] == [y];
    EscapePlain(x, [y]);
    assert [x] + [y] == [x, y];
    EscapeTick(0, [x, y]);
    assert seq(0, _ => '\\') + "`" + [x, y] == ['`', x, y];
  }

  lemma EscapeTickBetween(c: char, x: char, y: char)
    requires c != '`' && c != '\\' && x != '`' && x != '\\' && y != '`' && y != '\\'
    ensures Escape([c, '`', x, y]) == [c, '`', '`', x, y]
  {
    EscapeTickFirst(x, y);
    EscapePlain(c, ['`', x, y]);
    assert [c] + ['`', x, y] == [c, '`', x, y];
  }

  lemma EscapeTicksBetween(c: char, x: char, y: char)
    requires c != '`' && c != '\\' && x != '`' && x != '\\' && y != '`' && y != '\\'
    ensures Escape([c, '`', '`', x, y]) == [c, '`', '`', '`', '`', x, y]
  {
    EscapeTwoTicksFirst(x, y);
    EscapePlain(c, ['`', '`', x, y]);
    assert [c] + ['`', '`', x, y] == [c, '`', '`', x, y];
  }

  lemma EscapeTwoTicksFirst(x: char, y: char)
    requires x != '`' && x != '\\' && y != '`' && y != '\\'
    ensures Escape(['`', '`', x, y]) == ['`', '`', '`', '`', x, y]
  {
    EscapeTickFirst(x, y);
    EscapeTick(0, ['`', x, y]);
    assert seq(0, _ => '\\') + "`" + ['`', x, y] == ['`', '`', x, y];
  }

  /** Backslashes directly before a backtick are swallowed by the quoting replacement. */
  lemma QuoteDropsBackslashesBeforeTick()
    ensures Quote("a\\\\`b") == "`a``b`"
  {
    EscapeSwallowed();
  }

  /** Backslashes that are not followed by a backtick are kept. */
  lemma QuoteKeepsOtherBackslashes()
    ensures Quote("a\\b") == "`a\\b`"
  {
    EscapeKept();
  }

  lemma EscapeSwallowed()
    ensures Escape("a\\\\`b") == "a``b"
  {
    EscapeB();
    assert Escape("\\\\`b") == "``b" by {
      EscapeTick(2, "b");
      assert seq(2, _ => '\\') + "`" + "b" == "\\\\`b";
    }
    EscapePlain('a', "\\\\`b");
    assert ['a'] + "\\\\`b" == "a\\\\`b";
  }

  lemma EscapeKept()
    ensures Escape("a\\b") == "a\\b"
  {
    assert Escape("\\b") == "\\b" by {
      EscapeB();
      var s := "\\b";
      assert s[1..] == "b";
      assert LeadingBackslashes(s[1..]) == 0;
      assert LeadingBackslashes(s) == 1;
    }
    EscapePlain('a', "\\b");
    assert ['a'] + "\\b" == "a\\b";
  }

  lemma EscapeB()
    ensures Escape("b") == "b"
  {
    EscapePlain('b', "");
    assert ['b'] + "" == "b";
  }

  /** Where an SQL reader ends a backtick-quoted identifier whose body starts at `i`: the
      index of the first backtick not followed by a second one (a doubled backtick stands
      for one backtick), or |text| when there is none. */
  function ClosingTick(text: string, i: nat): nat
    decreases |text| - i
  {
    if i >= |text| then |text|
    else if text[i] != '`' then ClosingTick(text, i + 1)
    else if i + 1 < |text| && text[i + 1] == '`' then ClosingTick(text, i + 2)
    else i
  }

  lemma {:induction false} ClosingTickAfterEscaped(text: string, i: nat, body: string)
    requires Escaped(body)
    requires i + |body| < |text| && text[i..i + |body|] == body && text[i + |body|] == '`'
    requires i + |body| + 1 == |text| || text[i + |body| + 1] != '`'
    ensures ClosingTick(text, i) == i + |body|
    decreases |body|
  {
    if |body| > 0 {
      assert text[i] == body[0];
      if body[0] != '`' {
        assert text[i + 1..i + 1 + |body[1..]|] == body[1..];
        ClosingTickAfterEscaped(text, i + 1, body[1..]);
      } else {
        assert text[i + 1] == body[1];
        assert text[i + 2..i + 2 + |body[2..]|] == body[2..];
        ClosingTickAfterEscaped(text, i + 2, body[2..]);
      }
    }
  }

  /** No name can break out of its quotes: read from the SQL text, the identifier that
      Quote(name) opens ends exactly at its own closing backtick, whatever the name holds,
      provided the next character is not itself a backtick. */
  lemma QuotedNameCannotEscape(name: string, after: string)
    requires |after| == 0 || after[0] != '`'
    ensures ClosingTick(Quote(name) + after, 1) == |Quote(name)| - 1
  {
    var q := Quote(name);
    var text := q + after;
    var body := q[1..|q| - 1];
    assert text[1..1 + |body|] == body;
    assert text[1 + |body|] == q[|q| - 1];
    if |after| > 0 {
      assert text[1 + |body| + 1] == after[0];
    }
    ClosingTickAfterEscaped(text, 1, body);
  }
}
