/** The PHP string functions the statement builder relies on, over `string` read as a
    sequence of single-byte characters: implode, trim, strtoupper/strtolower on ASCII,
    integer-to-string conversion, and case-insensitive matching as the regular-expression
    flag `/i` performs it. */
module PhpText {

  /** implode(glue, parts): the parts in order, with `glue` between each neighbouring pair. */
  function Join(parts: seq<string>, glue: string): string
  {
    if |parts| == 0 then ""
    else if |parts| == 1 then parts[0]
    else Join(parts[..|parts| - 1], glue) + glue + parts[|parts| - 1]
  }

  lemma JoinAppend(parts: seq<string>, glue: string, last: string)
    ensures Join(parts + [last], glue) == if |parts| == 0 then last else Join(parts, glue) + glue + last
  {
    assert (parts + [last])[..|parts|] == parts;
  }

  /** Concatenation is associative; stated apart only to keep the enclosing proofs cheap
      for the solver, not as a property of the model. */
  lemma AppendAssociative(a: string, b: string, c: string)
    ensures a + (b + c) == a + b + c
  {
  }

  /** The character of one decimal digit. */
  function DigitChar(d: nat): (c: char)
    requires d < 10
    ensures '0' <= c <= '9'
  {
    (48 + d) as char
  }

  /** The decimal text of a non-negative integer, as PHP's string conversion of an int writes it. */
  function DecimalString(n: nat): (s: string)
    ensures 1 <= |s|
    ensures n < 10 <==> |s| == 1
    ensures forall i :: 0 <= i < |s| ==> '0' <= s[i] <= '9'
  {
    if n < 10 then [DigitChar(n)] else DecimalString(n / 10) + [DigitChar(n % 10)]
  }

  /** Different numbers have different decimal texts. */
  lemma {:induction false} DecimalStringInjective(a: nat, b: nat)
    requires DecimalString(a) == DecimalString(b)
    ensures a == b
  {
    var sa, sb := DecimalString(a), DecimalString(b);
    if a >= 10 && b >= 10 {
      assert sa[..|sa| - 1] == DecimalString(a / 10);
      assert sb[..|sb| - 1] == DecimalString(b / 10);
      assert DigitChar(a % 10) == sa[|sa| - 1] == sb[|sb| - 1] == DigitChar(b % 10);
      DecimalStringInjective(a / 10, b / 10);
    } else if a < 10 && b < 10 {
      assert DigitChar(a) == sa[0] == sb[0] == DigitChar(b);
    }
  }

  /** The characters PHP's trim() removes by default: space, tab, line feed, carriage
      return, NUL and vertical tab. */
  const TrimCharacters: set<char> := {' ', '\t', '\n', '\r', '\0', '\U{000B}'}

  /** The characters `\s` matches in a PCRE pattern: space, tab, line feed, vertical tab,
      form feed and carriage return. */
  const RegexSpaces: set<char> := {' ', '\t', '\n', '\U{000B}', '\U{000C}', '\r'}

  /** `s` without its leading characters from `cs`. */
  function TrimStart(s: string, cs: set<char>): (r: string)
    ensures |r| <= |s| && r == s[|s| - |r|..]
    ensures forall i :: 0 <= i < |s| - |r| ==> s[i] in cs
    ensures |r| > 0 ==> r[0] !in cs
  {
    if |s| > 0 && s[0] in cs then TrimStart(s[1..], cs) else s
  }

  /** `s` without its trailing characters from `cs`. */
  function TrimEnd(s: string, cs: set<char>): (r: string)
    ensures |r| <= |s| && r == s[..|r|]
    ensures forall i :: |r| <= i < |s| ==> s[i] in cs
    ensures |r| > 0 ==> r[|r| - 1] !in cs
  {
    if |s| > 0 && s[|s| - 1] in cs then TrimEnd(s[..|s| - 1], cs) else s
  }

  /** trim(s, cs): both ends stripped of the characters in `cs`. */
  function Trim(s: string, cs: set<char>): string
  {
    TrimEnd(TrimStart(s, cs), cs)
  }

  /** Trimming a text that opens with `head` (whose first character is kept) and has a
      kept character somewhere after it leaves `head` at the front. */
  lemma TrimKeepsHead(head: string, rest: string, cs: set<char>, j: nat)
    requires |head| > 0 && head[0] !in cs
    requires j < |rest| && rest[j] !in cs
    ensures |Trim(head + rest, cs)| > |head|
    ensures Trim(head + rest, cs)[..|head|] == head
  {
    var s := head + rest;
    assert TrimStart(s, cs) == s;
    var r := TrimEnd(s, cs);
    assert s[|head| + j] == rest[j];
    assert |r| > |head| + j;
    assert r[..|head|] == s[..|head|] == head;
  }

  /** strtolower/strtoupper on one character: only the ASCII letters change. */
  function LowerChar(c: char): char
  {
    if 'A' <= c <= 'Z' then (c as int + 32) as char else c
  }

  function UpperChar(c: char): char
  {
    if 'a' <= c <= 'z' then (c as int - 32) as char else c
  }

  function ToLower(s: string): (r: string)
    ensures |r| == |s|
  {
    seq(|s|, i requires 0 <= i < |s| => LowerChar(s[i]))
  }

  function ToUpper(s: string): (r: string)
    ensures |r| == |s|
  {
    seq(|s|, i requires 0 <= i < |s| => UpperChar(s[i]))
  }

  /** `s` holds `word` (written in lower case) at position `at`, compared as the `/i`
      flag compares: without regard to ASCII case. */
  predicate MatchesAt(s: string, at: nat, word: string)
  {
    at + |word| <= |s| && ToLower(s[at..at + |word|]) == word
  }
}
