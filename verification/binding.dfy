/** DataAccess::implodeBindFields and bindValues (src/DataAccess.php:284-319): the
    `column = :placeholder` clauses of a SET or WHERE part, and the named-parameter array
    that binds each placeholder to the caller's value for that column. */
module Binding {
  import opened Outcomes
  import opened PhpText
  import opened PhpArrays

  /** The named placeholder of the field at position `i`: a colon, the prefix, then the
      position in decimal. */
  function Placeholder(prefix: string, i: nat): (p: string)
    ensures |p| > |prefix| + 1 && p[0] == ':' && p[1..|prefix| + 1] == prefix
    ensures p[|prefix| + 1..] == DecimalString(i)
  {
    ":" + prefix + DecimalString(i)
  }

  /** One clause: the quoted column, ` = `, and its placeholder. */
  function BindClause(escaped: string, prefix: string, i: nat): string
  {
    escaped + " = " + Placeholder(prefix, i)
  }

  function BindClauses(escaped: seq<string>, prefix: string): (cs: seq<string>)
    ensures |cs| == |escaped|
  {
    seq(|escaped|, i requires 0 <= i < |escaped| => BindClause(escaped[i], prefix, i))
  }

  /** What implodeBindFields returns: false (None) for no fields, otherwise the clauses of
      the fields joined by `glue`. */
  function BindFieldsText(escaped: seq<string>, glue: string, prefix: string): Option<string>
  {
    if |escaped| == 0 then None else Some(Join(BindClauses(escaped, prefix), glue))
  }

  /** implodeBindFields, appending one clause per field and the glue before every clause
      but the first. */
  method ImplodeBindFields(escaped: seq<string>, glue: string, prefix: string) returns (statement: Option<string>)
    ensures statement == BindFieldsText(escaped, glue, prefix)
  {
    if |escaped| == 0 {
      return None;
    }
    var text := "";
    var first := true;
    ghost var clauses := BindClauses(escaped, prefix);
    for i := 0 to |escaped|
      invariant first <==> i == 0
      invariant text == Join(clauses[..i], glue)
    {
      var clause := BindClause(escaped[i], prefix, i);
      JoinAppend(clauses[..i], glue, clause);
      assert clauses[..i + 1] == clauses[..i] + [clause];
      if first {
        first := false;
      } else {
        text := text + glue;
      }
      text := text + clause;
    }
    assert clauses[..|escaped|] == clauses;
    return Some(text);
  }

  /** The entries bindValues writes: the placeholder of position i bound to the caller's
      value for the field at position i, later positions written after earlier ones. */
  function BindMap(fields: seq<string>, params: Assoc, prefix: string): map<string, Value>
  {
    if |fields| == 0 then map[]
    else
      var n := |fields| - 1;
      BindMap(fields[..n], params, prefix)[Placeholder(prefix, n) := Lookup(params, fields[n])]
  }

  /** bindValues: the entries of BindMap added to (and overriding) those of `bind`. */
  method BindValues(fields: seq<string>, params: Assoc, bind: map<string, Value>, prefix: string)
    returns (result: map<string, Value>)
    ensures result == bind + BindMap(fields, params, prefix)
  {
    result := bind;
    for i := 0 to |fields|
      invariant result == bind + BindMap(fields[..i], params, prefix)
    {
      assert fields[..i + 1][..i] == fields[..i];
      result := result[Placeholder(prefix, i) := Lookup(params, fields[i])];
    }
    assert fields[..|fields|] == fields;
  }

  /** Two positions share a placeholder only when they are the same position. */
  lemma PlaceholderInjective(prefix: string, i: nat, j: nat)
    requires Placeholder(prefix, i) == Placeholder(prefix, j)
    ensures i == j
  {
    DecimalStringInjective(i, j);
  }

  /** Placeholders under the prefixes update uses for its SET part and its WHERE part never
      coincide, so the two parts can share one bind array. */
  lemma SetAndWherePlaceholdersDiffer(i: nat, j: nat)
    ensures Placeholder("u_", i) != Placeholder("w_", j)
  {
    assert Placeholder("u_", i)[1] == 'u';
    assert Placeholder("w_", j)[1] == 'w';
  }

  /** The bind array's keys are exactly the placeholders of the fields' positions. */
  lemma {:induction false} BindMapKeys(fields: seq<string>, params: Assoc, prefix: string)
    ensures forall i :: 0 <= i < |fields| ==> Placeholder(prefix, i) in BindMap(fields, params, prefix)
    ensures forall k :: k in BindMap(fields, params, prefix) ==>
      exists i :: 0 <= i < |fields| && k == Placeholder(prefix, i)
    decreases |fields|
  {
    if |fields| > 0 {
      var n := |fields| - 1;
      BindMapKeys(fields[..n], params, prefix);
    }
  }

  /** No earlier position's placeholder equals the last one's. */
  lemma LastPlaceholderIsNew(fields: seq<string>, params: Assoc, prefix: string)
    ensures Placeholder(prefix, |fields|) !in BindMap(fields, params, prefix)
  {
    BindMapKeys(fields, params, prefix);
    if Placeholder(prefix, |fields|) in BindMap(fields, params, prefix) {
      var i :| 0 <= i < |fields| && Placeholder(prefix, |fields|) == Placeholder(prefix, i);
      PlaceholderInjective(prefix, i, |fields|);
    }
  }

  /** Each placeholder is bound to the caller's value for the field at its position. */
  lemma {:induction false} BindMapValues(fields: seq<string>, params: Assoc, prefix: string)
    ensures forall i :: 0 <= i < |fields| ==>
      && Placeholder(prefix, i) in BindMap(fields, params, prefix)
      && BindMap(fields, params, prefix)[Placeholder(prefix, i)] == Lookup(params, fields[i])
    decreases |fields|
  {
    if |fields| > 0 {
      var n := |fields| - 1;
      var front := BindMap(fields[..n], params, prefix);
      BindMapValues(fields[..n], params, prefix);
      assert BindMap(fields, params, prefix) == front[Placeholder(prefix, n) := Lookup(params, fields[n])];
      forall i | 0 <= i < n
        ensures Placeholder(prefix, i) in BindMap(fields, params, prefix)
        ensures BindMap(fields, params, prefix)[Placeholder(prefix, i)] == Lookup(params, fields[i])
      {
        assert Placeholder(prefix, i) != Placeholder(prefix, n) by {
          if Placeholder(prefix, i) == Placeholder(prefix, n) {
            PlaceholderInjective(prefix, i, n);
          }
        }
        assert fields[..n][i] == fields[i];
      }
    }
  }

  /** The bind array holds one entry per field: no two positions share a key. */
  lemma {:induction false} BindMapSize(fields: seq<string>, params: Assoc, prefix: string)
    ensures |BindMap(fields, params, prefix)| == |fields|
    decreases |fields|
  {
    if |fields| > 0 {
      var n := |fields| - 1;
      BindMapSize(fields[..n], params, prefix);
      assert fields[..n] == fields[..|fields[..n]|];
      LastPlaceholderIsNew(fields[..n], params, prefix);
    }
  }

  /** bindValues leaves every entry of the incoming array whose key is not one of its own
      placeholders as it was, and adds exactly one entry per field. */
  lemma BindValuesKeepsOtherEntries(fields: seq<string>, params: Assoc, bind: map<string, Value>, prefix: string)
    ensures forall k :: k in bind && (forall i: nat :: i < |fields| ==> k != Placeholder(prefix, i)) ==>
      k in bind + BindMap(fields, params, prefix) && (bind + BindMap(fields, params, prefix))[k] == bind[k]
    ensures (bind + BindMap(fields, params, prefix)).Keys == bind.Keys + BindMap(fields, params, prefix).Keys
  {
    BindMapKeys(fields, params, prefix);
  }
}
