/** PHP arrays as the statement builder uses them: ordered associative arrays from column
    names to scalar values, and the array functions applied to them (array_keys,
    array_values, array_fill, array_merge, indexing). */
module PhpArrays {

  /** The scalar values callers pass as data and filter values. Floats are not modelled. */
  datatype Value = Null | Bool(b: bool) | Int(i: int) | Str(s: string)

  /** An associative array: its entries in insertion order. PHP keeps keys unique;
      `Lookup` reads the first entry with a key. */
  type Assoc = seq<(string, Value)>

  /** array_keys: the keys in order. */
  function Keys(a: Assoc): (ks: seq<string>)
    ensures |ks| == |a|
  {
    seq(|a|, i requires 0 <= i < |a| => a[i].0)
  }

  /** array_values: the values in order. */
  function ArrayValues(a: Assoc): (vs: seq<Value>)
    ensures |vs| == |a|
  {
    seq(|a|, i requires 0 <= i < |a| => a[i].1)
  }

  /** $a[$key]: the value stored under `key`; reading a missing key yields null. */
  function Lookup(a: Assoc, key: string): Value
  {
    if |a| == 0 then Null
    else if a[0].0 == key then a[0].1
    else Lookup(a[1..], key)
  }

  /** array_fill(0, n, x). */
  function Fill(n: nat, x: string): (r: seq<string>)
    ensures |r| == n
  {
    seq(n, _ => x)
  }

  /** The array_merge of a sequence of lists, in order. */
  function Flatten(groups: seq<seq<Value>>): seq<Value>
  {
    if |groups| == 0 then [] else Flatten(groups[..|groups| - 1]) + groups[|groups| - 1]
  }
}
