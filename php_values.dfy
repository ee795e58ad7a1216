/**
 * The values json_decode($content, true) produces, and how PHP hands such a
 * value to a parameter declared `string` in coercive typing mode.
 */
module PhpValues {
  import opened Wrappers

  /** A decoded JSON document. With `true` as second argument json_decode turns both
      JSON objects and JSON lists into PHP arrays: ordered key/value entries. Integer
      keys (those of a list, or numeric object keys) are written as their decimal
      strings, which is what a `string` parameter receives for them. */
  datatype Value =
    | Null
    | Bool(b: bool)
    | Int(i: int)
    | Str(s: string)
    | Array(entries: seq<(string, Value)>)

  /** Index of the first entry with key `key`, or |entries| when there is none. */
  function FindKey(entries: seq<(string, Value)>, key: string): (k: nat)
    ensures k <= |entries|
    ensures k < |entries| ==> entries[k].0 == key
    ensures forall j | 0 <= j < k :: entries[j].0 != key
  {
    if entries == [] then 0
    else if entries[0].0 == key then 0
    else 1 + FindKey(entries[1..], key)
  }

  /** $array[$key] for an array value, None when the key is absent. */
  function Lookup(entries: seq<(string, Value)>, key: string): (r: Option<Value>)
    ensures r.Some? <==> exists j | 0 <= j < |entries| :: entries[j].0 == key
    ensures r.Some? ==> exists j | 0 <= j < |entries| ::
      && entries[j].0 == key && r.value == entries[j].1
      && forall i | 0 <= i < j :: entries[i].0 != key
  {
    var k := FindKey(entries, key);
    if k < |entries| then Some(entries[k].1) else None
  }

  /** The value a decimal digit character stands for (not constrained for other characters). */
  function DigitValue(c: char): int {
    c as int - '0' as int
  }

  predicate IsDigit(c: char) {
    '0' <= c <= '9'
  }

  /** The number a string of decimal digits denotes, most significant digit first. */
  function DigitsValue(s: string): int {
    if s == [] then 0 else DigitsValue(s[..|s| - 1]) * 10 + DigitValue(s[|s| - 1])
  }

  /** The number an optionally signed decimal string denotes. */
  function DecimalValue(s: string): int {
    if s != [] && s[0] == '-' then -DigitsValue(s[1..]) else DigitsValue(s)
  }

  /** The decimal digits of `n` without leading zeros. */
  function NatDigits(n: nat): (r: string)
    ensures |r| > 0
    ensures forall i | 0 <= i < |r| :: IsDigit(r[i])
    ensures r[0] == '0' ==> n == 0 && r == "0"
    ensures DigitsValue(r) == n
  {
    var last := ('0' as int + n % 10) as char;
    if n < 10 then [last]
    else
      var r := NatDigits(n / 10) + [last];
      assert r[..|r| - 1] == NatDigits(n / 10);
      r
  }

  /** The string PHP produces for an integer: optional '-', then its digits. */
  function DecimalString(i: int): (r: string)
    ensures |r| > 0
    ensures r[0] == '-' <==> i < 0
    ensures forall j | (if i < 0 then 1 else 0) <= j < |r| :: IsDigit(r[j])
    ensures DecimalValue(r) == i
    ensures r[if i < 0 then 1 else 0] == '0' ==> r == "0"
  {
    if i < 0 then
      var r := "-" + NatDigits(-i);
      assert r[1..] == NatDigits(-i);
      r
    else NatDigits(i)
  }

  /** The type name PHP reports for a value in a TypeError message. */
  function TypeName(v: Value): string {
    match v
    case Null => "null"
    case Bool(_) => "bool"
    case Int(_) => "int"
    case Str(_) => "string"
    case Array(_) => "array"
  }

  /** What a parameter declared `string` receives for `v` in coercive typing mode:
      strings as they are, integers in decimal, true as "1", false as ""; None stands
      for the TypeError raised for null and for arrays. */
  function StringArgument(v: Value): (r: Option<string>)
    ensures r.None? <==> v.Null? || v.Array?
    ensures v.Str? ==> r == Some(v.s)
    ensures v.Int? ==> r == Some(DecimalString(v.i))
    ensures v.Bool? ==> r == Some(if v.b then "1" else "")
  {
    match v
    case Null => None
    case Bool(b) => Some(if b then "1" else "")
    case Int(i) => Some(DecimalString(i))
    case Str(s) => Some(s)
    case Array(_) => None
  }
}
