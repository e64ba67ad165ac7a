/**
 * The column and JSON values the main process reads back from SQLite
 * (`better-sqlite3` rows and `JSON.parse` output): null, booleans,
 * integers and strings.
 */
module JsonData {
  import opened Wrappers
  import opened Text

  datatype Json = JNull | JBool(b: bool) | JInt(i: int) | JStr(s: string)

  /** `String(v)`. */
  function Show(v: Json): (r: string)
    ensures v.JStr? ==> r == v.s
    ensures v.JInt? ==> r == IntToString(v.i)
  {
    match v
    case JNull => "null"
    case JBool(b) => if b then "true" else "false"
    case JInt(i) => IntToString(i)
    case JStr(s) => s
  }

  /** JavaScript truthiness of a stored value. */
  predicate Truthy(v: Json) {
    match v
    case JNull => false
    case JBool(b) => b
    case JInt(i) => i != 0
    case JStr(s) => s != []
  }

  /** `String(v || '')`: a falsy value shows as the empty string. */
  function ShowOr(v: Json): (r: string)
    ensures !Truthy(v) ==> r == []
    ensures Truthy(v) ==> r == Show(v)
  {
    if Truthy(v) then Show(v) else ""
  }

  /**
   * `parseInt(v, 10)`, which first converts its argument with `String`; `None` is NaN.
   * The texts of null and of the booleans start with a letter, so they give NaN.
   */
  function ParseIntOf(v: Json): (r: Option<int>)
    ensures v.JInt? ==> r == Some(v.i)
    ensures v.JStr? ==> r == ParseIntJs(v.s)
    ensures v.JNull? || v.JBool? ==> r == None
  {
    match v
    case JInt(i) =>
      ParseIntOfInt(i);
      ParseIntJs(Show(v))
    case JStr(s) => ParseIntJs(s)
    case _ => None
  }

  lemma ParseIntOfInt(i: int)
    ensures ParseIntJs(IntToString(i)) == Some(i)
  {
    if i >= 0 {
      ParseIntOfNat(i);
    } else {
      ParseIntOfNegative(-i);
    }
  }

  lemma ParseIntOfNegative(n: nat)
    requires n > 0
    ensures ParseIntJs("-" + NatToString(n)) == Some(-(n as int))
  {
    var d := NatToString(n);
    var s := "-" + d;
    assert TrimStart(s) == s;
    assert s[1..] == d;
    DigitPrefixOfDigits(d, []);
    assert d + [] == d;
    NatToStringValue(n);
  }
}
