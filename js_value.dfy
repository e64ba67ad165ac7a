/**
 * The JavaScript values that cross the renderer and the import pipeline:
 * spreadsheet cells, form values and what the cleaning functions return.
 * A `Date` carries the calendar date it shows through its UTC accessors and
 * through its local accessors (the time zone is part of the value).
 */
module JsValue {
  import opened Wrappers
  import opened Text
  import opened Calendar

  /** The calendar date a valid `Date` shows through its UTC and through its local accessors. */
  datatype DateFields = DateFields(utc: ValidCivil, local: ValidCivil)

  datatype Value =
    | Null
    | Undefined
    | Num(n: real)
    | Bool(b: bool)
    | Str(s: string)
    /** A `Date`; `None` is an invalid date (`getTime()` is NaN). */
    | DateObj(fields: Option<DateFields>)
    /** Any other object or value, identified by a tag. */
    | Other(tag: nat)

  /** JavaScript truthiness, for the values where the sources rely on it. */
  predicate Truthy(v: Value) {
    match v
    case Null => false
    case Undefined => false
    case Num(n) => n != 0.0
    case Bool(b) => b
    case Str(s) => s != []
    case DateObj(_) => true
    case Other(_) => true
  }

  function Pow10Real(k: nat): (r: real)
    ensures r >= 1.0
  {
    if k == 0 then 1.0 else 10.0 * Pow10Real(k - 1)
  }

  /** The value of `whole` `.` `frac`, both runs of decimal digits. */
  function DecimalOf(whole: string, frac: string): real
    requires AllDigits(whole) && AllDigits(frac)
  {
    DigitsValue(whole) as real + DigitsValue(frac) as real / Pow10Real(|frac|)
  }

  /** Text without its leading minus sign, and whether there was one. */
  function Unsigned(s: string): (r: (bool, string))
    ensures r.0 <==> s != [] && s[0] == '-'
    ensures r.1 == if r.0 then s[1..] else s
  {
    if s != [] && s[0] == '-' then (true, s[1..]) else (false, s)
  }

  function Signed(negative: bool, x: real): real {
    if negative then -x else x
  }

  /** The text an optional minus, the digits `whole` and, when `frac` is not empty, a point and `frac` spell. */
  function DecimalText(negative: bool, whole: string, frac: string): string {
    (if negative then "-" else "") + whole + (if frac == [] then "" else "." + frac)
  }

  /**
   * `/^-?\d+(\.\d+)?$/`: an optional minus, digits, and optionally a point
   * followed by digits; the result is the exact decimal value. `MatchDecimalText`
   * proves the converse: every such text is matched.
   */
  function MatchDecimal(s: string): (r: Option<real>)
    ensures r.Some? ==> exists neg: bool, i: string, f: string ::
      AllDigits(i) && |i| >= 1 && AllDigits(f) && s == DecimalText(neg, i, f)
      && r.value == Signed(neg, DecimalOf(i, f))
  {
    var (neg, body) := Unsigned(s);
    var ip := DigitPrefix(body);
    var rest := body[|ip|..];
    assert body == ip + rest;
    if ip == [] then None
    else if rest == [] then
      assert AllDigits([]);
      assert s == DecimalText(neg, ip, []);
      Some(Signed(neg, DecimalOf(ip, [])))
    else if rest[0] == '.' && |rest| >= 2 && AllDigits(rest[1..]) then
      assert rest == "." + rest[1..];
      assert s == DecimalText(neg, ip, rest[1..]);
      Some(Signed(neg, DecimalOf(ip, rest[1..])))
    else None
  }

  lemma MatchDecimalText(neg: bool, i: string, f: string)
    requires AllDigits(i) && |i| >= 1 && AllDigits(f)
    ensures MatchDecimal(DecimalText(neg, i, f)) == Some(Signed(neg, DecimalOf(i, f)))
  {
    var s := DecimalText(neg, i, f);
    var tail: string := if f == [] then "" else "." + f;
    assert s == (if neg then "-" else "") + (i + tail);
    assert Unsigned(s) == (neg, i + tail) by {
      assert IsDigit(i[0]);
      if !neg {
        assert s == i + tail;
        assert s[0] == i[0];
      } else {
        assert s == "-" + (i + tail);
        assert s[1..] == i + tail;
      }
    }
    DigitPrefixOfDigits(i, tail);
    assert (i + tail)[|i|..] == tail;
    if f != [] {
      assert tail[1..] == f;
    }
  }

  /** The decimal text of a natural number is matched with its own value. */
  lemma MatchNatText(n: nat)
    ensures MatchDecimal(NatToString(n)) == Some(n as real)
  {
    var s := NatToString(n);
    assert Unsigned(s) == (false, s);
    DigitPrefixOfDigits(s, []);
    assert s + [] == s;
    NatToStringValue(n);
    assert DigitsValue([]) == 0;
  }

  /**
   * Text that starts with a digit and whose first run of digits is followed
   * by a character other than a point, or by a point and later a non-digit,
   * is not a decimal number.
   */
  lemma NotDecimal(s: string, k: nat, j: nat)
    requires 1 <= k < j < |s| && AllDigits(s[..k]) && !IsDigit(s[k]) && !IsDigit(s[j])
    ensures MatchDecimal(s) == None
  {
    assert IsDigit(s[..k][0]);
    assert Unsigned(s) == (false, s);
    assert s == s[..k] + s[k..];
    DigitPrefixOfDigits(s[..k], s[k..]);
    assert s[k..][1..][j - k - 1] == s[j];
  }
}
