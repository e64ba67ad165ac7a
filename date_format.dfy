/**
 * `formatDateToDDMMYYYY`: writes a date, a timestamp or date text as
 * `DD.MM.YYYY` in UTC. Text is read as a leading `YYYY-MM-DD`, then as
 * `d.m.y`, then by the host's own date parser; anything unreadable is
 * returned as it came.
 */
module DateFormat {
  import opened Wrappers
  import opened Text
  import opened Calendar
  import opened JsValue

  /** `DD.MM.YYYY`: day and month zero-padded, the year as `String` writes it. */
  function DottedDay(c: ValidCivil): (r: string)
    ensures |r| >= 7 && r[2] == '.' && r[5] == '.'
    ensures r[..2] == Pad2(c.day) && r[3..5] == Pad2(c.month) && r[6..] == IntToString(c.year)
  {
    var r := Pad2(c.day) + "." + Pad2(c.month) + "." + IntToString(c.year);
    assert r[..2] == Pad2(c.day) && r[3..5] == Pad2(c.month) && r[6..] == IntToString(c.year);
    r
  }

  /**
   * The `Date` built from text. A leading `YYYY-MM-DD` and `d.m.y` text go
   * through `Date.UTC` with no range check, so their parts roll over;
   * `hostParse` stands for `new Date(value)`, `None` for an invalid date.
   */
  function TextDate(s: string, hostParse: string -> Option<ValidCivil>): (r: Option<ValidCivil>)
    ensures IsoPrefix(s).Some? ==> r.Some?
    ensures IsoPrefix(s).None? && MatchDotted(s).None? ==> r == hostParse(s)
  {
    var iso := IsoPrefix(s);
    if iso.Some? then Some(DateUtc(iso.value.0, iso.value.1 - 1, iso.value.2))
    else
      var dotted := MatchDotted(s);
      if dotted.Some? then
        Some(RolledDottedDate(dotted.value))
      else hostParse(s)
  }

  /**
   * The date a value stands for: a valid `Date` itself, a number through
   * `timestamp` (`new Date(value)`), text through `TextDate`.
   */
  function DateOf(v: Value, timestamp: real -> Option<ValidCivil>, hostParse: string -> Option<ValidCivil>): (r: Option<ValidCivil>)
    ensures v.Null? || v.Undefined? || v.Bool? || v.Other? ==> r.None?
    ensures v.DateObj? ==> (r.Some? <==> v.fields.Some?)
  {
    match v
    case DateObj(f) => if f.Some? then Some(f.value.utc) else None
    case Num(n) => timestamp(n)
    case Str(s) => TextDate(s, hostParse)
    case _ => None
  }

  /** `formatDateToDDMMYYYY(value)`. */
  function FormatDate(v: Value, timestamp: real -> Option<ValidCivil>, hostParse: string -> Option<ValidCivil>): (r: Value)
    ensures v.Null? || v.Undefined? || v == Str("") || v.Bool? || v.Other? ==> r == v
    ensures r != v ==> r.Str? && DateOf(v, timestamp, hostParse).Some?
    ensures v != Str("") && DateOf(v, timestamp, hostParse).Some? ==> r == Str(DottedDay(DateOf(v, timestamp, hostParse).value))
  {
    if v.Null? || v.Undefined? || v == Str("") then v
    else
      var date := DateOf(v, timestamp, hostParse);
      if date.Some? then Str(DottedDay(date.value)) else v
  }

  /** The `YYYY-MM-DD` test looks at a prefix only: time text may follow. */
  lemma IsoPrefixOf(y: nat, m: nat, d: nat, rest: string)
    requires y < 10000 && m < 100 && d < 100
    ensures IsoPrefix(IsoText(y, m, d) + rest) == Some((y, m, d))
  {
    var t := IsoText(y, m, d);
    var s := t + rest;
    assert s[..4] == t[..4] && s[5..7] == t[5..7] && s[8..10] == t[8..];
    IsoTextParts(y, m, d);
    assert t[8..10] == t[8..];
  }

  /** Non-empty text is written as its `TextDate`, or returned as it is when there is none. */
  lemma FormatText(s: string, timestamp: real -> Option<ValidCivil>, hostParse: string -> Option<ValidCivil>)
    requires s != []
    ensures var d := TextDate(s, hostParse);
      FormatDate(Str(s), timestamp, hostParse) == if d.Some? then Str(DottedDay(d.value)) else Str(s)
  {
    assert DateOf(Str(s), timestamp, hostParse) == TextDate(s, hostParse);
  }

  /**
   * Text that starts with `YYYY-MM-DD` is written as that UTC date, whatever
   * follows; month and day are not range-checked and roll over.
   */
  lemma FormatIso(y: nat, m: nat, d: nat, rest: string, timestamp: real -> Option<ValidCivil>, hostParse: string -> Option<ValidCivil>)
    requires y < 10000 && m < 100 && d < 100
    ensures FormatDate(Str(IsoText(y, m, d) + rest), timestamp, hostParse) == Str(DottedDay(DateUtc(y, m - 1, d)))
  {
    var s := IsoText(y, m, d) + rest;
    IsoPrefixOf(y, m, d, rest);
    assert TextDate(s, hostParse) == Some(DateUtc(y, m - 1, d));
    FormatText(s, timestamp, hostParse);
  }

  /** A real date from year 100 on is written as itself. */
  lemma FormatValidIso(c: ValidCivil, rest: string, timestamp: real -> Option<ValidCivil>, hostParse: string -> Option<ValidCivil>)
    requires 100 <= c.year <= 9999
    ensures FormatDate(Str(IsoDate(c) + rest), timestamp, hostParse) == Str(DottedDay(c))
  {
    FormatIso(c.year, c.month, c.day, rest, timestamp, hostParse);
    DateUtcValid(c);
  }

  /** `Date.UTC` reads the years 0000..0099 of ISO text as 1900..1999. */
  lemma FormatIsoEarlyYear(c: ValidCivil, timestamp: real -> Option<ValidCivil>, hostParse: string -> Option<ValidCivil>)
    requires 0 <= c.year <= 99 && c.month != 2
    ensures Valid(Civil(c.year + 1900, c.month, c.day))
    ensures FormatDate(Str(IsoDate(c)), timestamp, hostParse) == Str(DottedDay(Civil(c.year + 1900, c.month, c.day)))
  {
    MonthLengthYearFree(c.year, c.year + 1900, c.month);
    DateUtcEarly(c);
    assert IsoText(c.year, c.month, c.day) + [] == IsoDate(c);
    FormatIsoAs(c.year, c.month, c.day, [], Civil(c.year + 1900, c.month, c.day), timestamp, hostParse);
  }

  lemma FormatIsoAs(y: nat, m: nat, d: nat, rest: string, e: ValidCivil, timestamp: real -> Option<ValidCivil>, hostParse: string -> Option<ValidCivil>)
    requires y < 10000 && m < 100 && d < 100 && DateUtc(y, m - 1, d) == e
    ensures FormatDate(Str(IsoText(y, m, d) + rest), timestamp, hostParse) == Str(DottedDay(e))
  {
    FormatIso(y, m, d, rest, timestamp, hostParse);
  }

  /**
   * `d.m.y` text is written as the date `Date.UTC` makes of the chosen day and
   * month and the pivoted year, without any range check.
   */
  lemma FormatDotted(a: string, x: char, b: string, y: char, c: string, timestamp: real -> Option<ValidCivil>, hostParse: string -> Option<ValidCivil>)
    requires DottedShape(a, x, b, y, c)
    ensures FormatDate(Str(DottedText(a, x, b, y, c)), timestamp, hostParse)
      == Str(DottedDay(RolledDottedDate(DottedMatch(DigitsValue(a), DigitsValue(b), DigitsValue(c)))))
  {
    var t := DottedText(a, x, b, y, c);
    DottedNotIso(a, x, b, y, c);
    DottedOfText(a, x, b, y, c);
    FormatText(t, timestamp, hostParse);
  }

  /** 31.02.2024 is not rejected: it rolls over to 2 March. */
  lemma DottedRollOver()
    ensures DateUtc(2024, 1, 31) == Civil(2024, 3, 2)
    ensures DayMonth(31, 2) == (31, 2)
  {
  }

  /**
   * `DD.MM.YYYY` output with a four-digit year reads back as the same date:
   * the first part is taken as the day whenever the month is at most 12.
   */
  lemma FormatDayIdempotent(c: ValidCivil, timestamp: real -> Option<ValidCivil>, hostParse: string -> Option<ValidCivil>)
    requires 1000 <= c.year <= 9999
    ensures FormatDate(Str(DottedDay(c)), timestamp, hostParse) == Str(DottedDay(c))
  {
    var s := DottedDay(c);
    DottedDayParts(c);
    assert DayMonth(c.day, c.month) == (c.day, c.month);
    assert PivotYear(c.year) == c.year;
    DateUtcValid(c);
    assert TextDate(s, hostParse) == Some(c);
    FormatText(s, timestamp, hostParse);
  }

  /** `DD.MM.YYYY` with a four-digit year is `d.m.y` text holding day, month and year. */
  lemma DottedDayParts(c: ValidCivil)
    requires 1000 <= c.year <= 9999
    ensures IsoPrefix(DottedDay(c)).None?
    ensures MatchDotted(DottedDay(c)) == Some(DottedMatch(c.day, c.month, c.year))
  {
    var s := DottedDay(c);
    FourDigitYear(c.year);
    var a, b, yr := Pad2(c.day), Pad2(c.month), Pad4(c.year);
    assert s == DottedText(a, '.', b, '.', yr);
    assert s[..4][2] == '.';
    DottedOfText(a, '.', b, '.', yr);
    Pad4Value(c.year);
  }

  /** Formatting the formatter's own output changes nothing, for dates with four-digit years. */
  lemma FormatIdempotent(v: Value, timestamp: real -> Option<ValidCivil>, hostParse: string -> Option<ValidCivil>)
    requires var d := DateOf(v, timestamp, hostParse); d.Some? ==> 1000 <= d.value.year <= 9999
    ensures var r := FormatDate(v, timestamp, hostParse); FormatDate(r, timestamp, hostParse) == r
  {
    var d := DateOf(v, timestamp, hostParse);
    if v != Str("") && d.Some? {
      FormatDayIdempotent(d.value, timestamp, hostParse);
    }
  }
}
