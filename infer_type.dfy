/**
 * `inferType`: turns a spreadsheet cell into a typed value during import.
 * Text is trimmed and checked, in this order, for blankness, the booleans,
 * the null words, a decimal number, an exact `YYYY-MM-DD` date and a
 * `d.m.y`-style date; matching dates come back as `YYYY-MM-DD` text.
 */
module InferType {
  import opened Wrappers
  import opened Text
  import opened Calendar
  import opened JsValue

  /** The words read as null, compared after trimming and lower-casing. */
  predicate IsNullWord(w: string) {
    w == "null" || w == "undefined" || w == "vide" || w == "na" || w == "n/a"
  }

  /** `/^\d{4}-\d{2}-\d{2}$/` and the three numbers it holds. */
  function MatchIso(t: string): (r: Option<(nat, nat, nat)>)
    ensures r.Some? ==> |t| == 10 && IsoPrefix(t) == r
    ensures |t| == 10 && IsoPrefix(t).Some? ==> r.Some?
  {
    if |t| == 10 then IsoPrefix(t) else None
  }

  /**
   * `new Date(t + 'T00:00:00Z')` for `YYYY-MM-DD` text: a month outside
   * 1..12 or a day outside 1..31 gives an invalid date; a day past the end
   * of its month rolls over into the next month of the same year.
   */
  function IsoDateOf(y: nat, m: nat, d: nat): (r: Option<ValidCivil>)
    requires y < 10000
    ensures r.Some? <==> 1 <= m <= 12 && 1 <= d <= 31
    ensures r.Some? ==> r.value.year == y
    ensures r.Some? && Valid(Civil(y, m, d)) ==> r.value == Civil(y, m, d)
  {
    if 1 <= m <= 12 && 1 <= d <= 31 then
      RollStaysInYear(y, m, d);
      Some(FromParts(y, m - 1, d))
    else None
  }

  /**
   * The date of `d.m.y`-style text: the two-digit year pivot, the day/month
   * choice, the range check on day and month, then `Date.UTC`.
   */
  function DottedDate(m: DottedMatch): (r: Option<ValidCivil>)
    requires m.year < 10000
    ensures r.Some? ==> 100 <= r.value.year <= 9999
    ensures r.Some? <==> var dm := DayMonth(m.p1, m.p2); 1 <= dm.0 <= 31 && 1 <= dm.1 <= 12
    ensures r.Some? ==> r.value.year == PivotYear(m.year)
  {
    var year := PivotYear(m.year);
    var dm := DayMonth(m.p1, m.p2);
    if 0 < dm.0 <= 31 && 0 < dm.1 <= 12 then
      RollStaysInYear(year, dm.1, dm.0);
      Some(DateUtc(year, dm.1 - 1, dm.0))
    else None
  }

  /**
   * The date trimmed text spells, first as exact `YYYY-MM-DD`, then as
   * `d.m.y`; `None` when neither test yields a valid `Date`.
   */
  function TextDate(t: string): (r: Option<ValidCivil>)
    ensures r.Some? ==> 0 <= r.value.year <= 9999
  {
    var iso := MatchIso(t);
    var isoDate := if iso.Some? then IsoDateOf(iso.value.0, iso.value.1, iso.value.2) else None;
    if isoDate.Some? then isoDate
    else
      var dotted := MatchDotted(t);
      if dotted.Some? then DottedDate(dotted.value) else None
  }

  /** `inferType` on a string. */
  function InferText(s: string): (r: Value)
    ensures IsBlank(s) ==> r == Null
    ensures r.Null? ==> IsBlank(s) || IsNullWord(Lower(Trim(s)))
    ensures r.Bool? ==> Lower(Trim(s)) == (if r.b then "true" else "false")
    ensures r.Num? ==> MatchDecimal(Trim(s)) == Some(r.n)
    ensures r.Str? ==> r.s == s || (TextDate(Trim(s)).Some? && r.s == IsoDate(TextDate(Trim(s)).value))
    ensures r.Null? || r.Bool? || r.Num? || r.Str?
  {
    var t := Trim(s);
    var w := Lower(t);
    if t == [] then Null
    else if w == "true" then Bool(true)
    else if w == "false" then Bool(false)
    else if IsNullWord(w) then Null
    else if MatchDecimal(t).Some? then Num(MatchDecimal(t).value)
    else
      var date := TextDate(t);
      if date.Some? then Str(IsoDate(date.value)) else Str(s)
  }

  /**
   * `inferType(value)`. A `Date` is written from its local year, month and day,
   * the year unpadded; an invalid one becomes its `String` form.
   */
  function InferType(v: Value): (r: Value)
    ensures v.Null? || v.Undefined? ==> r == Null
    ensures v.Num? || v.Bool? || v.Other? ==> r == v
    ensures v.Str? ==> r == InferText(v.s)
    ensures v.DateObj? ==> r.Str?
  {
    match v
    case Null => Null
    case Undefined => Null
    case Num(_) => v
    case Bool(_) => v
    case DateObj(None) => Str("Invalid Date")
    case DateObj(Some(f)) =>
      Str(IntToString(f.local.year) + "-" + Pad2(f.local.month) + "-" + Pad2(f.local.day))
    case Str(s) => InferText(s)
    case Other(_) => v
  }

  /** Text that starts with a digit is none of the words. */
  lemma DigitLeadNoWord(t: string)
    requires t != [] && IsDigit(t[0])
    ensures Lower(t) != "true" && Lower(t) != "false" && !IsNullWord(Lower(t))
  {
    assert Lower(t)[0] == t[0];
  }

  /** The booleans and the null words are recognised whatever their case and surrounding spaces. */
  lemma Words(s: string)
    ensures Lower(Trim(s)) == "true" ==> InferText(s) == Bool(true)
    ensures Lower(Trim(s)) == "false" ==> InferText(s) == Bool(false)
    ensures IsNullWord(Lower(Trim(s))) ==> InferText(s) == Null
  {
  }

  /** The number test comes before the date tests: the digits of a year are a number. */
  lemma {:induction false} NaturalIsNumber(n: nat)
    ensures InferText(NatToString(n)) == Num(n as real)
  {
    var t := NatToString(n);
    TrimUnspaced(t);
    DigitLeadNoWord(t);
    MatchNatText(n);
  }

  /**
   * The converse of `InferText`'s number clause: trimmed text matching
   * `-?\d+(\.\d+)?`, sign and fraction included, becomes that number.
   */
  lemma DecimalIsNumber(s: string)
    requires MatchDecimal(Trim(s)).Some?
    ensures InferText(s) == Num(MatchDecimal(Trim(s)).value)
  {
    var t := Trim(s);
    assert t != [] && Lower(t) != "true" && Lower(t) != "false" && !IsNullWord(Lower(t)) by {
      var neg, i, f :| AllDigits(i) && |i| >= 1 && AllDigits(f) && t == DecimalText(neg, i, f);
      if neg {
        assert t[0] == '-';
        assert Lower(t)[0] == '-';
      } else {
        assert t[0] == i[0];
        DigitLeadNoWord(t);
      }
    }
    NumberBranch(s);
  }

  /** Non-blank trimmed text that is none of the words takes the number test. */
  lemma NumberBranch(s: string)
    requires Trim(s) != [] && MatchDecimal(Trim(s)).Some?
    requires Lower(Trim(s)) != "true" && Lower(Trim(s)) != "false" && !IsNullWord(Lower(Trim(s)))
    ensures InferText(s) == Num(MatchDecimal(Trim(s)).value)
  {
  }

  lemma YearIsNumber()
    ensures InferText("2024") == Num(2024 as real)
  {
    assert NatToString(2024) == "2024";
    NaturalIsNumber(2024);
  }

  /**
   * `YYYY-MM-DD` text with a month in 1..12 and a day in 1..31 becomes the
   * ISO date `Date` shows for it (a day past the end of the month rolls
   * over); any other month or day leaves the text as it is.
   */
  lemma {:induction false} InferIso(y: nat, m: nat, d: nat)
    requires y < 10000 && m < 100 && d < 100
    ensures var t := IsoText(y, m, d);
      InferText(t) == if 1 <= m <= 12 && 1 <= d <= 31 then Str(IsoDate(FromParts(y, m - 1, d))) else Str(t)
  {
    var t := IsoText(y, m, d);
    assert IsDigit(t[..4][0]) && IsDigit(t[8..][1]);
    NotDecimal(t, 4, 7);
    DateTests(t);
    TextDateIso(y, m, d);
  }

  /** The date of `YYYY-MM-DD` text is the one `new Date` gives for it. */
  lemma TextDateIso(y: nat, m: nat, d: nat)
    requires y < 10000 && m < 100 && d < 100
    ensures TextDate(IsoText(y, m, d)) == IsoDateOf(y, m, d)
  {
    var t := IsoText(y, m, d);
    IsoTextParts(y, m, d);
    assert MatchIso(t) == Some((y, m, d));
    if IsoDateOf(y, m, d).None? {
      assert t == t[..4] + t[4..];
      DigitPrefixOfDigits(t[..4], t[4..]);
      assert SplitDotted(t).None?;
    }
  }

  /** An ISO date infers to itself. */
  lemma IsoIdempotent(c: Civil)
    requires Valid(c) && 0 <= c.year <= 9999
    ensures InferText(IsoDate(c)) == Str(IsoDate(c))
  {
    InferIso(c.year, c.month, c.day);
    FromValidParts(c);
  }

  /** 30 February 2024 is read as 1 March; 13 for a month is no date. */
  lemma IsoRollOver()
    ensures InferText(IsoText(2024, 2, 30)) == Str(IsoText(2024, 3, 1))
    ensures InferText(IsoText(2024, 13, 1)) == Str(IsoText(2024, 13, 1))
  {
    InferIso(2024, 2, 30);
    InferIso(2024, 13, 1);
    LeapRollOver();
  }

  /** Unspaced text that starts with a digit and is not a number reaches the date tests. */
  lemma DateTests(t: string)
    requires t != [] && IsDigit(t[0]) && !IsJsSpace(t[|t| - 1]) && MatchDecimal(t).None?
    ensures InferText(t) == if TextDate(t).Some? then Str(IsoDate(TextDate(t).value)) else Str(t)
  {
    TrimUnspaced(t);
    DigitLeadNoWord(t);
  }

  /**
   * `d.m.y`-style text (separators `.`, `/` or `-`, one or two digits for day
   * and month, two to four for the year) becomes the ISO date of `DottedDate`,
   * or stays as it is when day or month is out of range.
   */
  lemma {:induction false} InferDotted(a: string, x: char, b: string, y: char, c: string)
    requires DottedShape(a, x, b, y, c)
    ensures DigitsValue(c) < 10000
    ensures var t := DottedText(a, x, b, y, c);
      var date := DottedDate(DottedMatch(DigitsValue(a), DigitsValue(b), DigitsValue(c)));
      InferText(t) == if date.Some? then Str(IsoDate(date.value)) else Str(t)
  {
    DigitsBelow(c, 4);
    var t := DottedText(a, x, b, y, c);
    assert t[..|a|] == a;
    assert t[|a|] == x && t[|a| + 1 + |b|] == y;
    assert IsDigit(t[0]) && IsDigit(t[|t| - 1]);
    NotDecimal(t, |a|, |a| + 1 + |b|);
    DateTests(t);
    TextDateDotted(a, x, b, y, c);
  }

  lemma TextDateDotted(a: string, x: char, b: string, y: char, c: string)
    requires DottedShape(a, x, b, y, c) && DigitsValue(c) < 10000
    ensures TextDate(DottedText(a, x, b, y, c)) == DottedDate(DottedMatch(DigitsValue(a), DigitsValue(b), DigitsValue(c)))
  {
    var t := DottedText(a, x, b, y, c);
    assert t[..4][|a|] == x;
    assert MatchIso(t).None?;
    DottedOfText(a, x, b, y, c);
  }

  lemma DottedDateValid(m: DottedMatch, cv: ValidCivil)
    requires m.year < 10000 && DayMonth(m.p1, m.p2) == (cv.day, cv.month)
    requires cv.year == PivotYear(m.year) && 100 <= cv.year
    ensures DottedDate(m) == Some(cv)
  {
    DateUtcValid(cv);
  }

  /**
   * When the chosen day and month form a real date, `d.m.y` text infers to
   * exactly that date, the year after the two-digit pivot.
   */
  lemma DottedValidDate(a: string, x: char, b: string, y: char, c: string, year: int, month: int, day: int)
    requires DottedShape(a, x, b, y, c)
    requires var dm := DayMonth(DigitsValue(a), DigitsValue(b));
      dm == (day, month) && Valid(Civil(year, month, day)) && year == PivotYear(DigitsValue(c)) && year < 10000
    ensures InferText(DottedText(a, x, b, y, c)) == Str(IsoText(year, month, day))
  {
    var cv := Civil(year, month, day);
    var t := DottedText(a, x, b, y, c);
    assert year >= 100;
    DateUtcValid(cv);
    var m := DottedMatch(DigitsValue(a), DigitsValue(b), DigitsValue(c));
    assert DottedDate(m) == Some(cv) by {
      DottedDateValid(m, cv);
    }
    InferDotted(a, x, b, y, c);
    assert InferText(t) == Str(IsoDate(cv));
  }

  /** Unspaced text that starts with neither a digit nor a minus and is no word stays as it is. */
  lemma PlainText(t: string)
    requires t != [] && !IsDigit(t[0]) && t[0] != '-' && !IsJsSpace(t[0]) && !IsJsSpace(t[|t| - 1])
    requires var w := Lower(t); w != "true" && w != "false" && !IsNullWord(w)
    ensures InferText(t) == Str(t)
  {
    TrimUnspaced(t);
    assert Unsigned(t) == (false, t);
    assert DigitPrefix(t) == [];
    assert MatchDecimal(t).None?;
    assert MatchIso(t).None? by {
      if |t| >= 4 {
        assert t[..4][0] == t[0];
      }
    }
    assert SplitDotted(t).None?;
    assert TextDate(t).None?;
  }

  /** An invalid `Date` becomes text that infers to itself. */
  lemma InvalidDateText()
    ensures InferText("Invalid Date") == Str("Invalid Date")
  {
    var t := "Invalid Date";
    assert |Lower(t)| == 12;
    PlainText(t);
  }

  /**
   * `inferType` applied to its own result changes nothing, provided a `Date`
   * input has a four-digit local year (a year below 100 is written with fewer
   * digits and the text then reads as a `d-m-y` date).
   */
  lemma InferTypeIdempotent(v: Value)
    requires v.DateObj? && v.fields.Some? ==> 1000 <= v.fields.value.local.year <= 9999
    ensures InferType(InferType(v)) == InferType(v)
  {
    match v
    case Str(s) => InferTextIdempotent(s);
    case DateObj(Some(f)) => InferDateIdempotent(f);
    case DateObj(None) => InvalidDateText();
    case _ =>
  }

  lemma InferTextIdempotent(s: string)
    ensures InferType(InferText(s)) == InferText(s)
  {
    var r := InferText(s);
    if r.Str? && r.s != s {
      IsoIdempotent(TextDate(Trim(s)).value);
    }
  }

  lemma InferDateIdempotent(f: DateFields)
    requires 1000 <= f.local.year <= 9999
    ensures InferType(InferType(DateObj(Some(f)))) == InferType(DateObj(Some(f)))
  {
    var c := f.local;
    FourDigitYear(c.year);
    assert InferType(DateObj(Some(f))) == Str(IsoDate(c));
    IsoIdempotent(c);
  }
}
