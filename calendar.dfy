/**
 * The proleptic Gregorian calendar as the JavaScript `Date` object sees it
 * through its UTC accessors: `Date.UTC(year, monthIndex, day)` rolls every
 * out-of-range month and day over into the neighbouring months and years.
 * Shared by the date inference of imports and the `DD.MM.YYYY` formatter.
 */
module Calendar {
  import opened Wrappers
  import opened Text

  /** A calendar date; `month` runs 1..12 (one more than `getUTCMonth()`). */
  datatype Civil = Civil(year: int, month: int, day: int)

  predicate IsLeap(y: int) {
    (y % 4 == 0 && y % 100 != 0) || y % 400 == 0
  }

  function DaysInMonth(y: int, m: int): (n: int)
    requires 1 <= m <= 12
    ensures 28 <= n <= 31
    ensures m == 2 ==> (n == 29 <==> IsLeap(y))
    ensures m == 12 || m == 1 ==> n == 31
  {
    if m == 2 then (if IsLeap(y) then 29 else 28)
    else if m == 4 || m == 6 || m == 9 || m == 11 then 30
    else 31
  }

  predicate Valid(c: Civil) {
    1 <= c.month <= 12 && 1 <= c.day <= DaysInMonth(c.year, c.month)
  }

  /** Only February's length depends on the year. */
  lemma MonthLengthYearFree(y1: int, y2: int, m: int)
    requires 1 <= m <= 12 && m != 2
    ensures DaysInMonth(y1, m) == DaysInMonth(y2, m)
  {
  }

  /**
   * Day `d` of month `m` of year `y`, where `d` may be 0 or negative (days
   * before the first of the month) or past the end of the month.
   */
  function RollDays(y: int, m: int, d: int): (c: Civil)
    requires 1 <= m <= 12
    ensures Valid(c)
    ensures 1 <= d <= DaysInMonth(y, m) ==> c == Civil(y, m, d)
    decreases if d < 1 then 1 - d else 0, d
  {
    if d < 1 then
      var py := if m == 1 then y - 1 else y;
      var pm := if m == 1 then 12 else m - 1;
      RollDays(py, pm, d + DaysInMonth(py, pm))
    else if d > DaysInMonth(y, m) then
      var ny := if m == 12 then y + 1 else y;
      var nm := if m == 12 then 1 else m + 1;
      RollDays(ny, nm, d - DaysInMonth(y, m))
    else Civil(y, m, d)
  }

  /** The date a `Date` built from `year`, a 0-based month index and a day shows in UTC. */
  function FromParts(year: int, monthIndex: int, day: int): (c: Civil)
    ensures Valid(c)
  {
    RollDays(year + monthIndex / 12, monthIndex % 12 + 1, day)
  }

  /** `Date.UTC` reads a year between 0 and 99 as 1900 plus that year. */
  function UtcYear(y: int): (r: int)
    ensures 0 <= y <= 99 ==> r == 1900 + y
    ensures !(0 <= y <= 99) ==> r == y
  {
    if 0 <= y <= 99 then 1900 + y else y
  }

  /** `new Date(Date.UTC(year, monthIndex, day))` read back through its UTC accessors. */
  function DateUtc(year: int, monthIndex: int, day: int): (c: Civil)
    ensures Valid(c)
  {
    FromParts(UtcYear(year), monthIndex, day)
  }

  /** A valid date survives `Date.UTC` unchanged (for years the 0..99 rule leaves alone). */
  lemma FromValidParts(c: Civil)
    requires Valid(c)
    ensures FromParts(c.year, c.month - 1, c.day) == c
  {
  }

  /** `Date.UTC` of a valid date outside the years 0..99 is that date. */
  lemma DateUtcValid(c: Civil)
    requires Valid(c) && !(0 <= c.year <= 99)
    ensures DateUtc(c.year, c.month - 1, c.day) == c
  {
    assert UtcYear(c.year) == c.year;
    FromValidParts(c);
  }

  /** `Date.UTC` of a valid date in the years 0..99 is that date 1900 years later. */
  lemma DateUtcEarly(c: Civil)
    requires Valid(Civil(c.year + 1900, c.month, c.day)) && 0 <= c.year <= 99
    ensures DateUtc(c.year, c.month - 1, c.day) == Civil(c.year + 1900, c.month, c.day)
  {
    FromValidParts(Civil(c.year + 1900, c.month, c.day));
  }

  /** A day of 1..31 in a real month never leaves its year: December has 31 days. */
  lemma RollStaysInYear(y: int, m: int, d: int)
    requires 1 <= m <= 12 && 1 <= d <= 31
    ensures RollDays(y, m, d).year == y
    ensures RollDays(y, m, d) == Civil(y, m, d) || (m < 12 && RollDays(y, m, d) == Civil(y, m + 1, d - DaysInMonth(y, m)))
  {
    if d > DaysInMonth(y, m) {
      assert m != 12;
      assert 1 <= d - DaysInMonth(y, m) <= 3 <= DaysInMonth(y, m + 1);
    }
  }

  /** 30 February 2024 rolls over to 1 March (2024 is a leap year). */
  lemma LeapRollOver()
    ensures FromParts(2024, 1, 30) == Civil(2024, 3, 1)
    ensures FromParts(2023, 1, 30) == Civil(2023, 3, 2)
  {
  }

  /** Day 0 is the last day of the previous month, month index -1 the December before. */
  lemma RollBackwards()
    ensures FromParts(2024, 0, 0) == Civil(2023, 12, 31)
    ensures FromParts(2024, -1, 1) == Civil(2023, 12, 1)
  {
  }

  /**
   * The two-digit-year pivot: `if (year < 100) year += year < 50 ? 2000 : 1900`.
   */
  function PivotYear(y: int): (r: int)
    ensures 0 <= y < 50 ==> r == 2000 + y
    ensures 50 <= y < 100 ==> r == 1900 + y
    ensures y >= 100 ==> r == y
    ensures y >= 0 ==> r >= 100
  {
    if y < 100 then y + (if y < 50 then 2000 else 1900) else y
  }

  /** Which part of `d.m.y` input is the day: `(day, month)`. */
  function DayMonth(p1: int, p2: int): (r: (int, int))
    ensures p1 > 12 ==> r == (p1, p2)
    ensures p1 <= 12 && p2 > 12 ==> r == (p2, p1)
    ensures p1 <= 12 && p2 <= 12 ==> r == (p1, p2)
  {
    if p1 > 12 then (p1, p2) else if p2 > 12 then (p2, p1) else (p1, p2)
  }

  /** The first part is the day unless only the second part can be a day. */
  lemma DayMonthChoice(p1: int, p2: int)
    ensures DayMonth(p1, p2) == (p1, p2) || DayMonth(p1, p2) == (p2, p1)
    ensures DayMonth(p1, p2) == (p2, p1) && p1 != p2 <==> p1 <= 12 && p2 > 12
  {
  }

  /** Four-digit zero padding of a year, as `toISOString` writes years 0..9999. */
  function Pad4(n: nat): (r: string)
    requires n < 10000
    ensures |r| == 4 && AllDigits(r)
  {
    [DigitChar(n / 1000), DigitChar(n / 100 % 10), DigitChar(n / 10 % 10), DigitChar(n % 10)]
  }

  /** The text `YYYY-MM-DD` of three numbers, zero-padded. */
  function IsoText(y: nat, m: nat, d: nat): (r: string)
    requires y < 10000 && m < 100 && d < 100
    ensures |r| == 10 && r[4] == '-' && r[7] == '-'
    ensures r[..4] == Pad4(y) && r[5..7] == Pad2(m) && r[8..] == Pad2(d)
  {
    var r := Pad4(y) + "-" + Pad2(m) + "-" + Pad2(d);
    assert r[..4] == Pad4(y) && r[5..7] == Pad2(m) && r[8..] == Pad2(d);
    r
  }

  /** Years 1000..9999 print with four digits, as `toISOString` pads them. */
  lemma FourDigitYear(n: int)
    requires 1000 <= n <= 9999
    ensures IntToString(n) == Pad4(n)
  {
    assert NatToString(n) == NatToString(n / 10) + [DigitChar(n % 10)];
    assert NatToString(n / 10) == NatToString(n / 100) + [DigitChar(n / 10 % 10)];
    assert NatToString(n / 100) == NatToString(n / 1000) + [DigitChar(n / 100 % 10)];
    assert NatToString(n / 1000) == [DigitChar(n / 1000)];
  }

  /** `date.toISOString().split('T')[0]`: `YYYY-MM-DD`. */
  function IsoDate(c: Civil): (r: string)
    requires Valid(c) && 0 <= c.year <= 9999
    ensures |r| == 10 && r[4] == '-' && r[7] == '-'
    ensures r[5..7] == Pad2(c.month) && r[8..] == Pad2(c.day)
  {
    IsoText(c.year, c.month, c.day)
  }

  /** A valid date, as the type of the fields a `Date` object shows. */
  type ValidCivil = c: Civil | Valid(c) witness Civil(1970, 1, 1)

  predicate IsDateSeparator(c: char) {
    c == '.' || c == '/' || c == '-'
  }

  /** The three numbers of `d.m.y`-style text. */
  datatype DottedMatch = DottedMatch(p1: nat, p2: nat, year: nat)

  /**
   * The date `Date.UTC` makes of a dotted match with no range test: the
   * pivoted year, the day-first choice of day and month, rolling over.
   */
  function RolledDottedDate(m: DottedMatch): ValidCivil {
    var dm := DayMonth(m.p1, m.p2);
    DateUtc(PivotYear(m.year), dm.1 - 1, dm.0)
  }

  /** The text `a` `x` `b` `y` `c`. */
  function DottedText(a: string, x: char, b: string, y: char, c: string): string {
    a + ([x] + (b + ([y] + c)))
  }

  predicate DottedShape(a: string, x: char, b: string, y: char, c: string) {
    AllDigits(a) && 1 <= |a| <= 2 && AllDigits(b) && 1 <= |b| <= 2 && AllDigits(c) && 2 <= |c| <= 4
    && IsDateSeparator(x) && IsDateSeparator(y)
  }

  /** The five pieces of `d.m.y`-style text: digits, separator, digits, separator, digits. */
  datatype DottedParts = DottedParts(a: string, x: char, b: string, y: char, c: string)

  /** Cuts text into the pieces of `/^(\d{1,2})[.\/\-](\d{1,2})[.\/\-](\d{2,4})$/`. */
  function SplitDotted(s: string): (r: Option<DottedParts>)
    ensures r.Some? ==> DottedShape(r.value.a, r.value.x, r.value.b, r.value.y, r.value.c)
    ensures r.Some? ==> s == DottedText(r.value.a, r.value.x, r.value.b, r.value.y, r.value.c)
  {
    var a := DigitPrefix(s);
    if !(1 <= |a| <= 2) || |a| >= |s| || !IsDateSeparator(s[|a|]) then None
    else
      var s2 := s[|a| + 1..];
      var b := DigitPrefix(s2);
      if !(1 <= |b| <= 2) || |b| >= |s2| || !IsDateSeparator(s2[|b|]) then None
      else
        var c := s2[|b| + 1..];
        if 2 <= |c| <= 4 && AllDigits(c) then
          assert s2 == b + ([s2[|b|]] + c);
          assert s == a + ([s[|a|]] + s2);
          Some(DottedParts(a, s[|a|], b, s2[|b|], c))
        else None
  }

  /**
   * The regular expression above and the `parseInt` of its three groups.
   * `DottedOfText` proves the converse.
   */
  function MatchDotted(s: string): (r: Option<DottedMatch>)
    ensures r.Some? ==> exists a: string, x: char, b: string, y: char, c: string ::
      DottedShape(a, x, b, y, c) && s == DottedText(a, x, b, y, c)
      && r.value == DottedMatch(DigitsValue(a), DigitsValue(b), DigitsValue(c))
    ensures r.Some? ==> r.value.p1 < 100 && r.value.p2 < 100 && r.value.year < 10000
  {
    match SplitDotted(s)
    case None => None
    case Some(p) =>
      var r := DottedMatch(DigitsValue(p.a), DigitsValue(p.b), DigitsValue(p.c));
      assert DottedShape(p.a, p.x, p.b, p.y, p.c) && s == DottedText(p.a, p.x, p.b, p.y, p.c)
        && r == DottedMatch(DigitsValue(p.a), DigitsValue(p.b), DigitsValue(p.c));
      DigitsBelow(p.a, 2);
      DigitsBelow(p.b, 2);
      DigitsBelow(p.c, 4);
      Some(r)
  }

  lemma SplitOfText(a: string, x: char, b: string, y: char, c: string)
    requires DottedShape(a, x, b, y, c)
    ensures SplitDotted(DottedText(a, x, b, y, c)) == Some(DottedParts(a, x, b, y, c))
  {
    var s := DottedText(a, x, b, y, c);
    var s2 := b + ([y] + c);
    assert DigitPrefix(s) == a && s[|a|] == x && s[|a| + 1..] == s2 by {
      DigitPrefixOfDigits(a, [x] + s2);
    }
    assert DigitPrefix(s2) == b && s2[|b|] == y && s2[|b| + 1..] == c by {
      DigitPrefixOfDigits(b, [y] + c);
    }
  }

  lemma DottedOfText(a: string, x: char, b: string, y: char, c: string)
    requires DottedShape(a, x, b, y, c)
    ensures MatchDotted(DottedText(a, x, b, y, c)) == Some(DottedMatch(DigitsValue(a), DigitsValue(b), DigitsValue(c)))
  {
    SplitOfText(a, x, b, y, c);
  }

  /** The year, month and day numbers of text that starts with `\d{4}-\d{2}-\d{2}`. */
  function IsoPrefix(s: string): (r: Option<(nat, nat, nat)>)
    ensures r.Some? <==> |s| >= 10 && AllDigits(s[..4]) && s[4] == '-' && AllDigits(s[5..7])
                         && s[7] == '-' && AllDigits(s[8..10])
    ensures r.Some? ==> r.value == (DigitsValue(s[..4]), DigitsValue(s[5..7]), DigitsValue(s[8..10]))
    ensures r.Some? ==> r.value.0 < 10000 && r.value.1 < 100 && r.value.2 < 100
  {
    if |s| >= 10 && AllDigits(s[..4]) && s[4] == '-' && AllDigits(s[5..7]) && s[7] == '-' && AllDigits(s[8..10]) then
      DigitsValueBound(s[..4]);
      DigitsValueBound(s[5..7]);
      DigitsValueBound(s[8..10]);
      Some((DigitsValue(s[..4]), DigitsValue(s[5..7]), DigitsValue(s[8..10])))
    else None
  }

  /** `d.m.y` text has a separator within its first three characters, so it never starts with `YYYY-MM-DD`. */
  lemma DottedNotIso(a: string, x: char, b: string, y: char, c: string)
    requires DottedShape(a, x, b, y, c)
    ensures IsoPrefix(DottedText(a, x, b, y, c)).None?
  {
    var t := DottedText(a, x, b, y, c);
    assert t[|a|] == x;
    if |t| >= 10 {
      assert t[..4][|a|] == x;
    }
  }

  /** `YYYY-MM-DD` text reads back as its own year, month and day. */
  lemma IsoTextParts(y: nat, m: nat, d: nat)
    requires y < 10000 && m < 100 && d < 100
    ensures IsoPrefix(IsoText(y, m, d)) == Some((y, m, d))
  {
    var r := IsoText(y, m, d);
    assert r[8..10] == r[8..];
    Pad4Value(y);
  }

  lemma Pad4Value(n: nat)
    requires n < 10000
    ensures DigitsValue(Pad4(n)) == n
  {
    var r := Pad4(n);
    assert r[..3][..2][..1] == [r[0]] && r[..3][..2][..1][..0] == [];
    assert r[..3][..2] == r[..2] && r[..3] == r[..3];
    assert DigitsValue(r[..1]) == n / 1000;
    assert DigitsValue(r[..2]) == n / 1000 * 10 + n / 100 % 10;
    assert DigitsValue(r[..3]) == (n / 1000 * 10 + n / 100 % 10) * 10 + n / 10 % 10;
    assert r[..|r| - 1] == r[..3];
    FourDigits(n);
  }

  lemma FourDigits(n: nat)
    requires n < 10000
    ensures ((n / 1000 * 10 + n / 100 % 10) * 10 + n / 10 % 10) * 10 + n % 10 == n
  {
  }
}
