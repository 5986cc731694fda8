/**
 Week-ending dates. A sale record carries its week-ending date as `YYYY-MM-DD`
 text; the view prints it as `MM-DD-YY` in the sales table and keys the monthly
 chart by the upper-cased English month abbreviation of the same date.
 */
module Dates {
  import opened Wrappers
  import opened Digits

  datatype Date = Date(year: nat, month: nat, day: nat)

  /** Gregorian leap years, as the date library's calendar uses them. */
  predicate IsLeapYear(y: nat) {
    y % 4 == 0 && (y % 100 != 0 || y % 400 == 0)
  }

  function DaysInMonth(y: nat, m: nat): (n: nat)
    requires 1 <= m <= 12
    ensures 28 <= n <= 31
    ensures n == 29 <==> m == 2 && IsLeapYear(y)
  {
    if m == 2 then (if IsLeapYear(y) then 29 else 28)
    else if m == 4 || m == 6 || m == 9 || m == 11 then 30
    else 31
  }

  /** A calendar date whose year fits the four-digit `YYYY` field. */
  predicate ValidDate(d: Date) {
    d.year < 10000 && 1 <= d.month <= 12 && 1 <= d.day <= DaysInMonth(d.year, d.month)
  }

  /** The `YYYY-MM-DD` text of a date. */
  function FormatIsoDate(d: Date): (s: string)
    requires ValidDate(d)
    ensures |s| == 10 && s[4] == '-' && s[7] == '-'
  {
    Fixed(d.year, 4) + "-" + Fixed(d.month, 2) + "-" + Fixed(d.day, 2)
  }

  /** True when `s` has the shape `DDDD-DD-DD` (digits and two dashes). */
  predicate IsoShaped(s: string) {
    |s| == 10 && s[4] == '-' && s[7] == '-'
    && AllDigits(s[..4]) && AllDigits(s[5..7]) && AllDigits(s[8..])
  }

  /**
   Strict `YYYY-MM-DD` parsing: `None` for text of another shape and for a
   month or day outside the calendar (the date library marks such a date invalid).
   */
  function ParseIsoDate(s: string): (r: Option<Date>)
    ensures r.Some? ==> IsoShaped(s)
    ensures r.Some? ==> ValidDate(r.value)
  {
    if IsoShaped(s) then
      var d := Date(Value(s[..4]), Value(s[5..7]), Value(s[8..]));
      if ValidDate(d) then Some(d) else None
    else None
  }

  /** A date that parses is the one its text spells. */
  lemma FormatParsedIsoDate(s: string)
    requires IsIsoDate(s)
    ensures FormatIsoDate(ParseIsoDate(s).value) == s
  {
    var d := ParseIsoDate(s).value;
    assert Fixed(d.year, 4) == s[..4] by {
      FixedOfValue(s[..4]);
    }
    assert Fixed(d.month, 2) == s[5..7] by {
      FixedOfValue(s[5..7]);
    }
    assert Fixed(d.day, 2) == s[8..] by {
      FixedOfValue(s[8..]);
    }
    IsoFields(s);
  }

  lemma IsoFields(s: string)
    requires |s| == 10 && s[4] == '-' && s[7] == '-'
    ensures s == s[..4] + "-" + s[5..7] + "-" + s[8..]
  {
  }

  predicate IsIsoDate(s: string) {
    ParseIsoDate(s).Some?
  }

  /** Formatting then parsing a valid date gives the date back. */
  lemma ParseFormatIsoDate(d: Date)
    requires ValidDate(d)
    ensures ParseIsoDate(FormatIsoDate(d)) == Some(d)
  {
    var s := FormatIsoDate(d);
    assert s[..4] == Fixed(d.year, 4);
    assert s[5..7] == Fixed(d.month, 2);
    assert s[8..] == Fixed(d.day, 2);
    ValueOfFixed(d.year, 4);
    ValueOfFixed(d.month, 2);
    ValueOfFixed(d.day, 2);
  }

  /** The text the date library prints for a date it could not parse. */
  const InvalidDateText: string := "Invalid date"

  /**
   `moment(weekEnding, 'YYYY-MM-DD').format('MM-DD-YY')`: two-digit month, two-digit
   day, and the year reduced to its last two digits; the invalid-date text otherwise.
   */
  function FormatWeekEndingForTable(weekEnding: string): (r: string)
    ensures IsIsoDate(weekEnding) ==>
      && |r| == 8 && r[2] == '-' && r[5] == '-'
      && r[..2] == weekEnding[5..7] && r[3..5] == weekEnding[8..10]
      && r[6..] == weekEnding[2..4]
      && AllDigits(r[6..]) && Value(r[6..]) == ParseIsoDate(weekEnding).value.year % 100
    ensures !IsIsoDate(weekEnding) ==> r == InvalidDateText
  {
    match ParseIsoDate(weekEnding)
    case None => InvalidDateText
    case Some(d) =>
      var r := Fixed(d.month, 2) + "-" + Fixed(d.day, 2) + "-" + Fixed(d.year % 100, 2);
      assert r[..2] == Fixed(d.month, 2) && r[3..5] == Fixed(d.day, 2) && r[6..] == Fixed(d.year % 100, 2);
      FormatParsedIsoDate(weekEnding);
      assert weekEnding[5..7] == Fixed(d.month, 2) && weekEnding[8..10] == Fixed(d.day, 2);
      YearSuffix(weekEnding);
      ValueOfFixed(d.year % 100, 2);
      r
  }

  /** The last two year digits of an ISO date denote the year modulo 100. */
  lemma YearSuffix(s: string)
    requires IsIsoDate(s)
    ensures Fixed(ParseIsoDate(s).value.year % 100, 2) == s[2..4]
  {
    var y := s[..4];
    var hi, lo := y[..2], y[2..];
    assert y == hi + lo;
    assert Value(y) == Value(hi) * 100 + Value(lo) by {
      ValueOfConcat(hi, lo);
      assert Pow10(2) == 100;
    }
    assert Value(lo) < 100 by {
      assert Pow10(2) == 100;
    }
    ModHundred(Value(hi), Value(lo));
    assert lo == s[2..4];
    FixedOfValue(lo);
  }

  lemma ModHundred(a: nat, b: nat)
    requires b < 100
    ensures (a * 100 + b) % 100 == b
  {
  }

  /** Reads an `MM-DD-YY` table date back into its month, day and two-digit year. */
  function ParseTableDate(s: string): (r: Option<(nat, nat, nat)>)
    ensures r.Some? ==> |s| == 8 && s[2] == '-' && s[5] == '-'
  {
    if |s| == 8 && s[2] == '-' && s[5] == '-'
       && AllDigits(s[..2]) && AllDigits(s[3..5]) && AllDigits(s[6..])
    then Some((Value(s[..2]), Value(s[3..5]), Value(s[6..])))
    else None
  }

  /** The table text keeps the month and the day and the year modulo 100, nothing else is lost. */
  lemma TableDateRoundTrip(weekEnding: string)
    requires IsIsoDate(weekEnding)
    ensures var d := ParseIsoDate(weekEnding).value;
      ParseTableDate(FormatWeekEndingForTable(weekEnding)) == Some((d.month, d.day, d.year % 100))
  {
    var d := ParseIsoDate(weekEnding).value;
    var r := FormatWeekEndingForTable(weekEnding);
    FormatParsedIsoDate(weekEnding);
    assert weekEnding[5..7] == Fixed(d.month, 2) && weekEnding[8..10] == Fixed(d.day, 2);
    ValueOfFixed(d.month, 2);
    ValueOfFixed(d.day, 2);
  }

  /** The date library's English short month names, January first. */
  const MonthAbbreviations: seq<string> :=
    ["Jan", "Feb", "Mar", "Apr", "May", "Jun", "Jul", "Aug", "Sep", "Oct", "Nov", "Dec"]

  /** ASCII upper-casing of one character; other characters are kept. */
  function UpperChar(c: char): (u: char)
    ensures 'a' <= c <= 'z' ==> 'A' <= u <= 'Z' && u as int - 'A' as int == c as int - 'a' as int
    ensures !('a' <= c <= 'z') ==> u == c
  {
    if 'a' <= c <= 'z' then (c as int - 32) as char else c
  }

  /** `toUpperCase` on text whose letters are ASCII. */
  function ToUpperAscii(s: string): (r: string)
    ensures |r| == |s|
    ensures forall i :: 0 <= i < |s| ==> r[i] == UpperChar(s[i])
  {
    seq(|s|, i requires 0 <= i < |s| => UpperChar(s[i]))
  }

  /** `format('MMM').toUpperCase()` for a month number. */
  function MonthLabel(month: nat): (l: string)
    requires 1 <= month <= 12
    ensures |l| == 3
    ensures forall i :: 0 <= i < 3 ==> 'A' <= l[i] <= 'Z'
  {
    ToUpperAscii(MonthAbbreviations[month - 1])
  }

  /**
   `moment(weekEnding, 'YYYY-MM-DD').format('MMM').toUpperCase()`: the month label,
   or the upper-cased invalid-date text when the date does not parse.
   */
  function WeekEndingMonth(weekEnding: string): (l: string)
    ensures IsIsoDate(weekEnding) ==> l == MonthLabel(ParseIsoDate(weekEnding).value.month)
    ensures IsIsoDate(weekEnding) ==> MonthOfLabel(l) == Some(Value(weekEnding[5..7]))
    ensures !IsIsoDate(weekEnding) ==> l == ToUpperAscii(InvalidDateText)
  {
    match ParseIsoDate(weekEnding)
    case None => ToUpperAscii(InvalidDateText)
    case Some(d) =>
      MonthLabelRoundTrip(d.month);
      MonthLabel(d.month)
  }

  /** Reads a month label back into the month number, letter by letter. */
  function MonthOfLabel(l: string): (r: Option<nat>)
    ensures r.Some? ==> 1 <= r.value <= 12 && |l| == 3
  {
    if |l| != 3 then None
    else
      var a, b, c := l[0], l[1], l[2];
      if a == 'J' && b == 'A' && c == 'N' then Some(1)
      else if a == 'F' && b == 'E' && c == 'B' then Some(2)
      else if a == 'M' && b == 'A' && c == 'R' then Some(3)
      else if a == 'A' && b == 'P' && c == 'R' then Some(4)
      else if a == 'M' && b == 'A' && c == 'Y' then Some(5)
      else if a == 'J' && b == 'U' && c == 'N' then Some(6)
      else if a == 'J' && b == 'U' && c == 'L' then Some(7)
      else if a == 'A' && b == 'U' && c == 'G' then Some(8)
      else if a == 'S' && b == 'E' && c == 'P' then Some(9)
      else if a == 'O' && b == 'C' && c == 'T' then Some(10)
      else if a == 'N' && b == 'O' && c == 'V' then Some(11)
      else if a == 'D' && b == 'E' && c == 'C' then Some(12)
      else None
  }

  /** The labels are the upper-case abbreviations, January first. */
  lemma MonthLabelTable(month: nat)
    requires 1 <= month <= 12
    ensures MonthLabel(month) ==
      ["JAN", "FEB", "MAR", "APR", "MAY", "JUN", "JUL", "AUG", "SEP", "OCT", "NOV", "DEC"][month - 1]
  {
    if month <= 6 {
      FirstHalfLabels(month);
    } else {
      SecondHalfLabels(month);
    }
  }

  lemma FirstHalfLabels(month: nat)
    requires 1 <= month <= 6
    ensures MonthLabel(month) == ["JAN", "FEB", "MAR", "APR", "MAY", "JUN"][month - 1]
  {
    var a := MonthAbbreviations[month - 1];
    assert MonthLabel(month) == [UpperChar(a[0]), UpperChar(a[1]), UpperChar(a[2])];
  }

  lemma SecondHalfLabels(month: nat)
    requires 7 <= month <= 12
    ensures MonthLabel(month) == ["JUL", "AUG", "SEP", "OCT", "NOV", "DEC"][month - 7]
  {
    var a := MonthAbbreviations[month - 1];
    assert MonthLabel(month) == [UpperChar(a[0]), UpperChar(a[1]), UpperChar(a[2])];
  }

  lemma MonthLabelRoundTrip(month: nat)
    requires 1 <= month <= 12
    ensures MonthOfLabel(MonthLabel(month)) == Some(month)
  {
    MonthLabelTable(month);
    var l := MonthLabel(month);
    assert l == [l[0], l[1], l[2]];
  }

  /** Twelve distinct labels: two months share a label exactly when they are the same month. */
  lemma MonthLabelInjective(m1: nat, m2: nat)
    requires 1 <= m1 <= 12 && 1 <= m2 <= 12
    ensures MonthLabel(m1) == MonthLabel(m2) <==> m1 == m2
  {
    MonthLabelRoundTrip(m1);
    MonthLabelRoundTrip(m2);
  }

  /**
   The year plays no part in the month label: two week-ending dates get the same
   label exactly when their `MM` fields agree, whatever their years.
   */
  lemma SameLabelIffSameMonthField(s: string, t: string)
    requires IsIsoDate(s) && IsIsoDate(t)
    ensures WeekEndingMonth(s) == WeekEndingMonth(t) <==> s[5..7] == t[5..7]
  {
    var ds, dt := ParseIsoDate(s).value, ParseIsoDate(t).value;
    MonthLabelInjective(ds.month, dt.month);
    FixedOfValue(s[5..7]);
    FixedOfValue(t[5..7]);
  }

  /** The label of a formatted date is its month's label, whatever its year and day. */
  lemma WeekEndingMonthOfDate(d: Date)
    requires ValidDate(d)
    ensures WeekEndingMonth(FormatIsoDate(d)) == MonthLabel(d.month)
  {
    ParseFormatIsoDate(d);
  }

  /** The twelve labels a well-formed week-ending date can get, January first. */
  function AllMonthLabels(): (ls: seq<string>)
    ensures ls == ["JAN", "FEB", "MAR", "APR", "MAY", "JUN", "JUL", "AUG", "SEP", "OCT", "NOV", "DEC"]
    ensures forall m :: 1 <= m <= 12 ==> ls[m - 1] == MonthLabel(m)
  {
    var ls := seq(12, i requires 0 <= i < 12 => MonthLabel(i + 1));
    forall i | 0 <= i < 12
      ensures ls[i] == ["JAN", "FEB", "MAR", "APR", "MAY", "JUN", "JUL", "AUG", "SEP", "OCT", "NOV", "DEC"][i]
    {
      MonthLabelTable(i + 1);
    }
    ls
  }

  // Examples

  /** `2023-01-05` reads as the fifth of January 2023. */
  lemma ParseExample()
    ensures ParseIsoDate("2023-01-05") == Some(Date(2023, 1, 5))
  {
    var d := Date(2023, 1, 5);
    ParseFormatIsoDate(d);
    assert Fixed(2023, 4) == "2023";
    assert Fixed(1, 2) == "01";
    assert Fixed(5, 2) == "05";
    assert FormatIsoDate(d) == "2023-01-05";
  }

  /** The table text of a date that parses, field by field. */
  lemma TableTextOfParsed(s: string, d: Date)
    requires ParseIsoDate(s) == Some(d)
    ensures FormatWeekEndingForTable(s) == Fixed(d.month, 2) + "-" + Fixed(d.day, 2) + "-" + Fixed(d.year % 100, 2)
  {
  }

  /** The table shows `2023-01-05` as `01-05-23`. */
  lemma TableDateExample()
    ensures FormatWeekEndingForTable("2023-01-05") == "01-05-23"
  {
    ParseExample();
    TableTextOfParsed("2023-01-05", Date(2023, 1, 5));
    assert Fixed(1, 2) + "-" + Fixed(5, 2) + "-" + Fixed(2023 % 100, 2) == "01-05-23" by {
      assert 2023 % 100 == 23;
      assert Fixed(23, 2) == "23";
      assert Fixed(1, 2) == "01";
      assert Fixed(5, 2) == "05";
    }
  }

  /** February 30th overflows its month, so the table shows the invalid-date text. */
  lemma OverflowingDayExample()
    ensures FormatWeekEndingForTable("2023-02-30") == InvalidDateText
  {
    var s := "2023-02-30";
    assert s[8..] == "30";
    assert s[5..7] == "02";
    assert Value("30") == 30;
    assert Value("02") == 2;
  }

  /** Text that is no date at all gets the invalid-date text, and the chart label `INVALID DATE`. */
  lemma NotADateExample()
    ensures FormatWeekEndingForTable("soon") == InvalidDateText
    ensures WeekEndingMonth("soon") == "INVALID DATE"
  {
    assert ToUpperAscii(InvalidDateText) == "INVALID DATE";
  }

  /** The chart label of `2023-01-05` is `JAN`. */
  lemma MonthLabelExample()
    ensures WeekEndingMonth("2023-01-05") == "JAN"
  {
    ParseExample();
    MonthLabelTable(1);
  }

  /** A week of January 2022 gets the same `JAN` label. */
  lemma EarlierYearLabelExample()
    ensures WeekEndingMonth("2022-01-07") == "JAN"
  {
    var d := Date(2022, 1, 7);
    assert FormatIsoDate(d) == "2022-01-07" by {
      assert Fixed(2022, 4) == "2022";
      assert Fixed(1, 2) == "01";
      assert Fixed(7, 2) == "07";
    }
    WeekEndingMonthOfDate(d);
    MonthLabelTable(1);
  }

}
