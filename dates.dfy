/** The calendar arithmetic behind the two date filters of `filter_tasks`:
    `datetime.strptime(s, '%Y-%m-%d')` followed by `+ timedelta(days=1)`,
    over integer timestamps instead of `datetime` values. */
module Dates {
  import opened Schema

  const SecondsPerDay: int := 86400

  /** `date(1970, 1, 1).toordinal()`: the ordinal of the day timestamps count from. */
  const EpochOrdinal: int := 719163

  datatype Date = Date(year: int, month: int, day: int)

  predicate IsLeap(y: int) {
    y % 4 == 0 && (y % 100 != 0 || y % 400 == 0)
  }

  function YearLength(y: int): int {
    if IsLeap(y) then 366 else 365
  }

  function DaysInMonth(y: int, m: int): int
    requires 1 <= m <= 12
  {
    if m == 2 then (if IsLeap(y) then 29 else 28)
    else if m == 4 || m == 6 || m == 9 || m == 11 then 30
    else 31
  }

  /** A date `datetime` accepts: years 1 to 9999, real month lengths. */
  predicate ValidDate(d: Date) {
    1 <= d.year <= 9999 && 1 <= d.month <= 12 && 1 <= d.day <= DaysInMonth(d.year, d.month)
  }

  /** Days of year `y` before the first of month `m` (13 stands for the next January). */
  function DaysBeforeMonth(y: int, m: int): int
    requires 1 <= m <= 13
  {
    [0, 31, 59, 90, 120, 151, 181, 212, 243, 273, 304, 334, 365][m - 1]
      + (if m > 2 && IsLeap(y) then 1 else 0)
  }

  /** Days before January 1 of year `y`, counted from January 1 of year 1. */
  function DaysBeforeYear(y: int): int
    requires y >= 1
  {
    var p := y - 1;
    365 * p + p / 4 - p / 100 + p / 400
  }

  /** The proleptic Gregorian ordinal of `date.toordinal()` (0001-01-01 is 1). */
  function Ordinal(d: Date): int
    requires ValidDate(d)
  {
    DaysBeforeYear(d.year) + DaysBeforeMonth(d.year, d.month) + d.day
  }

  /** Days from 1970-01-01 to `d`. */
  function DayNumber(d: Date): int
    requires ValidDate(d)
  {
    Ordinal(d) - EpochOrdinal
  }

  /** The timestamp of `d` at 00:00. */
  function Midnight(d: Date): Timestamp
    requires ValidDate(d)
  {
    DayNumber(d) * SecondsPerDay
  }

  /** The calendar day (as a day number) a timestamp falls on. */
  function CalendarDay(t: Timestamp): int {
    t / SecondsPerDay
  }

  /** Lexicographic order on dates. */
  predicate Before(a: Date, b: Date) {
    a.year < b.year || (a.year == b.year && (a.month < b.month || (a.month == b.month && a.day < b.day)))
  }

  // ---------------------------------------------------------------- parsing

  predicate IsDigit(c: char) {
    '0' <= c <= '9'
  }

  function DigitValue(c: char): int
    requires IsDigit(c)
  {
    c as int - '0' as int
  }

  /** Value of a run of ASCII digits. */
  function DigitsValue(s: string): (v: int)
    requires forall i :: 0 <= i < |s| ==> IsDigit(s[i])
    ensures 0 <= v < Power10(|s|)
  {
    if |s| == 0 then 0 else DigitsValue(s[..|s| - 1]) * 10 + DigitValue(s[|s| - 1])
  }

  /** The month text `%m` accepts, i.e. `1[0-2]|0[1-9]|[1-9]` matched up to the next '-'. */
  function MonthField(s: string): (r: Option<int>)
    ensures r.Some? ==> 1 <= r.value <= 12
  {
    if |s| == 1 && '1' <= s[0] <= '9' then Some(DigitValue(s[0]))
    else if |s| == 2 && s[0] == '1' && '0' <= s[1] <= '2' then Some(10 + DigitValue(s[1]))
    else if |s| == 2 && s[0] == '0' && '1' <= s[1] <= '9' then Some(DigitValue(s[1]))
    else None
  }

  /** The day text `%d` accepts at the end of the string, i.e.
      `3[01]|[12]\d|0[1-9]|[1-9]| [1-9]` with nothing left over. */
  function DayField(s: string): (r: Option<int>)
    ensures r.Some? ==> 1 <= r.value <= 31
  {
    if |s| == 1 && '1' <= s[0] <= '9' then Some(DigitValue(s[0]))
    else if |s| == 2 && s[0] == ' ' && '1' <= s[1] <= '9' then Some(DigitValue(s[1]))
    else if |s| == 2 && s[0] == '3' && '0' <= s[1] <= '1' then Some(30 + DigitValue(s[1]))
    else if |s| == 2 && '1' <= s[0] <= '2' && IsDigit(s[1]) then Some(DigitValue(s[0]) * 10 + DigitValue(s[1]))
    else if |s| == 2 && s[0] == '0' && '1' <= s[1] <= '9' then Some(DigitValue(s[1]))
    else None
  }

  /** `datetime.strptime(s, '%Y-%m-%d')`: four digits, '-', month, '-', day,
      nothing after, and a date that exists. */
  function ParseDate(s: string): (r: Option<Date>)
    ensures r.Some? ==> ValidDate(r.value)
  {
    if |s| < 8 || s[4] != '-' || !(IsDigit(s[0]) && IsDigit(s[1]) && IsDigit(s[2]) && IsDigit(s[3])) then None
    else
      var rest := s[5..];
      var dash := if rest[1] == '-' then 1 else if rest[2] == '-' then 2 else 0;
      if dash == 0 then None
      else
        var year := DigitsValue(s[..4]);
        var month := MonthField(rest[..dash]);
        var day := DayField(rest[dash + 1..]);
        if year < 1 || month.None? || day.None? then None
        else if day.value > DaysInMonth(year, month.value) then None
        else Some(Date(year, month.value, day.value))
  }

  /** `d + timedelta(days=1)` exists: it overflows after 9999-12-31. */
  predicate HasNextDay(d: Date) {
    d != Date(9999, 12, 31)
  }

  /** The window `[d 00:00, d + 1 day 00:00)` a date filter selects, or
      None when the text does not parse or the next day overflows. */
  function DayWindow(s: string): (r: Option<(Timestamp, Timestamp)>)
    ensures r.Some? ==> r.value.1 == r.value.0 + SecondsPerDay
    ensures r.Some? <==> ParseDate(s).Some? && HasNextDay(ParseDate(s).value)
    ensures r.Some? ==> r.value.0 == Midnight(ParseDate(s).value)
  {
    var d := ParseDate(s);
    if d.Some? && HasNextDay(d.value) then Some((Midnight(d.value), Midnight(d.value) + SecondsPerDay))
    else None
  }

  /** Zero-padded `YYYY-MM-DD`, the form `strftime('%Y-%m-%d')` writes. */
  function Format(d: Date): (s: string)
    requires ValidDate(d)
    ensures |s| == 10
  {
    Pad(d.year, 4) + "-" + Pad(d.month, 2) + "-" + Pad(d.day, 2)
  }

  /** The last `width` decimal digits of `n`, with leading zeros. */
  function Pad(n: nat, width: nat): (s: string)
    ensures |s| == width
    ensures forall i :: 0 <= i < |s| ==> IsDigit(s[i])
  {
    if width == 0 then "" else Pad(n / 10, width - 1) + [('0' as int + n % 10) as char]
  }

  // ----------------------------------------------------------------- lemmas

  /** Reading back a padded number gives the number when it fits the width. */
  lemma {:induction false} PadValue(n: nat, width: nat)
    requires n < Power10(width)
    ensures DigitsValue(Pad(n, width)) == n
  {
    if width > 0 {
      var s := Pad(n, width);
      assert s[..|s| - 1] == Pad(n / 10, width - 1);
      PadValue(n / 10, width - 1);
    }
  }

  function Power10(k: nat): (p: nat)
    ensures p >= 1
  {
    if k == 0 then 1 else 10 * Power10(k - 1)
  }

  /** Every valid date written in zero-padded form parses back to itself. */
  lemma ParseFormat(d: Date)
    requires ValidDate(d)
    ensures ParseDate(Format(d)) == Some(d)
  {
    var s := Format(d);
    var y, m, dd := Pad(d.year, 4), Pad(d.month, 2), Pad(d.day, 2);
    assert s == y + "-" + m + "-" + dd;
    assert s[..4] == y;
    PadValue(d.year, 4);
    var rest := s[5..];
    assert rest == m + "-" + dd;
    assert rest[..2] == m && rest[3..] == dd;
    assert m == [('0' as int + d.month / 10) as char, ('0' as int + d.month % 10) as char];
    assert Pad(d.day / 10, 1) == [('0' as int + d.day / 10) as char];
    assert dd == [('0' as int + d.day / 10) as char, ('0' as int + d.day % 10) as char];
  }

  // ------------------------------------------------- accepted spellings

  /** The texts `%m` reads as month `m`: two digits, or a single digit below 10. */
  function MonthSpellings(m: nat): set<string> {
    if m < 10 then {Pad(m, 2), Pad(m, 1)} else {Pad(m, 2)}
  }

  /** The texts `%d` reads as day `d` at the end of the input: two digits,
      or below 10 also a single digit or a space and a single digit. */
  function DaySpellings(d: nat): set<string> {
    if d < 10 then {Pad(d, 2), Pad(d, 1), " " + Pad(d, 1)} else {Pad(d, 2)}
  }

  /** `s` spells date `d` as `%Y-%m-%d`: the year in four digits, then a
      month and a day spelling, separated by '-', and nothing else. */
  ghost predicate Spells(s: string, d: Date) {
    && d.year >= 0 && d.month >= 0 && d.day >= 0
    && exists m, dd | m in MonthSpellings(d.month) && dd in DaySpellings(d.day) ::
         s == Pad(d.year, 4) + "-" + m + "-" + dd
  }

  /** The parser reads exactly the spellings of valid dates, and reads each
      as the date it spells. */
  lemma ParseDateMeaning(s: string, d: Date)
    ensures ParseDate(s) == Some(d) <==> ValidDate(d) && Spells(s, d)
  {
    if ParseDate(s) == Some(d) {
      ParsedIsSpelled(s);
    }
    if ValidDate(d) && Spells(s, d) {
      SpelledIsParsed(s, d);
    }
  }

  lemma ParsedIsSpelled(s: string)
    requires ParseDate(s).Some?
    ensures Spells(s, ParseDate(s).value)
  {
    var d := ParseDate(s).value;
    var rest := s[5..];
    var dash := if rest[1] == '-' then 1 else 2;
    var y, m, dd := s[..4], rest[..dash], rest[dash + 1..];
    DigitsPad(y);
    MonthFieldSpelled(m);
    DayFieldSpelled(dd);
    assert s == y + "-" + m + "-" + dd;
  }

  lemma SpelledIsParsed(s: string, d: Date)
    requires ValidDate(d) && Spells(s, d)
    ensures ParseDate(s) == Some(d)
  {
    var m, dd :| m in MonthSpellings(d.month) && dd in DaySpellings(d.day) &&
      s == Pad(d.year, 4) + "-" + m + "-" + dd;
    var y := Pad(d.year, 4);
    assert s[..4] == y && s[4] == '-';
    PadValue(d.year, 4);
    MonthSpellingRead(d.month, m);
    DaySpellingRead(d.day, dd);
    assert IsDigit(s[0]) && IsDigit(s[1]) && IsDigit(s[2]) && IsDigit(s[3]);
    assert DigitsValue(s[..4]) == d.year;
    var rest := s[5..];
    assert rest == m + "-" + dd;
    var dash := if rest[1] == '-' then 1 else if rest[2] == '-' then 2 else 0;
    assert dash == |m| by {
      if |m| == 2 {
        assert rest[1] == m[1] && IsDigit(m[1]);
      }
    }
    assert rest[..dash] == m && rest[dash + 1..] == dd;
  }

  /** A run of digits is the padded form of its own value. */
  lemma {:induction false} DigitsPad(t: string)
    requires forall i :: 0 <= i < |t| ==> IsDigit(t[i])
    ensures Pad(DigitsValue(t), |t|) == t
  {
    if |t| > 0 {
      var init := t[..|t| - 1];
      var a, b := DigitsValue(init), DigitValue(t[|t| - 1]);
      assert (a * 10 + b) / 10 == a && (a * 10 + b) % 10 == b;
      DigitsPad(init);
      assert t == init + [t[|t| - 1]];
    }
  }

  lemma MonthFieldSpelled(t: string)
    requires MonthField(t).Some?
    ensures t in MonthSpellings(MonthField(t).value)
  {
    var v := MonthField(t).value;
    if |t| == 1 {
      assert Pad(v, 1) == t;
    } else {
      assert Pad(v, 2) == [('0' as int + v / 10) as char, ('0' as int + v % 10) as char];
      assert Pad(v, 2) == t;
    }
  }

  lemma DayFieldSpelled(t: string)
    requires DayField(t).Some?
    ensures t in DaySpellings(DayField(t).value)
  {
    var v := DayField(t).value;
    if |t| == 1 {
      assert Pad(v, 1) == t;
    } else if t[0] == ' ' {
      assert " " + Pad(v, 1) == t;
    } else {
      assert Pad(v, 2) == [('0' as int + v / 10) as char, ('0' as int + v % 10) as char];
      assert Pad(v, 2) == t;
    }
  }

  lemma MonthSpellingRead(month: int, t: string)
    requires 1 <= month <= 12 && t in MonthSpellings(month)
    ensures 1 <= |t| <= 2 && IsDigit(t[0]) && MonthField(t) == Some(month)
  {
    assert Pad(month, 2) == [('0' as int + month / 10) as char, ('0' as int + month % 10) as char];
    if month < 10 {
      assert Pad(month, 1) == [('0' as int + month) as char];
    }
  }

  lemma DaySpellingRead(day: int, t: string)
    requires 1 <= day <= 31 && t in DaySpellings(day)
    ensures 1 <= |t| <= 2 && DayField(t) == Some(day)
  {
    assert Pad(day, 2) == [('0' as int + day / 10) as char, ('0' as int + day % 10) as char];
    if day < 10 {
      assert Pad(day, 1) == [('0' as int + day) as char];
    }
  }

  /** The step from one year to the next is that year's length. */
  lemma YearStep(y: int)
    requires y >= 1
    ensures DaysBeforeYear(y + 1) == DaysBeforeYear(y) + YearLength(y)
  {
    DivStep(y - 1);
  }

  /** Dividing `p + 1` instead of `p` by 4, 100 or 400 adds one exactly when
      `p + 1` is a multiple of the divisor. */
  lemma DivStep(p: int)
    requires p >= 0
    ensures (p + 1) / 4 == p / 4 + (if (p + 1) % 4 == 0 then 1 else 0)
    ensures (p + 1) / 100 == p / 100 + (if (p + 1) % 100 == 0 then 1 else 0)
    ensures (p + 1) / 400 == p / 400 + (if (p + 1) % 400 == 0 then 1 else 0)
  {
  }

  /** Each month starts where the previous one ends. */
  lemma MonthStep(y: int, m: int)
    requires 1 <= m <= 12
    ensures DaysBeforeMonth(y, m + 1) == DaysBeforeMonth(y, m) + DaysInMonth(y, m)
  {
  }

  /** A date's day of the year lies between 1 and the year's length. */
  lemma DayOfYearBounds(d: Date)
    requires ValidDate(d)
    ensures 1 <= DaysBeforeMonth(d.year, d.month) + d.day <= YearLength(d.year)
  {
    MonthStep(d.year, d.month);
    if d.month < 12 {
      MonthsBeforeGrow(d.year, d.month + 1, 13);
    }
  }

  /** Later months start later in the year, by at least the earlier month's length. */
  lemma {:induction false} MonthsBeforeGrow(y: int, m1: int, m2: int)
    requires 1 <= m1 < m2 <= 13
    ensures DaysBeforeMonth(y, m1) + DaysInMonth(y, m1) <= DaysBeforeMonth(y, m2)
    decreases m2 - m1
  {
    MonthStep(y, m1);
    if m2 > m1 + 1 {
      MonthsBeforeGrow(y, m1 + 1, m2);
    }
  }

  /** Later years start after the whole of every earlier year. */
  lemma {:induction false} YearsBeforeGrow(y1: int, y2: int)
    requires 1 <= y1 < y2
    ensures DaysBeforeYear(y1) + YearLength(y1) <= DaysBeforeYear(y2)
    decreases y2 - y1
  {
    YearStep(y1);
    if y2 > y1 + 1 {
      YearsBeforeGrow(y1 + 1, y2);
      YearStep(y2 - 1);
    }
  }

  /** Day numbers are strictly increasing in calendar order. */
  lemma DayNumberIncreasing(a: Date, b: Date)
    requires ValidDate(a) && ValidDate(b) && Before(a, b)
    ensures DayNumber(a) < DayNumber(b)
  {
    DayOfYearBounds(a);
    DayOfYearBounds(b);
    if a.year < b.year {
      YearsBeforeGrow(a.year, b.year);
    } else if a.month < b.month {
      MonthsBeforeGrow(a.year, a.month, b.month);
    }
  }

  /** Distinct dates have distinct day numbers. */
  lemma DayNumberInjective(a: Date, b: Date)
    requires ValidDate(a) && ValidDate(b)
    ensures DayNumber(a) == DayNumber(b) ==> a == b
  {
    if Before(a, b) {
      DayNumberIncreasing(a, b);
    } else if Before(b, a) {
      DayNumberIncreasing(b, a);
    }
  }

  /** The filter window of a date holds exactly the timestamps of that calendar day;
      the next midnight is outside it. */
  lemma WindowIsCalendarDay(d: Date, t: Timestamp)
    requires ValidDate(d)
    ensures Midnight(d) <= t < Midnight(d) + SecondsPerDay <==> CalendarDay(t) == DayNumber(d)
  {
    var n := DayNumber(d);
    assert Midnight(d) == 86400 * n;
  }

  /** A timestamp lies in the window of at most one date. */
  lemma WindowsDisjoint(a: Date, b: Date, t: Timestamp)
    requires ValidDate(a) && ValidDate(b)
    ensures Midnight(a) <= t < Midnight(a) + SecondsPerDay && Midnight(b) <= t < Midnight(b) + SecondsPerDay ==> a == b
  {
    WindowIsCalendarDay(a, t);
    WindowIsCalendarDay(b, t);
    DayNumberInjective(a, b);
  }

  /** Timestamps count days from 1970-01-01. */
  lemma EpochIsDayZero()
    ensures ValidDate(Date(1970, 1, 1)) && DayNumber(Date(1970, 1, 1)) == 0
  {
  }

  /** Spellings `strptime` accepts: padded or not, a space before a
      one-digit day, February 29 of a leap year. */
  lemma AcceptedSpellings()
    ensures ParseDate("2024-01-01") == Some(Date(2024, 1, 1))
    ensures ParseDate("2024-1-5") == Some(Date(2024, 1, 5))
    ensures ParseDate("2024-01- 5") == Some(Date(2024, 1, 5))
    ensures ParseDate("2024-02-29") == Some(Date(2024, 2, 29))
  {
    FourDigits("2024", 2024);
    assert "2024-01-01"[..4] == "2024" && "2024-01-01"[5..] == "01-01";
    assert "2024-1-5"[..4] == "2024" && "2024-1-5"[5..] == "1-5";
    assert "2024-01- 5"[..4] == "2024" && "2024-01- 5"[5..] == "01- 5";
    assert "2024-02-29"[..4] == "2024" && "2024-02-29"[5..] == "02-29";
  }

  /** Spellings that fail: days that do not exist, year 0, a month 13,
      trailing text. */
  lemma RefusedSpellings()
    ensures ParseDate("2023-02-29").None?
    ensures ParseDate("1900-02-29").None?
    ensures ParseDate("2024-01-32").None?
    ensures ParseDate("2024-13-01").None?
    ensures ParseDate("0000-01-01").None?
    ensures ParseDate("2024-01-01T00:00").None?
  {
    FourDigits("2023", 2023);
    FourDigits("1900", 1900);
    FourDigits("0000", 0);
    assert "2023-02-29"[..4] == "2023" && "2023-02-29"[5..] == "02-29";
    assert "1900-02-29"[..4] == "1900" && "1900-02-29"[5..] == "02-29";
    assert "2024-01-32"[5..] == "01-32";
    assert "2024-13-01"[5..] == "13-01";
    assert "0000-01-01"[..4] == "0000";
    assert "2024-01-01T00:00"[5..] == "01-01T00:00";
  }

  /** The window of 2024-01-01 ends at 2024-01-02 00:00, which it excludes;
      the last day `datetime` knows has no window at all. */
  lemma WindowExamples()
    ensures DayWindow("2024-01-01") == Some((1704067200, 1704153600))
    ensures DayWindow("9999-12-31").None?
  {
    AcceptedSpellings();
    FourDigits("9999", 9999);
    assert "9999-12-31"[..4] == "9999" && "9999-12-31"[5..] == "12-31";
  }

  lemma FourDigits(s: string, n: int)
    requires |s| == 4 && forall i :: 0 <= i < 4 ==> IsDigit(s[i])
    requires n == DigitValue(s[0]) * 1000 + DigitValue(s[1]) * 100 + DigitValue(s[2]) * 10 + DigitValue(s[3])
    ensures DigitsValue(s) == n
  {
    assert s[..3][..2] == s[..2] && s[..2][..1] == s[..1] && s[..1][..0] == [];
    assert DigitsValue(s[..1]) == DigitValue(s[0]);
    assert DigitsValue(s[..2]) == DigitsValue(s[..1]) * 10 + DigitValue(s[1]);
    assert DigitsValue(s[..3]) == DigitsValue(s[..2]) * 10 + DigitValue(s[2]);
    assert DigitsValue(s) == DigitsValue(s[..3]) * 10 + DigitValue(s[3]);
  }
}
