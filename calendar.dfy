/** What `time.Parse("2006-01-02", s)` decides about a string already shaped `dddd-dd-dd`:
    the proleptic Gregorian calendar with Go's leap-year rule and month table. */
module Calendar {
  import opened Values
  import opened Text
  import opened Patterns

  datatype Date = Date(year: int, month: int, day: int)

  /** Go's `isLeap`. */
  predicate IsLeap(year: int) {
    year % 4 == 0 && (year % 100 != 0 || year % 400 == 0)
  }

  /** Go's `daysBefore` table: days of a common year before the start of each month. */
  const DaysBefore: seq<int> := [0, 31, 59, 90, 120, 151, 181, 212, 243, 273, 304, 334, 365]

  /** Go's `daysIn`. */
  function DaysIn(month: int, year: int): int
    requires 1 <= month <= 12
  {
    if month == 2 && IsLeap(year) then 29 else DaysBefore[month] - DaysBefore[month - 1]
  }

  /** Days in a month by the usual rhyme: thirty days have September, April, June and November;
      February has 28, 29 in a leap year; all the rest have 31. */
  function MonthLength(month: int, year: int): (n: int)
    requires 1 <= month <= 12
    ensures 28 <= n <= 31
  {
    if month == 2 then (if IsLeap(year) then 29 else 28)
    else if month == 4 || month == 6 || month == 9 || month == 11 then 30
    else 31
  }

  /** Go's cumulative table gives every month its calendar length. */
  lemma DaysInIsMonthLength(month: int, year: int)
    requires 1 <= month <= 12
    ensures DaysIn(month, year) == MonthLength(month, year)
  {
  }

  predicate IsCalendarDate(year: int, month: int, day: int) {
    1 <= month <= 12 && 1 <= day <= MonthLength(month, year)
  }

  /** The number two digit characters at s[i], s[i+1] denote (Go's `getnum` for a fixed-width field). */
  function TwoDigits(s: string, i: nat): (n: nat)
    requires i + 2 <= |s| && IsDigit(s[i]) && IsDigit(s[i + 1])
    ensures n <= 99
  {
    10 * DigitValue(s[i]) + DigitValue(s[i + 1])
  }

  /** The year field: four digits, 0000 through 9999. */
  function YearField(s: string): (y: nat)
    requires MatchesDateShape(s)
    ensures y <= 9999
  {
    100 * TwoDigits(s, 0) + TwoDigits(s, 2)
  }

  function MonthField(s: string): nat requires MatchesDateShape(s) { TwoDigits(s, 5) }
  function DayField(s: string): nat requires MatchesDateShape(s) { TwoDigits(s, 8) }

  /** `time.Parse` with layout "2006-01-02" on a string of that shape: the four year digits are
      taken as they are (0000 included), the two-digit month must lie in 1..12, and the two-digit
      day between 1 and the length of that month; None is the parse error. */
  function ParseDate(s: string): (r: Option<Date>)
    requires MatchesDateShape(s)
    ensures r.Some? ==> 1 <= r.value.month <= 12 && 1 <= r.value.day <= 31
  {
    var year := YearField(s);
    var month := MonthField(s);
    var day := DayField(s);
    if month < 1 || 12 < month then None
    else if day < 1 || day > DaysIn(month, year) then None
    else Some(Date(year, month, day))
  }

  /** The parse succeeds exactly on real calendar dates, and then returns the fields' values. */
  lemma ParseDateIsCalendar(s: string)
    requires MatchesDateShape(s)
    ensures ParseDate(s).Some? <==> IsCalendarDate(YearField(s), MonthField(s), DayField(s))
    ensures ParseDate(s).Some? ==> ParseDate(s).value == Date(YearField(s), MonthField(s), DayField(s))
  {
    if 1 <= MonthField(s) <= 12 {
      DaysInIsMonthLength(MonthField(s), YearField(s));
    }
  }

  /** The year field is zero exactly when its four digits are "0000". */
  lemma YearZeroIffZeros(s: string)
    requires MatchesDateShape(s)
    ensures YearField(s) == 0 <==> s[..4] == "0000"
  {
    if YearField(s) == 0 {
      assert s[..4] == [s[0], s[1], s[2], s[3]];
    }
  }
}
