/**
 * The proleptic Gregorian calendar as ECMA-262 computes it (section 21.4.1): day numbers counted
 * from 1970-01-01, MakeDay with its rollover of out-of-range fields, and the inverse functions.
 * Months are counted from 0, days of a month from 1.
 */
module Calendar {

  // ---------------------------------------------------------------- the civil rules

  predicate IsLeap(y: int) {
    y % 4 == 0 && (y % 100 != 0 || y % 400 == 0)
  }

  function DaysInYear(y: int): int {
    if IsLeap(y) then 366 else 365
  }

  function DaysInMonth(y: int, m: int): int
    requires 0 <= m < 12
  {
    if m == 1 then (if IsLeap(y) then 29 else 28)
    else if m == 3 || m == 5 || m == 8 || m == 10 then 30
    else 31
  }

  datatype Date = Date(year: int, month: int, day: int)

  /** Whether the fields name a day of the calendar. */
  predicate IsDate(date: Date) {
    0 <= date.month < 12 && 1 <= date.day <= DaysInMonth(date.year, date.month)
  }

  // ---------------------------------------------------------------- day numbers

  /** DayFromYear of section 21.4.1.3: the day number of 1 January. */
  function DayFromYear(y: int): int {
    365 * (y - 1970) + Fours(y) - Hundreds(y) + FourHundreds(y)
  }

  /** Multiples of 4 before `y`, counted from 1970; the next two count those of 100 and of 400. */
  function Fours(y: int): int {
    (y - 1969) / 4
  }

  function Hundreds(y: int): int {
    (y - 1901) / 100
  }

  function FourHundreds(y: int): int {
    (y - 1601) / 400
  }

  /** The day within the year on which month `m` starts; the year itself has DaysIn(12) days. */
  function YearDay(y: int, m: int): int
    requires 0 <= m <= 12
    decreases m
  {
    if m == 0 then 0 else YearDay(y, m - 1) + DaysInMonth(y, m - 1)
  }

  /** MakeDay of section 21.4.1.28: months outside 0..11 move the year, days are just counted on. */
  function MakeDay(date: Date): int {
    var y, m := date.year + date.month / 12, date.month % 12;
    DayFromYear(y) + YearDay(y, m) + date.day - 1
  }

  /** The year that contains a day number: the largest one that has started by then. */
  function YearFromDay(n: int): (y: int)
    ensures DayFromYear(y) <= n < DayFromYear(y + 1)
  {
    var guess := 1970 + (if n >= 0 then n / 366 else n / 365);
    assert DayFromYear(guess) <= n;
    SearchYear(guess, n)
  }

  function SearchYear(y: int, n: int): (found: int)
    requires DayFromYear(y) <= n
    ensures DayFromYear(found) <= n < DayFromYear(found + 1)
    decreases n - DayFromYear(y)
  {
    YearLength(y);
    if n < DayFromYear(y + 1) then y else SearchYear(y + 1, n)
  }

  function SearchMonth(y: int, d: int, m: int): (found: int)
    requires 0 <= m < 12 && YearDay(y, m) <= d < YearDay(y, 12)
    ensures 0 <= found < 12 && YearDay(y, found) <= d < YearDay(y, found + 1)
    decreases 12 - m
  {
    if d < YearDay(y, m + 1) then m else SearchMonth(y, d, m + 1)
  }

  /** YearFromTime, MonthFromTime and DateFromTime, on day numbers. */
  function FromDay(n: int): (date: Date)
    ensures IsDate(date)
    ensures DayFromYear(date.year) <= n < DayFromYear(date.year + 1)
    ensures n == DayFromYear(date.year) + YearDay(date.year, date.month) + date.day - 1
  {
    var y := YearFromDay(n);
    var d := n - DayFromYear(y);
    YearLength(y);
    YearIsTwelveMonths(y);
    var m := SearchMonth(y, d, 0);
    Date(y, m, d - YearDay(y, m) + 1)
  }

  // ---------------------------------------------------------------- forward and inverse agree

  lemma YearLength(y: int)
    ensures DayFromYear(y + 1) == DayFromYear(y) + DaysInYear(y)
  {
    hide Fours, Hundreds, FourHundreds;
    EveryFour(y);
    EveryHundred(y);
    EveryFourHundred(y);
    if y % 400 == 0 {
      FourHundredsAreHundreds(y);
      HundredsAreFours(y);
    } else if y % 100 == 0 {
      HundredsAreFours(y);
    }
  }

  lemma EveryFour(y: int)
    ensures Fours(y + 1) == Fours(y) + if y % 4 == 0 then 1 else 0
  {
  }

  lemma EveryHundred(y: int)
    ensures Hundreds(y + 1) == Hundreds(y) + if y % 100 == 0 then 1 else 0
  {
  }

  lemma EveryFourHundred(y: int)
    ensures FourHundreds(y + 1) == FourHundreds(y) + if y % 400 == 0 then 1 else 0
  {
  }

  lemma HundredsAreFours(y: int)
    requires y % 100 == 0
    ensures y % 4 == 0
  {
    assert y == 4 * (25 * (y / 100));
  }

  lemma FourHundredsAreHundreds(y: int)
    requires y % 400 == 0
    ensures y % 100 == 0
  {
    assert y == 100 * (4 * (y / 400));
  }

  lemma {:induction false} YearIsTwelveMonths(y: int)
    ensures YearDay(y, 12) == DaysInYear(y)
  {
    assert YearDay(y, 2) == 31 + DaysInMonth(y, 1);
    assert YearDay(y, 4) == YearDay(y, 2) + 61;
    assert YearDay(y, 6) == YearDay(y, 4) + 61;
    assert YearDay(y, 8) == YearDay(y, 6) + 62;
    assert YearDay(y, 10) == YearDay(y, 8) + 61;
    assert YearDay(y, 12) == YearDay(y, 10) + 61;
  }

  lemma {:induction false} YearsInOrder(y: int, y': int)
    requires y < y'
    ensures DayFromYear(y + 1) <= DayFromYear(y')
    decreases y' - y
  {
    if y + 1 < y' {
      YearsInOrder(y + 1, y');
      YearLength(y + 1);
    }
  }

  lemma {:induction false} MonthsInOrder(y: int, m: int, m': int)
    requires 0 <= m < m' <= 12
    ensures YearDay(y, m + 1) <= YearDay(y, m')
    decreases m' - m
  {
    if m + 1 < m' {
      MonthsInOrder(y, m + 1, m');
    }
  }

  lemma YearIsUnique(n: int, y: int, y': int)
    requires DayFromYear(y) <= n < DayFromYear(y + 1)
    requires DayFromYear(y') <= n < DayFromYear(y' + 1)
    ensures y == y'
  {
    if y < y' {
      YearsInOrder(y, y');
    } else if y' < y {
      YearsInOrder(y', y);
    }
  }

  lemma {:induction false} MonthIsUnique(y: int, d: int, m: int, m': int)
    requires 0 <= m < 12 && YearDay(y, m) <= d < YearDay(y, m + 1)
    requires 0 <= m' < 12 && YearDay(y, m') <= d < YearDay(y, m' + 1)
    ensures m == m'
  {
    if m < m' {
      MonthsInOrder(y, m, m');
    } else if m' < m {
      MonthsInOrder(y, m', m);
    }
  }

  /** A real date lies inside its year. */
  lemma {:induction false} DateWithinYear(date: Date)
    requires IsDate(date)
    ensures MakeDay(date) == DayFromYear(date.year) + YearDay(date.year, date.month) + date.day - 1
    ensures DayFromYear(date.year) <= MakeDay(date) < DayFromYear(date.year + 1)
    ensures YearDay(date.year, date.month) <= MakeDay(date) - DayFromYear(date.year) < YearDay(date.year, date.month + 1)
  {
    hide DayFromYear;
    YearLength(date.year);
    YearIsTwelveMonths(date.year);
    YearDayNonNegative(date.year, date.month);
    if date.month < 11 {
      MonthsInOrder(date.year, date.month, 12);
    }
    assert date.month / 12 == 0 && date.month % 12 == date.month;
  }

  /** Within a year, the day number determines month and day. */
  lemma {:induction false} SameYearSameDate(a: Date, b: Date)
    requires IsDate(a) && IsDate(b) && a.year == b.year
    requires YearDay(a.year, a.month) + a.day == YearDay(b.year, b.month) + b.day
    ensures a == b
  {
    MonthIsUnique(a.year, YearDay(a.year, a.month) + a.day - 1, a.month, b.month);
  }

  /** A calendar day has one date. */
  lemma {:induction false} InverseOnDates(date: Date)
    requires IsDate(date)
    ensures FromDay(MakeDay(date)) == date
  {
    hide *;
    DateWithinYear(date);
    var found := FromDay(MakeDay(date));
    YearIsUnique(MakeDay(date), date.year, found.year);
    SameYearSameDate(date, found);
  }

  lemma {:induction false} YearDayNonNegative(y: int, m: int)
    requires 0 <= m <= 12
    ensures YearDay(y, m) >= 0
    decreases m
  {
    if m > 0 {
      YearDayNonNegative(y, m - 1);
    }
  }

  /** MakeDay and its inverse meet on every day number. */
  lemma {:induction false} ForwardOfInverse(n: int)
    ensures MakeDay(FromDay(n)) == n
  {
    hide DayFromYear, YearDay, DaysInMonth, FromDay;
    MonthStays(FromDay(n).month);
  }

  lemma MonthStays(m: int)
    requires 0 <= m < 12
    ensures m / 12 == 0 && m % 12 == m
  {
  }

  /**
   * Fields survive the round trip through MakeDay exactly when they name a real date: everything
   * else, such as 31 February, rolls over into other fields.
   */
  lemma {:induction false} SurvivesExactlyDates(date: Date)
    ensures FromDay(MakeDay(date)) == date <==> IsDate(date)
  {
    if IsDate(date) {
      InverseOnDates(date);
    }
  }

  // ---------------------------------------------------------------- against the standard's tables

  /** The day within a common year on which each month starts, and the length of the year. */
  const MONTH_STARTS: seq<int> := [0, 31, 59, 90, 120, 151, 181, 212, 243, 273, 304, 334, 365]

  /** Months start where the table of section 21.4.1.11 says, one day later after a leap day. */
  lemma MonthsStartAsListed(y: int, m: int)
    requires 0 <= m <= 12
    ensures YearDay(y, m) == MONTH_STARTS[m] + if m >= 2 && IsLeap(y) then 1 else 0
  {
    hide IsLeap, MONTH_STARTS;
    FirstMonths(y);
    LastMonths(y);
    ListedStarts();
  }

  lemma ListedStarts()
    ensures MONTH_STARTS[..7] == [0, 31, 59, 90, 120, 151, 181] && MONTH_STARTS[7..] == [212, 243, 273, 304, 334, 365]
    ensures |MONTH_STARTS| == 13 && MONTH_STARTS[0] == 0 && MONTH_STARTS[1] == 31 && MONTH_STARTS[2] == 59
    ensures MONTH_STARTS[3] == 90 && MONTH_STARTS[4] == 120 && MONTH_STARTS[5] == 151 && MONTH_STARTS[6] == 181
    ensures MONTH_STARTS[7] == 212 && MONTH_STARTS[8] == 243 && MONTH_STARTS[9] == 273 && MONTH_STARTS[10] == 304
    ensures MONTH_STARTS[11] == 334 && MONTH_STARTS[12] == 365
  {
  }

  lemma FirstMonths(y: int)
    ensures YearDay(y, 0) == 0 && YearDay(y, 1) == 31
    ensures var leap := if IsLeap(y) then 1 else 0;
            && YearDay(y, 2) == 59 + leap && YearDay(y, 3) == 90 + leap && YearDay(y, 4) == 120 + leap
            && YearDay(y, 5) == 151 + leap && YearDay(y, 6) == 181 + leap
  {
    hide IsLeap;
    assert YearDay(y, 1) == 31;
    assert YearDay(y, 3) == YearDay(y, 2) + 31;
  }

  lemma LastMonths(y: int)
    ensures var leap := if IsLeap(y) then 1 else 0;
            && YearDay(y, 7) == 212 + leap && YearDay(y, 8) == 243 + leap && YearDay(y, 9) == 273 + leap
            && YearDay(y, 10) == 304 + leap && YearDay(y, 11) == 334 + leap && YearDay(y, 12) == 365 + leap
  {
    hide IsLeap;
    FirstMonths(y);
    assert YearDay(y, 8) == YearDay(y, 7) + 31;
    assert YearDay(y, 10) == YearDay(y, 9) + 31;
  }

  /** Every fourth year has 366 days, but of the years that end a century only every fourth. */
  lemma LeapYears(y: int)
    ensures DayFromYear(y + 1) - DayFromYear(y) ==
            (if y % 400 == 0 then 366 else if y % 100 == 0 then 365 else if y % 4 == 0 then 366 else 365)
  {
    YearLength(y);
    hide DayFromYear;
    if y % 400 == 0 {
      FourHundredsAreHundreds(y);
      HundredsAreFours(y);
    } else if y % 100 == 0 {
      HundredsAreFours(y);
    }
  }

  /** Days are counted from the first day of 1970. */
  lemma Epoch()
    ensures MakeDay(Date(1970, 0, 1)) == 0
  {
  }
}
