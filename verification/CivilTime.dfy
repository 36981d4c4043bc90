// UTC date and time fields and their instants in milliseconds since 1970, as Date.prototype.toISOString
// (ECMA-262, "Time Values and Time Range") and Luxon's DateTime.utc relate them.  Years count from the proleptic
// Gregorian calendar and may be negative; there are no leap seconds.  Every instant has fields that are valid, only
// one such tuple, and the order of instants is the order of the fields.
module CivilTime {

  datatype Fields = Fields(year: int, month: int, day: int, hour: int, minute: int, second: int, millisecond: int)

  predicate IsLeap(year: int) {
    year % 4 == 0 && (year % 100 != 0 || year % 400 == 0)
  }

  function DaysInMonth(year: int, month: int): nat {
    if month == 2 then (if IsLeap(year) then 29 else 28)
    else if month == 4 || month == 6 || month == 9 || month == 11 then 30
    else 31
  }

  // The day number, counted from 1 January 1970, on which a year starts.
  function DayFromYear(year: int): int {
    365 * (year - 1970) + (year - 1969) / 4 - (year - 1901) / 100 + (year - 1601) / 400
  }

  // Days of the year before the first of a month; month 13 gives the length of the year.
  function DaysBeforeMonth(year: int, month: int): nat
    requires 1 <= month <= 13
    decreases month
  {
    if month == 1 then 0 else DaysBeforeMonth(year, month - 1) + DaysInMonth(year, month - 1)
  }

  function DayNumber(f: Fields): int
    requires 1 <= f.month <= 12
  {
    DayFromYear(f.year) + DaysBeforeMonth(f.year, f.month) + f.day - 1
  }

  function MsOfDay(f: Fields): int {
    ((f.hour * 60 + f.minute) * 60 + f.second) * 1000 + f.millisecond
  }

  const MS_PER_DAY := 86_400_000

  predicate ValidDate(f: Fields) {
    1 <= f.month <= 12 && 1 <= f.day <= DaysInMonth(f.year, f.month)
  }

  predicate ValidClock(f: Fields) {
    0 <= f.hour < 24 && 0 <= f.minute < 60 && 0 <= f.second < 60 && 0 <= f.millisecond < 1000
  }

  predicate Valid(f: Fields) {
    ValidDate(f) && ValidClock(f)
  }

  function Instant(f: Fields): int
    requires 1 <= f.month <= 12
  {
    DayNumber(f) * MS_PER_DAY + MsOfDay(f)
  }

  lemma MonthsOfYear(year: int)
    ensures DaysBeforeMonth(year, 13) == if IsLeap(year) then 366 else 365
  {
    hide IsLeap;
    assert DaysBeforeMonth(year, 4) == 90 + if IsLeap(year) then 1 else 0;
    assert DaysBeforeMonth(year, 7) == DaysBeforeMonth(year, 4) + 91;
    assert DaysBeforeMonth(year, 10) == DaysBeforeMonth(year, 7) + 92;
    assert DaysBeforeMonth(year, 13) == DaysBeforeMonth(year, 10) + 92;
  }

  // Every fourth year, counted from one before a multiple of four; likewise for 100 and 400.
  lemma FourthYears(year: int)
    ensures (year - 1968) / 4 - (year - 1969) / 4 == if year % 4 == 0 then 1 else 0
  {
  }

  lemma HundredthYears(year: int)
    ensures (year - 1900) / 100 - (year - 1901) / 100 == if year % 100 == 0 then 1 else 0
  {
  }

  lemma FourHundredthYears(year: int)
    ensures (year - 1600) / 400 - (year - 1601) / 400 == if year % 400 == 0 then 1 else 0
  {
  }

  lemma Divisible(year: int)
    ensures year % 400 == 0 ==> year % 100 == 0
    ensures year % 100 == 0 ==> year % 4 == 0
  {
  }

  lemma YearLength(year: int)
    ensures DayFromYear(year + 1) == DayFromYear(year) + DaysBeforeMonth(year, 13)
    ensures DaysBeforeMonth(year, 13) >= 365
  {
    MonthsOfYear(year);
    FourthYears(year);
    HundredthYears(year);
    FourHundredthYears(year);
    Divisible(year);
    hide DaysBeforeMonth;
  }

  lemma {:induction false} MonthsGrow(year: int, m: int, n: int)
    requires 1 <= m < n <= 13
    ensures DaysBeforeMonth(year, m) + DaysInMonth(year, m) <= DaysBeforeMonth(year, n)
    decreases n
  {
    if m < n - 1 {
      MonthsGrow(year, m, n - 1);
    }
  }

  lemma {:induction false} YearsGrow(x: int, y: int)
    requires x < y
    ensures DayFromYear(x + 1) <= DayFromYear(y)
    decreases y - x
  {
    if x + 1 < y {
      YearsGrow(x, y - 1);
      YearLength(y - 1);
    }
  }

  // ----- from an instant to its fields -----

  function YearUp(day: int, year: int): (y: int)
    requires DayFromYear(year) <= day
    ensures DayFromYear(y) <= day < DayFromYear(y + 1)
    decreases day - DayFromYear(year)
  {
    YearLength(year);
    hide DayFromYear;
    if day < DayFromYear(year + 1) then year else YearUp(day, year + 1)
  }

  function YearDown(day: int, year: int): (y: int)
    requires day < DayFromYear(year + 1)
    ensures DayFromYear(y) <= day < DayFromYear(y + 1)
    decreases DayFromYear(year + 1) - day
  {
    YearLength(year);
    hide DayFromYear;
    if DayFromYear(year) <= day then year else YearDown(day, year - 1)
  }

  function YearOf(day: int): (y: int)
    ensures DayFromYear(y) <= day < DayFromYear(y + 1)
  {
    if day >= 0 then YearUp(day, 1970) else YearDown(day, 1969)
  }

  function MonthFrom(year: int, dayOfYear: nat, month: int): (m: int)
    requires 1 <= month <= 12 && DaysBeforeMonth(year, month) <= dayOfYear < DaysBeforeMonth(year, 13)
    ensures 1 <= m <= 12 && DaysBeforeMonth(year, m) <= dayOfYear < DaysBeforeMonth(year, m + 1)
    decreases 12 - month
  {
    if month == 12 || dayOfYear < DaysBeforeMonth(year, month + 1) then month else MonthFrom(year, dayOfYear, month + 1)
  }

  function FieldsOf(instant: int): Fields {
    var day, ms := instant / MS_PER_DAY, instant % MS_PER_DAY;
    var year := YearOf(day);
    YearLength(year);
    hide DayFromYear, DaysBeforeMonth;
    assert DaysBeforeMonth(year, 1) == 0 by { FirstMonth(year); }
    var dayOfYear := day - DayFromYear(year);
    var month := MonthFrom(year, dayOfYear, 1);
    Fields(year, month, dayOfYear - DaysBeforeMonth(year, month) + 1,
           ms / 3_600_000, ms / 60_000 % 60, ms / 1000 % 60, ms % 1000)
  }

  lemma FirstMonth(year: int)
    ensures DaysBeforeMonth(year, 1) == 0
  {
  }

  lemma NextMonth(year: int, month: int)
    requires 1 <= month <= 12
    ensures DaysBeforeMonth(year, month + 1) == DaysBeforeMonth(year, month) + DaysInMonth(year, month)
  {
  }

  lemma FieldsOfInstant(instant: int)
    ensures var f := FieldsOf(instant); Valid(f) && Instant(f) == instant
  {
    hide DayFromYear, DaysBeforeMonth, DaysInMonth;
    var f := FieldsOf(instant);
    ClockOfDay(instant % MS_PER_DAY);
    YearLength(f.year);
    FirstMonth(f.year);
    NextMonth(f.year, f.month);
  }

  lemma ClockOfDay(ms: nat)
    requires ms < MS_PER_DAY
    ensures ms / 3_600_000 < 24
    ensures ((ms / 3_600_000 * 60 + ms / 60_000 % 60) * 60 + ms / 1000 % 60) * 1000 + ms % 1000 == ms
  {
    var seconds := ms / 1000;
    var minutes := seconds / 60;
    assert ms / 60_000 == minutes && ms / 3_600_000 == minutes / 60;
  }

  // ----- the order of fields is the order of instants -----

  predicate DateBefore(f: Fields, g: Fields) {
    f.year < g.year || (f.year == g.year && (f.month < g.month || (f.month == g.month && f.day < g.day)))
  }

  predicate SameDate(f: Fields, g: Fields) {
    f.year == g.year && f.month == g.month && f.day == g.day
  }

  lemma DatesInOrder(f: Fields, g: Fields)
    requires ValidDate(f) && ValidDate(g) && DateBefore(f, g)
    ensures DayNumber(f) < DayNumber(g)
  {
    hide DayFromYear, DaysInMonth;
    YearLength(f.year);
    MonthsGrow(f.year, f.month, 13);
    if f.year < g.year {
      YearsGrow(f.year, g.year);
    } else if f.month < g.month {
      MonthsGrow(f.year, f.month, g.month);
    }
  }

  lemma ClockIsBounded(f: Fields)
    requires ValidClock(f)
    ensures 0 <= MsOfDay(f) < MS_PER_DAY
  {
  }

  lemma EarlierFields(f: Fields, g: Fields)
    requires Valid(f) && Valid(g) && Instant(f) < Instant(g)
    ensures DateBefore(f, g) || (SameDate(f, g) && MsOfDay(f) < MsOfDay(g))
  {
    hide DayNumber, MsOfDay;
    ClockIsBounded(f);
    ClockIsBounded(g);
    if DateBefore(g, f) {
      DatesInOrder(g, f);
    } else if SameDate(f, g) {
      SameDay(f, g);
    }
  }

  lemma SameDay(f: Fields, g: Fields)
    requires SameDate(f, g) && 1 <= f.month <= 12
    ensures DayNumber(f) == DayNumber(g)
  {
  }

  // Fields are determined by their instant.
  lemma FieldsAreUnique(f: Fields)
    requires Valid(f)
    ensures FieldsOf(Instant(f)) == f
  {
    hide FieldsOf, Instant, DaysInMonth;
    var g := FieldsOf(Instant(f));
    FieldsOfInstant(Instant(f));
    SameInstant(f, g);
  }

  lemma SameInstant(f: Fields, g: Fields)
    requires Valid(f) && Valid(g) && Instant(f) == Instant(g)
    ensures f == g
  {
    hide DayNumber, DaysInMonth;
    ClockIsBounded(f);
    ClockIsBounded(g);
    if DateBefore(f, g) {
      DatesInOrder(f, g);
    } else if DateBefore(g, f) {
      DatesInOrder(g, f);
    } else {
      SameDay(f, g);
      SameClock(f, g);
    }
  }

  lemma SameClock(f: Fields, g: Fields)
    requires ValidClock(f) && ValidClock(g) && MsOfDay(f) == MsOfDay(g)
    ensures f.hour == g.hour && f.minute == g.minute && f.second == g.second && f.millisecond == g.millisecond
  {
  }
}
