/** The start of the current billing period: a monthly reset day, where a month
    too short for it resets on the first day of the next month. */
module ResetDate {

  datatype Date = Date(year: int, month: int, day: int)
  {
    predicate Valid() {
      1 <= month <= 12 && 1 <= day <= DaysInMonth(year, month)
    }

    /** Calendar order, as the tuples compare. */
    predicate Leq(that: Date) {
      || year < that.year
      || (year == that.year && (month < that.month || (month == that.month && day <= that.day)))
    }
  }

  predicate IsLeapYear(year: int) {
    (year % 4 == 0 && year % 100 != 0) || year % 400 == 0
  }

  function DaysInMonth(year: int, month: int): (n: int)
    ensures 28 <= n <= 31
  {
    if month == 4 || month == 6 || month == 9 || month == 11 then 30
    else if month == 2 then (if IsLeapYear(year) then 29 else 28)
    else 31
  }

  /** When the period of a month starts. */
  function ActualResetDate(year: int, month: int, resetDay: int): Date {
    if resetDay <= DaysInMonth(year, month) then Date(year, month, resetDay)
    else if month == 12 then Date(year + 1, 1, 1)
    else Date(year, month + 1, 1)
  }

  function ResetDateOf(resetDay: int, today: Date): Date {
    if !(1 <= resetDay <= 31) then today
    else
      var current := ActualResetDate(today.year, today.month, resetDay);
      if current.Leq(today) then current
      else if today.month == 1 then ActualResetDate(today.year - 1, 12, resetDay)
      else ActualResetDate(today.year, today.month - 1, resetDay)
  }

  /** The result is a reset date, not after today, and no reset date of any month
      lies between it and today. */
  lemma ResetIsLatest(resetDay: int, today: Date, year: int, month: int)
    requires today.Valid() && 1 <= resetDay <= 31 && 1 <= month <= 12
    ensures ResetDateOf(resetDay, today).Valid() && ResetDateOf(resetDay, today).Leq(today)
    ensures ActualResetDate(year, month, resetDay).Leq(today) ==> ActualResetDate(year, month, resetDay).Leq(ResetDateOf(resetDay, today))
  {
  }

  lemma ResetIsSomeReset(resetDay: int, today: Date)
    requires today.Valid() && 1 <= resetDay <= 31
    ensures exists year, month | 1 <= month <= 12 :: ActualResetDate(year, month, resetDay) == ResetDateOf(resetDay, today)
  {
    var (y, m) := if today.month == 1 then (today.year - 1, 12) else (today.year, today.month - 1);
    assert ResetDateOf(resetDay, today) == ActualResetDate(today.year, today.month, resetDay)
        || ResetDateOf(resetDay, today) == ActualResetDate(y, m, resetDay);
  }

  /** The reset of a reset date is itself. */
  lemma ResetIsIdempotent(resetDay: int, today: Date)
    requires today.Valid() && 1 <= resetDay <= 31
    ensures ResetDateOf(resetDay, ResetDateOf(resetDay, today)) == ResetDateOf(resetDay, today)
  {
  }

  /** A later day never has an earlier reset. */
  lemma ResetIsMonotone(resetDay: int, a: Date, b: Date)
    requires a.Valid() && b.Valid() && a.Leq(b) && 1 <= resetDay <= 31
    ensures ResetDateOf(resetDay, a).Leq(ResetDateOf(resetDay, b))
  {
  }

  // ---- Day numbers ----

  /** Days before a year, counted from year 1 in the proleptic calendar. */
  function DaysBeforeYear(year: int): int {
    365 * (year - 1) + (year - 1) / 4 - (year - 1) / 100 + (year - 1) / 400
  }

  function DaysBeforeMonth(year: int, month: int): int
    requires 1 <= month <= 12
    decreases month
  {
    if month == 1 then 0 else DaysBeforeMonth(year, month - 1) + DaysInMonth(year, month - 1)
  }

  function DayNumber(date: Date): int
    requires 1 <= date.month <= 12
  {
    DaysBeforeYear(date.year) + DaysBeforeMonth(date.year, date.month) + date.day
  }

  lemma QuotientSteps(year: int)
    ensures year / 4 - (year - 1) / 4 == if year % 4 == 0 then 1 else 0
    ensures year / 100 - (year - 1) / 100 == if year % 100 == 0 then 1 else 0
    ensures year / 400 - (year - 1) / 400 == if year % 400 == 0 then 1 else 0
  {
  }

  lemma LeapMultiples(year: int)
    ensures year % 400 == 0 ==> year % 100 == 0
    ensures year % 100 == 0 ==> year % 4 == 0
  {
  }

  lemma YearLength(year: int)
    ensures DaysBeforeYear(year + 1) - DaysBeforeYear(year) == if IsLeapYear(year) then 366 else 365
  {
    QuotientSteps(year);
    LeapMultiples(year);
  }

  lemma YearOfMonths(year: int)
    ensures DaysBeforeMonth(year, 12) + 31 == if IsLeapYear(year) then 366 else 365
  {
  }

  /** The first of the next month comes a month's length after the first. */
  lemma NextMonth(year: int, month: int)
    requires 1 <= month <= 12
    ensures DayNumber(if month == 12 then Date(year + 1, 1, 1) else Date(year, month + 1, 1))
         == DayNumber(Date(year, month, 1)) + DaysInMonth(year, month)
  {
    if month == 12 {
      YearLength(year);
      YearOfMonths(year);
    }
  }

  /** The month lengths add up to the days of the Gregorian calendar. */
  lemma MonthsAddUp(year: int, month: int)
    requires 1 <= month <= 12
    ensures DaysBeforeMonth(year, month)
         == (367 * month - 362) / 12 - (if month <= 2 then 0 else if IsLeapYear(year) then 1 else 2)
  {
    hide IsLeapYear;
    if month > 1 {
      MonthsAddUp(year, month - 1);
    }
  }

  /** The period of a month starts on the reset day, or right behind the month when it
      is too short. */
  lemma ResetOfMonth(year: int, month: int, resetDay: int)
    requires 1 <= month <= 12 && 1 <= resetDay <= 31
    ensures var reset, length := ActualResetDate(year, month, resetDay), DaysInMonth(year, month);
            && reset.Valid()
            && DayNumber(reset) == DayNumber(Date(year, month, 1)) + (if resetDay - 1 < length then resetDay - 1 else length)
  {
    hide DayNumber;
    NextMonth(year, month);
    DayWithinMonth(Date(year, month, resetDay));
  }

  /** A period that started is at most thirty days old. */
  lemma ResetIsRecent(resetDay: int, today: Date)
    requires today.Valid() && 1 <= resetDay <= 31
    ensures ResetDateOf(resetDay, today).Valid()
    ensures 0 <= DayNumber(today) - DayNumber(ResetDateOf(resetDay, today)) <= 30
  {
    hide DayNumber, DaysInMonth;
    var (y, m) := if today.month == 1 then (today.year - 1, 12) else (today.year, today.month - 1);
    ResetIsLatest(resetDay, today, today.year, today.month);
    NextMonth(y, m);
    DayWithinMonth(today);
    DayWithinMonth(ResetDateOf(resetDay, today));
  }

  lemma DayWithinMonth(date: Date)
    requires 1 <= date.month <= 12
    ensures DayNumber(date) == DayNumber(Date(date.year, date.month, 1)) + date.day - 1
  {
  }
}
