/** How often a recurring rule repeats: a constant (amount, unit) step per frequency. */
module Frequency {
  import opened Dates

  datatype ChronoUnit = DAYS | MONTHS | YEARS

  datatype RecurringFrequency = DAILY | WEEKLY | BIWEEKLY | MONTHLY | QUARTERLY | YEARLY {

    /** The step's amount. */
    function Amount(): nat
    {
      match this
      case DAILY => 1
      case WEEKLY => 7
      case BIWEEKLY => 14
      case MONTHLY => 1
      case QUARTERLY => 3
      case YEARLY => 1
    }

    /** The step's unit. */
    function Unit(): ChronoUnit
    {
      match this
      case DAILY => DAYS
      case WEEKLY => DAYS
      case BIWEEKLY => DAYS
      case MONTHLY => MONTHS
      case QUARTERLY => MONTHS
      case YEARLY => YEARS
    }
  }

  /** `currentDate.plus(amount, unit)`. */
  function Plus(d: Date, amount: nat, unit: ChronoUnit): (r: Date)
    requires Valid(d)
    ensures Valid(r)
  {
    match unit
    case DAYS => PlusDays(d, amount)
    case MONTHS => PlusMonths(d, amount)
    case YEARS => PlusYears(d, amount)
  }

  /** `getNextDate`: the next occurrence after `d`. */
  function NextDate(f: RecurringFrequency, d: Date): (r: Date)
    requires Valid(d)
    ensures Valid(r)
  {
    Plus(d, f.Amount(), f.Unit())
  }

  /** Every frequency's step is positive. */
  lemma AmountPositive(f: RecurringFrequency)
    ensures f.Amount() >= 1
  {
  }

  /** The next occurrence is strictly after the date it is computed from. */
  lemma NextDateAfter(f: RecurringFrequency, d: Date)
    requires Valid(d)
    ensures Before(d, NextDate(f, d))
  {
    match f.Unit()
    case DAYS => PlusDaysAfter(d, f.Amount());
    case MONTHS => PlusMonthsAfter(d, f.Amount());
    case YEARS => PlusYearsAfter(d, f.Amount());
  }

  /** DAILY, WEEKLY and BIWEEKLY advance by 1, 7 and 14 calendar days. */
  lemma DayFrequencies(d: Date)
    requires Valid(d)
    ensures NextDate(DAILY, d) == PlusDays(d, 1)
    ensures NextDate(WEEKLY, d) == PlusDays(d, 7)
    ensures NextDate(BIWEEKLY, d) == PlusDays(d, 14)
  {
  }

  /** MONTHLY, QUARTERLY and YEARLY advance by 1 month, 3 months and 1 year. */
  lemma MonthFrequencies(d: Date)
    requires Valid(d)
    ensures NextDate(MONTHLY, d) == PlusMonths(d, 1)
    ensures NextDate(QUARTERLY, d) == PlusMonths(d, 3)
    ensures NextDate(YEARLY, d) == PlusYears(d, 1)
    ensures MonthIndex(NextDate(MONTHLY, d)) == MonthIndex(d) + 1
    ensures MonthIndex(NextDate(QUARTERLY, d)) == MonthIndex(d) + 3
    ensures MonthIndex(NextDate(YEARLY, d)) == MonthIndex(d) + 12
  {
    PlusMonthsIndex(d, 1);
    PlusMonthsIndex(d, 3);
    PlusYearsIsTwelveMonths(d);
    PlusMonthsIndex(d, 12);
  }

  /** The documented example: MONTHLY from 2024-01-15 gives 2024-02-15. */
  lemma MonthlyExample()
    ensures NextDate(MONTHLY, Date(2024, 1, 15)) == Date(2024, 2, 15)
  {
  }

  /** Month steps clamp: MONTHLY from 2024-01-31 gives 2024-02-29 (a leap year). */
  lemma MonthlyClampExample()
    ensures NextDate(MONTHLY, Date(2024, 1, 31)) == Date(2024, 2, 29)
    ensures NextDate(MONTHLY, Date(2023, 1, 31)) == Date(2023, 2, 28)
  {
  }

  /** Year steps clamp: YEARLY from 2024-02-29 gives 2025-02-28. */
  lemma YearlyClampExample()
    ensures NextDate(YEARLY, Date(2024, 2, 29)) == Date(2025, 2, 28)
  {
  }

  /** Day steps roll over month and year ends: DAILY from 2023-12-31 gives 2024-01-01. */
  lemma DailyRolloverExample()
    ensures NextDate(DAILY, Date(2023, 12, 31)) == Date(2024, 1, 1)
  {
  }
}
