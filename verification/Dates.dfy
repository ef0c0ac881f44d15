/** Calendar dates and the yearly occurrence of an anchor day. */
module Dates {
  import opened Situations

  datatype Date = Date(year: nat, month: nat, day: nat)

  const LAST_YEAR: nat := 9999

  predicate Leap(year: nat)
  {
    year % 4 == 0 && (year % 100 != 0 || year % 400 == 0)
  }

  function DaysInMonth(year: nat, month: nat): nat
  {
    if month == 2 then (if Leap(year) then 29 else 28)
    else if month == 4 || month == 6 || month == 9 || month == 11 then 30
    else 31
  }

  predicate Valid(d: Date)
  {
    1 <= d.year <= LAST_YEAR && 1 <= d.month <= 12 && 1 <= d.day <= DaysInMonth(d.year, d.month)
  }

  predicate NotAfter(a: Date, b: Date)
  {
    if a.year != b.year then a.year < b.year
    else if a.month != b.month then a.month < b.month
    else a.day <= b.day
  }

  // -------------------------------------------------------------- occurrences

  /** An anchor is a day that exists in a leap year. */
  predicate Anchor(month: nat, day: nat)
  {
    1 <= month <= 12 && 1 <= day <= DaysInMonth(2024, month)
  }

  /** The day an anchor falls on in one year; no date exists past the last year. */
  function OccurrenceIn(year: nat, month: nat, day: nat): Option<Date>
  {
    if year < 1 || year > LAST_YEAR then None
    else if month == 2 && day == 29 && !Leap(year) then Some(Date(year, 2, 28))
    else Some(Date(year, month, day))
  }

  function NextOccurrence(today: Date, month: nat, day: nat): Option<Date>
  {
    var here := OccurrenceIn(today.year, month, day);
    if here.Some? && NotAfter(today, here.value) then here
    else OccurrenceIn(today.year + 1, month, day)
  }

  // --------------------------------------------------------------- day numbers

  function DaysInYear(year: nat): nat { if Leap(year) then 366 else 365 }

  function DaysBeforeMonth(year: nat, month: nat): nat
  {
    if month <= 1 then 0 else DaysBeforeMonth(year, month - 1) + DaysInMonth(year, month - 1)
  }

  function DayOfYear(d: Date): nat { DaysBeforeMonth(d.year, d.month) + d.day }

  function DaysBeforeYear(year: nat): nat
  {
    if year <= 1 then 0 else DaysBeforeYear(year - 1) + DaysInYear(year - 1)
  }

  /** Days since the day before 1 January of year 1. */
  function Ordinal(d: Date): nat { DaysBeforeYear(d.year) + DayOfYear(d) }

  /** Days before each month of a common year; the last entry is the whole year. */
  const MONTH_STARTS: seq<nat> := [0, 31, 59, 90, 120, 151, 181, 212, 243, 273, 304, 334, 365]

  lemma MonthStarts(year: nat, month: nat)
    requires 1 <= month <= 13
    ensures DaysBeforeMonth(year, month) == MONTH_STARTS[month - 1] + (if month > 2 && Leap(year) then 1 else 0)
  {
    if month > 1 { MonthStarts(year, month - 1); }
  }

  lemma DayOfYearInYear(d: Date)
    requires Valid(d)
    ensures 1 <= DayOfYear(d) <= DaysInYear(d.year)
  {
    MonthStarts(d.year, d.month);
  }

  lemma {:induction false} YearsGrow(a: nat, b: nat)
    requires 1 <= a < b
    ensures DaysBeforeYear(a) + DaysInYear(a) <= DaysBeforeYear(b)
  {
    if a + 1 < b { YearsGrow(a, b - 1); }
  }

  lemma SameYearOrder(a: Date, b: Date)
    requires Valid(a) && Valid(b) && a.year == b.year
    ensures NotAfter(a, b) <==> DayOfYear(a) <= DayOfYear(b)
  {
    MonthStarts(a.year, a.month);
    MonthStarts(b.year, b.month);
  }

  /** Dates are ordered as their day numbers are. */
  lemma OrdinalKeepsOrder(a: Date, b: Date)
    requires Valid(a) && Valid(b)
    ensures NotAfter(a, b) <==> Ordinal(a) <= Ordinal(b)
    ensures Ordinal(a) == Ordinal(b) ==> a == b
  {
    DayOfYearInYear(a);
    DayOfYearInYear(b);
    if a.year < b.year {
      YearsGrow(a.year, b.year);
    } else if b.year < a.year {
      YearsGrow(b.year, a.year);
    } else {
      SameYearOrder(a, b);
      SameYearOrder(b, a);
    }
  }

  lemma Quotients(n: nat, k: nat)
    requires k == 4 || k == 100 || k == 400
    ensures (n + 1) / k == n / k + (if (n + 1) % k == 0 then 1 else 0)
  {
  }

  lemma Multiples(n: nat)
    ensures n % 100 == 0 ==> n % 4 == 0
    ensures n % 400 == 0 ==> n % 100 == 0
  {
    assert n == 100 * (n / 100) + n % 100;
    assert n == 400 * (n / 400) + n % 400;
  }

  /** Day numbers follow the Gregorian rule: every fourth year is a leap year, except
      centuries that four hundred does not divide. */
  lemma {:induction false} GregorianYears(year: nat)
    requires year >= 1
    ensures DaysBeforeYear(year) == 365 * (year - 1) + (year - 1) / 4 - (year - 1) / 100 + (year - 1) / 400
  {
    if year > 1 {
      GregorianYears(year - 1);
      Multiples(year - 1);
      Quotients(year - 2, 4);
      Quotients(year - 2, 100);
      Quotients(year - 2, 400);
    }
  }

  /** The months of a year in days; an anchor in a year that has it is that day. */
  lemma MonthLengths(year: nat, month: nat, day: nat)
    ensures Valid(Date(year, month, day)) <==>
      && 1 <= year <= 9999 && 1 <= month <= 12 && 1 <= day
      && day <= [31, if DaysBeforeYear(year + 1) == DaysBeforeYear(year) + 366 then 29 else 28,
                 31, 30, 31, 30, 31, 31, 30, 31, 30, 31][month - 1]
  {
  }

  // ------------------------------------------------------------- the theorems

  /** An anchor falls on its own day in every year that has it; 29 February, the only
      anchor a year can lack, falls on the last day of that February instead. */
  lemma AnchorDay(year: nat, month: nat, day: nat)
    requires Anchor(month, day) && 1 <= year <= 9999
    ensures Valid(Date(year, month, day)) ==> OccurrenceIn(year, month, day) == Some(Date(year, month, day))
    ensures !Valid(Date(year, month, day)) ==>
      && month == 2 && day == 29 && OccurrenceIn(year, month, day) == Some(Date(year, 2, 28))
      && Valid(Date(year, 2, 28)) && !Valid(Date(year, 2, 29))
  {
  }

  /** The anchors are the days some year has. */
  lemma AnchorsExist(month: nat, day: nat)
    ensures Anchor(month, day) <==> exists year: nat :: Valid(Date(year, month, day))
  {
    if Anchor(month, day) { assert Valid(Date(2024, month, day)); }
  }

  lemma OccurrenceIsValid(year: nat, month: nat, day: nat)
    requires Anchor(month, day) && 1 <= year <= LAST_YEAR
    ensures OccurrenceIn(year, month, day).Some? && Valid(OccurrenceIn(year, month, day).value)
    ensures OccurrenceIn(year, month, day).value.year == year
  {
  }

  /** The result is the earliest occurrence over all years that is not before today.
      There is none exactly when this year's is past and this is the last year. */
  lemma EarliestOccurrence(today: Date, month: nat, day: nat)
    requires Valid(today) && Anchor(month, day)
    ensures var next := NextOccurrence(today, month, day);
      match next
      case Some(d) =>
        && Valid(d) && NotAfter(today, d)
        && OccurrenceIn(d.year, month, day) == next
        && forall year: nat :: OccurrenceIn(year, month, day).Some? && NotAfter(today, OccurrenceIn(year, month, day).value)
             ==> NotAfter(d, OccurrenceIn(year, month, day).value)
      case None =>
        && today.year == LAST_YEAR
        && forall year: nat :: OccurrenceIn(year, month, day).Some? ==> !NotAfter(today, OccurrenceIn(year, month, day).value)
  {
    var next := NextOccurrence(today, month, day);
    OccurrenceIsValid(today.year, month, day);
    if today.year < LAST_YEAR { OccurrenceIsValid(today.year + 1, month, day); }
    forall year: nat | OccurrenceIn(year, month, day).Some? && NotAfter(today, OccurrenceIn(year, month, day).value)
      ensures next.Some? && NotAfter(next.value, OccurrenceIn(year, month, day).value)
    {
      OccurrenceIsValid(year, month, day);
    }
  }

  lemma DaysUntil(today: Date, d: Date)
    requires Valid(today) && Valid(d)
    requires d.year == today.year || d.year == today.year + 1
    ensures Ordinal(d) - Ordinal(today) ==
      DayOfYear(d) - DayOfYear(today) + (if d.year == today.year then 0 else DaysInYear(today.year))
  {
  }

  /** From one year to the next an anchor moves by at most a leap day. */
  lemma AnchorDrift(year: nat, month: nat, day: nat)
    requires Anchor(month, day) && 1 <= year < LAST_YEAR
    ensures var (here, next) := (OccurrenceIn(year, month, day), OccurrenceIn(year + 1, month, day));
      here.Some? && next.Some? && DayOfYear(next.value) + DaysInYear(year) <= DayOfYear(here.value) + 366
  {
    MonthStarts(year, month);
    MonthStarts(year + 1, month);
  }

  /** The next occurrence is never more than 365 days ahead. */
  lemma WithinOneYear(today: Date, month: nat, day: nat)
    requires Valid(today) && Anchor(month, day) && NextOccurrence(today, month, day).Some?
    ensures 0 <= Ordinal(NextOccurrence(today, month, day).value) - Ordinal(today) <= 365
  {
    var d := NextOccurrence(today, month, day).value;
    EarliestOccurrence(today, month, day);
    OccurrenceIsValid(today.year, month, day);
    OrdinalKeepsOrder(today, d);
    DaysUntil(today, d);
    DayOfYearInYear(d);
    DayOfYearInYear(today);
    if d.year != today.year {
      var here := OccurrenceIn(today.year, month, day).value;
      SameYearOrder(today, here);
      AnchorDrift(today.year, month, day);
    }
  }
}
