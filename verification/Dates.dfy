/** Civil dates of the Gregorian calendar, their ordinal day numbers, and months added to them. */
module Dates {
  datatype Date = Date(year: int, month: int, day: int) {
    predicate Valid() {
      1 <= month <= 12 && 1 <= day <= DaysIn(year, month)
    }

    /** Months counted from year 0. */
    function Index(): int { 12 * year + month - 1 }

    /** Day number: 1 January of year 1 is day 1. */
    function Ordinal(): int
      requires 1 <= month <= 12
    {
      MonthStart(Index()) + day
    }

    predicate AtMost(other: Date) {
      Index() < other.Index() || (Index() == other.Index() && day <= other.day)
    }
  }

  predicate Leap(year: int) {
    year % 4 == 0 && (year % 100 != 0 || year % 400 == 0)
  }

  function DaysIn(year: int, month: int): (n: int)
    requires 1 <= month <= 12
    ensures 28 <= n <= 31
  {
    if month == 2 then (if Leap(year) then 29 else 28)
    else if month == 4 || month == 6 || month == 9 || month == 11 then 30
    else 31
  }

  /** Days before 1 January of a year. */
  function YearStart(year: int): int {
    365 * (year - 1) + (year - 1) / 4 - (year - 1) / 100 + (year - 1) / 400
  }

  /** Days before the first of a month within its year. */
  function DaysBefore(year: int, month: int): int
    requires 1 <= month <= 13
    decreases month
  {
    if month <= 1 then 0 else DaysBefore(year, month - 1) + DaysIn(year, month - 1)
  }

  /** Days before the first day of the month with this index. */
  function MonthStart(index: int): int {
    YearStart(index / 12) + DaysBefore(index / 12, index % 12 + 1)
  }

  /** The length of the month with this index. */
  function Length(index: int): (n: int)
    ensures 28 <= n <= 31
  {
    DaysIn(index / 12, index % 12 + 1)
  }

  lemma YearLength(year: int)
    ensures YearStart(year + 1) - YearStart(year) == DaysBefore(year, 13)
  {
    Quotient(year, 4);
    Quotient(year, 100);
    Quotient(year, 400);
    Multiples(year);
    var q4, q100, q400 := year / 4 - (year - 1) / 4, year / 100 - (year - 1) / 100, year / 400 - (year - 1) / 400;
    assert YearStart(year + 1) - YearStart(year) == 365 + q4 - q100 + q400;
    assert q4 - q100 + q400 == if Leap(year) then 1 else 0;
    HalfYears(year);
  }

  lemma Multiples(n: int)
    ensures n % 400 == 0 ==> n % 100 == 0
    ensures n % 100 == 0 ==> n % 4 == 0
  {
    if n % 400 == 0 { TimesOf100(n, 4 * (n / 400)); }
    if n % 100 == 0 { TimesOf4(n, 25 * (n / 100)); }
  }

  lemma TimesOf100(n: int, k: int)
    requires n == 100 * k
    ensures n % 100 == 0
  {
  }

  lemma TimesOf4(n: int, k: int)
    requires n == 4 * k
    ensures n % 4 == 0
  {
  }

  lemma Quotient(n: int, k: int)
    requires k == 4 || k == 100 || k == 400
    ensures n / k - (n - 1) / k == if n % k == 0 then 1 else 0
  {
  }

  lemma HalfYears(year: int)
    ensures DaysBefore(year, 13) == if Leap(year) then 366 else 365
  {
    assert DaysBefore(year, 4) == if Leap(year) then 91 else 90;
    assert DaysBefore(year, 7) == DaysBefore(year, 4) + 91;
    assert DaysBefore(year, 10) == DaysBefore(year, 7) + 92;
    assert DaysBefore(year, 13) == DaysBefore(year, 10) + 92;
  }

  /** Months follow each other without gap: the ordinal of the next first is one month's length away. */
  lemma NextMonth(index: int)
    ensures MonthStart(index + 1) == MonthStart(index) + Length(index)
  {
    var y, m := index / 12, index % 12 + 1;
    if m == 12 {
      assert (index + 1) / 12 == y + 1 && (index + 1) % 12 == 0;
      YearLength(y);
    } else {
      assert (index + 1) / 12 == y && (index + 1) % 12 == m;
    }
  }

  /** What grows by at least 28 at every step. */
  lemma {:induction false} GrowsApart(start: int -> int, i: int, n: nat)
    requires forall j :: start(j + 1) - start(j) >= 28
    ensures start(i + n) - start(i) >= 28 * n
    decreases n
  {
    if n > 0 {
      GrowsApart(start, i, n - 1);
      assert start(i + (n - 1) + 1) == start(i + n);
    }
  }

  lemma MonthsGrow(i: int, n: nat)
    ensures MonthStart(i + n) - MonthStart(i) >= 28 * n
  {
    forall j
      ensures MonthStart(j + 1) - MonthStart(j) >= 28
    {
      NextMonth(j);
    }
    GrowsApart(MonthStart, i, n);
  }

  lemma MonthsApart(i: int, n: nat)
    ensures MonthStart(i + n) - MonthStart(i) >= 28 * n
    ensures n > 0 ==> MonthStart(i + n) - MonthStart(i) >= Length(i) + 28 * (n - 1)
  {
    MonthsGrow(i, n);
    if n > 0 {
      NextMonth(i);
      MonthsGrow(i + 1, n - 1);
      assert i + 1 + (n - 1) == i + n;
    }
  }

  lemma IndexParts(d: Date)
    requires 1 <= d.month <= 12
    ensures d.Index() / 12 == d.year && d.Index() % 12 == d.month - 1
    ensures Length(d.Index()) == DaysIn(d.year, d.month)
  {
  }

  /** Dates are ordered as their day numbers are. */
  lemma OrdinalOrder(a: Date, b: Date)
    requires a.Valid() && b.Valid()
    ensures a.AtMost(b) <==> a.Ordinal() <= b.Ordinal()
    ensures a == b <==> a.Ordinal() == b.Ordinal()
  {
    IndexParts(a);
    IndexParts(b);
    if a.Index() < b.Index() {
      MonthsApart(a.Index(), b.Index() - a.Index());
    } else if b.Index() < a.Index() {
      MonthsApart(b.Index(), a.Index() - b.Index());
    }
  }

  /** invoice_billing_rules.add_months: the same day n months on, or the last day of a month too short for it. */
  function AddMonths(d: Date, months: int): Date
    requires d.Valid()
  {
    var m := d.month - 1 + months;
    var year, month := d.year + m / 12, m % 12 + 1;
    Date(year, month, if d.day <= DaysIn(year, month) then d.day else DaysIn(year, month))
  }

  /** It moves the month by exactly n and changes the day only when the month is shorter, then to its last. */
  lemma AddMonthsExact(d: Date, n: int)
    requires d.Valid()
    ensures var r := AddMonths(d, n);
            && r.Valid() && r.Index() == d.Index() + n
            && (r.day == d.day || (r.day == Length(d.Index() + n) && r.day < d.day))
            && (d.day <= Length(d.Index() + n) ==> r.day == d.day)
  {
    IndexParts(AddMonths(d, n));
  }

  /** Later dates stay later. */
  lemma AddMonthsMonotone(a: Date, b: Date, n: int)
    requires a.Valid() && b.Valid() && a.AtMost(b)
    ensures AddMonths(a, n).AtMost(AddMonths(b, n))
  {
    AddMonthsExact(a, n);
    AddMonthsExact(b, n);
  }

  /** n months are at least 28 n days. */
  lemma AddMonthsDays(d: Date, n: nat)
    requires d.Valid()
    ensures AddMonths(d, n).Ordinal() >= d.Ordinal() + 28 * n
  {
    AddMonthsExact(d, n);
    IndexParts(d);
    DaysApart(d.Index(), n, d.day, AddMonths(d, n).day);
  }

  lemma DaysApart(i: int, n: nat, day: int, later: int)
    requires day <= Length(i) && (later == day || (later == Length(i + n) && n > 0))
    ensures MonthStart(i + n) + later >= MonthStart(i) + day + 28 * n
  {
    MonthsApart(i, n);
  }

  /**
   * Twice is never later than once, always in the same month, and the same day unless the first step cut the day
   * shorter than the second would.
   */
  lemma AddMonthsTwice(d: Date, a: int, b: int)
    requires d.Valid()
    ensures var twice, once := AddMonths(AddMonths(d, a), b), AddMonths(d, a + b);
            && twice.Index() == once.Index() && twice.AtMost(once)
            && (twice == once <==> AddMonths(d, a).day >= once.day)
  {
    AddMonthsExact(d, a);
    AddMonthsExact(AddMonths(d, a), b);
    AddMonthsExact(d, a + b);
    IndexParts(AddMonths(AddMonths(d, a), b));
    IndexParts(AddMonths(d, a + b));
  }

  /** The lengths of the months, the years the second has 29 days in, and two known days. */
  lemma MonthLengths(year: int, month: int)
    requires 1 <= month <= 12
    ensures DaysIn(year, month) == if month == 2 && year % 4 == 0 && (year % 100 != 0 || year % 400 == 0) then 29
                else [31, 28, 31, 30, 31, 30, 31, 31, 30, 31, 30, 31][month - 1]
  {
  }

  lemma NewYear(year: int)
    ensures Date(year, 1, 1).Ordinal() == YearStart(year) + 1
  {
    assert Date(year, 1, 1).Index() == 12 * year && (12 * year) / 12 == year && (12 * year) % 12 == 0;
  }

  lemma KnownYears()
    ensures YearStart(1) == 0 && YearStart(1970) == 719162 && YearStart(2024) == 738885
  {
  }

  lemma KnownDate(year: int)
    requires year == 1 || year == 1970 || year == 2024
    ensures Date(year, 1, 1).Ordinal() == if year == 1 then 1 else if year == 1970 then 719163 else 738886
  {
    NewYear(year);
    KnownYears();
  }
}
