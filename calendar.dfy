/**
 * The calendar that the census reconciliation uses: the accepted range of
 * target years, the months in sheet order with their names, and the number
 * of days each month is expected to have in the target year.
 *
 * February follows the simplified rule of the census program: it has 29
 * days whenever the year is divisible by 4, century years included.
 */
module Calendar {
  import opened Wrappers

  /** A target year is accepted when it has four digits. */
  predicate ValidYear(year: int) {
    1000 <= year <= 9999
  }

  datatype Month =
    | January | February | March | April | May | June
    | July | August | September | October | November | December

  /** The months in the order in which sheets are mapped to them. */
  const MonthsInOrder: seq<Month> :=
    [January, February, March, April, May, June, July, August, September, October, November, December]

  /** The month that the sheet at position `i` stands for (0 = January). */
  function MonthAt(i: nat): (m: Month)
    requires i < 12
    ensures m == MonthsInOrder[i]
  {
    MonthsInOrder[i]
  }

  /** The name under which a month is reported and looked up. */
  function Name(m: Month): string {
    match m
    case January => "January"
    case February => "February"
    case March => "March"
    case April => "April"
    case May => "May"
    case June => "June"
    case July => "July"
    case August => "August"
    case September => "September"
    case October => "October"
    case November => "November"
    case December => "December"
  }

  /** Sheet `i` reports the `i`-th name of the calendar year, January first. */
  lemma NamesInOrder()
    ensures seq(12, i requires 0 <= i < 12 => Name(MonthAt(i))) == [
      "January", "February", "March", "April", "May", "June",
      "July", "August", "September", "October", "November", "December"
    ]
  {
  }

  function FebruaryDays(year: int): (d: nat)
    ensures d == 29 || d == 28
    ensures d == 29 <==> year % 4 == 0
  {
    if year % 4 == 0 then 29 else 28
  }

  /** The day-count table for the given year, keyed by month name; None for any other key. */
  function DaysByName(year: int, name: string): Option<nat> {
    if name == "January" then Some(31)
    else if name == "February" then Some(FebruaryDays(year))
    else if name == "March" then Some(31)
    else if name == "April" then Some(30)
    else if name == "May" then Some(31)
    else if name == "June" then Some(30)
    else if name == "July" then Some(31)
    else if name == "August" then Some(31)
    else if name == "September" then Some(30)
    else if name == "October" then Some(31)
    else if name == "November" then Some(30)
    else if name == "December" then Some(31)
    else None
  }

  /** The number of days the month is expected to have in the given year. */
  function ExpectedDays(year: int, m: Month): (d: nat)
    ensures 28 <= d <= 31
    ensures d == 28 <==> m == February && year % 4 != 0
    ensures d == 29 <==> m == February && year % 4 == 0
    ensures d == 30 <==> m in {April, June, September, November}
  {
    match m
    case February => FebruaryDays(year)
    case April | June | September | November => 30
    case _ => 31
  }

  /** Looking a month up in the table by its name gives that month's expected days. */
  lemma LookupByName(year: int, m: Month)
    ensures DaysByName(year, Name(m)) == Some(ExpectedDays(year, m))
  {
  }

  /** Sum of the expected days of the first `n` months. */
  function DaysBefore(year: int, n: nat): nat
    requires n <= 12
  {
    if n == 0 then 0 else DaysBefore(year, n - 1) + ExpectedDays(year, MonthAt(n - 1))
  }

  /** The first half-year: January to June. */
  lemma FirstHalfLength(year: int)
    ensures DaysBefore(year, 6) == 153 + FebruaryDays(year)
  {
    var feb := FebruaryDays(year);
    assert DaysBefore(year, 1) == 31;
    assert DaysBefore(year, 2) == 31 + feb;
    assert DaysBefore(year, 3) == 62 + feb;
    assert DaysBefore(year, 4) == 92 + feb;
    assert DaysBefore(year, 5) == 123 + feb;
  }

  /** The table describes a year of 366 days exactly when the year is divisible by 4. */
  lemma YearLength(year: int)
    ensures DaysBefore(year, 12) == if year % 4 == 0 then 366 else 365
  {
    var feb := FebruaryDays(year);
    FirstHalfLength(year);
    assert DaysBefore(year, 7) == 184 + feb;
    assert DaysBefore(year, 8) == 215 + feb;
    assert DaysBefore(year, 9) == 245 + feb;
    assert DaysBefore(year, 10) == 276 + feb;
    assert DaysBefore(year, 11) == 306 + feb;
  }

  /** 1900 is not a leap year in the Gregorian calendar, but the table gives February 29 days. */
  lemma CenturyYearFebruary()
    ensures ExpectedDays(1900, February) == 29
    ensures ExpectedDays(2023, February) == 28 && ExpectedDays(2024, February) == 29
  {
  }
}
