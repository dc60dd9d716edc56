/**
 * The directive data that the document logic reads and writes: source
 * locations, calendar dates, and the directives of a ledger (a Document or
 * any other kind).
 */
module Data {

  type Path = string
  type Account = string

  /** Where a directive or an error comes from: a file name and a line number. */
  datatype Source = Source(filename: Path, lineno: int)

  /** A (year, month, day) triple, as given to `datetime.date`. */
  datatype Date = Date(year: int, month: int, day: int)

  /** A directive of the ledger. Only Document directives matter here; every other
      kind is opaque and carries only what ordering and error reporting need. */
  datatype Directive =
    | Document(source: Source, date: Date, account: Account, filename: Path)
    | OtherDirective(source: Source, date: Date, kind: string)

  /** Gregorian leap year, as `datetime` computes it. */
  predicate IsLeapYear(year: int)
  {
    year % 4 == 0 && (year % 100 != 0 || year % 400 == 0)
  }

  function DaysInMonth(year: int, month: int): (n: int)
    requires 1 <= month <= 12
    ensures 28 <= n <= 31
    ensures n == 29 <==> month == 2 && IsLeapYear(year)
    ensures n == 30 <==> month in {4, 6, 9, 11}
    ensures n == 28 <==> month == 2 && !IsLeapYear(year)
  {
    if month == 2 then (if IsLeapYear(year) then 29 else 28)
    else if month in {4, 6, 9, 11} then 30
    else 31
  }

  /** The triples `datetime.date(year, month, day)` accepts without raising
      ValueError: years 1 to 9999, months 1 to 12, days within the month. */
  predicate IsValidDate(d: Date): (r: bool)
    ensures r <==> && 1 <= d.year <= 9999 && 1 <= d.month <= 12 && 1 <= d.day
                   && (d.day <= 28
                       || (d.day == 29 && (d.month != 2 || IsLeapYear(d.year)))
                       || (d.day == 30 && d.month != 2)
                       || (d.day == 31 && d.month in {1, 3, 5, 7, 8, 10, 12}))
  {
    1 <= d.year <= 9999 && 1 <= d.month <= 12 && 1 <= d.day <= DaysInMonth(d.year, d.month)
  }

  lemma LeapDayValidity(year: int)
    requires 1 <= year <= 9999
    ensures IsValidDate(Date(year, 2, 29)) <==> IsLeapYear(year)
    ensures !IsValidDate(Date(year, 2, 30)) && !IsValidDate(Date(year, 4, 31))
  {
  }
}
