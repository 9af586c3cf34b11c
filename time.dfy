/**
 * Instants, whole-day differences and calendar dates.
 *
 * An instant is a millisecond timestamp, or the Invalid Date that
 * `new Date(text)` yields for text it cannot parse; comparisons with an
 * Invalid Date are false, as comparisons with NaN are. Parsing text into an
 * instant is not modelled: each date argument carries what `new Date`
 * makes of it.
 */
module Time {
  import opened Js
  import opened Strings

  datatype Instant = At(ms: int) | InvalidDate

  /** A date argument: the value as given and the instant `new Date(value)` yields. */
  datatype DateArg = DateArg(raw: Value, at: Instant)

  /** `a > b` on Date objects. */
  predicate Later(a: Instant, b: Instant) {
    a.At? && b.At? && a.ms > b.ms
  }

  const MsPerDay := 86400000

  /** Math.ceil(a / b) for b > 0. */
  function CeilDiv(a: int, b: int): (q: int)
    requires b > 0
    ensures (q - 1) * b < a <= q * b
  {
    -((-a) / b)
  }

  /** Math.ceil((end - now) / (1000 * 60 * 60 * 24)): whole days until `end`, rounded up. */
  function DaysUntil(end: int, now: int): (d: int)
    ensures (d - 1) * MsPerDay < end - now <= d * MsPerDay
  {
    CeilDiv(end - now, MsPerDay)
  }

  // ---------------------------------------------------------------------
  // Calendar dates (proleptic Gregorian)

  datatype Date = Date(year: int, month: int, day: int)

  predicate IsLeapYear(y: int) {
    (y % 4 == 0 && y % 100 != 0) || y % 400 == 0
  }

  function DaysInMonth(y: int, m: int): int
    requires 1 <= m <= 12
  {
    if m == 2 then (if IsLeapYear(y) then 29 else 28)
    else if m == 4 || m == 6 || m == 9 || m == 11 then 30
    else 31
  }

  predicate ValidDate(d: Date) {
    1 <= d.month <= 12 && 1 <= d.day <= DaysInMonth(d.year, d.month)
  }

  /** Chronological order on dates. */
  predicate Before(a: Date, b: Date) {
    a.year < b.year || (a.year == b.year && (a.month < b.month || (a.month == b.month && a.day < b.day)))
  }

  /**
   * `date.setFullYear(date.getFullYear() + years)`: month and day are kept,
   * and a day past the end of the month rolls into the next month, which
   * only happens to 29 February in a common year.
   */
  function AddYears(d: Date, years: int): (r: Date)
    requires ValidDate(d)
    ensures ValidDate(r)
    ensures r.year == d.year + years
  {
    var y := d.year + years;
    if d.day > DaysInMonth(y, d.month) then Date(y, d.month + 1, d.day - DaysInMonth(y, d.month))
    else Date(y, d.month, d.day)
  }

  /** Only 29 February can roll over: every other valid date keeps its month and day. */
  lemma AddYearsKeepsMonthDay(d: Date, years: int)
    requires ValidDate(d)
    ensures !(d.month == 2 && d.day == 29) ==> AddYears(d, years) == Date(d.year + years, d.month, d.day)
    ensures d.month == 2 && d.day == 29 && IsLeapYear(d.year + years) ==> AddYears(d, years) == Date(d.year + years, 2, 29)
  {
  }

  /** 29 February advanced into a common year lands on 1 March. */
  lemma LeapDayRollsOver(y: int, years: int)
    requires IsLeapYear(y) && !IsLeapYear(y + years)
    ensures AddYears(Date(y, 2, 29), years) == Date(y + years, 3, 1)
  {
  }

  lemma AddYearsZero(d: Date)
    requires ValidDate(d)
    ensures AddYears(d, 0) == d
  {
  }

  /** Two digits, padded with a zero (`padStart(2, '0')`, date-fns `MM`/`dd`/`HH`/`mm`). */
  function Pad2(n: nat): (s: string)
    ensures |s| >= 2
  {
    if n < 10 then "0" + NatToString(n) else NatToString(n)
  }

  /** At least four digits, padded with zeros (date-fns `yyyy`). */
  function Pad4(n: nat): (s: string)
    ensures |s| >= 4
  {
    var t := NatToString(n);
    if |t| >= 4 then t else seq(4 - |t|, _ => '0') + t
  }

  lemma Pad2Value(n: nat)
    requires n < 100
    ensures |Pad2(n)| == 2
    ensures IsDigit(Pad2(n)[0]) && IsDigit(Pad2(n)[1])
    ensures (Pad2(n)[0] as int - '0' as int) * 10 + (Pad2(n)[1] as int - '0' as int) == n
  {
    if n >= 10 {
      var s := NatToString(n);
      assert NatToString(n / 10) == [DigitChar(n / 10)];
      assert s == [DigitChar(n / 10), DigitChar(n % 10)];
    }
  }

  /** `yyyy-MM-dd` of a calendar date with a non-negative year. */
  function FormatDate(d: Date): string
    requires ValidDate(d) && d.year >= 0
  {
    Pad4(d.year) + "-" + Pad2(d.month) + "-" + Pad2(d.day)
  }
}
