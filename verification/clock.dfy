/** `java.time.LocalDateTime` as the application uses it: a calendar date and
    a time of day with nanoseconds, compared field by field, with the day and
    month arithmetic of the proleptic Gregorian calendar. The wall clock is
    never read; every operation that needs "now" takes it as a parameter. */
module Clock {

  datatype DateTime = DateTime(year: int, month: int, day: int,
                               hour: int, minute: int, second: int, nano: int)

  predicate IsLeapYear(y: int) {
    y % 4 == 0 && (y % 100 != 0 || y % 400 == 0)
  }

  function DaysInMonth(y: int, m: int): int
    requires 1 <= m <= 12
  {
    if m == 2 then (if IsLeapYear(y) then 29 else 28)
    else if m == 4 || m == 6 || m == 9 || m == 11 then 30
    else 31
  }

  predicate Valid(t: DateTime) {
    && 1 <= t.month <= 12
    && 1 <= t.day <= DaysInMonth(t.year, t.month)
    && 0 <= t.hour < 24 && 0 <= t.minute < 60 && 0 <= t.second < 60
    && 0 <= t.nano < 1_000_000_000
  }

  /** `isBefore`: the chronological order, which for valid values is the
      lexicographic order of the fields. */
  predicate IsBefore(a: DateTime, b: DateTime) {
    if a.year != b.year then a.year < b.year
    else if a.month != b.month then a.month < b.month
    else if a.day != b.day then a.day < b.day
    else if a.hour != b.hour then a.hour < b.hour
    else if a.minute != b.minute then a.minute < b.minute
    else if a.second != b.second then a.second < b.second
    else a.nano < b.nano
  }

  /** `isAfter`. */
  predicate IsAfter(a: DateTime, b: DateTime) {
    IsBefore(b, a)
  }

  lemma BeforeIrreflexive(a: DateTime)
    ensures !IsBefore(a, a)
  {
  }

  lemma BeforeTransitive(a: DateTime, b: DateTime, c: DateTime)
    requires IsBefore(a, b) && IsBefore(b, c)
    ensures IsBefore(a, c)
  {
  }

  function DaysBeforeMonth(y: int, m: int): int
    requires 1 <= m <= 12
  {
    if m == 1 then 0 else DaysBeforeMonth(y, m - 1) + DaysInMonth(y, m - 1)
  }

  /** Days from 0001-01-01 to the given date (negative before it). Dafny's
      division by a positive constant rounds down, as the calendar needs. */
  function DayNumber(y: int, m: int, d: int): int
    requires 1 <= m <= 12
  {
    365 * (y - 1) + (y - 1) / 4 - (y - 1) / 100 + (y - 1) / 400
    + DaysBeforeMonth(y, m) + d - 1
  }

  /** Nanoseconds from 0001-01-01T00:00 to `t`. */
  function Nanos(t: DateTime): int
    requires Valid(t)
  {
    ((((DayNumber(t.year, t.month, t.day) * 24 + t.hour) * 60 + t.minute) * 60
      + t.second) * 1_000_000_000 + t.nano)
  }

  /** Integer division rounding toward zero, as Java's `/` on `long` does. */
  function TruncDiv(x: int, d: int): (q: int)
    requires d > 0
    ensures x >= 0 ==> 0 <= q && q * d <= x < q * d + d
    ensures x < 0 ==> q <= 0 && q * d >= x > q * d - d
  {
    if x >= 0 then x / d else -((-x) / d)
  }

  /** `ChronoUnit.MILLIS.between(a, b)`: the elapsed nanoseconds divided by a
      million, rounded toward zero. */
  function MillisBetween(a: DateTime, b: DateTime): int
    requires Valid(a) && Valid(b)
  {
    TruncDiv(Nanos(b) - Nanos(a), 1_000_000)
  }

  /** The same time of day on the following calendar day. */
  function NextDay(t: DateTime): (r: DateTime)
    requires Valid(t)
    ensures Valid(r) && IsAfter(r, t)
    ensures r.hour == t.hour && r.minute == t.minute && r.second == t.second && r.nano == t.nano
  {
    if t.day < DaysInMonth(t.year, t.month) then t.(day := t.day + 1)
    else if t.month < 12 then t.(month := t.month + 1, day := 1)
    else t.(year := t.year + 1, month := 1, day := 1)
  }

  /** `plusDays(n)` for a non-negative count. */
  function PlusDays(t: DateTime, n: nat): (r: DateTime)
    requires Valid(t)
    ensures Valid(r)
    ensures n > 0 ==> IsAfter(r, t)
    ensures n == 0 ==> r == t
  {
    if n == 0 then t
    else
      var u := PlusDays(t, n - 1);
      if n > 1 then
        BeforeTransitive(t, u, NextDay(u));
        NextDay(u)
      else NextDay(u)
  }

  /** `plusHours(24)`: twenty-four hours carry into exactly one calendar day. */
  function PlusOneDayOfHours(t: DateTime): (r: DateTime)
    requires Valid(t)
    ensures Valid(r) && IsAfter(r, t)
  {
    NextDay(t)
  }

  /** `plusMonths(1)`: the next month, with the day clamped to its length. */
  function PlusOneMonth(t: DateTime): (r: DateTime)
    requires Valid(t)
    ensures Valid(r) && IsAfter(r, t)
    ensures r.day <= t.day
    ensures t.month < 12 ==> r.year == t.year && r.month == t.month + 1
    ensures t.month == 12 ==> r.year == t.year + 1 && r.month == 1
  {
    var (y, m) := if t.month < 12 then (t.year, t.month + 1) else (t.year + 1, 1);
    var d := if t.day <= DaysInMonth(y, m) then t.day else DaysInMonth(y, m);
    t.(year := y, month := m, day := d)
  }

  /** 500 ms within one second: the millisecond distance of two instants. */
  lemma HalfSecondApart()
    ensures MillisBetween(DateTime(2024, 3, 1, 12, 0, 0, 0), DateTime(2024, 3, 1, 12, 0, 0, 500_000_000)) == 500
    ensures MillisBetween(DateTime(2024, 2, 29, 23, 59, 59, 900_000_000), DateTime(2024, 3, 1, 0, 0, 0, 400_000_000)) == 500
  {
  }
}
