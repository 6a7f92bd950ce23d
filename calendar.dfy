/**
 * Python's `datetime.date` / `datetime.datetime` as far as the row store needs them:
 * proleptic Gregorian dates, their ordinal day numbers, a time of day, the
 * whole-day difference `(now - since).days`, and the ISO text forms.
 */
module Calendar {
  import opened Wrappers
  import opened Text

  datatype Date = Date(year: int, month: int, day: int)

  predicate IsLeapYear(y: int) {
    y % 4 == 0 && (y % 100 != 0 || y % 400 == 0)
  }

  function DaysInMonth(y: int, m: int): int {
    if m == 2 then (if IsLeapYear(y) then 29 else 28)
    else if m == 4 || m == 6 || m == 9 || m == 11 then 30
    else 31
  }

  /** The dates `datetime.date` can hold: years MINYEAR = 1 to MAXYEAR = 9999. */
  predicate ValidDate(d: Date) {
    1 <= d.year <= 9999 && 1 <= d.month <= 12 && 1 <= d.day <= DaysInMonth(d.year, d.month)
  }

  type CalendarDate = d: Date | ValidDate(d) witness Date(1, 1, 1)

  function DaysBeforeMonth(y: int, m: int): int
    requires 1 <= m <= 12
  {
    if m == 1 then 0 else DaysBeforeMonth(y, m - 1) + DaysInMonth(y, m - 1)
  }

  function DaysBeforeYear(y: int): int {
    var p := y - 1;
    p * 365 + p / 4 - p / 100 + p / 400
  }

  /** `date.toordinal()`: 0001-01-01 is day 1. */
  function Ordinal(d: CalendarDate): int {
    DaysBeforeYear(d.year) + DaysBeforeMonth(d.year, d.month) + d.day
  }

  const MicrosPerDay: int := 86_400_000_000

  /** Microseconds since midnight. */
  type TimeOfDay = t: int | 0 <= t < MicrosPerDay

  /** A naive `datetime.datetime`; a `date` combined with `datetime.min.time()` is its midnight. */
  datatype Moment = Moment(date: CalendarDate, micros: TimeOfDay)

  function Midnight(d: CalendarDate): Moment {
    Moment(d, 0)
  }

  /** `(now - since).days`: the timedelta's day count, rounded towards minus infinity. */
  function ElapsedDays(now: Moment, since: Moment): int {
    ((Ordinal(now.date) - Ordinal(since.date)) * MicrosPerDay + now.micros - since.micros) / MicrosPerDay
  }

  /** Measured from a midnight, the whole days elapsed are the difference of ordinals. */
  lemma ElapsedDaysSinceMidnight(now: Moment, d: CalendarDate)
    ensures ElapsedDays(now, Midnight(d)) == Ordinal(now.date) - Ordinal(d)
  {
    var k := Ordinal(now.date) - Ordinal(d);
    DivideAfterScaling(k, now.micros);
  }

  lemma DivideAfterScaling(k: int, t: int)
    requires 0 <= t < MicrosPerDay
    ensures (k * MicrosPerDay + t) / MicrosPerDay == k
  {
  }

  /** `date.isoformat()`: `YYYY-MM-DD`. */
  function FormatIso(d: CalendarDate): string {
    PadNat(d.year, 4) + "-" + PadNat(d.month, 2) + "-" + PadNat(d.day, 2)
  }

  /**
   * `datetime.fromisoformat(s)` for the date-only form `YYYY-MM-DD`; `None` stands for
   * the `ValueError` it raises on a malformed or impossible date.
   */
  function ParseIso(s: string): (r: Option<CalendarDate>)
    ensures r.Some? ==> |s| == 10 && s[4] == '-' && s[7] == '-'
  {
    if |s| == 10 && s[4] == '-' && s[7] == '-'
       && AllDigits(s[..4]) && AllDigits(s[5..7]) && AllDigits(s[8..])
    then
      var d := Date(DigitsValue(s[..4]), DigitsValue(s[5..7]), DigitsValue(s[8..]));
      if ValidDate(d) then Some(d) else None
    else None
  }

  function Pow10(k: nat): nat {
    if k == 0 then 1 else 10 * Pow10(k - 1)
  }

  /** A number below 10^k takes at most k decimal digits. */
  lemma {:induction false} NatToStringLength(n: nat, k: nat)
    requires 1 <= k && n < Pow10(k)
    ensures |NatToString(n)| <= k
  {
    if n >= 10 {
      assert k >= 2;
      assert n / 10 < Pow10(k - 1);
      NatToStringLength(n / 10, k - 1);
    }
  }

  lemma PadNatExact(n: nat, width: nat)
    requires 1 <= width && n < Pow10(width)
    ensures |PadNat(n, width)| == width
    ensures DigitsValue(PadNat(n, width)) == n
  {
    NatToStringLength(n, width);
    PadNatRoundTrip(n, width);
  }

  /** Reading back the ISO text of a date gives the same date. */
  lemma ParseFormatIso(d: CalendarDate)
    ensures ParseIso(FormatIso(d)) == Some(d)
  {
    assert Pow10(2) == 100 && Pow10(4) == 10000 by {
      assert Pow10(1) == 10;
      assert Pow10(3) == 1000;
    }
    PadNatExact(d.year, 4);
    PadNatExact(d.month, 2);
    PadNatExact(d.day, 2);
    var s := FormatIso(d);
    assert s[..4] == PadNat(d.year, 4);
    assert s[5..7] == PadNat(d.month, 2);
    assert s[8..] == PadNat(d.day, 2);
  }

  /** `HH:MM:SS` of a time of day. */
  function FormatClock(t: TimeOfDay): string {
    PadNat(t / 3_600_000_000, 2) + ":" + PadNat(t / 60_000_000 % 60, 2) + ":" + PadNat(t / 1_000_000 % 60, 2)
  }

  /** `m.strftime("%Y-%m-%d %H:%M:%S")`. */
  function FormatTimestamp(m: Moment): string {
    FormatIso(m.date) + " " + FormatClock(m.micros)
  }

  /** `str(m)`: the timestamp, with `.ffffff` only when there are microseconds. */
  function DateTimeText(m: Moment): string {
    var us := m.micros % 1_000_000;
    FormatTimestamp(m) + (if us == 0 then "" else "." + PadNat(us, 6))
  }
}
