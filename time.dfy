/**
  Naive datetimes and dates, and the numeric timestamps the storage layer
  keeps. A datetime is a count of microseconds from 1970-01-01T00:00:00; the
  local time zone that `timestamp()` and `fromtimestamp()` consult is taken
  to be UTC.
*/
module Time {
  import opened Errors

  const MicrosPerSecond: int := 1_000_000
  const MicrosPerDay: int := 86_400 * MicrosPerSecond

  /** 0001-01-01T00:00:00 and 9999-12-31T23:59:59.999999, Python's `datetime.min` and `datetime.max`. */
  const MinMicros: int := -62_135_596_800 * MicrosPerSecond
  const MaxMicros: int := 253_402_300_800 * MicrosPerSecond - 1

  datatype DateTime = DateTime(micros: int)

  /** A date, as days from 1970-01-01. */
  datatype Date = Date(days: int)

  /** A `decimal.Decimal` of microsecond precision: the number `units / 10^6`. */
  datatype Decimal = Decimal(units: int)

  /** The datetimes Python can represent. */
  predicate InRange(t: DateTime) {
    MinMicros <= t.micros <= MaxMicros
  }

  /** `Decimal(t.timestamp())`: seconds since the epoch, fraction included. */
  function Timestamp(t: DateTime): Decimal {
    Decimal(t.micros)
  }

  /** `int(d)`: the whole number of seconds, truncated toward zero. */
  function TruncateToInt(d: Decimal): (n: int)
    ensures d.units >= 0 ==> n * MicrosPerSecond <= d.units < (n + 1) * MicrosPerSecond
    ensures d.units < 0 ==> (n - 1) * MicrosPerSecond < d.units <= n * MicrosPerSecond
  {
    if d.units >= 0 then d.units / MicrosPerSecond else -((-d.units) / MicrosPerSecond)
  }

  /**
    `datetime.fromtimestamp(x)` for a number of seconds given to microsecond
    precision; outside Python's range it raises.
  */
  function FromTimestamp(d: Decimal): (r: Result<DateTime>)
    ensures r.Ok? <==> InRange(DateTime(d.units))
    ensures r.Ok? ==> Timestamp(r.value) == d
  {
    if InRange(DateTime(d.units)) then Ok(DateTime(d.units))
    else Err(Error(Unhandled, "year is out of range"))
  }

  /** `datetime.fromtimestamp(int(d))`. */
  function FromWholeSeconds(d: Decimal): (r: Result<DateTime>)
    ensures r.Ok? ==> r.value.micros % MicrosPerSecond == 0
  {
    FromTimestamp(Decimal(TruncateToInt(d) * MicrosPerSecond))
  }

  /** The datetime with its fraction of a second dropped, toward the epoch. */
  function TruncateToSecond(t: DateTime): (r: DateTime)
    ensures r.micros % MicrosPerSecond == 0
    ensures t.micros >= 0 ==> 0 <= t.micros - r.micros < MicrosPerSecond
    ensures t.micros < 0 ==> 0 <= r.micros - t.micros < MicrosPerSecond
    ensures t.micros % MicrosPerSecond == 0 ==> r == t
    ensures InRange(t) ==> InRange(r)
  {
    DateTime(TruncateToInt(Timestamp(t)) * MicrosPerSecond)
  }

  /** Exactly `width` decimal digits of `n` (the low ones), as `%0<width>d` writes a number that fits. */
  function Digits(n: int, width: nat): (s: string)
    ensures |s| == width && forall i :: 0 <= i < width ==> '0' <= s[i] <= '9'
    decreases width
  {
    if width == 0 then "" else Digits(n / 10, width - 1) + ['0' + (n % 10) as char]
  }

  /** The number a string of decimal digits spells, most significant digit first. */
  function DigitsValue(s: string): int
    decreases |s|
  {
    if |s| == 0 then 0 else DigitsValue(s[..|s| - 1]) * 10 + (s[|s| - 1] as int - '0' as int)
  }

  function Pow10(width: nat): nat {
    if width == 0 then 1 else 10 * Pow10(width - 1)
  }

  /** A number that fits in `width` digits reads back from them. */
  lemma {:induction false} DigitsReadBack(n: int, width: nat)
    requires 0 <= n < Pow10(width)
    ensures DigitsValue(Digits(n, width)) == n
    decreases width
  {
    if width > 0 {
      DigitsReadBack(n / 10, width - 1);
      var s := Digits(n, width);
      assert s[..width - 1] == Digits(n / 10, width - 1);
    }
  }

  /** Year, month and day of a day count (the civil-from-days conversion of the proleptic Gregorian calendar). */
  function CivilFromDays(days: int): (ymd: (int, int, int))
    ensures 1 <= ymd.1 <= 12 && 1 <= ymd.2 <= 31
  {
    var z := days + 719_468;
    var era := z / 146_097;
    CivilOfEra(era, z - era * 146_097)
  }

  /** The date `doe` days into the 400-year era `era`, counting eras from 0000-03-01. */
  function CivilOfEra(era: int, doe: int): (ymd: (int, int, int))
    requires 0 <= doe < 146_097
    ensures 1 <= ymd.1 <= 12 && 1 <= ymd.2 <= 31
  {
    YearOfEraBounds(doe);
    CivilOfYear(era, YearOfEra(doe), DayOfYear(doe))
  }

  /** The date `doy` days after March 1 of year `yoe` of the era. */
  function CivilOfYear(era: int, yoe: int, doy: int): (ymd: (int, int, int))
    requires 0 <= doy <= 365
    ensures 1 <= ymd.1 <= 12 && 1 <= ymd.2 <= 31
  {
    var mp := (5 * doy + 2) / 153;
    var d := doy - (153 * mp + 2) / 5 + 1;
    var m := if mp < 10 then mp + 3 else mp - 9;
    (yoe + era * 400 + (if m <= 2 then 1 else 0), m, d)
  }

  /** The year within the era, counting years from March. */
  function YearOfEra(doe: int): int {
    (doe - doe / 1_460 + doe / 36_524 - doe / 146_096) / 365
  }

  /** The day within that year, from March 1. */
  function DayOfYear(doe: int): int {
    var yoe := YearOfEra(doe);
    doe - (365 * yoe + yoe / 4 - yoe / 100)
  }

  /** Days from 1970-01-01 of a year, month and day (the days-from-civil conversion, written independently). */
  function DaysFromCivil(y: int, m: int, d: int): int {
    var y' := if m <= 2 then y - 1 else y;
    var era := y' / 400;
    var yoe := y' - era * 400;
    var mp := if m > 2 then m - 3 else m + 9;
    var doy := (153 * mp + 2) / 5 + d - 1;
    var doe := yoe * 365 + yoe / 4 - yoe / 100 + doy;
    era * 146_097 + doe - 719_468
  }

  /** The calendar date of a day count names that same day. */
  lemma CivilRoundTrip(days: int)
    ensures var ymd := CivilFromDays(days); DaysFromCivil(ymd.0, ymd.1, ymd.2) == days
  {
    var z := days + 719_468;
    var era := z / 146_097;
    var doe := z - era * 146_097;
    EraRoundTrip(era, doe);
    assert CivilFromDays(days) == CivilOfEra(era, doe);
  }

  lemma EraRoundTrip(era: int, doe: int)
    requires 0 <= doe < 146_097
    ensures var ymd := CivilOfEra(era, doe); DaysFromCivil(ymd.0, ymd.1, ymd.2) == era * 146_097 + doe - 719_468
  {
    YearOfEraBounds(doe);
    YearRoundTrip(era, YearOfEra(doe), DayOfYear(doe));
  }

  /** Days-from-civil undoes the year, month and day found within an era. */
  lemma YearRoundTrip(era: int, yoe: int, doy: int)
    requires 0 <= yoe < 400 && 0 <= doy <= 365
    ensures var ymd := CivilOfYear(era, yoe, doy);
      DaysFromCivil(ymd.0, ymd.1, ymd.2) == era * 146_097 + 365 * yoe + yoe / 4 - yoe / 100 + doy - 719_468
  {
    var mp := (5 * doy + 2) / 153;
    assert 0 <= mp <= 11;
    var ymd := CivilOfYear(era, yoe, doy);
    var y' := if ymd.1 <= 2 then ymd.0 - 1 else ymd.0;
    assert y' == yoe + era * 400;
    assert y' / 400 == era;
    assert (if ymd.1 > 2 then ymd.1 - 3 else ymd.1 + 9) == mp;
  }

  /** Within a 400-year era, the year-of-era formula finds the year, and the day within it is a day of that year. */
  lemma YearOfEraBounds(doe: int)
    requires 0 <= doe < 146_097
    ensures 0 <= YearOfEra(doe) < 400 && 0 <= DayOfYear(doe) <= 365
  {
    if doe < 146_096 {
      var c := doe / 36_524;
      var e := doe - 36_524 * c;
      var k := e / 1_461;
      var g := e - 1_461 * k;
      CycleBounds(doe, c, e, k, g);
      var delta := if 24 * c + k + g >= 1_460 then 1 else 0;
      var i := if g == 1_460 then 3 else g / 365;
      QuadYears(doe, c, k, g, delta);
      YearInCycle(g, delta, i);
      var yoe := 100 * c + 4 * k + i;
      LeapCounts(c, k, i, yoe);
      var n := doe - doe / 1_460 + doe / 36_524 - doe / 146_096;
      assert n == 365 * yoe + (g - delta - 365 * i) by {
        assert doe == 36_524 * c + 1_461 * k + g;
      }
      DivideExactly(n, yoe, g - delta - 365 * i);
    } else {
      assert doe / 1_460 == 100 && doe / 36_524 == 4 && doe / 146_096 == 1;
      DivideExactly(145_999, 399, 364);
    }
  }

  lemma DivideExactly(n: int, q: int, r: int)
    requires n == 365 * q + r && 0 <= r < 365
    ensures n / 365 == q
  {
  }

  lemma CycleBounds(doe: int, c: int, e: int, k: int, g: int)
    requires 0 <= doe < 146_096 && c == doe / 36_524 && e == doe - 36_524 * c && k == e / 1_461 && g == e - 1_461 * k
    ensures 0 <= c <= 3 && 0 <= k <= 24 && 0 <= g <= 1_460 && doe / 146_096 == 0
  {
  }

  lemma QuadYears(doe: int, c: int, k: int, g: int, delta: int)
    requires doe == 36_524 * c + 1_461 * k + g && 0 <= c <= 3 && 0 <= k <= 24 && 0 <= g <= 1_460
    requires delta == if 24 * c + k + g >= 1_460 then 1 else 0
    ensures doe / 1_460 == 25 * c + k + delta
  {
    assert doe == 1_460 * (25 * c + k) + (24 * c + k + g);
  }

  lemma YearInCycle(g: int, delta: int, i: int)
    requires 0 <= g <= 1_460 && (delta == 0 || delta == 1) && (g < 1_364 ==> delta == 0) && (g == 1_460 ==> delta == 1)
    requires i == if g == 1_460 then 3 else g / 365
    ensures (g - delta) / 365 == i && 0 <= i <= 3 && 0 <= g - 365 * i <= 365
  {
  }

  lemma LeapCounts(c: int, k: int, i: int, yoe: int)
    requires 0 <= c <= 3 && 0 <= k <= 24 && 0 <= i <= 3 && yoe == 100 * c + 4 * k + i
    ensures yoe / 4 == 25 * c + k && yoe / 100 == c
  {
  }

  /** The microsecond within the day is the microsecond within the second. */
  lemma MicroOfDay(x: int)
    ensures x % MicrosPerDay % MicrosPerSecond == x % MicrosPerSecond
  {
    var q := x / MicrosPerDay;
    var r := x % MicrosPerDay;
    assert x == (q * 86_400) * MicrosPerSecond + r;
    ShiftMod(q * 86_400, r);
  }

  lemma ShiftMod(a: int, b: int)
    ensures (a * MicrosPerSecond + b) % MicrosPerSecond == b % MicrosPerSecond
  {
  }

  /** `date.isoformat()`: YYYY-MM-DD. */
  function IsoDate(d: Date): (s: string)
    ensures |s| == 10 && s[4] == '-' && s[7] == '-'
  {
    var (y, m, day) := CivilFromDays(d.days);
    Fields(Digits(y, 4), '-', Digits(m, 2), '-', Digits(day, 2))
  }

  /** The fields of `date.isoformat()` read back as the year, month and day of the date. */
  lemma IsoDateFields(d: Date)
    ensures var s := IsoDate(d); var ymd := CivilFromDays(d.days);
      (0 <= ymd.0 < 10_000 ==> DigitsValue(s[..4]) == ymd.0) && DigitsValue(s[5..7]) == ymd.1 && DigitsValue(s[8..10]) == ymd.2
  {
    var (y, m, day) := CivilFromDays(d.days);
    YearReadBack(y);
    assert Pow10(2) == 100;
    DigitsReadBack(m, 2);
    DigitsReadBack(day, 2);
    var _ := Fields(Digits(y, 4), '-', Digits(m, 2), '-', Digits(day, 2));
  }

  /** Three fields joined by two separators, and where each field sits in the result. */
  function Fields(a: string, sep1: char, b: string, sep2: char, c: string): (s: string)
    ensures s == a + [sep1] + b + [sep2] + c
    ensures |s| == |a| + |b| + |c| + 2 && s[|a|] == sep1 && s[|a| + 1 + |b|] == sep2
    ensures s[..|a|] == a && s[|a| + 1..|a| + 1 + |b|] == b && s[|a| + 2 + |b|..] == c
  {
    a + [sep1] + b + [sep2] + c
  }

  lemma YearReadBack(y: int)
    ensures 0 <= y < 10_000 ==> DigitsValue(Digits(y, 4)) == y
  {
    if 0 <= y < 10_000 {
      assert Pow10(4) == 10_000;
      DigitsReadBack(y, 4);
    }
  }

  /** The day count a YYYY-MM-DD text names. */
  function ReadIsoDate(s: string): Date
    requires |s| >= 10
  {
    Date(DaysFromCivil(DigitsValue(s[..4]), DigitsValue(s[5..7]), DigitsValue(s[8..10])))
  }

  /** Reading `date.isoformat()` back names the same date, for the four-digit years Python has. */
  lemma IsoDateReadsBack(d: Date)
    requires 0 <= CivilFromDays(d.days).0 < 10_000
    ensures ReadIsoDate(IsoDate(d)) == d
  {
    IsoDateFields(d);
    CivilRoundTrip(d.days);
  }

  /** The microsecond of the day that HH:MM:SS and an optional six-digit fraction name. */
  function ReadClock(s: string): int
    requires |s| >= 8
  {
    var fraction := if |s| >= 15 then DigitsValue(s[9..15]) else 0;
    ((DigitsValue(s[..2]) * 60 + DigitsValue(s[3..5])) * 60 + DigitsValue(s[6..8])) * MicrosPerSecond + fraction
  }

  /** `datetime.isoformat()`: YYYY-MM-DDTHH:MM:SS, then .ffffff when the microsecond is not zero. */
  function IsoDateTime(t: DateTime): (s: string)
    ensures |s| == (if t.micros % MicrosPerSecond == 0 then 19 else 26)
    ensures s[10] == 'T' && s[13] == ':' && s[16] == ':'
    ensures |s| == 26 ==> s[19] == '.'
    ensures s[..10] == IsoDate(Date(t.micros / MicrosPerDay))
    ensures DigitsValue(s[11..13]) < 24 && DigitsValue(s[14..16]) < 60 && DigitsValue(s[17..19]) < 60
    ensures ReadClock(s[11..]) == t.micros % MicrosPerDay
  {
    MicroOfDay(t.micros);
    DateAndTimeOfDay(IsoDate(Date(t.micros / MicrosPerDay)), t.micros % MicrosPerDay)
  }

  /** A date text followed by the ISO time of the microsecond `inDay` of the day. */
  function DateAndTimeOfDay(date: string, inDay: int): (s: string)
    requires |date| == 10 && 0 <= inDay < MicrosPerDay
    ensures |s| == (if inDay % MicrosPerSecond == 0 then 19 else 26)
    ensures s[..10] == date && s[10] == 'T' && s[13] == ':' && s[16] == ':'
    ensures |s| == 26 ==> s[19] == '.'
    ensures DigitsValue(s[11..13]) < 24 && DigitsValue(s[14..16]) < 60 && DigitsValue(s[17..19]) < 60
    ensures ReadClock(s[11..]) == inDay
  {
    var secs := inDay / MicrosPerSecond;
    var micro := inDay % MicrosPerSecond;
    var clock := ClockOf(secs);
    var fraction := if micro == 0 then "" else "." + Digits(micro, 6);
    FractionReadBack(clock, micro, fraction);
    DateAndClock(date, clock, fraction)
  }

  /** A date, a `T`, a clock and a fraction, and where each part sits in the result. */
  function DateAndClock(date: string, clock: string, fraction: string): (s: string)
    requires |date| == 10 && |clock| == 8
    ensures |s| == 19 + |fraction| && s[..10] == date && s[10] == 'T' && s[11..] == clock + fraction
    ensures s[13] == clock[2] && s[16] == clock[5] && (|fraction| > 0 ==> s[19] == fraction[0])
    ensures s[11..13] == clock[..2] && s[14..16] == clock[3..5] && s[17..19] == clock[6..8]
  {
    date + "T" + clock + fraction
  }

  /** HH:MM:SS of the second `secs` of the day. */
  function ClockOf(secs: int): (clock: string)
    requires 0 <= secs < 86_400
    ensures |clock| == 8 && clock[2] == ':' && clock[5] == ':'
    ensures DigitsValue(clock[..2]) < 24 && DigitsValue(clock[3..5]) < 60 && DigitsValue(clock[6..8]) < 60
    ensures (DigitsValue(clock[..2]) * 60 + DigitsValue(clock[3..5])) * 60 + DigitsValue(clock[6..8]) == secs
  {
    ClockParts(secs);
    DigitsReadBack(secs / 3600, 2);
    DigitsReadBack(secs / 60 % 60, 2);
    DigitsReadBack(secs % 60, 2);
    Fields(Digits(secs / 3600, 2), ':', Digits(secs / 60 % 60, 2), ':', Digits(secs % 60, 2))
  }

  lemma ClockParts(secs: int)
    requires 0 <= secs < 86_400
    ensures 0 <= secs / 3600 < 24 && 0 <= secs / 60 % 60 < 60 && 0 <= secs % 60 < 60
    ensures (secs / 3600 * 60 + secs / 60 % 60) * 60 + secs % 60 == secs
    ensures Pow10(2) == 100
  {
  }

  lemma FractionReadBack(clock: string, micro: int, fraction: string)
    requires |clock| == 8 && 0 <= micro < MicrosPerSecond
    requires fraction == if micro == 0 then "" else "." + Digits(micro, 6)
    ensures |fraction| == (if micro == 0 then 0 else 7) && (micro != 0 ==> fraction[0] == '.')
    ensures ReadClock(clock + fraction) == ReadClock(clock) + micro
  {
    var rest := clock + fraction;
    if micro != 0 {
      assert Pow10(6) == MicrosPerSecond;
      DigitsReadBack(micro, 6);
      assert rest[9..15] == Digits(micro, 6);
    }
    assert rest[..2] == clock[..2] && rest[3..5] == clock[3..5] && rest[6..8] == clock[6..8];
  }

  /** The microsecond count a YYYY-MM-DDTHH:MM:SS[.ffffff] text names. */
  function ReadIsoDateTime(s: string): int
    requires |s| >= 19
  {
    ReadIsoDate(s[..10]).days * MicrosPerDay + ReadClock(s[11..])
  }

  /** Reading `datetime.isoformat()` back gives the same instant, for the four-digit years Python has. */
  lemma IsoDateTimeReadsBack(t: DateTime)
    requires 0 <= CivilFromDays(t.micros / MicrosPerDay).0 < 10_000
    ensures ReadIsoDateTime(IsoDateTime(t)) == t.micros
  {
    var day := t.micros / MicrosPerDay;
    var s := IsoDateTime(t);
    IsoDateReadsBack(Date(day));
    assert s[..19][..10] == s[..10];
    assert ReadIsoDate(s[..10]) == Date(day);
    DayAndTime(t.micros);
  }

  lemma DayAndTime(x: int)
    ensures x / MicrosPerDay * MicrosPerDay + x % MicrosPerDay == x
  {
  }
}
