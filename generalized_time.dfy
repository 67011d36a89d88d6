/** Certificate timestamps: the naive date-times Python's `datetime` holds,
    the X.509 GeneralizedTime text `YYYYMMDDHHMMSSZ` (section 4.1.2.5.2 of
    RFC 5280) that `strptime(..., '%Y%m%d%H%M%SZ')` reads, and the order in
    which `datetime` values compare. */
module GeneralizedTime {
  import opened Wrappers
  import opened Decimal

  /** A naive date and time of day, without time zone or fraction of a second. */
  datatype DateTime = DateTime(year: nat, month: nat, day: nat, hour: nat, minute: nat, second: nat)

  /** A calendar date: what `datetime.date()` keeps of a DateTime. */
  datatype Date = Date(year: nat, month: nat, day: nat)

  predicate IsLeapYear(y: nat) {
    y % 4 == 0 && (y % 100 != 0 || y % 400 == 0)
  }

  function DaysInMonth(y: nat, m: nat): nat {
    if m == 2 then (if IsLeapYear(y) then 29 else 28)
    else if m == 4 || m == 6 || m == 9 || m == 11 then 30
    else 31
  }

  /** The date-times Python's `datetime` constructor accepts: years 1 to 9999,
      a day that exists in its month, and seconds 0 to 59. */
  predicate ValidDateTime(t: DateTime) {
    1 <= t.year <= 9999 && 1 <= t.month <= 12 && 1 <= t.day <= DaysInMonth(t.year, t.month)
    && t.hour < 24 && t.minute < 60 && t.second < 60
  }

  /** `datetime.date()`: the day on which `t` falls, its time of day dropped. */
  function DateOf(t: DateTime): (d: Date)
    ensures ValidDateTime(t) ==> ValidDateTime(Midnight(d))
    ensures ValidDateTime(t) ==>
      Instant(Midnight(d)) <= Instant(t) < Instant(Midnight(d)) + 86400
  {
    Date(t.year, t.month, t.day)
  }

  /** The first second of a date. */
  function Midnight(d: Date): DateTime {
    DateTime(d.year, d.month, d.day, 0, 0, 0)
  }

  // ---------------------------------------------------------------------------
  // Parsing and writing `YYYYMMDDHHMMSSZ`

  /** The six fields of `YYYYMMDDHHMMSS`, read at their fixed positions. */
  function FieldsOf(digits: string): DateTime
    requires |digits| == 14 && AllDigits(digits)
  {
    AllDigitsSlices(digits);
    DateTime(Value(digits[0..4]), Value(digits[4..6]), Value(digits[6..8]),
             Value(digits[8..10]), Value(digits[10..12]), Value(digits[12..14]))
  }

  lemma AllDigitsSlices(digits: string)
    requires |digits| == 14 && AllDigits(digits)
    ensures AllDigits(digits[0..4]) && AllDigits(digits[4..6]) && AllDigits(digits[6..8])
    ensures AllDigits(digits[8..10]) && AllDigits(digits[10..12]) && AllDigits(digits[12..14])
  {
  }

  /** `datetime.strptime(s, '%Y%m%d%H%M%SZ')`: `None` where it raises. */
  function ParseNotAfter(s: string): (r: Option<DateTime>)
    ensures r.Some? ==> ValidDateTime(r.value)
  {
    if |s| == 15 && AllDigits(s[..14]) && s[14] == 'Z' then
      var t := FieldsOf(s[..14]);
      if ValidDateTime(t) then Some(t) else None
    else
      None
  }

  /** The GeneralizedTime text of a date-time, every field zero-padded. */
  function FormatNotAfter(t: DateTime): (s: string)
    ensures |s| == 15 && AllDigits(s[..14]) && s[14] == 'Z'
  {
    Numeral(t.year, 4) + Numeral(t.month, 2) + Numeral(t.day, 2)
    + Numeral(t.hour, 2) + Numeral(t.minute, 2) + Numeral(t.second, 2) + "Z"
  }

  /** Every valid date-time written as GeneralizedTime parses back to itself. */
  lemma ParseFormat(t: DateTime)
    requires ValidDateTime(t)
    ensures ParseNotAfter(FormatNotAfter(t)) == Some(t)
  {
    var s := FormatNotAfter(t);
    var digits := s[..14];
    AllDigitsSlices(digits);
    assert digits[0..4] == Numeral(t.year, 4);
    assert digits[4..6] == Numeral(t.month, 2);
    assert digits[6..8] == Numeral(t.day, 2);
    assert digits[8..10] == Numeral(t.hour, 2);
    assert digits[10..12] == Numeral(t.minute, 2);
    assert digits[12..14] == Numeral(t.second, 2);
    assert Pow10(2) == 100 && Pow10(4) == 10000;
    ValueOfNumeral(t.year, 4);
    ValueOfNumeral(t.month, 2);
    ValueOfNumeral(t.day, 2);
    ValueOfNumeral(t.hour, 2);
    ValueOfNumeral(t.minute, 2);
    ValueOfNumeral(t.second, 2);
  }

  /** Whatever parses is exactly the GeneralizedTime text of what it parses to:
      the parser reads each field at its fixed position and accepts nothing else. */
  lemma FormatParse(s: string, t: DateTime)
    requires ParseNotAfter(s) == Some(t)
    ensures FormatNotAfter(t) == s
  {
    var digits := s[..14];
    assert t == FieldsOf(digits);
    FormatFields(digits);
    assert s == digits + "Z";
  }

  lemma FormatFields(digits: string)
    requires |digits| == 14 && AllDigits(digits)
    ensures FormatNotAfter(FieldsOf(digits)) == digits + "Z"
  {
    AllDigitsSlices(digits);
    var year, month, day := digits[0..4], digits[4..6], digits[6..8];
    var hour, minute, second := digits[8..10], digits[10..12], digits[12..14];
    NumeralOfValue(year);
    NumeralOfValue(month);
    NumeralOfValue(day);
    NumeralOfValue(hour);
    NumeralOfValue(minute);
    NumeralOfValue(second);
    assert digits == year + month + day + hour + minute + second;
  }

  // ---------------------------------------------------------------------------
  // Order

  /** `a < b` on naive `datetime` values: field by field, most significant first. */
  predicate Before(a: DateTime, b: DateTime)
    ensures Before(a, b) ==> a != b
  {
    if a.year != b.year then a.year < b.year
    else if a.month != b.month then a.month < b.month
    else if a.day != b.day then a.day < b.day
    else if a.hour != b.hour then a.hour < b.hour
    else if a.minute != b.minute then a.minute < b.minute
    else a.second < b.second
  }

  function DaysInYear(y: nat): nat {
    if IsLeapYear(y) then 366 else 365
  }

  /** Days from 1 January of year 1 to 1 January of year `y` (proleptic Gregorian). */
  function DaysBeforeYear(y: nat): nat {
    if y <= 1 then 0 else DaysBeforeYear(y - 1) + DaysInYear(y - 1)
  }

  /** Days from 1 January of year `y` to the first of month `m`. */
  function DaysBeforeMonth(y: nat, m: nat): nat {
    if m <= 1 then 0 else DaysBeforeMonth(y, m - 1) + DaysInMonth(y, m - 1)
  }

  /** Days from 1 January of year 1 to the date of `t`. */
  function DayNumber(t: DateTime): int {
    DaysBeforeYear(t.year) + DaysBeforeMonth(t.year, t.month) + t.day - 1
  }

  /** Seconds from 0001-01-01 00:00:00 to `t`: an independent measure of when `t` is. */
  function Instant(t: DateTime): int {
    DayNumber(t) * 86400 + t.hour * 3600 + t.minute * 60 + t.second
  }

  lemma {:induction false} DaysBeforeYearGrows(y1: nat, y2: nat)
    requires 1 <= y1 < y2
    ensures DaysBeforeYear(y1) + DaysInYear(y1) <= DaysBeforeYear(y2)
  {
    if y1 + 1 < y2 {
      DaysBeforeYearGrows(y1, y2 - 1);
    }
  }

  lemma {:induction false} DaysBeforeMonthGrows(y: nat, m1: nat, m2: nat)
    requires 1 <= m1 < m2
    ensures DaysBeforeMonth(y, m1) + DaysInMonth(y, m1) <= DaysBeforeMonth(y, m2)
  {
    if m1 + 1 < m2 {
      DaysBeforeMonthGrows(y, m1, m2 - 1);
    }
  }

  lemma DaysBeforeMonthYear(y: nat)
    ensures DaysBeforeMonth(y, 13) == DaysInYear(y)
  {
    assert DaysBeforeMonth(y, 2) == 31;
    assert DaysBeforeMonth(y, 3) == 31 + DaysInMonth(y, 2);
    assert DaysBeforeMonth(y, 4) == 62 + DaysInMonth(y, 2);
    assert DaysBeforeMonth(y, 5) == 92 + DaysInMonth(y, 2);
    assert DaysBeforeMonth(y, 6) == 123 + DaysInMonth(y, 2);
    assert DaysBeforeMonth(y, 7) == 153 + DaysInMonth(y, 2);
    assert DaysBeforeMonth(y, 8) == 184 + DaysInMonth(y, 2);
    assert DaysBeforeMonth(y, 9) == 215 + DaysInMonth(y, 2);
    assert DaysBeforeMonth(y, 10) == 245 + DaysInMonth(y, 2);
    assert DaysBeforeMonth(y, 11) == 276 + DaysInMonth(y, 2);
    assert DaysBeforeMonth(y, 12) == 306 + DaysInMonth(y, 2);
  }

  /** A valid date lies within its year. */
  lemma DayWithinYear(t: DateTime)
    requires ValidDateTime(t)
    ensures DayNumber(t) < DaysBeforeYear(t.year) + DaysInYear(t.year)
  {
    DaysBeforeMonthYear(t.year);
    if t.month < 12 {
      DaysBeforeMonthGrows(t.year, t.month, 13);
    }
  }

  lemma BeforeEarlierInstant(a: DateTime, b: DateTime)
    requires ValidDateTime(a) && ValidDateTime(b) && Before(a, b)
    ensures Instant(a) < Instant(b)
  {
    if a.year != b.year {
      DayWithinYear(a);
      DaysBeforeYearGrows(a.year, b.year);
    } else if a.month != b.month {
      DaysBeforeMonthGrows(a.year, a.month, b.month);
    }
  }

  /** `Before` is a strict total order on date-times: exactly one of
      `Before(a, b)`, `a == b`, `Before(b, a)` holds. */
  lemma BeforeTrichotomy(a: DateTime, b: DateTime)
    ensures Before(a, b) ==> !Before(b, a) && a != b
    ensures !Before(a, b) && !Before(b, a) ==> a == b
  {
  }

  lemma BeforeTransitive(a: DateTime, b: DateTime, c: DateTime)
    requires Before(a, b) && Before(b, c)
    ensures Before(a, c)
  {
  }

  /** On valid date-times, comparing field by field is comparing points in time. */
  lemma BeforeIsChronological(a: DateTime, b: DateTime)
    requires ValidDateTime(a) && ValidDateTime(b)
    ensures Before(a, b) <==> Instant(a) < Instant(b)
  {
    if Before(a, b) {
      BeforeEarlierInstant(a, b);
    } else if Before(b, a) {
      BeforeEarlierInstant(b, a);
    } else {
      BeforeTrichotomy(a, b);
    }
  }
}
