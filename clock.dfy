/**
 * Instants, their text form and the query window.
 *
 * An instant is a whole number of seconds since 0001-01-01 00:00:00 of the
 * proleptic Gregorian calendar, the first instant Python's `datetime` holds;
 * the last one it holds is 9999-12-31 23:59:59. Day numbers count days from
 * 0001-01-01, as `date.toordinal() - 1` does.
 */
module Clock {
  import opened Wrappers

  /* ---------------- Calendar ---------------- */

  predicate IsLeap(y: int)
  {
    y % 4 == 0 && (y % 100 != 0 || y % 400 == 0)
  }

  function YearDays(y: int): nat
  {
    if IsLeap(y) then 366 else 365
  }

  function MonthDays(y: int, m: int): nat
    requires 1 <= m <= 12
  {
    if m == 2 then (if IsLeap(y) then 29 else 28)
    else if m == 4 || m == 6 || m == 9 || m == 11 then 30
    else 31
  }

  /** Days of year `y` before the first of month `m` (`m == 13` gives the whole year): a table plus the leap day. */
  function DaysBeforeMonth(y: int, m: int): nat
    requires 1 <= m <= 13
  {
    [0, 0, 31, 59, 90, 120, 151, 181, 212, 243, 273, 304, 334, 365][m] + (if m > 2 && IsLeap(y) then 1 else 0)
  }

  /** The month table agrees with the month lengths and sums to the year length. */
  lemma DaysBeforeMonthStep(y: int, m: int)
    requires 1 <= m <= 12
    ensures DaysBeforeMonth(y, m + 1) == DaysBeforeMonth(y, m) + MonthDays(y, m)
    ensures DaysBeforeMonth(y, 1) == 0 && DaysBeforeMonth(y, 13) == YearDays(y)
  {
  }

  /** Days before January 1 of year `y` (from year 1 on), year by year. */
  function DaysBeforeYear(y: int): nat
    decreases y
  {
    if y <= 1 then 0 else DaysBeforeYear(y - 1) + YearDays(y - 1)
  }

  /** The closed form the `datetime` module uses: 365 days a year plus the leap days before `y`. */
  lemma {:induction false} DaysBeforeYearClosed(y: int)
    requires y >= 1
    ensures DaysBeforeYear(y) == (y - 1) * 365 + (y - 1) / 4 - (y - 1) / 100 + (y - 1) / 400
  {
    if y > 1 {
      DaysBeforeYearClosed(y - 1);
      YearDaysCounted(y - 1);
    }
  }

  /** A year's length is 365 plus the change in the leap-day count the closed form uses. */
  lemma YearDaysCounted(p: int)
    ensures YearDays(p) == 365 + (p / 4 - (p - 1) / 4) - (p / 100 - (p - 1) / 100) + (p / 400 - (p - 1) / 400)
  {
    DivStep(p, 4);
    DivStep(p, 100);
    DivStep(p, 400);
    LeapDivisors(p);
  }

  /** A multiple of 400 is a multiple of 100, and a multiple of 100 is a multiple of 4. */
  lemma LeapDivisors(p: int)
    ensures p % 400 == 0 ==> p % 100 == 0
    ensures p % 100 == 0 ==> p % 4 == 0
  {
    if p % 400 == 0 {
      var q := p / 400;
      assert p == 100 * (4 * q);
      assert p / 100 == 4 * q;
    }
    if p % 100 == 0 {
      var h := p / 100;
      assert p == 4 * (25 * h);
      assert p / 4 == 25 * h;
    }
  }




  /** Stepping from `p - 1` to `p` moves the quotient by `d` exactly at the multiples of `d`. */
  lemma DivStep(p: int, d: int)
    requires d == 4 || d == 100 || d == 400
    ensures p / d - (p - 1) / d == if p % d == 0 then 1 else 0
  {
    if d == 4 {
      assert p / 4 - (p - 1) / 4 == if p % 4 == 0 then 1 else 0;
    } else if d == 100 {
      assert p / 100 - (p - 1) / 100 == if p % 100 == 0 then 1 else 0;
    } else {
      assert p / 400 - (p - 1) / 400 == if p % 400 == 0 then 1 else 0;
    }
  }


  lemma {:induction false} DaysBeforeYearMono(a: int, b: int)
    requires 1 <= a <= b
    ensures DaysBeforeYear(a) + 365 * (b - a) <= DaysBeforeYear(b)
    decreases b - a
  {
    if a < b {
      DaysBeforeYearMono(a + 1, b);
    }
  }

  /** The day number of 10000-01-01, one past the last day `datetime` holds. */
  const MaxDay: int := 3652059

  /** The instant one past 9999-12-31 23:59:59. */
  const MaxInstant: int := MaxDay * 86400

  predicate ValidDate(y: int, m: int, d: int)
  {
    1 <= y <= 9999 && 1 <= m <= 12 && 1 <= d <= MonthDays(y, m)
  }

  /** Day number of a date: days since 0001-01-01. */
  function DayNumber(y: int, m: int, d: int): int
    requires 1 <= m <= 12
  {
    DaysBeforeYear(y) + DaysBeforeMonth(y, m) + d - 1
  }

  datatype Date = Date(year: int, month: int, day: int)

  /** The year holding day `n` counted from the first of year `y`, and the day's index in that year. */
  function YearOf(n: nat, y: int): (r: (int, nat))
    requires y >= 1
    ensures r.0 >= y && r.1 < YearDays(r.0)
    ensures DaysBeforeYear(r.0) - DaysBeforeYear(y) + r.1 == n
    decreases n
  {
    if n < YearDays(y) then (y, n) else YearOf(n - YearDays(y), y + 1)
  }

  /** The month holding day `r` counted from the first of month `m`, and the day of that month. */
  function MonthOf(y: int, r: nat, m: int): (md: (int, int))
    requires 1 <= m <= 12 && DaysBeforeMonth(y, m) + r < YearDays(y)
    ensures m <= md.0 <= 12 && 1 <= md.1 <= MonthDays(y, md.0)
    ensures DaysBeforeMonth(y, md.0) - DaysBeforeMonth(y, m) + md.1 - 1 == r
    decreases 12 - m
  {
    if r < MonthDays(y, m) then (m, r + 1)
    else if m == 12 then (m, r + 1)
    else MonthOf(y, r - MonthDays(y, m), m + 1)
  }

  /** The calendar date of day number `n`. */
  function DateOf(n: nat): (date: Date)
    ensures date.year >= 1 && 1 <= date.month <= 12 && 1 <= date.day <= MonthDays(date.year, date.month)
    ensures DayNumber(date.year, date.month, date.day) == n
  {
    var (y, r) := YearOf(n, 1);
    DaysBeforeMonthStep(y, 1);
    var (m, d) := MonthOf(y, r, 1);
    Date(y, m, d)
  }

  lemma {:induction false} YearOfAt(y0: int, y: int, r: nat)
    requires 1 <= y0 <= y && r < YearDays(y)
    ensures DaysBeforeYear(y) - DaysBeforeYear(y0) + r >= 0
    ensures YearOf(DaysBeforeYear(y) - DaysBeforeYear(y0) + r, y0) == (y, r)
    decreases y - y0
  {
    if y0 < y {
      DaysBeforeYearMono(y0 + 1, y);
      YearOfAt(y0 + 1, y, r);
      var m := DaysBeforeYear(y) - DaysBeforeYear(y0 + 1) + r;
      YearOfSkip(y0, m);
      assert DaysBeforeYear(y0 + 1) == DaysBeforeYear(y0) + YearDays(y0);
    }
  }

  /** Skipping a whole year moves the search on to the next year. */
  lemma YearOfSkip(y: int, m: nat)
    requires y >= 1
    ensures YearOf(m + YearDays(y), y) == YearOf(m, y + 1)
  {
  }

  lemma {:induction false} MonthOfAt(y: int, m0: int, m: int, d: int)
    requires 1 <= m0 <= m <= 12 && 1 <= d <= MonthDays(y, m)
    ensures DaysBeforeMonth(y, m) - DaysBeforeMonth(y, m0) + d - 1 >= 0
    ensures DaysBeforeMonth(y, m0) + (DaysBeforeMonth(y, m) - DaysBeforeMonth(y, m0) + d - 1) < YearDays(y)
    ensures MonthOf(y, DaysBeforeMonth(y, m) - DaysBeforeMonth(y, m0) + d - 1, m0) == (m, d)
    decreases m - m0
  {
    DaysBeforeMonthStep(y, m);
    DaysBeforeMonthStep(y, m0);
    if m0 < m {
      MonthOfAt(y, m0 + 1, m, d);
    }
  }

  /** Day numbers and dates are inverse: every date from year 1 on has the day number `DateOf` maps back to it. */
  lemma DateOfDayNumber(y: int, m: int, d: int)
    requires y >= 1 && 1 <= m <= 12 && 1 <= d <= MonthDays(y, m)
    ensures DayNumber(y, m, d) >= 0
    ensures DateOf(DayNumber(y, m, d)) == Date(y, m, d)
  {
    MonthOfAt(y, 1, m, d);
    YearOfAt(1, y, DaysBeforeMonth(y, m) + d - 1);
  }

  /** Valid dates are exactly the dates of the day numbers below `MaxDay`. */
  lemma DayNumberRange(y: int, m: int, d: int)
    requires y >= 1 && 1 <= m <= 12 && 1 <= d <= MonthDays(y, m)
    ensures 0 <= DayNumber(y, m, d) < MaxDay <==> y <= 9999
  {
    var end := 10000;
    DaysBeforeMonthStep(y, m);
    DaysBeforeYearClosed(end);
    assert DaysBeforeYear(end) == MaxDay;
    if y < end {
      DaysBeforeYearMono(y + 1, end);
      assert DaysBeforeYear(y + 1) == DaysBeforeYear(y) + YearDays(y);
    } else {
      DaysBeforeYearMono(end, y);
    }
  }

  /* ---------------- Text form ---------------- */

  /** The fields of an instant. */
  datatype Civil = Civil(year: int, month: int, day: int, hour: int, minute: int, second: int)

  function CivilOf(t: int): (c: Civil)
    requires 0 <= t < MaxInstant
    ensures ValidDate(c.year, c.month, c.day)
    ensures 0 <= c.hour < 24 && 0 <= c.minute < 60 && 0 <= c.second < 60
    ensures DayNumber(c.year, c.month, c.day) * 86400 + c.hour * 3600 + c.minute * 60 + c.second == t
  {
    var date := DateOf(t / 86400);
    DayNumberRange(date.year, date.month, date.day);
    var s := t % 86400;
    Civil(date.year, date.month, date.day, s / 3600, s % 3600 / 60, s % 60)
  }

  function DigitChar(n: int): char
    requires 0 <= n <= 9
  {
    ('0' as int + n) as char
  }

  /** A number below 100 as two digits. */
  function Two(n: int): (s: string)
    requires 0 <= n < 100
    ensures |s| == 2 && IsDigit(s[0]) && IsDigit(s[1]) && Val(s[0]) * 10 + Val(s[1]) == n
  {
    [DigitChar(n / 10), DigitChar(n % 10)]
  }

  /** A year as four digits. */
  function Four(n: int): (s: string)
    requires 0 <= n < 10000
    ensures YearText(s) && YearValue(s) == n
  {
    Two(n / 100) + Two(n % 100)
  }

  /** `iso`: the `%Y-%m-%d %H:%M:%S` text of an instant. */
  function Iso(t: int): (s: string)
    requires 0 <= t < MaxInstant
    ensures |s| == 19
  {
    var c := CivilOf(t);
    Four(c.year) + "-" + Two(c.month) + "-" + Two(c.day) + " " + Two(c.hour) + ":" + Two(c.minute) + ":" + Two(c.second)
  }

  /* ---------------- Parsing `%Y-%m-%d %H:%M` ---------------- */

  predicate IsDigit(c: char)
  {
    '0' <= c <= '9'
  }

  function Val(c: char): int
    requires IsDigit(c)
  {
    c as int - '0' as int
  }

  /** `%Y`: exactly four digits. */
  predicate YearText(t: string)
  {
    |t| == 4 && IsDigit(t[0]) && IsDigit(t[1]) && IsDigit(t[2]) && IsDigit(t[3])
  }

  function YearValue(t: string): (v: int)
    requires YearText(t)
    ensures 0 <= v <= 9999
  {
    Val(t[0]) * 1000 + Val(t[1]) * 100 + Val(t[2]) * 10 + Val(t[3])
  }

  /** The characters the `\s` of a text pattern matches. */
  predicate IsSpace(c: char)
  {
    ('\t' <= c <= '\r') || ('\U{1C}' <= c <= ' ') || c == '\U{85}' || c == '\U{A0}' || c == '\U{1680}'
    || ('\U{2000}' <= c <= '\U{200A}') || c == '\U{2028}' || c == '\U{2029}' || c == '\U{202F}'
    || c == '\U{205F}' || c == '\U{3000}'
  }

  predicate NotSpace(c: char) { !IsSpace(c) }
  predicate IsDash(c: char) { c == '-' }
  predicate IsColon(c: char) { c == ':' }

  /** The index of the first character of `s` satisfying `p`, or `|s|`. */
  function Find(s: string, p: char -> bool): (i: nat)
    ensures i <= |s| && (i < |s| ==> p(s[i]))
    ensures forall k :: 0 <= k < i ==> !p(s[k])
  {
    if s == [] || p(s[0]) then 0 else 1 + Find(s[1..], p)
  }

  /** `%m`: `1[0-2]|0[1-9]|[1-9]`. */
  predicate MonthText(t: string)
  {
    (|t| == 1 && '1' <= t[0] <= '9')
    || (|t| == 2 && ((t[0] == '1' && '0' <= t[1] <= '2') || (t[0] == '0' && '1' <= t[1] <= '9')))
  }

  /** `%d`: `3[01]|[12]\d|0[1-9]|[1-9]| [1-9]`. */
  predicate DayText(t: string)
  {
    (|t| == 1 && '1' <= t[0] <= '9')
    || (|t| == 2 && ((t[0] == '3' && (t[1] == '0' || t[1] == '1'))
                     || ((t[0] == '1' || t[0] == '2') && IsDigit(t[1]))
                     || ((t[0] == '0' || t[0] == ' ') && '1' <= t[1] <= '9')))
  }

  /** `%H`: `2[0-3]|[0-1]\d|\d`. */
  predicate HourText(t: string)
  {
    (|t| == 1 && IsDigit(t[0]))
    || (|t| == 2 && ((t[0] == '2' && '0' <= t[1] <= '3') || ((t[0] == '0' || t[0] == '1') && IsDigit(t[1]))))
  }

  /** `%M`: `[0-5]\d|\d`. */
  predicate MinuteText(t: string)
  {
    (|t| == 1 && IsDigit(t[0])) || (|t| == 2 && '0' <= t[0] <= '5' && IsDigit(t[1]))
  }

  /** The value of a one- or two-character field; a leading space (in `%d`) counts as nothing. */
  function FieldValue(t: string): int
    requires 1 <= |t| <= 2 && IsDigit(t[|t| - 1]) && (|t| == 2 ==> IsDigit(t[0]) || t[0] == ' ')
  {
    if |t| == 2 && t[0] != ' ' then Val(t[0]) * 10 + Val(t[1]) else Val(t[|t| - 1])
  }

  function MonthValue(t: string): (v: int)
    requires MonthText(t)
    ensures 1 <= v <= 12
  {
    FieldValue(t)
  }

  function DayValue(t: string): (v: int)
    requires DayText(t)
    ensures 1 <= v <= 31
  {
    FieldValue(t)
  }

  function HourValue(t: string): (v: int)
    requires HourText(t)
    ensures 0 <= v < 24
  {
    FieldValue(t)
  }

  function MinuteValue(t: string): (v: int)
    requires MinuteText(t)
    ensures 0 <= v < 60
  {
    FieldValue(t)
  }

  /** The fields `%Y-%m-%d %H:%M` reads, before the date is checked. */
  datatype Fields = Fields(year: int, month: int, day: int, hour: int, minute: int)

  /** The fields are in the ranges their patterns allow. */
  predicate FieldsInRange(f: Fields)
  {
    0 <= f.year <= 9999 && 1 <= f.month <= 12 && 1 <= f.day <= 31 && 0 <= f.hour < 24 && 0 <= f.minute < 60
  }

  /**
   * The pattern match of `strptime` with format `%Y-%m-%d %H:%M`: a year of
   * exactly four digits, then month, day, hour and minute of one or two
   * digits as the patterns above allow, the space matching any run of white
   * space, and nothing left over.
   */
  function MatchFields(s: string): (r: Option<Fields>)
    ensures r.Some? ==> FieldsInRange(r.value)
  {
    if |s| < 5 || !YearText(s[..4]) || s[4] != '-' then None
    else MatchMonth(YearValue(s[..4]), s[5..])
  }

  /** The rest after `%Y-`: the month up to the next dash. */
  function MatchMonth(y: int, r1: string): (r: Option<Fields>)
    requires 0 <= y <= 9999
    ensures r.Some? ==> FieldsInRange(r.value)
  {
    var i := Find(r1, IsDash);
    if i == |r1| || !MonthText(r1[..i]) then None
    else MatchDay(y, MonthValue(r1[..i]), r1[i + 1..])
  }

  /** The rest after `%m-`: the day up to the white space. */
  function MatchDay(y: int, mo: int, r2: string): (r: Option<Fields>)
    requires 0 <= y <= 9999 && 1 <= mo <= 12
    ensures r.Some? ==> FieldsInRange(r.value)
  {
    var j := if r2 != [] && r2[0] == ' ' then 2 else Find(r2, IsSpace);
    if j >= |r2| || !IsSpace(r2[j]) || !DayText(r2[..j]) then None
    else MatchTime(y, mo, DayValue(r2[..j]), r2[j..])
  }

  /** The rest from the white space on: hour and minute around the colon. */
  function MatchTime(y: int, mo: int, d: int, r3: string): (r: Option<Fields>)
    requires 0 <= y <= 9999 && 1 <= mo <= 12 && 1 <= d <= 31
    ensures r.Some? ==> FieldsInRange(r.value)
  {
    var r4 := r3[Find(r3, NotSpace)..];
    var h := Find(r4, IsColon);
    if h == |r4| || !HourText(r4[..h]) || !MinuteText(r4[h + 1..]) then None
    else Some(Fields(y, mo, d, HourValue(r4[..h]), MinuteValue(r4[h + 1..])))
  }

  /** The instant of minute `mm` of hour `hh` of day `n`. */
  function MinuteInstant(n: int, hh: int, mm: int): (t: int)
    requires 0 <= n < MaxDay && 0 <= hh < 24 && 0 <= mm < 60
    ensures 0 <= t < MaxInstant && t % 60 == 0
  {
    var t := 60 * (n * 1440 + hh * 60 + mm);
    assert t == n * 86400 + hh * 3600 + mm * 60;
    t
  }

  /**
   * `datetime.strptime(s, '%Y-%m-%d %H:%M')` as an instant; `None` stands for
   * the `ValueError` of a text that does not match or a date that does not
   * exist (year 0, February 30).
   */
  function ParseMinute(s: string): (r: Option<int>)
    ensures r.Some? ==> 0 <= r.value < MaxInstant && r.value % 60 == 0
  {
    match MatchFields(s)
    case None => None
    case Some(f) =>
      if f.year < 1 || f.day > MonthDays(f.year, f.month) then None
      else
        DayNumberRange(f.year, f.month, f.day);
        Some(MinuteInstant(DayNumber(f.year, f.month, f.day), f.hour, f.minute))
  }

  lemma {:induction false} FindAt(s: string, p: char -> bool, i: nat)
    requires i < |s| && p(s[i]) && forall k :: 0 <= k < i ==> !p(s[k])
    ensures Find(s, p) == i
  {
    if i > 0 {
      FindAt(s[1..], p, i - 1);
    }
  }

  /** Two-digit fields in range match their patterns and read back as their values. */
  lemma TwoFields(mo: int, d: int, hh: int, mm: int)
    requires 1 <= mo <= 12 && 1 <= d <= 31 && 0 <= hh < 24 && 0 <= mm < 60
    ensures MonthText(Two(mo)) && MonthValue(Two(mo)) == mo
    ensures DayText(Two(d)) && DayValue(Two(d)) == d
    ensures HourText(Two(hh)) && HourValue(Two(hh)) == hh
    ensures MinuteText(Two(mm)) && MinuteValue(Two(mm)) == mm
    ensures !IsSpace(Two(d)[0]) && !IsSpace(Two(d)[1]) && !IsSpace(Two(hh)[0])
  {
  }

  /** The zero-padded text of in-range fields matches the pattern and reads back as those fields. */
  lemma MatchPadded(year: int, month: int, day: int, hour: int, minute: int)
    requires 0 <= year < 10000 && 1 <= month <= 12 && 1 <= day <= 31 && 0 <= hour < 24 && 0 <= minute < 60
    ensures MatchFields(Four(year) + "-" + Two(month) + "-" + Two(day) + " " + Two(hour) + ":" + Two(minute))
         == Some(Fields(year, month, day, hour, minute))
  {
    var s := Four(year) + "-" + Two(month) + "-" + Two(day) + " " + Two(hour) + ":" + Two(minute);
    assert s[..4] == Four(year) && s[4] == '-';
    assert s[5..] == Two(month) + "-" + Two(day) + " " + Two(hour) + ":" + Two(minute);
    MatchMonthPadded(year, month, day, hour, minute);
  }

  lemma MatchMonthPadded(year: int, month: int, day: int, hour: int, minute: int)
    requires 0 <= year < 10000 && 1 <= month <= 12 && 1 <= day <= 31 && 0 <= hour < 24 && 0 <= minute < 60
    ensures MatchMonth(year, Two(month) + "-" + Two(day) + " " + Two(hour) + ":" + Two(minute))
         == Some(Fields(year, month, day, hour, minute))
  {
    var r1 := Two(month) + "-" + Two(day) + " " + Two(hour) + ":" + Two(minute);
    FindAt(r1, IsDash, 2);
    assert r1[..2] == Two(month);
    assert r1[3..] == Two(day) + " " + Two(hour) + ":" + Two(minute);
    TwoFields(month, day, hour, minute);
    MatchDayPadded(year, month, day, hour, minute);
  }

  lemma MatchDayPadded(year: int, month: int, day: int, hour: int, minute: int)
    requires 0 <= year < 10000 && 1 <= month <= 12 && 1 <= day <= 31 && 0 <= hour < 24 && 0 <= minute < 60
    ensures MatchDay(year, month, Two(day) + " " + Two(hour) + ":" + Two(minute))
         == Some(Fields(year, month, day, hour, minute))
  {
    var r2 := Two(day) + " " + Two(hour) + ":" + Two(minute);
    TwoFields(month, day, hour, minute);
    assert r2[0] == Two(day)[0] && r2[0] != ' ';
    FindAt(r2, IsSpace, 2);
    assert r2[..2] == Two(day) && IsSpace(r2[2]);
    assert r2[2..] == " " + Two(hour) + ":" + Two(minute);
    MatchTimePadded(year, month, day, hour, minute);
  }

  lemma MatchTimePadded(year: int, month: int, day: int, hour: int, minute: int)
    requires 0 <= year < 10000 && 1 <= month <= 12 && 1 <= day <= 31 && 0 <= hour < 24 && 0 <= minute < 60
    ensures MatchTime(year, month, day, " " + Two(hour) + ":" + Two(minute))
         == Some(Fields(year, month, day, hour, minute))
  {
    var r3 := " " + Two(hour) + ":" + Two(minute);
    TwoFields(month, day, hour, minute);
    FindAt(r3, NotSpace, 1);
    var r4 := r3[1..];
    assert r4 == Two(hour) + ":" + Two(minute);
    FindAt(r4, IsColon, 2);
    assert r4[..2] == Two(hour) && r4[3..] == Two(minute);
  }

  /** The text `%Y-%m-%d %H:%M` of the fields of an instant: `iso` without the seconds. */
  function MinuteString(c: Civil): string
    requires 0 <= c.year < 10000 && 1 <= c.month <= 12 && 1 <= c.day <= 31 && 0 <= c.hour < 24 && 0 <= c.minute < 60
  {
    Four(c.year) + "-" + Two(c.month) + "-" + Two(c.day) + " " + Two(c.hour) + ":" + Two(c.minute)
  }

  lemma IsoMinuteString(t: int)
    requires 0 <= t < MaxInstant
    ensures Iso(t)[..16] == MinuteString(CivilOf(t))
  {
  }

  lemma ParseMinuteString(c: Civil)
    requires ValidDate(c.year, c.month, c.day) && 0 <= c.hour < 24 && 0 <= c.minute < 60
    ensures 0 <= DayNumber(c.year, c.month, c.day) < MaxDay
    ensures ParseMinute(MinuteString(c)) == Some(MinuteInstant(DayNumber(c.year, c.month, c.day), c.hour, c.minute))
  {
    MatchPadded(c.year, c.month, c.day, c.hour, c.minute);
    DayNumberRange(c.year, c.month, c.day);
  }

  lemma CivilMinute(t: int, c: Civil)
    requires 0 <= t < MaxInstant && c == CivilOf(t)
    ensures 0 <= DayNumber(c.year, c.month, c.day) < MaxDay
    ensures var m := MinuteInstant(DayNumber(c.year, c.month, c.day), c.hour, c.minute);
            m <= t < m + 60
  {
    DayNumberRange(c.year, c.month, c.day);
  }

  /**
   * Round trip: reading back the first sixteen characters of `iso(t)`
   * (everything up to the minutes) yields the start of `t`'s minute.
   */
  lemma ParseIsoMinute(t: int)
    requires 0 <= t < MaxInstant
    ensures var r := ParseMinute(Iso(t)[..16]);
            r.Some? && r.value % 60 == 0 && r.value <= t < r.value + 60
  {
    var c := CivilOf(t);
    IsoMinuteString(t);
    ParseMinuteString(c);
    CivilMinute(t, c);
  }

  /* ---------------- Query window ---------------- */

  /** `s.replace('T', ' ')`. */
  function NormalizeT(s: string): (r: string)
    ensures |r| == |s| && 'T' !in r
    ensures forall k :: 0 <= k < |s| && s[k] != 'T' ==> r[k] == s[k]
    ensures forall k :: 0 <= k < |s| && s[k] == 'T' ==> r[k] == ' '
  {
    seq(|s|, k requires 0 <= k < |s| => if s[k] == 'T' then ' ' else s[k])
  }

  /** A text without `T` is left as it is, so normalising twice is normalising once. */
  lemma NormalizeTFixed(s: string)
    requires 'T' !in s
    ensures NormalizeT(s) == s
  {
  }

  /** Replacing `T` by a space a second time changes nothing. */
  lemma NormalizeTIdempotent(s: string)
    ensures NormalizeT(NormalizeT(s)) == NormalizeT(s)
  {
    NormalizeTFixed(NormalizeT(s));
  }

  datatype WindowError =
    | BadTime     // a bound `strptime` rejects (`ValueError`)
    | OutOfRange  // `now - timedelta(hours=...)` leaves the `datetime` range (`OverflowError`)

  /** The window of two given bounds: each parsed to minute precision after `T` becomes a space. */
  function Between(from: string, to: string): (r: Result<(int, int), WindowError>)
    ensures r.Success? <==> ParseMinute(NormalizeT(from)).Some? && ParseMinute(NormalizeT(to)).Some?
    ensures r.Success? ==> r.value.0 % 60 == 0 && r.value.1 % 60 == 0
    ensures r.Success? ==> 0 <= r.value.0 < MaxInstant && 0 <= r.value.1 < MaxInstant
    ensures r.Failure? ==> r.error == BadTime
  {
    match (ParseMinute(NormalizeT(from)), ParseMinute(NormalizeT(to)))
    case (Some(s), Some(e)) => Success((s, e))
    case _ => Failure(BadTime)
  }

  /** Normalising a bound first does not change its window. */
  lemma BetweenNormalized(from: string, to: string)
    ensures Between(NormalizeT(from), NormalizeT(to)) == Between(from, to)
  {
    NormalizeTFixed(NormalizeT(from));
    NormalizeTFixed(NormalizeT(to));
  }

  /**
   * The `[start, end]` window of a history request. Without both `from` and
   * `to` it is the last `hours` hours (24 when absent) up to `now`, in whole
   * seconds as `iso` writes them; otherwise it is `Between` the two bounds
   * and `hours` is ignored.
   */
  function Window(from: Option<string>, to: Option<string>, hours: Option<int>, now: int): (r: Result<(int, int), WindowError>)
    requires 0 <= now < MaxInstant
    ensures !Truthy(from) || !Truthy(to) ==>
              (r.Success? <==> 0 <= now - 3600 * hours.GetOr(24) < MaxInstant) &&
              (r.Success? ==> r.value.1 == now && r.value.1 - r.value.0 == 3600 * hours.GetOr(24)) &&
              (r.Failure? ==> r.error == OutOfRange)
    ensures Truthy(from) && Truthy(to) ==> r == Between(from.value, to.value)
    ensures r.Success? ==> 0 <= r.value.0 < MaxInstant && 0 <= r.value.1 < MaxInstant
  {
    if !Truthy(from) || !Truthy(to) then
      var start := now - 3600 * hours.GetOr(24);
      if 0 <= start < MaxInstant then Success((start, now)) else Failure(OutOfRange)
    else
      Between(from.value, to.value)
  }

  /**
   * Both textual forms give the same window: any `T` in a bound may be
   * written as a space instead, and `hours` is ignored once both bounds are given.
   */
  lemma WindowTForm(from: string, to: string, hours: Option<int>, hours': Option<int>, now: int)
    requires 0 <= now < MaxInstant && from != [] && to != []
    ensures Window(Some(from), Some(to), hours, now)
         == Window(Some(NormalizeT(from)), Some(NormalizeT(to)), hours', now)
  {
    assert Truthy(Some(NormalizeT(from))) && Truthy(Some(NormalizeT(to)));
    BetweenNormalized(from, to);
  }

  /** The `datetime-local` text of an instant: `iso` up to the minutes, with `T` between date and time. */
  function LocalText(t: int): (s: string)
    requires 0 <= t < MaxInstant
  {
    Iso(t)[..10] + "T" + Iso(t)[11..16]
  }

  /**
   * A window given as two `datetime-local` texts spans the minutes of its
   * two instants, exactly as the space-separated texts do.
   */
  lemma WindowLocalText(a: int, b: int, hours: Option<int>, now: int)
    requires 0 <= a < MaxInstant && 0 <= b < MaxInstant && 0 <= now < MaxInstant
    ensures var r := Window(Some(LocalText(a)), Some(LocalText(b)), hours, now);
            r.Success? && r.value.0 <= a < r.value.0 + 60 && r.value.1 <= b < r.value.1 + 60
  {
    assert Truthy(Some(LocalText(a))) && Truthy(Some(LocalText(b)));
    LocalTextNormal(a);
    LocalTextNormal(b);
    ParseIsoMinute(a);
    ParseIsoMinute(b);
  }

  /** Normalising a `datetime-local` text gives the first 16 characters of `iso`. */
  lemma LocalTextNormal(t: int)
    requires 0 <= t < MaxInstant
    ensures NormalizeT(LocalText(t)) == Iso(t)[..16]
  {
    IsoNoT(t);
    var s, l := Iso(t), LocalText(t);
    forall k | 0 <= k < 16
      ensures NormalizeT(l)[k] == s[k]
    {
      if k != 10 {
        assert l[k] == s[k] && s[k] in s;
      }
    }
  }

  /** `iso` text has no `T` and a space between date and time. */
  lemma IsoNoT(t: int)
    requires 0 <= t < MaxInstant
    ensures 'T' !in Iso(t) && Iso(t)[10] == ' '
  {
    var c := CivilOf(t);
    var s := Iso(t);
    assert s == Four(c.year) + "-" + Two(c.month) + "-" + Two(c.day) + " " + Two(c.hour) + ":" + Two(c.minute) + ":" + Two(c.second);
    forall k | 0 <= k < 19
      ensures s[k] != 'T'
    {
      assert k in {4, 7, 10, 13, 16} || IsDigit(s[k]);
    }
  }
}
