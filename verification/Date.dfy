/** Calendar arithmetic and date formats: gwlib/date.c. */
module Dates {
  import opened Common

  const MINUTE := 60
  const HOUR := 3600
  const DAY := 86400

  // ---------------------------------------------------------------------------
  // The Gregorian calendar, day by day
  // ---------------------------------------------------------------------------

  /** A day; months count from 0. */
  datatype Date = Date(year: int, month: int, day: int)

  predicate Leap(y: int) { y % 4 == 0 && (y % 100 != 0 || y % 400 == 0) }

  function MonthLength(y: int, m: int): int {
    if m == 1 then (if Leap(y) then 29 else 28)
    else if m == 3 || m == 5 || m == 8 || m == 10 then 30
    else 31
  }

  predicate ValidDate(d: Date) {
    d.year >= 1970 && 0 <= d.month < 12 && 1 <= d.day <= MonthLength(d.year, d.month)
  }

  function NextDay(d: Date): Date {
    if d.day < MonthLength(d.year, d.month) then d.(day := d.day + 1)
    else if d.month < 11 then Date(d.year, d.month + 1, 1)
    else Date(d.year + 1, 0, 1)
  }

  /** The n-th day after 1 January 1970, by counting. */
  function Civil(n: nat): Date {
    if n == 0 then Date(1970, 0, 1) else NextDay(Civil(n - 1))
  }

  /** Chronological order. */
  predicate Earlier(a: Date, b: Date) {
    a.year < b.year || (a.year == b.year && (a.month < b.month || (a.month == b.month && a.day < b.day)))
  }

  // ---------------------------------------------------------------------------
  // date_convert_universal
  // ---------------------------------------------------------------------------

  datatype Universal = Universal(year: int, month: int, day: int, hour: int, minute: int, second: int)

  function MonthStart(m: int): int
    requires 0 <= m < 12
  {
    [0, 31, 59, 90, 120, 151, 181, 212, 243, 273, 304, 334][m]
  }

  /** C's division, which truncates. */
  function Quot(a: int, b: int): int
    requires b > 0
  {
    if a >= 0 then a / b else -((-a) / b)
  }

  function LeapDays(y: int): int { Quot(y, 4) - Quot(y, 100) + Quot(y, 400) - 477 }

  function ConvertUniversal(t: Universal): int
    requires 0 <= t.month < 12
  {
    var year := if t.month <= 1 then t.year - 1 else t.year;
    (t.year - 1970) * (365 * DAY) + LeapDays(year) * DAY + MonthStart(t.month) * DAY
    + (t.day - 1) * DAY + t.hour * HOUR + t.minute * MINUTE + t.second
  }

  /** The days in the conversion. */
  ghost function DayCount(d: Date): int
    requires 0 <= d.month < 12
  {
    (d.year - 1970) * 365 + LeapDays(if d.month <= 1 then d.year - 1 else d.year) + MonthStart(d.month) + (d.day - 1)
  }

  lemma LeapStep(y: int)
    requires y >= 1
    ensures LeapDays(y) == LeapDays(y - 1) + (if Leap(y) then 1 else 0)
  {
    Divide4(y);
    Divide100(y);
    Divide400(y);
    Multiples(y);
  }

  lemma Divide4(y: int)
    requires y >= 1
    ensures y / 4 == (y - 1) / 4 + (if y % 4 == 0 then 1 else 0)
  {
  }

  lemma Divide100(y: int)
    requires y >= 1
    ensures y / 100 == (y - 1) / 100 + (if y % 100 == 0 then 1 else 0)
  {
  }

  lemma Divide400(y: int)
    requires y >= 1
    ensures y / 400 == (y - 1) / 400 + (if y % 400 == 0 then 1 else 0)
  {
  }

  lemma Multiples(y: int)
    requires y >= 1
    ensures y % 100 == 0 ==> y % 4 == 0
    ensures y % 400 == 0 ==> y % 100 == 0
  {
    if y % 100 == 0 {
      Times4(25 * (y / 100));
    }
    if y % 400 == 0 {
      Times100(4 * (y / 400));
    }
  }

  lemma Times4(z: int)
    ensures 4 * z % 4 == 0
  {
  }

  lemma Times100(z: int)
    ensures 100 * z % 100 == 0
  {
  }

  /** The first day of a month within its year. */
  ghost function StartOf(y: int, m: int): int
    requires 0 <= m < 12
  {
    MonthStart(m) + (if m > 1 && Leap(y) then 1 else 0)
  }

  ghost function YearStart(y: int): int { (y - 1970) * 365 + LeapDays(y - 1) }

  lemma MonthGap(y: int, m: int)
    requires 0 <= m < 12
    ensures m < 11 ==> StartOf(y, m + 1) == StartOf(y, m) + MonthLength(y, m)
    ensures m == 11 ==> StartOf(y, m) + MonthLength(y, m) == 365 + (if Leap(y) then 1 else 0)
  {
  }

  lemma YearGap(y: int)
    requires y >= 1
    ensures YearStart(y + 1) == YearStart(y) + 365 + (if Leap(y) then 1 else 0)
  {
    LeapStep(y);
  }

  lemma CountSplits(d: Date)
    requires d.year >= 1 && 0 <= d.month < 12
    ensures DayCount(d) == YearStart(d.year) + StartOf(d.year, d.month) + d.day - 1
  {
    hide Leap, MonthStart;
    LeapStep(d.year);
  }

  /** The formula goes up by one from each day to the next. */
  lemma NextCount(d: Date)
    requires ValidDate(d)
    ensures ValidDate(NextDay(d)) && DayCount(NextDay(d)) == DayCount(d) + 1
  {
    hide Leap, LeapDays, DayCount, YearStart;
    MonthGap(d.year, d.month);
    YearGap(d.year);
    CountSplits(d);
    CountSplits(NextDay(d));
  }

  /** The formula is the day-by-day count. */
  lemma {:induction false} CountIs(n: nat)
    ensures ValidDate(Civil(n)) && DayCount(Civil(n)) == n
  {
    if n > 0 {
      CountIs(n - 1);
      NextCount(Civil(n - 1));
    }
  }

  lemma {:induction false} MonthsIncrease(y: int, m: int, n: int)
    requires 0 <= m < n < 12
    ensures StartOf(y, m) + MonthLength(y, m) <= StartOf(y, n)
    decreases n
  {
    hide Leap, MonthStart;
    MonthGap(y, n - 1);
    if m < n - 1 {
      MonthsIncrease(y, m, n - 1);
    }
  }

  lemma WithinYear(d: Date)
    requires ValidDate(d)
    ensures YearStart(d.year) <= DayCount(d) < YearStart(d.year + 1)
  {
    hide Leap, LeapDays, DayCount, YearStart;
    CountSplits(d);
    YearGap(d.year);
    MonthGap(d.year, 11);
    if d.month < 11 {
      MonthsIncrease(d.year, d.month, 11);
    }
  }

  lemma {:induction false} YearsIncrease(y: int, z: int)
    requires 1970 <= y <= z
    ensures YearStart(y) <= YearStart(z)
    decreases z
  {
    if y < z {
      YearsIncrease(y, z - 1);
      YearGap(z - 1);
    }
  }

  lemma EarlierIsSmaller(a: Date, b: Date)
    requires ValidDate(a) && ValidDate(b) && Earlier(a, b)
    ensures DayCount(a) < DayCount(b)
  {
    hide Leap, LeapDays, DayCount, YearStart, StartOf, MonthLength;
    if a.year < b.year {
      WithinYear(a);
      WithinYear(b);
      YearsIncrease(a.year + 1, b.year);
    } else {
      CountSplits(a);
      CountSplits(b);
      if a.month < b.month {
        MonthsIncrease(a.year, a.month, b.month);
      }
    }
  }

  /** Every valid day from 1970 on is reached by counting, after exactly the computed number of days. */
  lemma CivilCount(d: Date)
    requires ValidDate(d)
    ensures DayCount(d) >= 0 && Civil(DayCount(d)) == d
  {
    WithinYear(d);
    YearsIncrease(1970, d.year);
    var c := Civil(DayCount(d));
    CountIs(DayCount(d));
    if Earlier(c, d) {
      EarlierIsSmaller(c, d);
    } else if Earlier(d, c) {
      EarlierIsSmaller(d, c);
    }
  }

  predicate ValidTime(t: Universal) {
    ValidDate(DateOf(t)) && 0 <= t.hour < 24 && 0 <= t.minute < 60 && 0 <= t.second < 60
  }

  function DateOf(t: Universal): Date { Date(t.year, t.month, t.day) }

  function Clock(t: Universal): int { t.hour * HOUR + t.minute * MINUTE + t.second }

  lemma ConvertSplits(t: Universal)
    requires 0 <= t.month < 12
    ensures ConvertUniversal(t) == DayCount(DateOf(t)) * DAY + Clock(t)
  {
  }

  /** gmtime for a time from 1970 on: count the days, then divide up the rest. */
  function Gmtime(t: nat): Universal {
    var d := Civil(t / DAY);
    var r := t % DAY;
    Universal(d.year, d.month, d.day, r / HOUR, r % HOUR / MINUTE, r % MINUTE)
  }

  lemma ClockOf(r: nat)
    requires r < DAY
    ensures r / HOUR * HOUR + r % HOUR / MINUTE * MINUTE + r % MINUTE == r
    ensures r / HOUR < 24 && r % HOUR / MINUTE < 60
  {
  }

  /** date_convert_universal inverts gmtime. */
  lemma ConvertGmtime(t: nat)
    ensures ValidTime(Gmtime(t)) && ConvertUniversal(Gmtime(t)) == t
  {
    CountIs(t / DAY);
    ClockOf(t % DAY);
    ConvertSplits(Gmtime(t));
  }

  /** And gmtime inverts it: the conversion of a valid time is the second at which that time is shown. */
  lemma GmtimeConvert(u: Universal)
    requires ValidTime(u)
    ensures ConvertUniversal(u) >= 0 && Gmtime(ConvertUniversal(u)) == u
  {
    ConvertSplits(u);
    CivilCount(DateOf(u));
    var t := ConvertUniversal(u);
    assert t / DAY == DayCount(DateOf(u)) && t % DAY == Clock(u);
    ClockDivides(u.hour, u.minute, u.second);
  }

  lemma ClockDivides(h: int, m: int, s: int)
    requires 0 <= h && 0 <= m < 60 && 0 <= s < 60
    ensures var r := h * HOUR + m * MINUTE + s;
            r / HOUR == h && r % HOUR / MINUTE == m && r % MINUTE == s
  {
    var r := h * HOUR + m * MINUTE + s;
    assert r / HOUR == h && r % HOUR == m * MINUTE + s;
    assert r == (h * 60 + m) * MINUTE + s;
  }

  /** The conversion is strictly increasing in the fields, most significant first. */
  lemma ConvertIncreases(a: Universal, b: Universal)
    requires ValidTime(a) && ValidTime(b)
    requires Earlier(DateOf(a), DateOf(b)) || (DateOf(a) == DateOf(b) && Clock(a) < Clock(b))
    ensures ConvertUniversal(a) < ConvertUniversal(b)
  {
    ConvertSplits(a);
    ConvertSplits(b);
    if Earlier(DateOf(a), DateOf(b)) {
      EarlierIsSmaller(DateOf(a), DateOf(b));
      assert Clock(a) < DAY <= DAY + Clock(b);
    }
  }

  // ---------------------------------------------------------------------------
  // Numbers in strings
  // ---------------------------------------------------------------------------

  const LONG_MAX := 0x7fff_ffff_ffff_ffff

  function Char(s: string, i: int): Option<char> { if 0 <= i < |s| then Some(s[i]) else None }

  predicate DigitAt(s: string, i: int) { 0 <= i < |s| && IsDigit(s[i]) }

  function DigitValue(c: char): int { c as int - '0' as int }

  /** The run of digits at i: its value added on to acc, and its end. */
  function Digits(s: string, i: nat, acc: int): (int, nat)
    requires i <= |s|
    decreases |s| - i
  {
    if DigitAt(s, i) then Digits(s, i + 1, acc * 10 + DigitValue(s[i])) else (acc, i)
  }

  function SkipBlanks(s: string, i: nat): (r: nat)
    requires i <= |s|
    ensures i <= r <= |s|
    decreases |s| - i
  {
    if i < |s| && IsBlank(s[i]) then SkipBlanks(s, i + 1) else i
  }

  datatype Number = Number(value: int, end: nat) | NoNumber

  /** octstr_parse_long in base 10: blanks, a sign, digits; nothing when there are no digits or too many. */
  function ParseLong(s: string, pos: nat): Number {
    if pos >= |s| then NoNumber
    else
      var i := SkipBlanks(s, pos);
      var negative := i < |s| && s[i] == '-';
      var j := if i < |s| && (s[i] == '-' || s[i] == '+') then i + 1 else i;
      var (v, end) := Digits(s, j, 0);
      if end == j || v > (if negative then LONG_MAX + 1 else LONG_MAX) then NoNumber
      else Number(if negative then -v else v, end)
  }

  /** A number read digit by digit from the left. */
  function Fold(ds: string): int {
    if ds == "" then 0 else Fold(ds[..|ds| - 1]) * 10 + DigitValue(ds[|ds| - 1])
  }

  predicate AllDigits(ds: string) { forall i :: 0 <= i < |ds| ==> IsDigit(ds[i]) }

  /** ds stands in s at pos, and no digit follows. */
  ghost predicate Stands(s: string, pos: nat, ds: string) {
    pos + |ds| <= |s| && s[pos..pos + |ds|] == ds && !DigitAt(s, pos + |ds|)
  }

  lemma {:induction false} DigitsRun(s: string, pos: nat, k: nat)
    requires pos + k <= |s| && AllDigits(s[pos..pos + k])
    ensures Digits(s, pos, 0) == Digits(s, pos + k, Fold(s[pos..pos + k]))
  {
    if k > 0 {
      var ds := s[pos..pos + k];
      assert ds[..k - 1] == s[pos..pos + k - 1];
      assert ds[k - 1] == s[pos + k - 1];
      DigitsRun(s, pos, k - 1);
    }
  }

  /** A run of digits is read back as its value. */
  lemma ParseStanding(s: string, pos: nat, ds: string)
    requires Stands(s, pos, ds) && ds != "" && AllDigits(ds) && Fold(ds) <= LONG_MAX
    ensures ParseLong(s, pos) == Number(Fold(ds), pos + |ds|)
  {
    DigitsRun(s, pos, |ds|);
    assert s[pos] == ds[0];
  }

  function Digit(d: int): (c: char)
    requires 0 <= d < 10
    ensures IsDigit(c) && DigitValue(c) == d
  {
    (d + '0' as int) as char
  }

  /** %02d for a field. */
  function Two(v: int): (r: string)
    requires 0 <= v < 100
    ensures |r| == 2
  {
    [Digit(v / 10), Digit(v % 10)]
  }

  /** %04d for a year. */
  function Four(v: int): (r: string)
    requires 0 <= v < 10000
    ensures |r| == 4
  {
    [Digit(v / 1000), Digit(v / 100 % 10), Digit(v / 10 % 10), Digit(v % 10)]
  }

  /** %d. */
  function Decimal(v: nat): (r: string)
    ensures r != "" && AllDigits(r)
  {
    if v < 10 then [Digit(v)] else Decimal(v / 10) + [Digit(v % 10)]
  }

  lemma {:induction false} FoldDecimal(v: nat)
    ensures Fold(Decimal(v)) == v
  {
    if v >= 10 {
      FoldDecimal(v / 10);
      assert Decimal(v)[..|Decimal(v)| - 1] == Decimal(v / 10);
    } else {
      assert Decimal(v)[..0] == "";
    }
  }

  lemma FoldTwo(v: int)
    requires 0 <= v < 100
    ensures Fold(Two(v)) == v && AllDigits(Two(v))
  {
    var t := Two(v);
    assert t[..1][..0] == "" && t[..1] == [t[0]];
    assert Fold(t[..1]) == v / 10;
  }

  lemma FoldFour(v: int)
    requires 0 <= v < 10000
    ensures Fold(Four(v)) == v && AllDigits(Four(v))
  {
    var t := Four(v);
    assert t[..1][..0] == "" && t[..2][..1] == t[..1] && t[..3][..2] == t[..2];
    assert Fold(t[..1]) == v / 1000;
    assert Fold(t[..2]) == v / 1000 * 10 + v / 100 % 10 == v / 100;
    assert Fold(t[..3]) == v / 100 * 10 + v / 10 % 10 == v / 10;
  }

  // ---------------------------------------------------------------------------
  // The three HTTP date forms, section 3.3.1 of RFC 2616
  // ---------------------------------------------------------------------------

  const MONTH_NAMES := ["Jan", "Feb", "Mar", "Apr", "May", "Jun", "Jul", "Aug", "Sep", "Oct", "Nov", "Dec"]
  const DAY_NAMES := ["Sun", "Mon", "Tue", "Wed", "Thu", "Fri", "Sat"]

  /** Where the fields of a form are, counted from the blank after the day name. */
  datatype Form = Form(need: nat, monthAt: nat, dayAt: nat, yearAt: nat, yearEnd: nat, timeAt: nat, century: bool)

  const RFC1123 := Form(24, 3, 0, 7, 11, 12, true)
  const RFC850 := Form(22, 3, 0, 7, 9, 10, false)
  const ASCTIME := Form(16, 0, 4, 16, 20, 7, true)

  function FormOf(s: string, pos: nat): Form {
    if DigitAt(s, pos) && Char(s, pos + 2) == Some(' ') then RFC1123
    else if DigitAt(s, pos) && Char(s, pos + 2) == Some('-') then RFC850
    else ASCTIME
  }

  /** A number that takes up exactly from..to. */
  function Field(s: string, from: nat, to: nat): Option<int> {
    match ParseLong(s, from)
    case Number(v, end) => if end == to then Some(v) else None
    case NoNumber => None
  }

  /** octstr_copy. */
  function Copy(s: string, from: nat, len: nat): string {
    if from >= |s| then "" else if from + len > |s| then s[from..] else s[from..from + len]
  }

  /** A year written with two digits lies in 1961 to 2060. */
  function FullYear(f: Form, y: int): int { if f.century then y else if y > 60 then y + 1900 else y + 2000 }

  /** What a date string means, or -1. */
  function ParseHttp(s: string): int {
    var blank := Find(s, ' ', 0);
    if blank < 0 || blank == |s| - 1 then -1
    else
      var pos := blank + 1;
      var f := FormOf(s, pos);
      var day := Field(s, pos + f.dayAt, pos + f.dayAt + 2);
      var year := Field(s, pos + f.yearAt, pos + f.yearEnd);
      var hour := Field(s, pos + f.timeAt, pos + f.timeAt + 2);
      var minute := Field(s, pos + f.timeAt + 3, pos + f.timeAt + 5);
      var second := Field(s, pos + f.timeAt + 6, pos + f.timeAt + 8);
      var month := Copy(s, pos + f.monthAt, 3);
      if |s| - pos < f.need || day.None? || year.None? || hour.None? || minute.None? || second.None? || month !in MONTH_NAMES
      then -1
      else ConvertUniversal(Universal(FullYear(f, year.value), MonthIndex(month), day.value, hour.value, minute.value, second.value))
  }

  function MonthIndex(name: string): (m: int)
    requires name in MONTH_NAMES
    ensures 0 <= m < 12 && MONTH_NAMES[m] == name
  {
    MonthFrom(name, 0)
  }

  function MonthFrom(name: string, i: nat): (m: int)
    requires i <= 12 && exists k :: i <= k < 12 && MONTH_NAMES[k] == name
    ensures i <= m < 12 && MONTH_NAMES[m] == name
    decreases 12 - i
  {
    if MONTH_NAMES[i] == name then i else MonthFrom(name, i + 1)
  }

  /** The loop over month names. */
  method FindMonth(name: string) returns (month: int)
    ensures month == if name in MONTH_NAMES then MonthIndex(name) else 12
  {
    month := 0;
    while month < 12
      invariant 0 <= month <= 12
      invariant forall k :: 0 <= k < month ==> MONTH_NAMES[k] != name
      invariant name in MONTH_NAMES ==> month < 12 && MonthIndex(name) == MonthFrom(name, month)
    {
      if MONTH_NAMES[month] == name {
        break;
      }
      month := month + 1;
    }
  }

  /** date_parse_http. */
  method DateParseHttp(date: string) returns (r: int)
    ensures r == ParseHttp(date)
  {
    hide ParseLong, ConvertUniversal, Copy, MonthIndex;
    var pos := Find(date, ' ', 0);
    if pos < 0 || pos == |date| - 1 {
      return -1;
    }
    pos := pos + 1;
    var year, day, hour, minute, second;
    var monthstr;
    if DigitAt(date, pos) && Char(date, pos + 2) == Some(' ') {
      if |date| - pos < 24 { return -1; }
      day := Field(date, pos, pos + 2);
      if day.None? { return -1; }
      monthstr := Copy(date, pos + 3, 3);
      year := Field(date, pos + 7, pos + 11);
      if year.None? { return -1; }
      hour := Field(date, pos + 12, pos + 14);
      if hour.None? { return -1; }
      minute := Field(date, pos + 15, pos + 17);
      if minute.None? { return -1; }
      second := Field(date, pos + 18, pos + 20);
      if second.None? { return -1; }
    } else if DigitAt(date, pos) && Char(date, pos + 2) == Some('-') {
      if |date| - pos < 22 { return -1; }
      day := Field(date, pos, pos + 2);
      if day.None? { return -1; }
      monthstr := Copy(date, pos + 3, 3);
      year := Field(date, pos + 7, pos + 9);
      if year.None? { return -1; }
      if year.value > 60 {
        year := Some(year.value + 1900);
      } else {
        year := Some(year.value + 2000);
      }
      hour := Field(date, pos + 10, pos + 12);
      if hour.None? { return -1; }
      minute := Field(date, pos + 13, pos + 15);
      if minute.None? { return -1; }
      second := Field(date, pos + 16, pos + 18);
      if second.None? { return -1; }
    } else {
      if |date| - pos < 16 { return -1; }
      monthstr := Copy(date, pos, 3);
      day := Field(date, pos + 4, pos + 6);
      if day.None? { return -1; }
      hour := Field(date, pos + 7, pos + 9);
      if hour.None? { return -1; }
      minute := Field(date, pos + 10, pos + 12);
      if minute.None? { return -1; }
      second := Field(date, pos + 13, pos + 15);
      if second.None? { return -1; }
      year := Field(date, pos + 16, pos + 20);
      if year.None? { return -1; }
    }
    var month := FindMonth(monthstr);
    if month == 12 {
      return -1;
    }
    r := ConvertUniversal(Universal(year.value, month, day.value, hour.value, minute.value, second.value));
  }

  /** hh:mm:ss. */
  function TimeText(u: Universal): string
    requires 0 <= u.hour < 24 && 0 <= u.minute < 60 && 0 <= u.second < 60
  {
    Two(u.hour) + ":" + Two(u.minute) + ":" + Two(u.second)
  }

  predicate Printable(u: Universal) { ValidTime(u) && u.year < 10000 }

  /** 06 Nov 1994 08:49:37 GMT */
  function Text1123(u: Universal): string
    requires Printable(u)
  {
    Two(u.day) + " " + MONTH_NAMES[u.month] + " " + Four(u.year) + " " + TimeText(u) + " GMT"
  }

  /** 06-Nov-94 08:49:37 GMT */
  function Text850(u: Universal): string
    requires Printable(u)
  {
    Two(u.day) + "-" + MONTH_NAMES[u.month] + "-" + Two(u.year % 100) + " " + TimeText(u) + " GMT"
  }

  /** Nov  6 08:49:37 1994 */
  function TextAsctime(u: Universal): string
    requires Printable(u)
  {
    MONTH_NAMES[u.month] + " " + (if u.day < 10 then [' ', Digit(u.day)] else Two(u.day)) + " " + TimeText(u) + " " + Four(u.year)
  }

  /** date_format_http for the years its buffer can hold. */
  function FormatHttp(t: nat): string
    requires Printable(Gmtime(t))
  {
    DAY_NAMES[(t / DAY + 4) % 7] + "," + " " + Text1123(Gmtime(t))
  }

  // ---------------------------------------------------------------------------
  // Round trips
  // ---------------------------------------------------------------------------

  ghost predicate NoDigitFirst(c: string) { c == "" || !IsDigit(c[0]) }

  /** A number between other text is read back. */
  lemma FieldBetween(a: string, ds: string, c: string, v: int)
    requires ds != "" && AllDigits(ds) && Fold(ds) == v <= LONG_MAX && NoDigitFirst(c)
    ensures ParseLong(a + ds + c, |a|) == Number(v, |a| + |ds|)
    ensures Field(a + ds + c, |a|, |a| + |ds|) == Some(v)
  {
    var s := a + ds + c;
    assert s[|a|..|a| + |ds|] == ds;
    assert |a| + |ds| < |s| ==> s[|a| + |ds|] == c[0];
    ParseStanding(s, |a|, ds);
  }

  lemma FieldTwo(a: string, v: int, c: string)
    requires 0 <= v < 100 && NoDigitFirst(c)
    ensures Field(a + Two(v) + c, |a|, |a| + 2) == Some(v)
  {
    FoldTwo(v);
    FieldBetween(a, Two(v), c, v);
  }

  lemma FieldFour(a: string, v: int, c: string)
    requires 0 <= v < 10000 && NoDigitFirst(c)
    ensures Field(a + Four(v) + c, |a|, |a| + 4) == Some(v)
  {
    FoldFour(v);
    FieldBetween(a, Four(v), c, v);
  }

  /** A one-digit day after a blank fills its two places. */
  lemma FieldPadded(a: string, v: int, c: string)
    requires 0 <= v < 10 && NoDigitFirst(c)
    ensures Field(a + [' ', Digit(v)] + c, |a|, |a| + 2) == Some(v)
  {
    var s := a + [' ', Digit(v)] + c;
    var ds := [Digit(v)];
    assert ds[..0] == "" && Fold(ds) == v;
    assert s[|a| + 1..|a| + 2] == ds && s[|a|] == ' ';
    assert |a| + 2 < |s| ==> s[|a| + 2] == c[0];
    ParseStanding(s, |a| + 1, ds);
    assert SkipBlanks(s, |a|) == |a| + 1 == SkipBlanks(s, |a| + 1);
  }

  lemma TimeFields(a: string, u: Universal, c: string)
    requires 0 <= u.hour < 24 && 0 <= u.minute < 60 && 0 <= u.second < 60 && NoDigitFirst(c)
    ensures var s := a + TimeText(u) + c;
            && Field(s, |a|, |a| + 2) == Some(u.hour)
            && Field(s, |a| + 3, |a| + 5) == Some(u.minute)
            && Field(s, |a| + 6, |a| + 8) == Some(u.second)
  {
    hide Field, Two;
    var s := a + TimeText(u) + c;
    var h, m, x := Two(u.hour), Two(u.minute), Two(u.second);
    assert s == a + h + (":" + m + ":" + x + c);
    FieldTwo(a, u.hour, ":" + m + ":" + x + c);
    assert s == (a + h + ":") + m + (":" + x + c);
    FieldTwo(a + h + ":", u.minute, ":" + x + c);
    assert s == (a + h + ":" + m + ":") + x + c;
    FieldTwo(a + h + ":" + m + ":", u.second, c);
  }

  lemma MonthNamesDiffer(m: int)
    requires 0 <= m < 12
    ensures |MONTH_NAMES[m]| == 3 && !IsDigit(MONTH_NAMES[m][0])
    ensures MONTH_NAMES[m] in MONTH_NAMES && MonthIndex(MONTH_NAMES[m]) == m
  {
  }

  /** The fields found where the form has them. */
  ghost predicate Shows(s: string, pos: nat, f: Form, u: Universal) {
    && 0 <= u.month < 12
    && |s| - pos >= f.need
    && Field(s, pos + f.dayAt, pos + f.dayAt + 2) == Some(u.day)
    && (var y := Field(s, pos + f.yearAt, pos + f.yearEnd); y.Some? && FullYear(f, y.value) == u.year)
    && Field(s, pos + f.timeAt, pos + f.timeAt + 2) == Some(u.hour)
    && Field(s, pos + f.timeAt + 3, pos + f.timeAt + 5) == Some(u.minute)
    && Field(s, pos + f.timeAt + 6, pos + f.timeAt + 8) == Some(u.second)
    && Copy(s, pos + f.monthAt, 3) == MONTH_NAMES[u.month]
  }

  lemma ShownIsParsed(w: string, text: string, f: Form, u: Universal)
    requires ' ' !in w && text != ""
    requires FormOf(w + " " + text, |w| + 1) == f && Shows(w + " " + text, |w| + 1, f, u)
    ensures ParseHttp(w + " " + text) == ConvertUniversal(u)
  {
    hide Field, Copy, FormOf, ConvertUniversal, FullYear;
    var s := w + " " + text;
    assert s[|w|] == ' ' && forall i :: 0 <= i < |w| ==> s[i] == w[i];
    assert Find(s, ' ', 0) == |w|;
    MonthNamesDiffer(u.month);
  }

  lemma CopyBetween(a: string, b: string, c: string)
    requires |b| == 3
    ensures Copy(a + b + c, |a|, 3) == b
  {
  }

  /** Four fields and what is between them, each seen with its surroundings. */
  lemma Regroup(a: string, x1: string, p: string, x2: string, q: string, x3: string, r: string, x4: string, z: string)
    ensures var s := a + (x1 + p + x2 + q + x3 + r + x4 + z);
            && s == a + x1 + (p + x2 + q + x3 + r + x4 + z)
            && s == (a + x1 + p) + x2 + (q + x3 + r + x4 + z)
            && s == (a + x1 + p + x2 + q) + x3 + (r + x4 + z)
            && s == (a + x1 + p + x2 + q + x3 + r) + x4 + z
  {
    var e := x4 + z;
    var d := x3 + r + e;
    var c := x2 + q + d;
    Shift(a, x1, p, c);
    Shift(a + x1 + p, x2, q, d);
    Shift(a + x1 + p + x2 + q, x3, r, e);
    assert x1 + p + c == x1 + p + x2 + q + d == x1 + p + x2 + q + x3 + r + e == x1 + p + x2 + q + x3 + r + x4 + z;
    assert p + c == p + x2 + q + d == p + x2 + q + x3 + r + e == p + x2 + q + x3 + r + x4 + z;
    assert q + d == q + x3 + r + e == q + x3 + r + x4 + z;
    assert r + e == r + x4 + z;
  }

  lemma Shift(a: string, x: string, p: string, c: string)
    ensures a + (x + p + c) == a + x + (p + c) == (a + x + p) + c
  {
  }

  /** Whatever the day name, the text of a time in each of the three forms is read as that time. */
  lemma Parse1123(w: string, u: Universal)
    requires ' ' !in w && Printable(u)
    ensures ParseHttp(w + " " + Text1123(u)) == ConvertUniversal(u)
  {
    hide Field, Copy, Two, Four, TimeText, ValidDate, ParseHttp, ConvertUniversal;
    DayFits(u);
    MonthNamesDiffer(u.month);
    var m, d, y, t := MONTH_NAMES[u.month], Two(u.day), Four(u.year), TimeText(u);
    var s := w + " " + Text1123(u);
    var a := w + " ";
    Regroup(a, d, " ", m, " ", y, " ", t, " GMT");
    FieldTwo(a, u.day, " " + m + " " + y + " " + t + " GMT");
    CopyBetween(a + d + " ", m, " " + y + " " + t + " GMT");
    FieldFour(a + d + " " + m + " ", u.year, " " + t + " GMT");
    TimeFields(a + d + " " + m + " " + y + " ", u, " GMT");
    assert s[|w| + 1] == d[0] && s[|w| + 3] == ' ';
    ShownIsParsed(w, Text1123(u), RFC1123, u);
  }

  /** With two digits the year comes back in the window, hence right up to 2060. */
  lemma Parse850(w: string, u: Universal)
    requires ' ' !in w && Printable(u)
    ensures ParseHttp(w + " " + Text850(u)) == ConvertUniversal(u.(year := FullYear(RFC850, u.year % 100)))
    ensures FullYear(RFC850, u.year % 100) == u.year <==> u.year <= 2060
  {
    hide Field, Copy, Two, Four, TimeText, ValidDate, ParseHttp, ConvertUniversal;
    DayFits(u);
    MonthNamesDiffer(u.month);
    var m, d, y, t := MONTH_NAMES[u.month], Two(u.day), Two(u.year % 100), TimeText(u);
    var s := w + " " + Text850(u);
    var a := w + " ";
    Regroup(a, d, "-", m, "-", y, " ", t, " GMT");
    FieldTwo(a, u.day, "-" + m + "-" + y + " " + t + " GMT");
    CopyBetween(a + d + "-", m, "-" + y + " " + t + " GMT");
    FieldTwo(a + d + "-" + m + "-", u.year % 100, " " + t + " GMT");
    TimeFields(a + d + "-" + m + "-" + y + " ", u, " GMT");
    assert s[|w| + 1] == d[0] && s[|w| + 3] == '-';
    ShownIsParsed(w, Text850(u), RFC850, u.(year := FullYear(RFC850, u.year % 100)));
  }

  lemma ParseAsctime(w: string, u: Universal)
    requires ' ' !in w && Printable(u)
    ensures ParseHttp(w + " " + TextAsctime(u)) == ConvertUniversal(u)
  {
    hide Field, Copy, Two, Four, TimeText, ValidDate, ParseHttp, ConvertUniversal;
    DayFits(u);
    MonthNamesDiffer(u.month);
    var m, y, t := MONTH_NAMES[u.month], Four(u.year), TimeText(u);
    var d := if u.day < 10 then [' ', Digit(u.day)] else Two(u.day);
    var s := w + " " + TextAsctime(u);
    var a := w + " ";
    Regroup(a, m, " ", d, " ", t, " ", y, "");
    assert TextAsctime(u) == m + " " + d + " " + t + " " + y + "";
    CopyBetween(a, m, " " + d + " " + t + " " + y + "");
    if u.day < 10 {
      FieldPadded(a + m + " ", u.day, " " + t + " " + y + "");
    } else {
      FieldTwo(a + m + " ", u.day, " " + t + " " + y + "");
    }
    TimeFields(a + m + " " + d + " ", u, " " + y + "");
    FieldFour(a + m + " " + d + " " + t + " ", u.year, "");
    assert s[|w| + 1] == m[0];
    ShownIsParsed(w, TextAsctime(u), ASCTIME, u);
  }

  lemma DayFits(u: Universal)
    requires Printable(u)
    ensures 1 <= u.day <= 31 && 0 <= u.month < 12 && 1970 <= u.year < 10000 && IsDigit(Two(u.day)[0]) && |TimeText(u)| == 8
  {
  }

  /** Parsing the HTTP form printed for a time gives back the time, for every time in the years up to 9999. */
  lemma HttpRoundTrip(t: nat)
    requires Gmtime(t).year < 10000
    ensures Printable(Gmtime(t)) && ParseHttp(FormatHttp(t)) == t
  {
    hide Gmtime, ParseHttp, Text1123, ConvertUniversal, ValidTime;
    ConvertGmtime(t);
    var w := DAY_NAMES[(t / DAY + 4) % 7] + ",";
    assert ' ' !in DAY_NAMES[(t / DAY + 4) % 7];
    Parse1123(w, Gmtime(t));
  }

  // ---------------------------------------------------------------------------
  // ISO dates
  // ---------------------------------------------------------------------------

  function SkipToDigit(s: string, i: nat): (r: nat)
    requires i <= |s|
    ensures i <= r <= |s| && (r < |s| ==> IsDigit(s[r]))
    decreases |s| - i
  {
    if i < |s| && !IsDigit(s[i]) then SkipToDigit(s, i + 1) else i
  }

  /** Up to k numbers from pos on, each after skipping to a digit. */
  function Numbers(s: string, pos: nat, k: nat): (r: seq<int>)
    ensures |r| <= k
    decreases k
  {
    if k == 0 || pos > |s| then []
    else
      match ParseLong(s, SkipToDigit(s, pos))
      case NoNumber => []
      case Number(v, end) => [v] + Numbers(s, end, k - 1)
  }

  /** date_parse_iso: a year, and then as many of the other fields as there are; the month is counted from 0. */
  function ParseIso(s: string): Option<Universal> {
    match ParseLong(s, 0)
    case NoNumber => None
    case Number(y, end) =>
      var n := Numbers(s, end, 5);
      Some(Universal(
        if y < 70 then y + 2000 else if y < 100 then y + 1900 else y,
        if |n| > 0 then (if n[0] > 0 then n[0] - 1 else n[0]) else 0,
        if |n| > 1 then n[1] else 1,
        if |n| > 2 then n[2] else 0,
        if |n| > 3 then n[3] else 0,
        if |n| > 4 then n[4] else 0))
  }

  /** date_create_iso. */
  function FormatIso(t: nat): string
    requires ValidTime(Gmtime(t))
  {
    var u := Gmtime(t);
    Decimal(u.year) + ("-" + Two(u.month + 1) + "-" + Two(u.day) + "T" + TimeText(u) + "Z")
  }

  method SkipNonDigits(s: string, from: nat) returns (pos: nat)
    requires from <= |s|
    ensures pos == SkipToDigit(s, from)
  {
    pos := from;
    while pos < |s| && !IsDigit(s[pos])
      invariant from <= pos <= |s|
      invariant SkipToDigit(s, from) == SkipToDigit(s, pos)
    {
      pos := pos + 1;
    }
  }

  lemma {:induction false} DigitsEnd(s: string, i: nat, acc: int)
    requires i <= |s|
    ensures i <= Digits(s, i, acc).1 <= |s|
    decreases |s| - i
  {
    if DigitAt(s, i) {
      DigitsEnd(s, i + 1, acc * 10 + DigitValue(s[i]));
    }
  }

  lemma ParseEnd(s: string, pos: nat)
    ensures ParseLong(s, pos).Number? ==> ParseLong(s, pos).end <= |s|
  {
    if pos < |s| {
      var i := SkipBlanks(s, pos);
      DigitsEnd(s, if i < |s| && (s[i] == '-' || s[i] == '+') then i + 1 else i, 0);
    }
  }

  /** One field: skip to a digit and read a number. */
  method NextNumber(s: string, from: nat) returns (n: Number)
    requires from <= |s|
    ensures n == ParseLong(s, SkipToDigit(s, from))
    ensures n.Number? ==> n.end <= |s|
  {
    var pos := SkipNonDigits(s, from);
    n := ParseLong(s, pos);
    ParseEnd(s, pos);
  }

  /** date_parse_iso fills its record field by field, from defaults, and stops at the first one missing. */
  class IsoTime {
    var year: int
    var month: int
    var day: int
    var hour: int
    var minute: int
    var second: int

    function Value(): Universal
      reads this
    {
      Universal(year, month, day, hour, minute, second)
    }

    method DateParseIso(os: string) returns (code: int)
      modifies this
      ensures code == 0 || code == -1
      ensures code == 0 <==> ParseIso(os).Some?
      ensures code == 0 ==> Value() == ParseIso(os).value
    {
      hide ParseLong, SkipToDigit;
      month, day, hour, minute, second := 0, 1, 0, 0, 0;
      var n := ParseLong(os, 0);
      if n.NoNumber? {
        return -1;
      }
      ParseEnd(os, 0);
      year := n.value;
      if year < 70 {
        year := year + 2000;
      } else if year < 100 {
        year := year + 1900;
      }
      code := 0;
      n := NextNumber(os, n.end);
      if n.NoNumber? { return; }
      month := n.value;
      if month > 0 {
        month := month - 1;
      }
      n := NextNumber(os, n.end);
      if n.NoNumber? { return; }
      day := n.value;
      n := NextNumber(os, n.end);
      if n.NoNumber? { return; }
      hour := n.value;
      n := NextNumber(os, n.end);
      if n.NoNumber? { return; }
      minute := n.value;
      n := NextNumber(os, n.end);
      if n.NoNumber? { return; }
      second := n.value;
    }
  }

  /** One number off the front of a text. */
  lemma NumbersStep(a: string, sep: string, v: int, c: string, k: nat)
    requires 0 <= v < 100 && |sep| == 1 && !IsDigit(sep[0]) && NoDigitFirst(c) && k > 0
    ensures Numbers(a + sep + Two(v) + c, |a|, k) == [v] + Numbers(a + sep + Two(v) + c, |a| + 3, k - 1)
  {
    hide Two;
    var s := a + sep + Two(v) + c;
    FoldTwo(v);
    assert s == (a + sep) + Two(v) + c;
    FieldBetween(a + sep, Two(v), c, v);
    assert s[|a|] == sep[0] && s[|a| + 1] == Two(v)[0];
    assert SkipToDigit(s, |a|) == SkipToDigit(s, |a| + 1) == |a| + 1;
  }

  lemma ThreeNumbers(a: string, x: int, y: int, z: int, sep: string, c: string, k: nat)
    requires 0 <= x < 100 && 0 <= y < 100 && 0 <= z < 100 && |sep| == 1 && !IsDigit(sep[0]) && NoDigitFirst(c) && k >= 3
    ensures var s := a + sep + (Two(x) + ":" + Two(y) + ":" + Two(z)) + c;
            Numbers(s, |a|, k) == [x, y, z] + Numbers(s, |a| + 9, k - 3)
  {
    hide Two, Numbers;
    var s := a + sep + (Two(x) + ":" + Two(y) + ":" + Two(z)) + c;
    assert s == a + sep + Two(x) + (":" + Two(y) + ":" + Two(z) + c);
    NumbersStep(a, sep, x, ":" + Two(y) + ":" + Two(z) + c, k);
    var b := a + sep + Two(x);
    assert s == b + ":" + Two(y) + (":" + Two(z) + c);
    NumbersStep(b, ":", y, ":" + Two(z) + c, k - 1);
    var d := b + ":" + Two(y);
    assert s == d + ":" + Two(z) + c;
    NumbersStep(d, ":", z, c, k - 2);
  }

  /** Parsing the ISO form printed for a time gives back the time, for every year that fits the C library's record. */
  lemma IsoRoundTrip(t: nat)
    requires Gmtime(t).year <= 0x7fff_ffff + 1900
    ensures ValidTime(Gmtime(t))
    ensures ParseIso(FormatIso(t)) == Some(Gmtime(t)) && ConvertUniversal(Gmtime(t)) == t
  {
    hide Gmtime, ConvertUniversal, ValidDate, Numbers, ParseLong, Decimal, Two, Fold, Field;
    ConvertGmtime(t);
    var u := Gmtime(t);
    IsoText(u);
  }

  lemma TwoNumbers(a: string, x: int, y: int, c: string, k: nat)
    requires 0 <= x < 100 && 0 <= y < 100 && NoDigitFirst(c) && k >= 2
    ensures var s := a + "-" + Two(x) + "-" + Two(y) + c;
            Numbers(s, |a|, k) == [x, y] + Numbers(s, |a| + 6, k - 2)
  {
    hide Two, Numbers;
    var s := a + "-" + Two(x) + "-" + Two(y) + c;
    assert s == a + "-" + Two(x) + ("-" + Two(y) + c);
    NumbersStep(a, "-", x, "-" + Two(y) + c, k);
    var b := a + "-" + Two(x);
    assert s == b + "-" + Two(y) + c;
    NumbersStep(b, "-", y, c, k - 1);
  }

  lemma IsoNumbers(y: string, month: int, day: int, hour: int, minute: int, second: int)
    requires 0 <= month < 100 && 0 <= day < 100 && 0 <= hour < 100 && 0 <= minute < 100 && 0 <= second < 100
    ensures var x := Two(hour) + ":" + Two(minute) + ":" + Two(second);
            Numbers(y + ("-" + Two(month) + "-" + Two(day) + "T" + x + "Z"), |y|, 5) == [month, day, hour, minute, second]
  {
    hide Numbers, Two;
    var x := Two(hour) + ":" + Two(minute) + ":" + Two(second);
    var m, d := Two(month), Two(day);
    var b := y + "-" + m + "-" + d;
    IsoPieces(y, m, d, x);
    var s := b + "T" + x + "Z";
    assert Numbers(s, |b|, 3) == [hour, minute, second] + Numbers(s, |b| + 9, 0) by {
      ThreeNumbers(b, hour, minute, second, "T", "Z", 3);
    }
    assert Numbers(s, |y|, 5) == [month, day] + Numbers(s, |b|, 3) by {
      TwoNumbers(y, month, day, "T" + x + "Z", 5);
    }
  }

  lemma IsoYear(year: nat, c: string)
    requires year <= LONG_MAX && NoDigitFirst(c)
    ensures ParseLong(Decimal(year) + c, 0) == Number(year, |Decimal(year)|)
  {
    hide ParseLong, Field, Decimal, Fold;
    FoldDecimal(year);
    assert "" + Decimal(year) + c == Decimal(year) + c;
    FieldBetween("", Decimal(year), c, year);
  }

  lemma IsoText(u: Universal)
    requires ValidTime(u) && u.year <= 0x7fff_ffff + 1900
    ensures ParseIso(Decimal(u.year) + ("-" + Two(u.month + 1) + "-" + Two(u.day) + "T" + TimeText(u) + "Z")) == Some(u)
  {
    assert u.year >= 1970 && 0 <= u.month < 12 && 1 <= u.day <= 31;
    hide ValidDate, Numbers, ParseLong, Decimal, Two;
    var c := "-" + Two(u.month + 1) + "-" + Two(u.day) + "T" + TimeText(u) + "Z";
    IsoYear(u.year, c);
    IsoNumbers(Decimal(u.year), u.month + 1, u.day, u.hour, u.minute, u.second);
  }

  lemma IsoPieces(y: string, m: string, d: string, x: string)
    ensures var s := y + ("-" + m + "-" + d + "T" + x + "Z");
            && s == y + "-" + m + "-" + d + ("T" + x + "Z")
            && s == (y + "-" + m + "-" + d) + "T" + x + "Z"
  {
    Regroup(y, "-", m, "-", d, "T", x, "Z", "");
    Shift(y, "-", m, "-" + d + "T" + x + "Z");
    Shift(y + "-" + m, "-", d, "T" + x + "Z");
    assert "-" + m + "-" + d + "T" + x + "Z" + "" == "-" + m + "-" + d + "T" + x + "Z" == "-" + m + ("-" + d + "T" + x + "Z");
    assert "-" + d + "T" + x + "Z" == "-" + d + ("T" + x + "Z");
  }

  // ---------------------------------------------------------------------------
  // What the printed forms show
  // ---------------------------------------------------------------------------

  /** The day names follow each other, and 1 January 1970 was a Thursday. */
  lemma WeekdayShown(t: nat)
    requires Printable(Gmtime(t))
    ensures FormatHttp(t)[..3] ==
            match t / DAY % 7
            case 0 => "Thu" case 1 => "Fri" case 2 => "Sat" case 3 => "Sun" case 4 => "Mon" case 5 => "Tue" case _ => "Wed"
  {
    hide Gmtime, Text1123, Printable;
    var n := t / DAY;
    assert (n + 4) % 7 == if n % 7 < 3 then n % 7 + 4 else n % 7 - 3;
  }

  /** Every field of the HTTP form is where RFC 2616 has it. */
  lemma HttpShows(t: nat)
    requires Printable(Gmtime(t))
    ensures var s, u := FormatHttp(t), Gmtime(t);
            && |s| == 29 && s[3..5] == ", " && s[7] == ' ' && s[11] == ' ' && s[16] == ' ' && s[19] == ':' && s[22] == ':' && s[25..] == " GMT"
            && s[5..7] == Two(u.day) && s[8..11] == MonthName(u.month) && s[12..16] == Four(u.year)
            && s[17..19] == Two(u.hour) && s[20..22] == Two(u.minute) && s[23..25] == Two(u.second)
  {
    hide Gmtime, Two, Four, ValidDate;
    var u := Gmtime(t);
    DayFits(u);
    MonthNamesDiffer(u.month);
    var w := DAY_NAMES[(t / DAY + 4) % 7] + ",";
    assert |w| == 4;
    var h, m, x := Two(u.hour), Two(u.minute), Two(u.second);
    ShowsParts(w, Two(u.day), MONTH_NAMES[u.month], Four(u.year), h, m, x);
  }

  lemma ShowsParts(w: string, d: string, mon: string, y: string, h: string, m: string, x: string)
    requires |w| == 4 && w[3] == ',' && |d| == 2 && |mon| == 3 && |y| == 4 && |h| == 2 && |m| == 2 && |x| == 2
    ensures var s := w + " " + (d + " " + mon + " " + y + " " + (h + ":" + m + ":" + x) + " GMT");
            && |s| == 29 && s[3..5] == ", " && s[7] == ' ' && s[11] == ' ' && s[16] == ' ' && s[19] == ':' && s[22] == ':' && s[25..] == " GMT"
            && s[5..7] == d && s[8..11] == mon && s[12..16] == y && s[17..19] == h && s[20..22] == m && s[23..25] == x
  {
  }

  function MonthName(m: int): string {
    match m
    case 0 => "Jan" case 1 => "Feb" case 2 => "Mar" case 3 => "Apr" case 4 => "May" case 5 => "Jun"
    case 6 => "Jul" case 7 => "Aug" case 8 => "Sep" case 9 => "Oct" case 10 => "Nov" case _ => "Dec"
  }

  const EXAMPLE := Universal(1994, 10, 6, 8, 49, 37)

  /** The example of section 3.3.1 of RFC 2616: the three forms of one time, and what they are read as. */
  lemma Rfc2616Parsed()
    ensures ParseHttp("Sun, 06 Nov 1994 08:49:37 GMT") == 784111777
    ensures ParseHttp("Sunday, 06-Nov-94 08:49:37 GMT") == 784111777
    ensures ParseHttp("Sun Nov  6 08:49:37 1994") == 784111777
  {
    hide ParseHttp;
    Parsed1123();
    Parsed850();
    ParsedAsctime();
  }

  lemma Parsed1123()
    ensures ParseHttp("Sun, 06 Nov 1994 08:49:37 GMT") == 784111777
  {
    hide ParseHttp, Text1123, ConvertUniversal, Printable;
    ExampleTime();
    Example1123();
    Parse1123("Sun,", EXAMPLE);
    assert "Sun," + " " + "06 Nov 1994 08:49:37 GMT" == "Sun, 06 Nov 1994 08:49:37 GMT";
  }

  lemma Parsed850()
    ensures ParseHttp("Sunday, 06-Nov-94 08:49:37 GMT") == 784111777
  {
    hide ParseHttp, Text850, ConvertUniversal, Printable, FullYear;
    ExampleTime();
    Example850();
    Parse850("Sunday,", EXAMPLE);
    assert EXAMPLE.(year := 1994) == EXAMPLE && EXAMPLE.year % 100 == 94;
    assert "Sunday," + " " + "06-Nov-94 08:49:37 GMT" == "Sunday, 06-Nov-94 08:49:37 GMT";
  }

  lemma ParsedAsctime()
    ensures ParseHttp("Sun Nov  6 08:49:37 1994") == 784111777
  {
    hide ParseHttp, TextAsctime, ConvertUniversal, Printable;
    ExampleTime();
    ExampleAsctime();
    ParseAsctime("Sun", EXAMPLE);
    assert "Sun" + " " + "Nov  6 08:49:37 1994" == "Sun Nov  6 08:49:37 1994";
  }

  /** And what is printed for it. */
  lemma Rfc2616Printed()
    ensures Printable(Gmtime(784111777)) && FormatHttp(784111777) == "Sun, 06 Nov 1994 08:49:37 GMT"
    ensures FormatIso(784111777) == "1994-11-06T08:49:37Z"
  {
    hide Gmtime, ConvertUniversal, Text1123, Decimal, Two, TimeText;
    ExampleTime();
    GmtimeConvert(EXAMPLE);
    Example1123();
    assert 784111777 / DAY == 9075 && (9075 + 4) % 7 == 0;
    assert "Sun" + "," + " " + "06 Nov 1994 08:49:37 GMT" == "Sun, 06 Nov 1994 08:49:37 GMT";
    ExampleFields();
    ExampleYear();
    assert "1994" + ("-" + "11" + "-" + "06" + "T" + "08:49:37" + "Z") == "1994-11-06T08:49:37Z";
  }

  lemma ExampleTime()
    ensures Printable(EXAMPLE) && ConvertUniversal(EXAMPLE) == 784111777 && FullYear(RFC850, 94) == 1994
  {
  }

  lemma ExampleFields()
    ensures Two(6) == "06" && Two(11) == "11" && Two(94) == "94" && Four(1994) == "1994" && TimeText(EXAMPLE) == "08:49:37"
  {
    assert Two(8) == "08" && Two(49) == "49" && Two(37) == "37";
  }

  lemma ExampleYear()
    ensures Decimal(1994) == "1994"
  {
    assert Decimal(1) == "1" && Decimal(19) == "19" && Decimal(199) == "199";
  }

  lemma Example1123()
    ensures Printable(EXAMPLE) && Text1123(EXAMPLE) == "06 Nov 1994 08:49:37 GMT"
  {
    hide Two, Four, TimeText, ValidDate;
    ExampleTime();
    ExampleFields();
    assert MONTH_NAMES[10] == "Nov";
    assert "06" + " " + "Nov" + " " + "1994" + " " + "08:49:37" + " GMT" == "06 Nov 1994 08:49:37 GMT";
  }

  lemma Example850()
    ensures Printable(EXAMPLE) && Text850(EXAMPLE) == "06-Nov-94 08:49:37 GMT"
  {
    hide Two, Four, TimeText, ValidDate;
    ExampleTime();
    ExampleFields();
    assert MONTH_NAMES[10] == "Nov";
    assert "06" + "-" + "Nov" + "-" + "94" + " " + "08:49:37" + " GMT" == "06-Nov-94 08:49:37 GMT";
  }

  lemma ExampleAsctime()
    ensures Printable(EXAMPLE) && TextAsctime(EXAMPLE) == "Nov  6 08:49:37 1994"
  {
    hide Two, Four, TimeText, ValidDate;
    ExampleTime();
    ExampleFields();
    assert MONTH_NAMES[10] == "Nov" && [' ', Digit(6)] == " 6";
    assert "Nov" + " " + " 6" + " " + "08:49:37" + " " + "1994" == "Nov  6 08:49:37 1994";
  }

  // ---------------------------------------------------------------------------
  // Short ISO dates
  // ---------------------------------------------------------------------------

  /** A year alone: below 70 it is in the 2000s and below 100 in the 1900s; the rest is the first second of the year. */
  lemma IsoYearAlone(y: nat)
    requires y <= LONG_MAX
    ensures ParseIso(Decimal(y)) ==
            Some(Universal(if y < 70 then 2000 + y else if y < 100 then 1900 + y else y, 0, 1, 0, 0, 0))
  {
    hide ParseLong, Decimal;
    assert Decimal(y) + "" == Decimal(y);
    IsoYear(y, "");
    EndOfText(Decimal(y), 5);
  }

  lemma EndOfText(s: string, k: nat)
    ensures Numbers(s, |s|, k) == []
  {
    if k > 0 {
      assert SkipToDigit(s, |s|) == |s|;
    }
  }

  /** A year and a month: months are counted from 0, and a month of 00 is taken for January. */
  lemma IsoYearAndMonth(y: nat, m: int)
    requires 100 <= y <= LONG_MAX && 0 <= m < 100
    ensures ParseIso(Decimal(y) + "-" + Two(m)) == Some(Universal(y, if m > 0 then m - 1 else 0, 1, 0, 0, 0))
  {
    hide ParseLong, Decimal, Two, Numbers;
    var a := Decimal(y);
    var s := a + "-" + Two(m);
    assert s == a + ("-" + Two(m)) && s == a + "-" + Two(m) + "";
    IsoYear(y, "-" + Two(m));
    NumbersStep(a, "-", m, "", 5);
    EndOfText(s, 4);
    assert Numbers(s, |a|, 5) == [m];
  }

  /** Without a number at the front there is no date. */
  lemma IsoNeedsYear(s: string)
    requires s == "" || !(IsBlank(s[0]) || IsDigit(s[0]) || s[0] == '-' || s[0] == '+')
    ensures ParseIso(s).None?
  {
  }
}
