/** The DS1338Z clock of ds1338z.c: Unix time to the chip's registers and back. */
module Rtc {
  type byte = b: int | 0 <= b < 0x100

  const DAY: int := 86400
  const UNIX_MILLENNIUM: int := 946684800
  /** 2099-01-01: the first second that the year loop of ds1338z_setUnixTime cannot place. */
  const UNIX_2099: int := 4070908800
  const SPAN: int := UNIX_2099 - UNIX_MILLENNIUM

  // ----- time_t -----

  /** time_t is a signed word whose width the C library decides. */
  datatype Width = Bits32 | Bits64

  function Half(w: Width): (h: int)
    ensures h > 0
  {
    if w == Bits32 then 0x8000_0000 else 0x8000_0000_0000_0000
  }

  predicate IsTime(w: Width, x: int) {
    -Half(w) <= x < Half(w)
  }

  /** Two's complement: signed overflow is taken to wrap. */
  function TimeT(w: Width, x: int): (t: int)
    ensures IsTime(w, t)
  {
    (x + Half(w)) % (2 * Half(w)) - Half(w)
  }

  lemma TimeFits(w: Width, x: int)
    requires IsTime(w, x)
    ensures TimeT(w, x) == x
  {
  }

  /** Sums may be cut to the width at every step or at the end. */
  lemma TimeSum(w: Width, x: int, y: int)
    ensures TimeT(w, TimeT(w, x) + y) == TimeT(w, x + y)
  {
    if w == Bits32 {
    } else {
    }
  }

  /** C divides towards zero. */
  function Trunc(x: int, m: nat): int
    requires m > 0
  {
    if x >= 0 then x / m else -(-x / m)
  }

  function Byte(x: int): byte {
    x % 0x100
  }

  // ----- the calendar -----

  predicate IsLeap(year: nat) {
    year % 4 == 0 && (year % 100 != 0 || year % 400 == 0)
  }

  function DaysInMonth(year: nat, month: nat): (d: nat)
    requires 1 <= month <= 12
    ensures 28 <= d <= 31
  {
    if month == 2 then (if IsLeap(year) then 29 else 28)
    else if month == 4 || month == 6 || month == 9 || month == 11 then 30
    else 31
  }

  function DaysInYear(year: nat): (d: nat)
    ensures 365 <= d <= 366
  {
    if IsLeap(year) then 366 else 365
  }

  /** The days from 2000-01-01 to the first day of the year. */
  function DaysBeforeYear(year: nat): (d: nat)
    requires year >= 2000
    decreases year
  {
    if year == 2000 then 0 else DaysBeforeYear(year - 1) + DaysInYear(year - 1)
  }

  /** The days of the year before the month; month 13 stands for the next year. */
  function DaysBeforeMonth(year: nat, month: nat): (d: nat)
    requires 1 <= month <= 13
    decreases month, year
  {
    if month == 1 then 0 else DaysBeforeMonth(year, month - 1) + DaysInMonth(year, month - 1)
  }

  datatype Clock = Clock(second: byte, minute: byte, hour: byte, dow: byte, day: byte, month: byte, year: byte)

  predicate ValidTime(c: Clock) {
    c.second < 60 && c.minute < 60 && c.hour < 24
  }

  /** A date of the calendar, in the years 2000 to 2099. */
  predicate ValidDate(c: Clock) {
    c.year < 100 && 1 <= c.month <= 12 && 1 <= c.day <= DaysInMonth(2000 + c.year, c.month)
  }

  /** The Unix time of a clock reading, by the Gregorian calendar. */
  function UnixTime(c: Clock): int
    requires 1 <= c.month <= 13
  {
    UNIX_MILLENNIUM
    + DAY * (DaysBeforeYear(2000 + c.year) + DaysBeforeMonth(2000 + c.year, c.month) + c.day - 1)
    + 3600 * c.hour + 60 * c.minute + c.second
  }

  lemma {:induction false} LeapEveryFourth(year: nat)
    requires 2000 <= year < 2100
    ensures IsLeap(year) <==> year % 4 == 0
  {
    if year > 2000 {
      assert year % 100 == 0 ==> year == 2000;
    }
  }

  /** The days from 1970-01-01 to the first day of the year. */
  function DaysFrom1970(year: nat): (d: nat)
    requires year >= 1970
    decreases year
  {
    if year == 1970 then 0 else DaysFrom1970(year - 1) + if year % 4 == 1 && (year % 100 != 1 || year % 400 == 1) then 366 else 365
  }

  /** Up to 2100 every fourth year is a leap year. */
  lemma {:induction false} YearsFrom1970(k: nat)
    requires k <= 130
    ensures DaysFrom1970(1970 + k) == 365 * k + (k + 1) / 4
  {
    if k > 0 {
      YearsFrom1970(k - 1);
      assert (1970 + k) % 100 == 1 ==> k == 31;
    }
  }

  /** The constant is the calendar's: Unix time counts the seconds of whole days from 1970. */
  lemma {:induction false} MillenniumIsCalendar(year: nat)
    requires year >= 2000
    ensures 86400 * DaysFrom1970(year) == UNIX_MILLENNIUM + 86400 * DaysBeforeYear(year)
    decreases year
  {
    if year == 2000 {
      YearsFrom1970(year - 1970);
    } else {
      MillenniumIsCalendar(year - 1);
      SameLeap(year);
    }
  }

  lemma SameLeap(year: nat)
    requires year > 2000
    ensures DaysInYear(year - 1) == if year % 4 == 1 && (year % 100 != 1 || year % 400 == 1) then 366 else 365
  {
  }

  lemma {:induction false} FirstDays(year: nat, month: nat)
    requires 1 <= month <= 12
    ensures var leap := if IsLeap(year) && month > 2 then 1 else 0;
      DaysBeforeMonth(year, month) == [0, 31, 59, 90, 120, 151, 181, 212, 243, 273, 304, 334][month - 1] + leap
    decreases month
  {
    if month > 1 {
      FirstDays(year, month - 1);
    }
  }

  /** A billion seconds from 1970 on it is 2001-09-09 01:46:40. */
  lemma Billion()
    ensures UnixTime(Clock(40, 46, 1, 0, 9, 9, 1)) == 1_000_000_000
  {
    FirstDays(2001, 9);
    assert DaysBeforeYear(2001) == 366;
  }

  // ----- BCD -----

  function DecToBcd(val: byte): byte {
    (val + 6 * (val / 10)) % 0x100
  }

  function BcdToDec(val: byte): byte {
    val - 6 * (val / 16)
  }

  function ThroughBcd(val: byte): byte {
    BcdToDec(DecToBcd(val))
  }

  /** A byte survives the two conversions exactly if the first one does not overflow. */
  lemma BcdRoundTrip(val: byte)
    ensures ThroughBcd(val) == val <==> val < 160
  {
  }

  /** The register holds the value in BCD: the tens in its upper half, the ones in its lower. */
  predicate IsBcd(register: byte, val: byte) {
    register / 16 == val / 10 && register % 16 == val % 10
  }

  lemma BcdDigits(val: byte)
    ensures val < 100 ==> IsBcd(DecToBcd(val), val)
    ensures val / 16 < 10 && val % 16 < 10 ==> BcdToDec(val) == 10 * (val / 16) + val % 16
  {
  }

  // ----- the table of the program -----

  function daysinmonth(i: nat): (d: nat)
    requires i < 12
  {
    match i
    case 0 => 31
    case 1 => 28
    case 2 => 31
    case 3 => 30
    case 4 => 31
    case 5 => 30
    case 6 => 31
    case 7 => 31
    case 8 => 30
    case 9 => 31
    case 10 => 30
    case _ => 31
  }

  lemma TableIsCalendar(year: nat, month: nat)
    requires 2000 <= year < 2100 && 1 <= month <= 12
    ensures DaysInMonth(year, month) == daysinmonth(month - 1) + if month == 2 && (year - 2000) % 4 == 0 then 1 else 0
    ensures DaysInYear(year) == if (year - 2000) % 4 == 0 then 366 else 365
  {
    LeapEveryFourth(year);
  }

  // ----- setting -----

  lemma {:induction false} YearsBefore2099(k: nat)
    requires k <= 99
    ensures DaysBeforeYear(2000 + k) == 365 * k + (k + 3) / 4
  {
    if k > 0 {
      YearsBefore2099(k - 1);
      LeapEveryFourth(2000 + k - 1);
      NextQuarter(k);
    }
  }

  lemma NextQuarter(k: nat)
    requires k > 0
    ensures (k + 3) / 4 == (k + 2) / 4 + if (2000 + k - 1) % 4 == 0 then 1 else 0
  {
  }

  lemma DaysUpTo2099()
    ensures DaysBeforeYear(2099) * DAY == SPAN
  {
    YearsBefore2099(99);
  }

  lemma {:induction false} MonthsOfYear(year: nat)
    ensures DaysBeforeMonth(year, 13) == DaysInYear(year)
  {
    var y := year;
    assert DaysBeforeMonth(y, 4) == DaysBeforeMonth(y, 3) + 31 && DaysBeforeMonth(y, 3) == DaysBeforeMonth(y, 2) + DaysInMonth(y, 2);
    assert DaysBeforeMonth(y, 7) == DaysBeforeMonth(y, 6) + 30 && DaysBeforeMonth(y, 6) == DaysBeforeMonth(y, 5) + 31;
    assert DaysBeforeMonth(y, 10) == DaysBeforeMonth(y, 9) + 30 && DaysBeforeMonth(y, 9) == DaysBeforeMonth(y, 8) + 31;
    assert DaysBeforeMonth(y, 13) == DaysBeforeMonth(y, 12) + 31 && DaysBeforeMonth(y, 12) == DaysBeforeMonth(y, 11) + 30;
  }

  /** The year loop: it breaks for every second before 2099, a negative one in the first
      year; beyond, the year stays what memory held. */
  method FindYear(seconds0: int, memory: byte) returns (year: byte, seconds: int)
    ensures seconds0 < 0 ==> year == 0 && seconds == seconds0
    ensures 0 <= seconds0 < SPAN ==>
      && year < 99 && seconds0 == DAY * DaysBeforeYear(2000 + year) + seconds
      && 0 <= seconds < DAY * DaysInYear(2000 + year)
    ensures seconds0 >= SPAN ==> year == memory
    ensures seconds0 >= 0 ==> 0 <= seconds <= seconds0
  {
    DaysUpTo2099();
    seconds := seconds0;
    year := 0;
    while year < 99
      invariant year <= 99 && seconds0 == DAY * DaysBeforeYear(2000 + year) + seconds
      invariant seconds0 >= 0 ==> 0 <= seconds <= seconds0
      invariant seconds0 < 0 ==> year == 0
    {
      TableIsCalendar(2000 + year, 1);
      var seconds_this_year := if year % 4 == 0 then 366 * DAY else 365 * DAY;
      if seconds_this_year <= seconds {
        seconds := seconds - seconds_this_year;
      } else {
        YearsUpTo2099(year);
        return;
      }
      year := year + 1;
    }
    year := memory;
  }

  lemma YearsUpTo2099(year: nat)
    requires year < 99
    ensures DAY * DaysBeforeYear(2000 + year) + DAY * DaysInYear(2000 + year) <= SPAN
  {
    DaysUpTo2099();
    YearsAscend(2000 + year, 2099);
  }

  /** The month loop: it breaks inside the table for every second of the year, a negative
      one in January. Its comparison is strict: the first second of a month stays with the
      month before. */
  method FindMonth(year: byte, seconds0: int, memory: byte) returns (month: byte, seconds: int)
    ensures seconds0 < 0 ==> month == 1 && seconds == seconds0
    ensures seconds0 >= 0 ==> 0 <= seconds <= seconds0
    ensures year < 99 && 0 <= seconds0 < DAY * DaysInYear(2000 + year) ==>
      && 1 <= month <= 12 && seconds0 == DAY * DaysBeforeMonth(2000 + year, month) + seconds
      && 0 <= seconds <= DAY * DaysInMonth(2000 + year, month)
      && (month > 1 ==> seconds > 0) && (month == 12 ==> seconds < DAY * 31)
  {
    MonthsOfYear(2000 + year);
    seconds := seconds0;
    month := 1;
    while month <= 12
      invariant 1 <= month <= 13 && (seconds0 < 0 ==> month == 1 && seconds == seconds0)
      invariant year < 99 && seconds0 >= 0 ==> seconds0 == DAY * DaysBeforeMonth(2000 + year, month) + seconds && seconds >= 0
      invariant (month > 1 ==> seconds > 0) && (seconds0 >= 0 ==> 0 <= seconds <= seconds0)
    {
      if year < 99 {
        TableIsCalendar(2000 + year, month);
      }
      var seconds_this_month := daysinmonth(month - 1) * DAY;
      if month == 2 && year % 4 == 0 {
        seconds_this_month := seconds_this_month + DAY;
      }
      if seconds_this_month < seconds {
        seconds := seconds - seconds_this_month;
      } else {
        return;
      }
      month := month + 1;
    }
    month := memory;
  }

  /** The rest of ds1338z_setUnixTime, every field cut to a byte. */
  method FindTime(w: Width, seconds0: int) returns (day: byte, hour: byte, minute: byte, second: byte)
    requires IsTime(w, seconds0)
    ensures 0 <= seconds0 <= 31 * DAY ==>
      && 1 <= day <= 32 && hour < 24 && minute < 60 && second < 60
      && seconds0 == DAY * (day - 1) + 3600 * hour + 60 * minute + second
    ensures seconds0 == -DAY ==> day == hour == minute == second == 0
    ensures -DAY < seconds0 < 0 ==> day == 1
  {
    var seconds := seconds0;
    day, seconds := SplitDay(w, seconds);
    day := Byte(day + 1);
    hour, seconds := SplitHour(w, seconds);
    minute, second := SplitMinute(seconds);
  }

  method SplitDay(w: Width, seconds0: int) returns (day: byte, seconds: int)
    ensures 0 <= seconds0 <= 31 * DAY ==> day <= 31 && seconds0 == DAY * day + seconds && 0 <= seconds < DAY
    ensures seconds0 == -DAY ==> day == 255 && seconds == -256 * DAY
    ensures -DAY < seconds0 < 0 ==> day == 0
  {
    day := Byte(Trunc(seconds0, DAY));
    seconds := TimeT(w, seconds0 - day * DAY);
    if 0 <= seconds0 <= 31 * DAY {
      TimeFits(w, seconds0 % DAY);
    } else if seconds0 == -DAY {
      TimeFits(w, -256 * DAY);
    }
  }

  method SplitHour(w: Width, seconds0: int) returns (hour: byte, seconds: int)
    ensures 0 <= seconds0 < DAY ==> hour < 24 && seconds0 == 3600 * hour + seconds && 0 <= seconds < 3600
    ensures seconds0 == -256 * DAY ==> hour == 0 && seconds == seconds0
  {
    hour := Byte(Trunc(seconds0, 3600));
    seconds := TimeT(w, seconds0 - hour * 3600);
    if 0 <= seconds0 < DAY {
      TimeFits(w, seconds0 % 3600);
    } else if seconds0 == -256 * DAY {
      TimeFits(w, seconds0);
    }
  }

  method SplitMinute(seconds0: int) returns (minute: byte, second: byte)
    ensures 0 <= seconds0 < 3600 ==> minute < 60 && second < 60 && seconds0 == 60 * minute + second
    ensures seconds0 == -256 * DAY ==> minute == second == 0
  {
    minute := Byte(Trunc(seconds0, 60));
    MinuteOf(seconds0);
    second := Byte(seconds0 - minute * 60);
    SecondOf(seconds0, minute);
  }

  lemma MinuteOf(s: int)
    ensures 0 <= s < 3600 ==> Byte(Trunc(s, 60)) == s / 60
    ensures s == -256 * DAY ==> Byte(Trunc(s, 60)) == 0
  {
    if 0 <= s < 3600 {
      ByteFits(s / 60);
    }
  }

  lemma SecondOf(s: int, minute: byte)
    ensures 0 <= s < 3600 && minute == s / 60 ==> Byte(s - minute * 60) == s - minute * 60 < 60
    ensures s == -256 * DAY && minute == 0 ==> Byte(s - minute * 60) == 0
  {
    if 0 <= s < 3600 && minute == s / 60 {
      ByteFits(s - minute * 60);
    }
  }

  lemma ByteFits(x: nat)
    requires x < 0x100
    ensures Byte(x) == x
  {
  }

  /** t is 00:00:00 on the first day of a month other than January. */
  predicate FirstOfMonth(t: int) {
    exists year: nat, month: nat ::
      2000 <= year < 2099 && 2 <= month <= 12 && t == UNIX_MILLENNIUM + DAY * (DaysBeforeYear(year) + DaysBeforeMonth(year, month))
  }

  /** What the program stores for t; the day of the week is left as it was. */
  predicate Stored(c: Clock, t: int) {
    c.year < 99 && 1 <= c.month <= 12 && 1 <= c.day <= DaysInMonth(2000 + c.year, c.month) + 1 && ValidTime(c) && UnixTime(c) == t
  }

  /** It is no date of the calendar exactly if t is the first second of such a month. */
  ghost predicate StoredSecond(c: Clock, t: int) {
    Stored(c, t) && (ValidDate(c) <==> !FirstOfMonth(t))
  }

  /** What the program stores for a second before 2000: a reading of January 2000, which
      stands for that second if and only if it is the first of the day before. */
  predicate StoredEarly(c: Clock, seconds: int) {
    c.year == 0 && c.month == 1 && (UnixTime(c) == UNIX_MILLENNIUM + seconds <==> seconds == -DAY)
  }

  lemma JanuaryReading(c: Clock)
    requires c.year == 0 && c.month == 1
    ensures UnixTime(c) == UNIX_MILLENNIUM + DAY * (c.day - 1) + 3600 * c.hour + 60 * c.minute + c.second
    ensures -DAY <= UnixTime(c) - UNIX_MILLENNIUM < 0x4000_0000
  {
    assert DaysBeforeYear(2000) == 0 && DaysBeforeMonth(2000, 1) == 0;
  }

  /** The conversion of ds1338z_setUnixTime, in a record that `memory` held before. */
  method ToClock(w: Width, tm: int, memory: Clock) returns (rawData: Clock)
    requires IsTime(w, tm)
    ensures var seconds := TimeT(w, tm - UNIX_MILLENNIUM);
      && (0 <= seconds < SPAN ==> StoredSecond(rawData, UNIX_MILLENNIUM + seconds))
      && (seconds < 0 ==> StoredEarly(rawData, seconds))
      && (seconds >= SPAN ==> rawData.year == memory.year)
      && (seconds == -DAY ==> rawData.day == rawData.hour == rawData.minute == rawData.second == 0)
      && (-DAY < seconds < 0 ==> rawData.day == 1)
    ensures rawData.dow == memory.dow
  {
    var seconds := TimeT(w, tm - UNIX_MILLENNIUM);
    ghost var since := seconds;
    var year, month, day, hour, minute, second;
    year, seconds := FindYear(seconds, memory.year);
    month, seconds := FindMonth(year, seconds, memory.month);
    ghost var in_month := seconds;
    day, hour, minute, second := FindTime(w, seconds);
    rawData := Clock(second, minute, hour, memory.dow, day, month, year);
    if 0 <= since < SPAN {
      StoredDate(rawData, UNIX_MILLENNIUM + since, in_month);
    } else if since < 0 {
      JanuaryReading(rawData);
    }
  }

  lemma {:induction false} MonthsAscend(year: nat, m: nat, n: nat)
    requires 1 <= m <= n <= 13
    ensures DaysBeforeMonth(year, n) >= DaysBeforeMonth(year, m) + 28 * (n - m)
    decreases n
  {
    if m < n {
      MonthsAscend(year, m, n - 1);
    }
  }

  lemma {:induction false} YearsAscend(y: nat, z: nat)
    requires 2000 <= y <= z
    ensures DaysBeforeYear(z) >= DaysBeforeYear(y) + 365 * (z - y)
    ensures y < z ==> DaysBeforeYear(z) >= DaysBeforeYear(y) + DaysInYear(y)
    decreases z
  {
    if y < z {
      YearsAscend(y, z - 1);
    }
  }

  /** No month begins inside another one. */
  lemma MonthUnique(y: nat, m: nat, z: nat, n: nat)
    requires 2000 <= y && 2000 <= z && 1 <= m <= 12 && 1 <= n <= 12
    requires var d, e := DaysBeforeYear(y) + DaysBeforeMonth(y, m), DaysBeforeYear(z) + DaysBeforeMonth(z, n);
      d <= e < d + DaysInMonth(y, m)
    ensures y == z && m == n
  {
    MonthsOfYear(y);
    MonthsOfYear(z);
    MonthsAscend(y, 1, m);
    MonthsAscend(y, m + 1, 13);
    MonthsAscend(z, 1, n);
    MonthsAscend(z, n, 13);
    if y < z {
      YearsAscend(y, z);
    } else if z < y {
      YearsAscend(z, y);
    } else if m < n {
      MonthsAscend(y, m + 1, n);
    } else {
      MonthsAscend(y, n, m);
    }
  }

  /** The day is one too many exactly at the first second of a month after January. */
  lemma StoredDate(c: Clock, t: int, in_month: int)
    requires c.year < 99 && 1 <= c.month <= 12 && ValidTime(c)
    requires 0 <= in_month <= DAY * DaysInMonth(2000 + c.year, c.month)
    requires (c.month > 1 ==> in_month > 0) && (c.month == 12 ==> in_month < DAY * 31)
    requires in_month == DAY * (c.day - 1) + 3600 * c.hour + 60 * c.minute + c.second && c.day >= 1
    requires t == UNIX_MILLENNIUM + DAY * (DaysBeforeYear(2000 + c.year) + DaysBeforeMonth(2000 + c.year, c.month)) + in_month
    ensures Stored(c, t) && (ValidDate(c) <==> !FirstOfMonth(t))
  {
    var y, m := 2000 + c.year, c.month;
    if in_month == DAY * DaysInMonth(y, m) {
      assert c.day == DaysInMonth(y, m) + 1;
      assert DaysBeforeMonth(y, m + 1) == DaysBeforeMonth(y, m) + DaysInMonth(y, m);
    } else if FirstOfMonth(t) {
      var z: nat, n: nat :|
        2000 <= z < 2099 && 2 <= n <= 12 && t == UNIX_MILLENNIUM + DAY * (DaysBeforeYear(z) + DaysBeforeMonth(z, n));
      MonthUnique(y, m, z, n);
    }
  }

  function ClockThroughBcd(c: Clock): Clock {
    Clock(ThroughBcd(c.second), ThroughBcd(c.minute), ThroughBcd(c.hour), ThroughBcd(c.dow),
      ThroughBcd(c.day), ThroughBcd(c.month), ThroughBcd(c.year))
  }

  lemma ThroughBcdSmall(c: Clock)
    requires c.second < 100 && c.minute < 100 && c.hour < 100 && c.day < 100 && c.month < 100 && c.year < 100
    ensures ClockThroughBcd(c) == c.(dow := ThroughBcd(c.dow))
  {
    BcdRoundTrip(c.second);
    BcdRoundTrip(c.minute);
    BcdRoundTrip(c.hour);
    BcdRoundTrip(c.day);
    BcdRoundTrip(c.month);
    BcdRoundTrip(c.year);
  }

  lemma StoredAnyDow(c: Clock, t: int, dow: byte)
    requires Stored(c, t)
    ensures Stored(c.(dow := dow), t) && (ValidDate(c.(dow := dow)) <==> ValidDate(c))
  {
    assert UnixTime(c.(dow := dow)) == UnixTime(c);
  }

  /** What is stored survives BCD, but perhaps for the day of the week. */
  lemma StoredThroughBcd(c: Clock, t: int)
    requires Stored(c, t)
    ensures Stored(ClockThroughBcd(c), t) && (ValidDate(ClockThroughBcd(c)) <==> ValidDate(c))
  {
    var x := ThroughBcd(c.dow);
    StoredAnyDow(c, t, x);
    ThroughBcdSmall(c);
  }

  lemma EarlyThroughBcd(c: Clock, seconds: int)
    requires StoredEarly(c, seconds) && seconds < 0
    requires seconds == -DAY ==> c.day == c.hour == c.minute == c.second == 0
    requires -DAY < seconds ==> c.day == 1
    ensures StoredEarly(ClockThroughBcd(c), seconds)
  {
    BcdRoundTrip(c.year);
    BcdRoundTrip(c.month);
    var d := ClockThroughBcd(c);
    assert c.day <= 1 && -DAY <= seconds ==> d.day == c.day;
    JanuaryReading(d);
  }

  predicate TwoDigits(c: Clock) {
    c.second < 100 && c.minute < 100 && c.hour < 100 && c.dow < 100 && c.day < 100 && c.month < 100 && c.year < 100
  }

  lemma RecordInBcd(c: Clock)
    requires TwoDigits(c)
    ensures IsBcd(DecToBcd(c.second), c.second) && IsBcd(DecToBcd(c.minute), c.minute) && IsBcd(DecToBcd(c.hour), c.hour)
    ensures IsBcd(DecToBcd(c.dow), c.dow) && IsBcd(DecToBcd(c.day), c.day) && IsBcd(DecToBcd(c.month), c.month)
    ensures IsBcd(DecToBcd(c.year), c.year)
  {
    BcdDigits(c.second);
    BcdDigits(c.minute);
    BcdDigits(c.hour);
    BcdDigits(c.dow);
    BcdDigits(c.day);
    BcdDigits(c.month);
    BcdDigits(c.year);
  }

  // ----- the chip -----

  class Ds1338z {
    /** Second, minute, hour, day of the week, day, month and year in BCD. */
    const registers: array<byte>

    ghost predicate Valid() {
      registers.Length == 7
    }

    /** The clock as it is read. */
    ghost function Reading(): Clock
      requires Valid()
      reads registers
    {
      Clock(BcdToDec(registers[0]), BcdToDec(registers[1]), BcdToDec(registers[2]), BcdToDec(registers[3]),
            BcdToDec(registers[4]), BcdToDec(registers[5]), BcdToDec(registers[6]))
    }

    constructor ()
      ensures Valid() && fresh(registers)
    {
      registers := new byte[7](_ => 0);
    }

    /** `done` is what the bus transfer reports; without it nothing is stored. */
    method ds1338z_setRawClockData(p: Clock, done: bool) returns (ok: bool)
      requires Valid()
      modifies registers
      ensures ok == done && (!ok ==> registers[..] == old(registers[..]))
      ensures ok ==> Reading() == ClockThroughBcd(p)
      ensures ok && TwoDigits(p) ==>
        && IsBcd(registers[0], p.second) && IsBcd(registers[1], p.minute) && IsBcd(registers[2], p.hour)
        && IsBcd(registers[3], p.dow) && IsBcd(registers[4], p.day) && IsBcd(registers[5], p.month) && IsBcd(registers[6], p.year)
    {
      var raw: seq<byte> := [DecToBcd(p.second), DecToBcd(p.minute), DecToBcd(p.hour), DecToBcd(p.dow),
        DecToBcd(p.day), DecToBcd(p.month), DecToBcd(p.year)];
      if !done {
        return false;
      }
      registers[0], registers[1], registers[2], registers[3] := raw[0], raw[1], raw[2], raw[3];
      registers[4], registers[5], registers[6] := raw[4], raw[5], raw[6];
      if TwoDigits(p) {
        RecordInBcd(p);
      }
      ok := true;
    }

    method ds1338z_getRawClockData(done: bool) returns (ok: bool, p: Clock)
      requires Valid()
      ensures ok == done && (ok ==> p == Reading())
    {
      p := Clock(BcdToDec(registers[0]), BcdToDec(registers[1]), BcdToDec(registers[2]), BcdToDec(registers[3]),
        BcdToDec(registers[4]), BcdToDec(registers[5]), BcdToDec(registers[6]));
      ok := done;
    }

    /** The record is not initialised: the day of the week, and from 2099 on the year, are
        what memory held. */
    method ds1338z_setUnixTime(w: Width, tm: int, memory: Clock, done: bool) returns (ok: bool)
      requires Valid() && IsTime(w, tm)
      modifies registers
      ensures ok == done && (!ok ==> registers[..] == old(registers[..]))
      ensures var seconds := TimeT(w, tm - UNIX_MILLENNIUM);
        && (ok && 0 <= seconds < SPAN ==> StoredSecond(Reading(), UNIX_MILLENNIUM + seconds))
        && (ok && seconds < 0 ==> StoredEarly(Reading(), seconds))
        && (ok && seconds >= SPAN ==> Reading().year == ThroughBcd(memory.year))
    {
      var rawData := ToClock(w, tm, memory);
      ghost var seconds := TimeT(w, tm - UNIX_MILLENNIUM);
      if 0 <= seconds < SPAN {
        StoredThroughBcd(rawData, UNIX_MILLENNIUM + seconds);
      } else if seconds < 0 {
        EarlyThroughBcd(rawData, seconds);
      }
      ok := ds1338z_setRawClockData(rawData, done);
    }

    method DaysOf(rawData: Clock) returns (days: nat)
      requires rawData.month <= 13
      ensures rawData.year < 100 && rawData.month >= 1 ==>
        days == DaysBeforeYear(2000 + rawData.year) + DaysBeforeMonth(2000 + rawData.year, rawData.month)
    {
      days := 0;
      var year := 0;
      while year < rawData.year
        invariant 0 <= year <= rawData.year && (rawData.year < 100 ==> days == DaysBeforeYear(2000 + year))
      {
        if rawData.year < 100 {
          TableIsCalendar(2000 + year, 1);
        }
        days := days + if year % 4 == 0 then 366 else 365;
        year := year + 1;
      }
      var month := 0;
      while month < rawData.month - 1
        invariant 0 <= month && (rawData.month >= 1 ==> month <= rawData.month - 1)
        invariant rawData.year < 100 && rawData.month >= 1 ==>
          days == DaysBeforeYear(2000 + rawData.year) + DaysBeforeMonth(2000 + rawData.year, month + 1)
      {
        if rawData.year < 100 {
          TableIsCalendar(2000 + rawData.year, month + 1);
        }
        days := days + daysinmonth(month);
        if rawData.year % 4 == 0 && month == 1 {
          days := days + 1;
        }
        month := month + 1;
      }
    }

    method SecondsOf(w: Width, days: nat, rawData: Clock) returns (tm: int)
      ensures tm == TimeT(w, UNIX_MILLENNIUM + DAY * (days + rawData.day - 1) + 3600 * rawData.hour + 60 * rawData.minute + rawData.second)
    {
      var seconds_since_2k := TimeT(w, (days + (rawData.day - 1)) * 24 * 60 * 60);
      seconds_since_2k := TimeT(w, seconds_since_2k + rawData.second);
      seconds_since_2k := TimeT(w, seconds_since_2k + rawData.minute * 60);
      seconds_since_2k := TimeT(w, seconds_since_2k + rawData.hour * 60 * 60);
      tm := TimeT(w, seconds_since_2k + UNIX_MILLENNIUM);
      TimeSums(w, (days + (rawData.day - 1)) * 24 * 60 * 60, rawData.second, rawData.minute * 60, rawData.hour * 60 * 60);
    }

    /** The month must not lead beyond the table. With a year below 100, the result is the
        Unix time of the reading, whatever its day. */
    method ds1338z_getUnixTime(w: Width, done: bool) returns (ok: bool, tm: int)
      requires Valid() && Reading().month <= 13
      ensures ok == done
      ensures ok && Reading().year < 100 && Reading().month >= 1 ==> tm == TimeT(w, UnixTime(Reading()))
    {
      var rawData;
      ok, rawData := ds1338z_getRawClockData(done);
      if !ok {
        return false, 0;
      }
      var days := DaysOf(rawData);
      tm := SecondsOf(w, days, rawData);
    }

    /** Setting the clock and reading it back gives the same word if and only if the seconds
        since 2000 come out as not negative, or as the first second of 1999-12-31. */
    method SetAndGet(w: Width, t: int, memory: Clock) returns (tm: int)
      requires Valid() && IsTime(w, t) && TimeT(w, t - UNIX_MILLENNIUM) < SPAN
      modifies registers
      ensures var seconds := TimeT(w, t - UNIX_MILLENNIUM);
        tm == t <==> seconds >= 0 || seconds == -DAY
    {
      var ok := ds1338z_setUnixTime(w, t, memory, true);
      ok, tm := ds1338z_getUnixTime(w, true);
      ReadBack(w, t, Reading());
    }

    /** A moment from 2000-01-01 up to 2099-01-01, as far as time_t can hold it: it survives
        if and only if the seconds since 2000 are below half the range of the word. With 64
        bits that is always so; with 32 bits it ends at 2068-01-19. */
    method SetAndGetMoment(w: Width, moment: int, memory: Clock) returns (tm: int)
      requires Valid() && UNIX_MILLENNIUM <= moment < UNIX_2099
      modifies registers
      ensures tm == TimeT(w, moment) <==> moment - UNIX_MILLENNIUM < Half(w)
    {
      SecondsOfMoment(w, moment);
      tm := SetAndGet(w, TimeT(w, moment), memory);
    }
  }

  lemma TimeSums(w: Width, x: int, a: int, b: int, c: int)
    ensures TimeT(w, TimeT(w, TimeT(w, TimeT(w, TimeT(w, x) + a) + b) + c) + UNIX_MILLENNIUM)
      == TimeT(w, x + a + b + c + UNIX_MILLENNIUM)
  {
    TimeSum(w, x, a);
    TimeSum(w, x + a, b);
    TimeSum(w, x + a + b, c);
    TimeSum(w, x + a + b + c, UNIX_MILLENNIUM);
  }

  lemma SecondsOfMoment(w: Width, moment: int)
    requires UNIX_MILLENNIUM <= moment < UNIX_2099
    ensures var seconds := TimeT(w, TimeT(w, moment) - UNIX_MILLENNIUM);
      seconds == moment - UNIX_MILLENNIUM - if moment - UNIX_MILLENNIUM < Half(w) then 0 else 2 * Half(w)
  {
    TimeSum(w, moment, -UNIX_MILLENNIUM);
  }

  /** Two's complement loses nothing of t, and the clock's reading is off by whole seconds. */
  lemma ReadBack(w: Width, t: int, c: Clock)
    requires IsTime(w, t) && TimeT(w, t - UNIX_MILLENNIUM) < SPAN
    requires var seconds := TimeT(w, t - UNIX_MILLENNIUM);
      if seconds >= 0 then Stored(c, UNIX_MILLENNIUM + seconds) else StoredEarly(c, seconds)
    ensures var seconds := TimeT(w, t - UNIX_MILLENNIUM);
      TimeT(w, UnixTime(c)) == t <==> seconds >= 0 || seconds == -DAY
  {
    var seconds := TimeT(w, t - UNIX_MILLENNIUM);
    TimeSum(w, t - UNIX_MILLENNIUM, UNIX_MILLENNIUM);
    TimeFits(w, t);
    if seconds < 0 {
      JanuaryReading(c);
      SameWord(w, seconds, UnixTime(c) - UNIX_MILLENNIUM);
    }
  }


  lemma SameWord(w: Width, x: int, y: int)
    requires IsTime(w, x) && IsTime(w, y)
    ensures TimeT(w, x + UNIX_MILLENNIUM) == TimeT(w, y + UNIX_MILLENNIUM) <==> x == y
  {
  }

  /** The 32-bit word fails from this second on: it is set as a time before 2000. */
  lemma FirstLostMoment()
    ensures var moment := UNIX_MILLENNIUM + Half(Bits32);
      moment == 3094168448 < UNIX_2099 && TimeT(Bits32, TimeT(Bits32, moment) - UNIX_MILLENNIUM) == -Half(Bits32)
  {
    SecondsOfMoment(Bits32, UNIX_MILLENNIUM + Half(Bits32));
  }

  /** 2000-02-01 00:00:00 is such a time: it is stored as the 32nd of January. */
  lemma FirstOfFebruary()
    ensures FirstOfMonth(UNIX_MILLENNIUM + 31 * DAY)
    ensures Stored(Clock(0, 0, 0, 0, 32, 1, 0), UNIX_MILLENNIUM + 31 * DAY) && !ValidDate(Clock(0, 0, 0, 0, 32, 1, 0))
  {
    assert DaysBeforeYear(2000) + DaysBeforeMonth(2000, 2) == 31;
  }
}
