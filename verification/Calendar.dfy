/** The Gregorian calendar at UTC+8, and revisions: local instants written as YYYYMMDDHHMMSS. */
module Calendar {
  import opened Time

  predicate Leap(year: int) {
    year % 4 == 0 && (year % 100 != 0 || year % 400 == 0)
  }

  function DaysIn(year: int, month: int): (days: int)
    ensures 28 <= days <= 31
  {
    if month == 2 then (if Leap(year) then 29 else 28)
    else if month == 4 || month == 6 || month == 9 || month == 11 then 30
    else 31
  }

  datatype Date = Date(year: int, month: int, day: int)

  predicate ValidDate(date: Date) {
    1 <= date.month <= 12 && 1 <= date.day <= DaysIn(date.year, date.month)
  }

  /** The date `days` after the first of a month. */
  function FromMonth(year: int, month: int, days: nat): Date
    decreases days
  {
    if days < DaysIn(year, month) then Date(year, month, days + 1)
    else if month < 12 then FromMonth(year, month + 1, days - DaysIn(year, month))
    else FromMonth(year + 1, 1, days - DaysIn(year, month))
  }

  /** The local date of an instant from 1970 on. */
  function DateOf(t: int): Date
    requires t >= 0
  {
    FromMonth(1970, 1, LocalDate(t))
  }

  function DateNumber(date: Date): int {
    date.year * 10000 + date.month * 100 + date.day
  }

  function SecondOfDay(t: int): int {
    (t + SHANGHAI) % DAY / SECOND
  }

  /** Hour and minute of a second of the day, as HHMM. */
  function ClockNumber(second: int): int {
    second / 3600 * 100 + second / 60 % 60
  }

  /** The minute of an instant, as YYYYMMDDHHMM. */
  function MinuteNumber(t: int): int
    requires t >= 0
  {
    DateNumber(DateOf(t)) * 10000 + ClockNumber(SecondOfDay(t))
  }

  /** The revision the clock gives. */
  function Stamp(t: int): int
    requires t >= 0
  {
    MinuteNumber(t) * 100 + SecondOfDay(t) % 60
  }

  predicate ValidMinute(minute: int) {
    && 100_000_000_000 <= minute < 1_000_000_000_000
    && var date := minute / 10000;
       && ValidDate(Date(date / 10000, date / 100 % 100, date % 100))
       && minute / 100 % 100 < 24 && minute % 100 < 60
  }

  /** Fourteen digits that read as a date and a time of day; a 60th second is refused. */
  predicate ValidRevision(revision: int) {
    ValidMinute(revision / 100) && revision % 100 < 60
  }

  lemma {:induction false} FromMonthValid(year: int, month: int, days: nat)
    requires 1 <= month <= 12
    ensures ValidDate(FromMonth(year, month, days)) && FromMonth(year, month, days).year >= year
    decreases days
  {
    if days >= DaysIn(year, month) {
      if month < 12 {
        FromMonthValid(year, month + 1, days - DaysIn(year, month));
      } else {
        FromMonthValid(year + 1, 1, days - DaysIn(year, month));
      }
    }
  }

  lemma SecondInDay(t: int)
    ensures 0 <= SecondOfDay(t) < 86400
  {
  }

  lemma ClockDigits(second: int)
    requires 0 <= second < 86400
    ensures 0 <= ClockNumber(second) < 2400
    ensures ClockNumber(second) / 100 == second / 3600 && ClockNumber(second) % 100 == second / 60 % 60
  {
  }

  lemma DateDigits(date: Date)
    requires ValidDate(date) && date.year >= 0
    ensures var n := DateNumber(date); n / 10000 == date.year && n / 100 % 100 == date.month && n % 100 == date.day
  {
    var n := DateNumber(date);
    assert n == 100 * (date.year * 100 + date.month) + date.day;
    assert n / 100 == date.year * 100 + date.month;
  }

  lemma MinuteDigits(date: int, clock: int)
    requires 0 <= clock < 10000
    ensures var n := date * 10000 + clock;
            n / 10000 == date && n / 100 % 100 == clock / 100 && n % 100 == clock % 100
  {
    var n := date * 10000 + clock;
    assert n / 100 == date * 100 + clock / 100;
  }

  /** Up to the year 9999 the clock's revision is a valid one. */
  lemma StampValid(t: int)
    requires t >= 0 && DateOf(t).year <= 9999
    ensures ValidRevision(Stamp(t))
  {
    FromMonthValid(1970, 1, LocalDate(t));
    SecondInDay(t);
    ClockDigits(SecondOfDay(t));
    DateDigits(DateOf(t));
    MinuteDigits(DateNumber(DateOf(t)), ClockNumber(SecondOfDay(t)));
    assert Stamp(t) / 100 == MinuteNumber(t) && Stamp(t) % 100 == SecondOfDay(t) % 60;
  }

  // ---- Later instants have larger revisions ----

  lemma {:induction false} NextDay(year: int, month: int, days: nat)
    requires 1 <= month <= 12
    ensures DateNumber(FromMonth(year, month, days)) < DateNumber(FromMonth(year, month, days + 1))
    decreases days
  {
    if days < DaysIn(year, month) - 1 {
    } else if days == DaysIn(year, month) - 1 {
      if month < 12 {
        assert FromMonth(year, month, days + 1) == FromMonth(year, month + 1, 0) == Date(year, month + 1, 1);
      } else {
        assert FromMonth(year, month, days + 1) == FromMonth(year + 1, 1, 0) == Date(year + 1, 1, 1);
      }
    } else if month < 12 {
      NextDay(year, month + 1, days - DaysIn(year, month));
    } else {
      NextDay(year + 1, 1, days - DaysIn(year, month));
    }
  }

  lemma {:induction false} LaterDay(a: nat, b: nat)
    requires a < b
    ensures DateNumber(FromMonth(1970, 1, a)) < DateNumber(FromMonth(1970, 1, b))
    decreases b
  {
    NextDay(1970, 1, b - 1);
    if a < b - 1 {
      LaterDay(a, b - 1);
    }
  }

  lemma ClockIncreases(a: int, b: int)
    requires 0 <= a < b < 86400
    ensures ClockNumber(a) * 100 + a % 60 < ClockNumber(b) * 100 + b % 60
  {
    assert a / 3600 <= b / 3600 && a / 60 <= b / 60;
    assert a / 60 == a / 3600 * 60 + a / 60 % 60 && b / 60 == b / 3600 * 60 + b / 60 % 60;
  }

  /** A local second is its day and its second of the day. */
  lemma DayAndSecond(t: int)
    ensures WholeSecond(t) + 28800 == LocalDate(t) * 86400 + SecondOfDay(t)
    ensures 0 <= SecondOfDay(t) < 86400
  {
  }

  lemma StampIncreases(s: int, t: int)
    requires 0 <= s && WholeSecond(s) < WholeSecond(t)
    ensures Stamp(s) < Stamp(t)
  {
    DayAndSecond(s);
    DayAndSecond(t);
    ClockDigits(SecondOfDay(s));
    ClockDigits(SecondOfDay(t));
    if LocalDate(s) < LocalDate(t) {
      LaterDay(LocalDate(s), LocalDate(t));
    } else {
      assert LocalDate(s) == LocalDate(t);
      ClockIncreases(SecondOfDay(s), SecondOfDay(t));
    }
  }

  lemma LaterSecond(s: int, t: int)
    requires LocalDate(s) < LocalDate(t)
    ensures WholeSecond(s) < WholeSecond(t)
  {
    DayAndSecond(s);
    DayAndSecond(t);
  }

  lemma LaterDate(s: int, t: int)
    requires 0 <= s && 0 <= t && LocalDate(s) < LocalDate(t)
    ensures Stamp(s) < Stamp(t)
  {
    LaterSecond(s, t);
    StampIncreases(s, t);
  }

  lemma StampPositive(t: int)
    requires t >= 0
    ensures Stamp(t) > 0
  {
    FromMonthValid(1970, 1, LocalDate(t));
    SecondInDay(t);
    ClockDigits(SecondOfDay(t));
  }

  /** The number after a valid revision is a valid one exactly when its seconds do not overflow. */
  lemma NextRevision(revision: int)
    requires ValidRevision(revision)
    ensures ValidRevision(revision + 1) <==> revision % 100 < 59
  {
    assert (revision + 1) / 100 == revision / 100 && (revision + 1) % 100 == revision % 100 + 1;
  }

  /** Days from the first of a month to a later date. */
  function DaysTo(year: int, month: int, date: Date): nat
    requires 1 <= month <= 12 && ValidDate(date)
    requires year < date.year || (year == date.year && month <= date.month)
    decreases (date.year - year) * 12 + date.month - month
  {
    if year == date.year && month == date.month then date.day - 1
    else if month < 12 then DaysIn(year, month) + DaysTo(year, month + 1, date)
    else DaysIn(year, month) + DaysTo(year + 1, 1, date)
  }

  lemma {:induction false} DaysToIs(year: int, month: int, date: Date)
    requires 1 <= month <= 12 && ValidDate(date)
    requires year < date.year || (year == date.year && month <= date.month)
    ensures FromMonth(year, month, DaysTo(year, month, date)) == date
    decreases (date.year - year) * 12 + date.month - month
  {
    if year == date.year && month == date.month {
    } else if month < 12 {
      DaysToIs(year, month + 1, date);
    } else {
      DaysToIs(year + 1, 1, date);
    }
  }

  /** Leap days up to the end of a year. */
  function LeapDays(year: int): int {
    year / 4 - year / 100 + year / 400
  }

  /** Days from 1 March of the year 0 to the first of a month, by the leap years and months that lie between. */
  function DayNumber(year: int, month: int): int {
    var y, m := if month <= 2 then year - 1 else year, if month <= 2 then month + 9 else month - 3;
    365 * y + LeapDays(y) + (153 * m + 2) / 5
  }

  lemma MultiplesCounted(n: int)
    ensures n / 4 == (n - 1) / 4 + (if n % 4 == 0 then 1 else 0)
    ensures n / 100 == (n - 1) / 100 + (if n % 100 == 0 then 1 else 0)
    ensures n / 400 == (n - 1) / 400 + (if n % 400 == 0 then 1 else 0)
  {
  }

  lemma ExactQuotient(k: int)
    ensures 100 * k % 4 == 0 && 400 * k % 100 == 0
  {
  }

  lemma MultiplesNest(n: int)
    ensures n % 100 == 0 ==> n % 4 == 0
    ensures n % 400 == 0 ==> n % 100 == 0
  {
    ExactQuotient(n / 100);
    assert n % 400 == 0 ==> n == 400 * (n / 400);
    ExactQuotient(n / 400);
  }

  lemma LeapDayMore(year: int)
    ensures LeapDays(year) == LeapDays(year - 1) + if Leap(year) then 1 else 0
  {
    MultiplesCounted(year);
    MultiplesNest(year);
  }

  /** Counted from March, the months before the m-th one hold (153 * m + 2) / 5 days. */
  lemma MonthOn(year: int, month: int)
    requires 1 <= month <= 12
    ensures month < 12 ==> DayNumber(year, month + 1) == DayNumber(year, month) + DaysIn(year, month)
    ensures month == 12 ==> DayNumber(year + 1, 1) == DayNumber(year, month) + DaysIn(year, month)
  {
    if month == 2 {
      LeapDayMore(year);
    }
  }

  lemma {:induction false} FromMonthNumber(year: int, month: int, days: nat)
    requires 1 <= month <= 12
    ensures var date := FromMonth(year, month, days);
            DayNumber(date.year, date.month) + date.day - 1 == DayNumber(year, month) + days
    decreases days
  {
    MonthOn(year, month);
    if days >= DaysIn(year, month) {
      if month < 12 {
        FromMonthNumber(year, month + 1, days - DaysIn(year, month));
      } else {
        FromMonthNumber(year + 1, 1, days - DaysIn(year, month));
      }
    }
  }

  /** The date of an instant is the Gregorian one: as many days after 1 March of the year 0 as the instant is
      after midnight of 1 January 1970, which is day 719468. */
  lemma DateIsGregorian(t: int)
    requires t >= 0
    ensures var date := DateOf(t);
            && 1 <= date.month <= 12 && date.day >= 1
            && DayNumber(date.year, date.month) + date.day - 1 == 719468 + (t + 8 * HOUR) / (24 * HOUR)
            && DayNumber(date.year, date.month) + date.day - 1
               < if date.month < 12 then DayNumber(date.year, date.month + 1) else DayNumber(date.year + 1, 1)
  {
    LocalDay(t);
    GregorianDay(LocalDate(t));
  }

  lemma LocalDay(t: int)
    ensures LocalDate(t) == (t + 8 * HOUR) / (24 * HOUR)
  {
  }

  lemma GregorianDay(days: nat)
    ensures var date := FromMonth(1970, 1, days);
            && 1 <= date.month <= 12 && date.day >= 1
            && DayNumber(date.year, date.month) + date.day - 1 == 719468 + days
            && DayNumber(date.year, date.month) + date.day - 1
               < if date.month < 12 then DayNumber(date.year, date.month + 1) else DayNumber(date.year + 1, 1)
  {
    FromMonthNumber(1970, 1, days);
    FromMonthValid(1970, 1, days);
    DayInMonth(FromMonth(1970, 1, days));
    EpochNumber();
  }

  lemma EpochNumber()
    ensures DayNumber(1970, 1) == 719468
  {
  }

  lemma DayInMonth(date: Date)
    requires ValidDate(date)
    ensures DayNumber(date.year, date.month) + date.day - 1
            < if date.month < 12 then DayNumber(date.year, date.month + 1) else DayNumber(date.year + 1, 1)
  {
    MonthOn(date.year, date.month);
  }

  /** The valid revisions from 1970 on are the stamps of the clock, and nothing else is. */
  lemma ValidIsInstant(revision: int) returns (t: int)
    requires ValidRevision(revision) && revision >= 19700102000000
    ensures t >= 0 && Stamp(t) == revision
  {
    var date := Digits(revision);
    var clock, second := revision / 100 % 10000, revision % 100;
    FirstDay(date);
    ClockBack(clock / 100, clock % 100, second);
    var seconds := clock / 100 * 3600 + clock % 100 * 60 + second;
    t := (DaysTo(1970, 1, date) * 86400 + seconds) * SECOND - SHANGHAI;
    InstantOf(DaysTo(1970, 1, date), seconds);
    StampOf(t, date, seconds);
  }

  lemma StampOf(t: int, date: Date, seconds: nat)
    requires t >= 0 && DateOf(t) == date && SecondOfDay(t) == seconds
    ensures Stamp(t) == (DateNumber(date) * 10000 + ClockNumber(seconds)) * 100 + seconds % 60
  {
  }

  lemma Digits(revision: int) returns (date: Date)
    requires ValidRevision(revision) && revision >= 19700102000000
    ensures ValidDate(date) && (date.year > 1970 || (date.year == 1970 && (date.month > 1 || date.day > 1)))
    ensures DateNumber(date) * 1000000 + revision / 100 % 10000 * 100 + revision % 100 == revision
    ensures revision / 100 % 10000 / 100 < 24 && revision / 100 % 10000 % 100 < 60
  {
    var day := revision / 100 / 10000;
    date := Date(day / 10000, day / 100 % 100, day % 100);
    DateBack(day);
    MinuteBack(revision / 100);
  }

  lemma DateBack(day: int)
    ensures day / 10000 * 10000 + day / 100 % 100 * 100 + day % 100 == day
  {
    assert day / 100 / 100 == day / 10000;
  }

  lemma MinuteBack(minute: int)
    ensures minute % 10000 / 100 == minute / 100 % 100 && minute % 10000 % 100 == minute % 100
  {
    var clock := minute % 10000;
    assert minute / 100 == minute / 10000 * 100 + clock / 100;
  }

  /** From the second of January 1970 on, a date is a positive number of days after the first. */
  lemma FirstDay(date: Date)
    requires ValidDate(date) && (date.year > 1970 || (date.year == 1970 && (date.month > 1 || date.day > 1)))
    ensures DaysTo(1970, 1, date) >= 1 && FromMonth(1970, 1, DaysTo(1970, 1, date)) == date
  {
    DaysToIs(1970, 1, date);
  }

  lemma InstantOf(days: nat, seconds: nat)
    requires seconds < 86400 && days >= 1
    ensures var t := (days * 86400 + seconds) * SECOND - SHANGHAI;
            t >= 0 && LocalDate(t) == days && SecondOfDay(t) == seconds
  {
    var local := (days * 86400 + seconds) * SECOND;
    assert local == days * DAY + seconds * SECOND;
    assert local / DAY == days && local % DAY == seconds * SECOND;
  }

  lemma ClockBack(hour: nat, minute: nat, second: nat)
    requires hour < 24 && minute < 60 && second < 60
    ensures var n := hour * 3600 + minute * 60 + second;
            n < 86400 && ClockNumber(n) == hour * 100 + minute && n % 60 == second
  {
    var n := hour * 3600 + minute * 60 + second;
    assert n / 60 == hour * 60 + minute;
    assert n / 3600 == hour;
  }

  lemma SixtiethSecondInvalid()
    ensures ValidRevision(20260131235959) && !ValidRevision(20260131235960)
  {
    assert 20260131235959 / 100 == 202601312359 && 202601312359 / 10000 == 20260131;
    assert ValidDate(Date(2026, 1, 31));
  }
}
