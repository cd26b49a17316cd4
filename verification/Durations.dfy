/** Time of day, seconds added to a moment, and XML Schema durations added to a moment. */
module Durations {

  import opened Calendar

  datatype Clock = Clock(hour: int, minute: int, second: int, millis: int)

  predicate IsClock(c: Clock) {
    0 <= c.hour < 24 && 0 <= c.minute < 60 && 0 <= c.second < 60 && 0 <= c.millis < MILLIS_PER_SEC
  }

  /** `make_hms` */
  function MakeHms(c: Clock): int {
    MILLIS_PER_SEC * (3600 * c.hour + 60 * c.minute + c.second) + c.millis
  }

  /** `get_hms` */
  function GetHms(time: int): Clock {
    var ticks := Div(time, MILLIS_PER_SEC);
    Clock(Div(ticks, 3600), Mod(Div(ticks, 60), 60), Mod(ticks, 60), Mod(time, MILLIS_PER_SEC))
  }

  predicate IsTimeOfDay(time: int) { 0 <= time < MILLIS_PER_DAY }

  lemma Digits(hour: nat, minute: nat, second: nat)
    requires minute < 60 && second < 60
    ensures var ticks := 3600 * hour + 60 * minute + second;
            ticks / 3600 == hour && (ticks / 60) % 60 == minute && ticks % 60 == second
  {
    var ticks := 3600 * hour + 60 * minute + second;
    assert ticks / 60 == 60 * hour + minute;
  }

  /** The fields of a clock have one sign, and none but the hours is too large. */
  predicate IsSigned(c: Clock) {
    && -60 < c.minute < 60 && -60 < c.second < 60 && -MILLIS_PER_SEC < c.millis < MILLIS_PER_SEC
    && ((c.hour >= 0 && c.minute >= 0 && c.second >= 0 && c.millis >= 0)
        || (c.hour <= 0 && c.minute <= 0 && c.second <= 0 && c.millis <= 0))
  }

  /** A clock comes back from its milliseconds exactly when its fields have one sign and none but
      the hours is too large; and every clock that comes back from milliseconds is so. */
  lemma ClockRoundTrip(c: Clock, time: int)
    ensures GetHms(MakeHms(c)) == c <==> IsSigned(c)
    ensures IsClock(c) ==> IsTimeOfDay(MakeHms(c))
    ensures IsSigned(GetHms(time))
  {
    SignedBack(time);
    SignedBack(MakeHms(c));
    if IsSigned(c) {
      if MakeHms(c) >= 0 {
        ReadingBack(c);
      } else {
        var d := Clock(-c.hour, -c.minute, -c.second, -c.millis);
        ReadingBack(d);
        MirroredHms(MakeHms(d));
        assert MakeHms(c) == -MakeHms(d);
      }
    }
  }

  lemma SignedBack(time: int)
    ensures IsSigned(GetHms(time))
  {
    if time < 0 { MirroredHms(-time); }
  }

  lemma ReadingBack(c: Clock)
    requires IsSigned(c) && MakeHms(c) >= 0
    ensures GetHms(MakeHms(c)) == c
  {
    var ticks := 3600 * c.hour + 60 * c.minute + c.second;
    Digits(c.hour, c.minute, c.second);
    assert (MILLIS_PER_SEC * ticks + c.millis) / MILLIS_PER_SEC == ticks;
  }

  lemma MirroredHms(time: int)
    requires time >= 0
    ensures var c, d := GetHms(time), GetHms(-time);
            d == Clock(-c.hour, -c.minute, -c.second, -c.millis)
  {
  }

  /** Milliseconds come back from their clock, which is a proper reading for a time of day. */
  lemma TimeRoundTrip(time: int)
    ensures MakeHms(GetHms(time)) == time
    ensures IsTimeOfDay(time) <==> time >= 0 && IsClock(GetHms(time))
  {
    var ticks := Div(time, MILLIS_PER_SEC);
    TruncatedTwice(ticks);
    if time >= 0 {
      assert GetHms(time).hour == ticks / 3600 && ticks == time / MILLIS_PER_SEC;
      if ticks < SECONDS_PER_DAY { assert time < MILLIS_PER_DAY; }
    }
  }

  /** Truncation by 60 twice is truncation by 3600, on both sides of zero. */
  lemma TruncatedTwice(ticks: int)
    ensures Div(Div(ticks, 60), 60) == Div(ticks, 3600)
  {
    if ticks < 0 {
      assert Div(ticks, 60) == -(-ticks / 60);
      assert -ticks / 60 / 60 == -ticks / 3600;
    }
  }

  /** The fields of a duration; `parse_duration` lets each have its own sign. */
  datatype Duration = Duration(years: int, months: int, days: int, hours: int, minutes: int, seconds: int)

  // ---------- what adding a duration should mean ----------

  /** The date `n` months later, on the same day or the last of its month: months counted from
      year 0, with floor division. */
  function ShiftMonths(d: Date, n: int): Date {
    var year, month := YearOf(MonthNumber(d) + n), MonthOf(MonthNumber(d) + n);
    Date(year, month, if d.day <= MaxDay(year, month) then d.day else MaxDay(year, month))
  }

  function MonthNumber(d: Date): int { 12 * d.year + d.month - 1 }
  function YearOf(number: int): int { number / 12 }
  function MonthOf(number: int): int { number % 12 + 1 }

  /** The date `n` days later, one day after another. */
  function Later(d: Date, n: nat): Date {
    if n == 0 then d else NextDay(Later(d, n - 1))
  }

  /** Days later is days added to the number. */
  lemma {:induction false} LaterIsPlus(d: Date, n: nat)
    requires IsDate(d) && InRange(d)
    ensures IsDate(Later(d, n)) && InRange(Later(d, n)) && Julian(Later(d, n)) == Julian(d) + n
  {
    if n > 0 {
      LaterIsPlus(d, n - 1);
      NextDayIsNext(Later(d, n - 1));
    }
  }

  lemma ShiftedIsDate(d: Date, n: int)
    requires IsDate(d)
    ensures IsDate(ShiftMonths(d, n)) && IsClamped(d.day, ShiftMonths(d, n))
  {
    var s := ShiftMonths(d, n);
    MonthHasDays(s.year, s.month);
  }

  // ---------- the carry loop ----------

  /** The month `add_duration_date_time` steps to; its division truncates, so below January it
      goes on to months 0, -1, ... of the same year. */
  function StepMonth(year: int, month: int, carry: int): (int, int) {
    (year + Div(month + carry - 1, 12), Mod(month + carry - 1, 12) + 1)
  }

  lemma StepInside(year: int, month: int, carry: int)
    requires 1 <= month <= 12 && 1 <= month + carry <= 13
    ensures StepMonth(year, month, carry) ==
            if month + carry == 13 then (year + 1, 1) else (year, month + carry)
  {
  }

  /** Going down a month inside a year, the loop adds the true length of the month before. */
  lemma StepDown(year: int, month: int)
    requires 2 <= month <= 12 && year > -4800
    ensures StepMonth(year, month, -1) == (year, month - 1)
    ensures JulianDate(year, month - 1, 1) == JulianDate(year, month, 1) - MaxDay(year, month - 1)
  {
    StepInside(year, month, -1);
    MonthBefore(year, month);
  }

  lemma MonthBefore(year: int, month: int)
    requires 2 <= month <= 12 && year > -4800
    ensures JulianDate(year, month - 1, 1) == JulianDate(year, month, 1) - MaxDay(year, month - 1)
  {
    assert NextMonth(year, month - 1) == (year, month);
    MonthLength(year, month - 1);
  }

  /** Months of January and below, as the loop's truncating division numbers them. */
  predicate IsLowMonth(month: int) { -10 <= month <= 1 }

  /** From January down, the loop adds no more than the month had, and 3 too few for December. */
  lemma StepBelow(year: int, month: int)
    requires IsLowMonth(month)
    ensures MaxDay(year, month - 1) == if month == -10 then 31 else 28
    ensures var (y, m) := StepMonth(year, month, -1);
            && IsLowMonth(m)
            && JulianDate(y, m, 1) + MaxDay(year, month - 1) <= JulianDate(year, month, 1)
            && (month == 1 ==> JulianDate(y, m, 1) + 31 == JulianDate(year, month, 1))
  {
    LowLength(year, month);
    LowStep(year, month);
    if month == -10 {
      FebruaryAfterJanuary(year);
    } else {
      LowGap(year, month);
    }
  }

  lemma LowGap(year: int, month: int)
    requires IsLowMonth(month) && month != -10
    ensures JulianDate(year, month - 1, 1) + 28 <= JulianDate(year, month, 1)
    ensures month == 1 ==> JulianDate(year, month - 1, 1) + 31 == JulianDate(year, month, 1)
  {
    LowStart(year, month);
    LowStart(year, month - 1);
    if month == -9 { YearHasDays(year + 4799); } else { LowMonthLength(month); }
  }

  lemma LowMonthLength(month: int)
    requires IsLowMonth(month) && month > -9
    ensures MonthStart(month + 9) - MonthStart(month + 8) >= if month == 1 then 31 else 28
    ensures month == 1 ==> MonthStart(month + 9) - MonthStart(month + 8) == 31
  {
  }

  lemma FebruaryAfterJanuary(year: int)
    ensures JulianDate(year - 1, 1, 1) + 31 == JulianDate(year, -10, 1)
  {
    LowStart(year, -10);
    LowStart(year - 1, 1);
  }

  lemma LowStep(year: int, month: int)
    requires IsLowMonth(month)
    ensures StepMonth(year, month, -1) == if month == -10 then (year - 1, 1) else (year, month - 1)
  {
    var t := month - 2;
    assert Div(t, 12) == if t == -12 then -1 else 0;
  }

  lemma LowLength(year: int, month: int)
    requires IsLowMonth(month)
    ensures MaxDay(year, month - 1) == if month == -10 then 31 else 28
  {
    var t := month - 2;
    assert Div(t, 12) == if t == -12 then -1 else 0;
  }

  /** The days before a March-based year, with truncating division. */
  function Years(y: int): int { y * 365 + LeapDaysBefore(y) }

  function LeapDaysBefore(y: int): int { Div(y, 4) - Div(y, 100) + Div(y, 400) }

  lemma LowStart(year: int, month: int)
    requires IsLowMonth(month)
    ensures JulianDate(year, month, 1) == 1 - 32045 +
            if month == -10 then MonthStart(11) + Years(year + 4798) else MonthStart(month + 9) + Years(year + 4799)
  {
    assert Div(14 - month, 12) == if month == -10 then 2 else 1;
  }

  /** A March-based year has at least 365 days. */
  lemma YearHasDays(y: int)
    ensures Years(y) >= Years(y - 1) + 365
  {
    if y >= 1 {
      LeapCount(y - 1);
    } else {
      LeapCount(-y);
      Mirrored(-y);
      Mirrored(1 - y);
    }
  }

  lemma Mirrored(n: int)
    requires n >= 0
    ensures LeapDaysBefore(-n) == -LeapDays(n)
  {
  }

  /** No month of a year starts before its January. */
  lemma MonthsGrow(year: int, month: int)
    requires 1 <= month <= 12
    ensures JulianDate(year, month, 1) >= JulianDate(year, 1, 1)
  {
    StartByMarch(year, 1);
    StartByMarch(year, month);
    YearHasDays(year + 4800);
    MonthStartGrows(MarchMonth(month));
  }

  lemma StartByMarch(year: int, month: int)
    requires 1 <= month <= 12
    ensures JulianDate(year, month, 1) == 1 + MonthStart(MarchMonth(month)) + Years(MarchYear(year, month)) - 32045
  {
    assert Div(14 - month, 12) == if month <= 2 then 1 else 0;
  }

  lemma MonthStartGrows(m: nat)
    requires m <= 11
    ensures 0 <= MonthStart(m) && (m >= 10 ==> MonthStart(m) >= 306)
    ensures MonthStart(10) == 306
  {
  }

  /** Whichever way it steps, the loop stays in months -10 to 12, of 28 to 31 days. */
  lemma StepsStayLow(year: int, month: int)
    requires -10 <= month <= 12
    ensures var (y, m) := StepMonth(year, month, 1); -10 <= m <= 12
    ensures var (y, m) := StepMonth(year, month, -1);
            -10 <= m <= 12 && 28 <= MaxDay(year, month - 1) <= 31
    ensures 28 <= MaxDay(year, month) <= 31
  {
  }

  // ---------- the time of day ----------

  /** The clock after the hours, minutes and seconds are added, and the days carried out. */
  function AddClock(c: Clock, dur: Duration): (int, Clock) {
    var sec := c.second + dur.seconds;
    var min := c.minute + dur.minutes + Div(sec, 60);
    var hour := c.hour + dur.hours + Div(min, 60);
    (Div(hour, 24), Clock(Mod(hour, 24), Mod(min, 60), Mod(sec, 60), 0))
  }

  function SecondsOf(dur: Duration): int { 3600 * dur.hours + 60 * dur.minutes + dur.seconds }

  function CarriedDays(time: int, dur: Duration): int { AddClock(GetHms(time), dur).0 }

  predicate IsForward(dur: Duration) {
    && dur.years >= 0 && dur.months >= 0 && dur.days >= 0
    && dur.hours >= 0 && dur.minutes >= 0 && dur.seconds >= 0
  }

  /** Adding to the clock loses no second, whatever the signs: only the milliseconds of the start
      are dropped. */
  lemma ClockKeepsSeconds(c: Clock, dur: Duration)
    ensures var (carry, e) := AddClock(c, dur);
            MILLIS_PER_DAY * carry + MakeHms(e) == MakeHms(c) - c.millis + MILLIS_PER_SEC * SecondsOf(dur)
  {
  }

  /** Adding hours, minutes and seconds forward gives a clock reading, and carries the whole days. */
  lemma ForwardClock(c: Clock, dur: Duration)
    requires IsClock(c) && IsForward(dur)
    ensures var (carry, e) := AddClock(c, dur);
            && IsClock(e) && IsTimeOfDay(MakeHms(e))
            && carry == (3600 * c.hour + 60 * c.minute + c.second + SecondsOf(dur)) / SECONDS_PER_DAY
  {
    var (carry, e) := AddClock(c, dur);
    ClockKeepsSeconds(c, dur);
    var rest := 3600 * e.hour + 60 * e.minute + e.second;
    assert 0 <= rest < SECONDS_PER_DAY;
    assert (SECONDS_PER_DAY * carry + rest) / SECONDS_PER_DAY == carry;
  }

  /** Whatever the signs, the clock ends at a time of day exactly when the days carried do not go
      past the seconds added: then they are the whole days, rounded down. In the fields the code
      computes: when the first that is not zero is positive, or all are zero. */
  lemma ClockIsProper(c: Clock, dur: Duration)
    ensures var (carry, e) := AddClock(c, dur);
            var seconds := 3600 * c.hour + 60 * c.minute + c.second + SecondsOf(dur);
            && (IsTimeOfDay(MakeHms(e)) <==> SECONDS_PER_DAY * carry <= seconds)
            && (IsTimeOfDay(MakeHms(e)) <==> carry == FloorDays(seconds))
            && (IsTimeOfDay(MakeHms(e)) <==> LeadsPositive(e))
  {
    var (carry, e) := AddClock(c, dur);
    ClockKeepsSeconds(c, dur);
    var rest := 3600 * e.hour + 60 * e.minute + e.second;
    assert -60 < e.second < 60 && -60 < e.minute < 60 && -24 < e.hour < 24;
    assert MakeHms(e) == MILLIS_PER_SEC * rest && -SECONDS_PER_DAY < rest < SECONDS_PER_DAY;
    FloorOf(3600 * c.hour + 60 * c.minute + c.second + SecondsOf(dur), carry, rest);
  }

  /** The whole days in some seconds, rounded down. */
  function FloorDays(seconds: int): int { seconds / SECONDS_PER_DAY }

  predicate LeadsPositive(e: Clock) {
    e.hour > 0 || (e.hour == 0 && (e.minute > 0 || (e.minute == 0 && e.second >= 0)))
  }

  /** The whole seconds of a time. */
  function SecondsOfDay(time: int): int { Div(time, MILLIS_PER_SEC) }

  lemma WholeSeconds(time: int)
    ensures var c := GetHms(time); 3600 * c.hour + 60 * c.minute + c.second == SecondsOfDay(time)
  {
    TruncatedTwice(Div(time, MILLIS_PER_SEC));
  }

  lemma FloorOf(seconds: int, carry: int, rest: int)
    requires seconds == SECONDS_PER_DAY * carry + rest && -SECONDS_PER_DAY < rest < SECONDS_PER_DAY
    ensures rest >= 0 <==> carry == FloorDays(seconds)
  {
  }

  /** A family where it does not: minutes taken off across midnight leave the time of day below
      zero, on the same day. */
  lemma BackwardClock(c: Clock, dur: Duration)
    requires IsClock(c) && c.hour == 0 && dur.hours == 0 && dur.seconds == 0
    requires -60 < c.minute + dur.minutes < 0
    ensures var (carry, e) := AddClock(c, dur); carry == 0 && MakeHms(e) < 0
  {
    assert Div(c.second, 60) == 0 && Div(c.minute + dur.minutes, 60) == 0;
  }

  // ---------- the date ----------

  /** Months 0 to -10 of a year stand for December to February of the year before. */
  function TrueMonth(year: int, month: int): (int, int) {
    if month >= 1 then (year, month) else (year - 1, month + 12)
  }

  lemma TrueStart(year: int, month: int)
    requires -10 <= month <= 12
    requires var (y, m) := TrueMonth(year, month); InRange(Date(y, m, 1))
    ensures var (y, m) := TrueMonth(year, month); JulianDate(year, month, 1) == JulianDate(y, m, 1)
    ensures month <= 0 ==> MaxDay(year, month) == 28
  {
    if month <= 0 {
      LowStart(year, month);
      JulianByMarch(year - 1, month + 12, 1);
      LowLength(year, month + 1);
    }
  }

  /** The month the code shifts to stands for the shifted month: floor arithmetic on months counted
      from year 0. */
  lemma ShiftedMonth(d: Date, years: int, months: int)
    ensures var number := MonthNumber(d) + 12 * years + months;
            var (y, m) := StepMonth(d.year + years, d.month, months);
            && -10 <= m <= 12 && 1 <= MonthOf(number) <= 12 && TrueMonth(y, m) == (YearOf(number), MonthOf(number))
            && (m <= 0 <==> d.month + months < 1 && MonthOf(number) != 1)
  {
    var n := d.month + months - 1;
    assert MonthNumber(d) + 12 * years + months == 12 * (d.year + years) + n;
    MonthFromZero(d.year + years, n);
  }

  /** Month `n`, counted from 0 in January of a year, by truncating and by floor division. */
  lemma MonthFromZero(year: int, n: int)
    ensures var (y, m) := (year + Div(n, 12), Mod(n, 12) + 1);
            var (ty, tm) := ((12 * year + n) / 12, (12 * year + n) % 12 + 1);
            && -10 <= m <= 12 && 1 <= tm <= 12 && TrueMonth(y, m) == (ty, tm)
            && (m <= 0 <==> n < 0 && tm != 1)
  {
    FloorYears(year, n);
    TruncatedYears(n);
  }

  lemma FloorYears(year: int, n: int)
    ensures (12 * year + n) / 12 == year + n / 12 && (12 * year + n) % 12 == n % 12
  {
  }

  lemma TruncatedYears(n: int)
    ensures n >= 0 || n % 12 == 0 ==> Div(n, 12) == n / 12 && Mod(n, 12) == n % 12
    ensures n < 0 && n % 12 != 0 ==> Div(n, 12) == n / 12 + 1 && Mod(n, 12) == n % 12 - 12
  {
  }

  /** The dates the carry loop is measured on: in range, and no step back from year -4800, which
      the range enters in March. */
  predicate InScope(s: Date, days: int) {
    InRange(s) && (s.year > -4800 || days >= 0)
  }

  /** The first of the year a month of the loop belongs to. */
  function YearStart(year: int, month: int): int { JulianDate(TrueMonth(year, month).0, 1, 1) }

  function TrueLength(year: int, month: int): int {
    var (y, m) := TrueMonth(year, month);
    MaxDay(y, m)
  }

  /** How far the day the loop stands on is short of `target`. */
  function Short(target: int, year: int, month: int, day: int): int {
    target - (JulianDate(year, month, 1) + day - 1)
  }

  /** Whether the loop, standing on `day` of a month, will end on `target`. Steps through months 1
      to 12 are exact; a step up from a lower month gains what its true length has over 28, and a
      step down to one loses it. */
  predicate EndsOn(target: int, year: int, month: int, day: int) {
    var short := Short(target, year, month, day);
    if day < 1 then
      && short == 0 && target >= YearStart(year, month)
      && (month >= 1 || month == -10 || (month == -9 && !IsLeap(year - 1)))
    else if day <= MaxDay(year, month) || month >= 1 then short == 0
    else short == TrueLength(year, month) - 28 && (month == 0 || day <= 56)
  }

  /** The loop is in range; going down it is not past the target, going up not short of it by more
      than the month has over 28 days. */
  ghost predicate Steady(target: int, year: int, month: int, day: int) {
    && -10 <= month <= 12
    && var (y, m) := TrueMonth(year, month);
       && InRange(Date(y, m, 1))
       && (day < 1 ==> y > -4800 && Short(target, year, month, day) >= 0)
       && (day > MaxDay(year, month) ==> Short(target, year, month, day) <= MaxDay(y, m) - MaxDay(year, month))
  }

  /** The loop has gone below January and short of the target, for good. */
  ghost predicate Fallen(target: int, year: int, month: int, day: int) {
    IsLowMonth(month) && day <= MaxDay(year, month) && Short(target, year, month, day) > 0
  }

  ghost predicate Standing(target: int, year: int, month: int, day: int) {
    Steady(target, year, month, day) || Fallen(target, year, month, day)
  }

  /** Set out in month 1 or later: the loop does not go past the target. */
  ghost predicate NotPast(target: int, year: int, month: int, day: int) {
    || (month >= 1 && Steady(target, year, month, day) && Short(target, year, month, day) >= 0)
    || Fallen(target, year, month, day)
  }

  /** A step up gains the difference between the true length and the one taken. */
  lemma UpGains(target: int, year: int, month: int, day: int)
    requires Steady(target, year, month, day)
    ensures var (y, m) := StepMonth(year, month, 1);
            && (y, m) == (if month == 12 then (year + 1, 1) else (year, month + 1))
            && (var (ty, tm) := TrueMonth(y, m); InRange(Date(ty, tm, 1)))
            && Short(target, y, m, day - MaxDay(year, month)) ==
               Short(target, year, month, day) - (TrueLength(year, month) - MaxDay(year, month))
  {
    StepUpFrom(year, month);
    var (ty, tm) := TrueMonth(year, month);
    var (ny, nm) := NextMonth(ty, tm);
    TrueStart(year, month);
    MonthLength(ty, tm);
    var (y, m) := StepMonth(year, month, 1);
    TrueStart(y, m);
  }

  lemma StepUpFrom(year: int, month: int)
    requires -10 <= month <= 12
    ensures var (y, m) := StepMonth(year, month, 1);
            && (y, m) == (if month == 12 then (year + 1, 1) else (year, month + 1))
            && TrueMonth(y, m) == (var (ty, tm) := TrueMonth(year, month); NextMonth(ty, tm))
  {
  }

  lemma CarryUp(target: int, year: int, month: int, day: int)
    requires Standing(target, year, month, day) && day > MaxDay(year, month)
    ensures var (y, m) := StepMonth(year, month, 1);
            var day' := day - MaxDay(year, month);
            && Steady(target, y, m, day')
            && (EndsOn(target, y, m, day') <==> EndsOn(target, year, month, day))
            && (NotPast(target, year, month, day) ==> NotPast(target, y, m, day'))
  {
    if month >= 1 {
      UpInside(target, year, month, day);
    } else {
      UpBelow(target, year, month, day);
    }
  }

  lemma UpInside(target: int, year: int, month: int, day: int)
    requires Steady(target, year, month, day) && day > MaxDay(year, month) && month >= 1
    ensures var (y, m) := StepMonth(year, month, 1);
            var day' := day - MaxDay(year, month);
            && Steady(target, y, m, day')
            && (EndsOn(target, y, m, day') <==> EndsOn(target, year, month, day))
            && (NotPast(target, year, month, day) ==> NotPast(target, y, m, day'))
  {
    UpGains(target, year, month, day);
  }

  lemma UpBelow(target: int, year: int, month: int, day: int)
    requires Steady(target, year, month, day) && day > MaxDay(year, month) && month <= 0
    ensures var (y, m) := StepMonth(year, month, 1);
            var day' := day - MaxDay(year, month);
            && Steady(target, y, m, day')
            && (EndsOn(target, y, m, day') <==> EndsOn(target, year, month, day))
            && (NotPast(target, year, month, day) ==> NotPast(target, y, m, day'))
  {
    UpGains(target, year, month, day);
    TrueStart(year, month);
    var (y, m) := StepMonth(year, month, 1);
    TrueStart(y, m);
    LongMonths(y, m);
  }

  /** Of the months 0 to -10 only the last can have no more than 29 days. */
  lemma LongMonths(year: int, month: int)
    requires -10 <= month <= 12
    ensures 28 <= TrueLength(year, month) <= 31
    ensures -10 < month <= 0 ==> TrueLength(year, month) >= 30
    ensures month == -10 ==> TrueLength(year, month) == if IsLeap(year - 1) then 29 else 28
  {
    var (y, m) := TrueMonth(year, month);
    MaxDayFixed(y, m);
    PlainMonth(0, m);
  }

  lemma CarryDown(target: int, year: int, month: int, day: int)
    requires Standing(target, year, month, day) && day < 1
    ensures var (y, m) := StepMonth(year, month, -1);
            var day' := day + MaxDay(year, month - 1);
            && Standing(target, y, m, day')
            && (EndsOn(target, y, m, day') <==> EndsOn(target, year, month, day))
            && (NotPast(target, year, month, day) ==> NotPast(target, y, m, day'))
  {
    if Fallen(target, year, month, day) {
      FallOn(target, year, month, day);
    } else if month >= 2 {
      DownInside(target, year, month, day);
    } else if month == 1 {
      FallOff(target, year, day);
    } else {
      DownBelow(target, year, month, day);
    }
  }

  lemma FallOn(target: int, year: int, month: int, day: int)
    requires Fallen(target, year, month, day) && day < 1
    ensures var (y, m) := StepMonth(year, month, -1);
            var day' := day + MaxDay(year, month - 1);
            && Fallen(target, y, m, day')
            && !EndsOn(target, y, m, day') && !EndsOn(target, year, month, day)
  {
    StepBelow(year, month);
    LowStep(year, month);
  }

  lemma FallOff(target: int, year: int, day: int)
    requires Steady(target, year, 1, day) && day < 1
    ensures var (y, m) := StepMonth(year, 1, -1);
            var day' := day + MaxDay(year, 0);
            && Fallen(target, y, m, day')
            && !EndsOn(target, y, m, day') && !EndsOn(target, year, 1, day)
  {
    StepBelow(year, 1);
    LowStep(year, 1);
  }

  lemma DownInside(target: int, year: int, month: int, day: int)
    requires Steady(target, year, month, day) && day < 1 && month >= 2
    ensures StepMonth(year, month, -1) == (year, month - 1)
    ensures var day' := day + MaxDay(year, month - 1);
            && Steady(target, year, month - 1, day')
            && Short(target, year, month - 1, day') == Short(target, year, month, day)
            && (EndsOn(target, year, month - 1, day') <==> EndsOn(target, year, month, day))
  {
    StepDown(year, month);
    MonthsGrow(year, month - 1);
    MonthHasDays(year, month - 1);
  }

  lemma DownBelow(target: int, year: int, month: int, day: int)
    requires Steady(target, year, month, day) && day < 1 && month <= 0
    ensures var (y, m) := StepMonth(year, month, -1);
            var day' := day + MaxDay(year, month - 1);
            && Standing(target, y, m, day')
            && (EndsOn(target, y, m, day') <==> EndsOn(target, year, month, day))
  {
    if month == -10 {
      DownToJanuary(target, year, day);
    } else {
      DownLoses(year, month);
      LongMonths(year, month - 1);
      LowStep(year, month);
      if month == -9 {
        NotBeforeJanuary(year, -10);
      }
    }
  }

  /** From February, numbered -10, the loop goes on to January of the year before, and loses
      nothing. */
  lemma DownToJanuary(target: int, year: int, day: int)
    requires Steady(target, year, -10, day) && day < 1
    ensures StepMonth(year, -10, -1) == (year - 1, 1)
    ensures var day' := day + MaxDay(year, -11);
            && Standing(target, year - 1, 1, day')
            && (EndsOn(target, year - 1, 1, day') <==> EndsOn(target, year, -10, day))
  {
    StepBelow(year, -10);
    LowStep(year, -10);
    FebruaryAfterJanuary(year);
    MonthHasDays(year - 1, 1);
  }

  lemma DownLoses(year: int, month: int)
    requires -10 < month <= 0 && year - 1 > -4800
    ensures JulianDate(year, month, 1) == JulianDate(year, month - 1, 1) + TrueLength(year, month - 1)
    ensures MaxDay(year, month - 1) == 28
  {
    TrueStart(year, month);
    TrueStart(year, month - 1);
    assert NextMonth(year - 1, month + 11) == (year - 1, month + 12);
    MonthLength(year - 1, month + 11);
  }

  /** No month of the loop starts before its year. */
  lemma NotBeforeJanuary(year: int, month: int)
    requires -10 <= month <= 12
    requires var (y, m) := TrueMonth(year, month); InRange(Date(y, m, 1))
    ensures JulianDate(year, month, 1) >= YearStart(year, month)
  {
    var (y, m) := TrueMonth(year, month);
    TrueStart(year, month);
    MonthsGrow(y, m);
  }

  /** A month taken off January leads to month 0, taken to be 28 days long; it stands for a
      December of 31. */
  lemma ShortDecember(year: int)
    ensures StepMonth(year, 1, -1) == (year, 0) && MaxDay(year, 0) == 28
    ensures JulianDate(year, 0, 1) == JulianDate(year - 1, 12, 1) && MaxDay(year - 1, 12) == 31
  {
    StepBelow(year, 1);
    LowStep(year, 1);
    LowStart(year, 0);
    PlainMonth(year - 1, 12);
    assert JulianDate(year - 1, 12, 1) == 1 + MonthStart(9) + Years(year + 4799) - 32045;
  }

  // ---------- adding a duration to a date ----------

  lemma FirstMonth(n: int)
    ensures -11 <= Mod(n, 12) <= 11
  {
  }

  function Shifted(start: Date, dur: Duration): Date { ShiftMonths(start, 12 * dur.years + dur.months) }

  predicate SinceJanuary(s: Date, days: int) { Julian(s) + days >= JulianDate(s.year, 1, 1) }

  /** When the loop reaches the shifted date plus `days`: from month 1 or later, when that is not
      before January of its year. */
  predicate Reaches(start: Date, dur: Duration, days: int) {
    ReachesFrom(start.day, SumBelowJanuary(start, dur), Shifted(start, dur), days)
  }

  predicate SumBelowJanuary(start: Date, dur: Duration) { start.month + dur.months < 1 }

  predicate ReachesFrom(startDay: int, low: bool, s: Date, days: int) {
    if !low || s.month == 1 then SinceJanuary(s, days) else ReachesFromLow(startDay, s, days)
  }

  /** From a month the code numbers 0 or less, where it takes every month to have 28 days: when the
      day it starts on is right and it stays in the month, or goes back no further than from March
      through a short February to January, or forward out of a short February into March; or when
      the day it starts on is short by just what the step out of the month gains, and it takes
      only that step. */
  predicate ReachesFromLow(startDay: int, s: Date, days: int) {
    var length := MaxDay(s.year, s.month);
    if startDay <= 28 || length == 28 then
      if s.day + days < 1 then SinceJanuary(s, days) && (s.month == 2 || (s.month == 3 && !IsLeap(s.year)))
      else s.day + days <= if length == 28 then 56 else 28
    else days > 0 && startDay >= length && (s.month == 12 || days <= 28)
  }

  /** From the 29th on, shifting below January to a month longer than 28 days, and adding no days,
      does not reach the shifted date, as from 31 January back to December; up to the 28th it
      does. */
  lemma LateDaysFallShort(start: Date, dur: Duration)
    requires IsDate(start) && start.month + dur.months < 1 && Shifted(start, dur).month != 1
    requires MaxDay(Shifted(start, dur).year, Shifted(start, dur).month) > 28
    ensures Reaches(start, dur, 0) <==> start.day <= 28
  {
    ShiftedIsDate(start, 12 * dur.years + dur.months);
  }

  /** The day the loop starts on. */
  function FirstDay(startDay: int, year: int, month: int): int {
    if startDay > MaxDay(year, month) then MaxDay(year, month) else if startDay < 1 then 1 else startDay
  }

  /** The date shifted to: a date, with the start's day or the last of its month. */
  predicate IsClamped(startDay: int, s: Date) {
    && IsDate(s) && startDay >= 1
    && s.day == if startDay <= MaxDay(s.year, s.month) then startDay else MaxDay(s.year, s.month)
  }

  /** The month stands for the shifted one, and is low exactly when the sum of months is below 1
      and the shifted month is not January. */
  predicate StandsFor(s: Date, low: bool, year: int, month: int) {
    -10 <= month <= 12 && TrueMonth(year, month) == (s.year, s.month) && (month <= 0 <==> low && s.month != 1)
  }

  /** `ReachesFrom` says whether the loop ends on the shifted date plus the days, set out in the
      month the code shifts to. */
  lemma SetsOut(startDay: int, low: bool, s: Date, days: int, year: int, month: int)
    requires IsClamped(startDay, s) && InScope(s, days) && StandsFor(s, low, year, month)
    ensures var target := Julian(s) + days;
            var day := FirstDay(startDay, year, month) + days;
            && Standing(target, year, month, day)
            && (EndsOn(target, year, month, day) <==> ReachesFrom(startDay, low, s, days))
            && (!low ==> NotPast(target, year, month, day))
  {
    FromMonth(startDay, s, year, month, days);
  }

  /** What `AddDuration` does to the date, on every duration whose shifted month is in range: it
      ends on the shifted date plus the days exactly when `Reaches` says so, and, shifting to
      month 1 or later, never past it. */
  predicate AddsDate(start: Date, dur: Duration, carry: int, date: int) {
    IsDate(start) ==>
      EndsRight(start.day, SumBelowJanuary(start, dur), Shifted(start, dur), dur.days + carry, date)
  }

  predicate EndsRight(startDay: int, low: bool, s: Date, days: int, date: int) {
    InScope(s, days) ==>
      && (date == Julian(s) + days <==> ReachesFrom(startDay, low, s, days))
      && (!low ==> date <= Julian(s) + days)
  }

  /** So what the loop ends on is what `EndsRight` says. */
  lemma Arrives(startDay: int, low: bool, s: Date, days: int, year: int, month: int, date: int)
    requires IsClamped(startDay, s) && StandsFor(s, low, year, month)
    requires CarriesTo(Julian(s) + days, year, month, FirstDay(startDay, year, month) + days, date)
    ensures EndsRight(startDay, low, s, days, date)
  {
    if InScope(s, days) {
      SetsOut(startDay, low, s, days, year, month);
    }
  }

  /** What the loop, set out on `day` of a month, does. */
  ghost predicate CarriesTo(target: int, year: int, month: int, day: int, date: int) {
    Standing(target, year, month, day) ==>
      && (date == target <==> EndsOn(target, year, month, day))
      && (NotPast(target, year, month, day) ==> date <= target)
  }

  lemma FromMonth(startDay: int, s: Date, year: int, month: int, days: int)
    requires IsDate(s) && InRange(s) && (s.year > -4800 || days >= 0)
    requires -10 <= month <= 12 && TrueMonth(year, month) == (s.year, s.month)
    requires s.day == if startDay <= MaxDay(s.year, s.month) then startDay else MaxDay(s.year, s.month)
    ensures var target := Julian(s) + days;
            var day := (if startDay > MaxDay(year, month) then MaxDay(year, month) else startDay) + days;
            && Standing(target, year, month, day)
            && (EndsOn(target, year, month, day) <==>
                if month >= 1 then SinceJanuary(s, days) else ReachesFromLow(startDay, s, days))
            && (month >= 1 ==> NotPast(target, year, month, day))
  {
    if month >= 1 {
      FromPlainMonth(s, days);
    } else {
      FromLowMonth(startDay, s, year, month, days);
    }
  }

  lemma FromPlainMonth(s: Date, days: int)
    requires IsDate(s) && InRange(s) && (s.year > -4800 || days >= 0)
    ensures var target := Julian(s) + days;
            && Steady(target, s.year, s.month, s.day + days) && Short(target, s.year, s.month, s.day + days) == 0
            && (EndsOn(target, s.year, s.month, s.day + days) <==> SinceJanuary(s, days))
  {
    DayShift(s.year, s.month, 1, s.day - 1);
    NotBeforeJanuary(s.year, s.month);
  }

  lemma FromLowMonth(startDay: int, s: Date, year: int, month: int, days: int)
    requires IsDate(s) && InRange(s) && (s.year > -4800 || days >= 0)
    requires -10 <= month <= 0 && TrueMonth(year, month) == (s.year, s.month)
    requires s.day == if startDay <= MaxDay(s.year, s.month) then startDay else MaxDay(s.year, s.month)
    ensures var target := Julian(s) + days;
            var day := (if startDay > 28 then 28 else startDay) + days;
            && MaxDay(year, month) == 28
            && Steady(target, year, month, day) && (EndsOn(target, year, month, day) <==> ReachesFromLow(startDay, s, days))
  {
    TrueStart(year, month);
    LongMonths(year, month);
    DayShift(s.year, s.month, 1, s.day - 1);
  }

  /** So from a proper date a forward duration gives the shifted date, its days counted on one by
      one. */
  lemma ForwardIsExact(start: Date, dur: Duration, carry: int, date: int)
    requires IsDate(start) && InRange(start) && IsForward(dur) && carry >= 0
    requires AddsDate(start, dur, carry, date)
    ensures var d := Later(Shifted(start, dur), dur.days + carry);
            IsDate(d) && InRange(d) && date == Julian(d)
  {
    ForwardInScope(start, dur, dur.days + carry);
    LaterIsPlus(Shifted(start, dur), dur.days + carry);
  }

  lemma ForwardInScope(start: Date, dur: Duration, days: nat)
    requires IsDate(start) && InRange(start) && IsForward(dur)
    ensures InScope(Shifted(start, dur), days) && IsDate(Shifted(start, dur)) && Reaches(start, dur, days)
  {
    ShiftedIsDate(start, 12 * dur.years + dur.months);
    ShiftForward(start, 12 * dur.years + dur.months);
    SinceItsJanuary(Shifted(start, dur), days);
  }

  lemma SinceItsJanuary(s: Date, n: nat)
    requires IsDate(s)
    ensures SinceJanuary(s, n)
  {
    MonthsGrow(s.year, s.month);
    DayShift(s.year, s.month, 1, s.day - 1);
  }

  lemma ShiftForward(d: Date, n: nat)
    requires IsDate(d) && InRange(d)
    ensures InRange(ShiftMonths(d, n))
  {
    var total := 12 * d.year + d.month - 1;
    assert total >= 12 * -4800 + 2;
  }

  /** A date and a time of day, as the class keeps them. */
  class DateTime {
    var date: int
    var time: int

    constructor (date: int, time: int)
      ensures this.date == date && this.time == time
    {
      this.date, this.time := date, time;
    }

    function Millis(): int
      reads this
    {
      MILLIS_PER_DAY * date + time
    }

    /** `operator+=`: exact in total. Over any sequence of calls the time stays between 0:00 and
        24:00, and is left at 24:00 exactly when the seconds less whole days bring it there. */
    method AddSeconds(seconds: int)
      requires 0 <= time <= MILLIS_PER_DAY
      modifies this
      ensures Millis() == old(Millis()) + MILLIS_PER_SEC * seconds
      ensures 0 <= time <= MILLIS_PER_DAY
      ensures IsTimeOfDay(time) <==>
              old(time) + MILLIS_PER_SEC * Mod(seconds, SECONDS_PER_DAY) != MILLIS_PER_DAY
      ensures old(IsTimeOfDay(time)) ==>
              (IsTimeOfDay(time) <==>
               !(seconds > 0 && old(time) > 0 && old(Millis() + MILLIS_PER_SEC * seconds) % MILLIS_PER_DAY == 0))
    {
      var d := Div(seconds, SECONDS_PER_DAY);
      var s := Mod(seconds, SECONDS_PER_DAY);
      date := date + d;
      time := time + s * MILLIS_PER_SEC;
      if time > MILLIS_PER_DAY {
        date := date + 1;
        time := time % MILLIS_PER_DAY;
      } else if time < 0 {
        date := date - 1;
        time := time + MILLIS_PER_DAY;
      }
    }

    /** `add_duration_date_time`. It always ends, and loses no second. The date is as `AddsDate`
        says; the time is a time of day exactly when the days carried are the whole days of the
        seconds, rounded down. */
    method AddDuration(dur: Duration)
      modifies this
      ensures var carry := CarriedDays(old(time), dur);
              var seconds := SecondsOfDay(old(time)) + SecondsOf(dur);
              && AddsDate(GetYmd(old(date)), dur, carry, date)
              && MILLIS_PER_DAY * carry + time == MILLIS_PER_SEC * seconds
              && (IsTimeOfDay(time) <==> SECONDS_PER_DAY * carry <= seconds)
              && (IsTimeOfDay(time) <==> carry == FloorDays(seconds))
      ensures IsForward(dur) && IsTimeOfDay(old(time)) ==> IsTimeOfDay(time)
    {
      var (carry, clock) := AddClock(GetHms(time), dur);
      ClockKeepsSeconds(GetHms(time), dur);
      ClockIsProper(GetHms(time), dur);
      WholeSeconds(time);
      date := ShiftDate(GetYmd(date), dur, carry);
      time := MakeHms(clock);
      if IsForward(dur) && IsTimeOfDay(old(time)) {
        TimeRoundTrip(old(time));
        ForwardClock(GetHms(old(time)), dur);
      }
    }

    /** The date of `add_duration_date_time`. */
    static method ShiftDate(start: Date, dur: Duration, carry: int) returns (date: int)
      ensures AddsDate(start, dur, carry, date)
    {
      var year, month := ShiftMonth(start, dur);
      var days := dur.days + carry;
      date := CarryDays(year, month, FirstDay(start.day, year, month) + days, Julian(Shifted(start, dur)) + days);
      if IsDate(start) {
        ShiftedIsDate(start, 12 * dur.years + dur.months);
        Arrives(start.day, SumBelowJanuary(start, dur), Shifted(start, dur), days, year, month, date);
      }
    }

    /** The months and years. */
    static method ShiftMonth(start: Date, dur: Duration) returns (year: int, month: int)
      ensures -10 <= month <= 12
      ensures IsDate(start) ==> StandsFor(Shifted(start, dur), SumBelowJanuary(start, dur), year, month)
    {
      FirstMonth(start.month + dur.months - 1);
      if IsDate(start) { ShiftedMonth(start, dur.years, dur.months); }
      var tmpMonth := start.month + dur.months;
      month := Mod(tmpMonth - 1, 12) + 1;
      year := start.year + dur.years + Div(tmpMonth - 1, 12);
    }

    /** The carry loop of `add_duration_date_time`. */
    static method CarryDays(firstYear: int, firstMonth: int, firstDay: int, ghost target: int)
      returns (date: int)
      requires -10 <= firstMonth <= 12
      ensures CarriesTo(target, firstYear, firstMonth, firstDay, date)
    {
      var year, month, day := firstYear, firstMonth, firstDay;
      ghost var inScope := Standing(target, firstYear, firstMonth, firstDay);
      while true
        invariant -10 <= month <= 12
        invariant inScope ==>
                    && Standing(target, year, month, day)
                    && (EndsOn(target, year, month, day) <==> EndsOn(target, firstYear, firstMonth, firstDay))
                    && (NotPast(target, firstYear, firstMonth, firstDay) ==> NotPast(target, year, month, day))
        decreases if day < 1 then 100 - day else day
      {
        StepsStayLow(year, month);
        if day < 1 {
          if inScope {
            CarryDown(target, year, month, day);
          }
          day := day + MaxDay(year, month - 1);
          var (y, m) := StepMonth(year, month, -1);
          year, month := y, m;
        } else if day > MaxDay(year, month) {
          if inScope {
            CarryUp(target, year, month, day);
          }
          day := day - MaxDay(year, month);
          var (y, m) := StepMonth(year, month, 1);
          year, month := y, m;
        } else {
          break;
        }
      }
      DayShift(year, month, 1, day - 1);
      date := JulianDate(year, month, day);
    }
  }
}
