/** Julian day numbers and calendar dates. Division truncates, as in C++. */
module Calendar {

  const MILLIS_PER_SEC := 1000
  const MILLIS_PER_DAY := 86400000
  const SECONDS_PER_DAY := 86400
  const FIRST_DAY := -32044   // 1 March -4800
  const INT_MAX := 0x7fff_ffff

  datatype Date = Date(year: int, month: int, day: int)

  function Div(a: int, b: int): int
    requires b > 0
  {
    if a >= 0 then a / b else -((-a) / b)
  }

  function Mod(a: int, b: int): int
    requires b > 0
  {
    a - b * Div(a, b)
  }

  /** `julian_date` */
  function JulianDate(year: int, month: int, day: int): int {
    var a := Div(14 - month, 12);
    var y := year + 4800 - a;
    var m := month + 12 * a - 3;
    day + Div(153 * m + 2, 5) + y * 365 + Div(y, 4) - Div(y, 100) + Div(y, 400) - 32045
  }

  /** Two days of the Julian count. */
  lemma KnownDays()
    ensures JulianDate(1970, 1, 1) == 2440588 && JulianDate(2000, 1, 1) == 2451545
  {
  }

  /** `get_ymd` */
  function GetYmd(jday: int): Date {
    var a := jday + 32044;
    var b := Div(4 * a + 3, 146097);
    FromCentury(b, a - Div(b * 146097, 4))
  }

  /** Its second half, from the day of the century on. */
  function FromCentury(b: int, c: int): Date {
    var d := Div(4 * c + 3, 1461);
    FromYear(b * 100 + d, c - Div(1461 * d, 4))
  }

  function FromYear(y: int, e: int): Date {
    var m := Div(5 * e + 2, 153);
    Date(y - 4800 + Div(m, 10), m + 3 - 12 * Div(m, 10), e - Div(153 * m + 2, 5) + 1)
  }

  predicate IsLeap(year: int) {
    Mod(year, 400) == 0 || (Mod(year, 100) != 0 && Mod(year, 4) == 0)
  }

  /** `max_day_in_month_for` */
  function MaxDay(year: int, month: int): int {
    var m := Mod(month - 1, 12) + 1;
    var y := year + Div(m - 1, 12);
    if m == 1 || m == 3 || m == 5 || m == 7 || m == 8 || m == 10 || m == 12 then 31
    else if m == 4 || m == 6 || m == 9 || m == 11 then 30
    else if m == 2 && IsLeap(y) then 29
    else 28
  }

  predicate IsDate(d: Date) {
    1 <= d.month <= 12 && 1 <= d.day <= MaxDay(d.year, d.month)
  }

  /** From 1 March -4800 on. */
  predicate InRange(d: Date) {
    d.year > -4800 || (d.year == -4800 && d.month >= 3)
  }

  function Julian(d: Date): int { JulianDate(d.year, d.month, d.day) }

  /** The day after, by month lengths alone. */
  function NextDay(d: Date): Date {
    if d.day < MaxDay(d.year, d.month) then d.(day := d.day + 1)
    else if d.month < 12 then Date(d.year, d.month + 1, 1)
    else Date(d.year + 1, 1, 1)
  }

  // ---------- months ----------

  /** The March-based year and month `julian_date` counts in. */
  function MarchYear(year: int, month: int): int { if month <= 2 then year + 4799 else year + 4800 }
  function MarchMonth(month: int): int { if month <= 2 then month + 9 else month - 3 }

  lemma JulianByMarch(year: int, month: int, day: int)
    requires 1 <= month <= 12 && MarchYear(year, month) >= 0
    ensures var y := MarchYear(year, month);
            JulianDate(year, month, day) ==
            day + MonthStart(MarchMonth(month)) + 365 * y + LeapDays(y) - 32045
  {
    assert Div(14 - month, 12) == if month <= 2 then 1 else 0;
  }

  lemma LeapByMarch(year: int)
    requires year >= -4799
    ensures IsLeap(year) <==> IsLeapMarch(year + 4800)
  {
    assert Mod(year, 400) == 0 <==> (year + 4800) % 400 == 0;
    assert Mod(year, 100) == 0 <==> (year + 4800) % 100 == 0;
    assert Mod(year, 4) == 0 <==> (year + 4800) % 4 == 0;
  }

  predicate IsLeapMarch(y: nat) { y % 400 == 0 || (y % 100 != 0 && y % 4 == 0) }

  function LeapDays(y: nat): int { y / 4 - y / 100 + y / 400 }

  /** One more year has a leap day exactly when the count of leap days steps. */
  lemma LeapCount(y: nat)
    ensures LeapDays(y + 1) == LeapDays(y) + if IsLeapMarch(y + 1) then 1 else 0
  {
    assert (y + 1) / 4 == y / 4 + if (y + 1) % 4 == 0 then 1 else 0;
    assert (y + 1) / 100 == y / 100 + if (y + 1) % 100 == 0 then 1 else 0;
    assert (y + 1) / 400 == y / 400 + if (y + 1) % 400 == 0 then 1 else 0;
  }

  function NextMonth(year: int, month: int): (int, int) {
    if month < 12 then (year, month + 1) else (year + 1, 1)
  }

  /** The days before a March-based month. */
  function MonthStart(m: nat): int { (153 * m + 2) / 5 }

  lemma MonthSteps(month: int)
    requires 1 <= month <= 12 && month != 2
    ensures MaxDay(0, month) == MonthStart(MarchMonth(month) + 1) - MonthStart(MarchMonth(month))
  {
    var m := MarchMonth(month);
    if m <= 2 {
      assert MonthStart(0) == 0 && MonthStart(1) == 31 && MonthStart(2) == 61 && MonthStart(3) == 92;
    } else if m <= 5 {
      assert MonthStart(3) == 92 && MonthStart(4) == 122 && MonthStart(5) == 153 && MonthStart(6) == 184;
    } else if m <= 8 {
      assert MonthStart(6) == 184 && MonthStart(7) == 214 && MonthStart(8) == 245 && MonthStart(9) == 275;
    } else {
      assert MonthStart(9) == 275 && MonthStart(10) == 306 && MonthStart(11) == 337;
    }
    PlainMonth(0, month);
  }

  /** On the twelve months the arithmetic of `max_day_in_month_for` changes nothing. */
  lemma PlainMonth(year: int, month: int)
    requires 1 <= month <= 12
    ensures Mod(month - 1, 12) + 1 == month && year + Div(Mod(month - 1, 12), 12) == year
  {
  }

  lemma MaxDayFixed(year: int, month: int)
    requires 1 <= month <= 12
    ensures MaxDay(year, month) == if month == 2 then (if IsLeap(year) then 29 else 28) else MaxDay(0, month)
  {
    PlainMonth(year, month);
    PlainMonth(0, month);
  }

  /** The length the code gives a month is the Julian difference of the month starts. */
  lemma MonthLength(year: int, month: int)
    requires 1 <= month <= 12 && InRange(Date(year, month, 1))
    ensures var (y, m) := NextMonth(year, month);
            JulianDate(y, m, 1) == JulianDate(year, month, 1) + MaxDay(year, month)
  {
    var (y, m) := NextMonth(year, month);
    JulianByMarch(year, month, 1);
    JulianByMarch(y, m, 1);
    MaxDayFixed(year, month);
    if month == 2 {
      FebruaryLength(year);
    } else {
      MonthSteps(month);
    }
  }

  lemma FebruaryLength(year: int)
    requires year > -4800
    ensures 365 + LeapDays(year + 4800) - LeapDays(year + 4799) + MonthStart(0) - MonthStart(11)
         == if IsLeap(year) then 29 else 28
  {
    LeapByMarch(year);
    LeapCount(year + 4799);
    assert MonthStart(0) == 0 && MonthStart(11) == 337;
  }

  lemma DayShift(year: int, month: int, day: int, k: int)
    ensures JulianDate(year, month, day + k) == JulianDate(year, month, day) + k
  {
  }

  lemma MonthHasDays(year: int, month: int)
    requires 1 <= month <= 12
    ensures 28 <= MaxDay(year, month) <= 31
  {
    MaxDayFixed(year, month);
    PlainMonth(0, month);
  }

  lemma NextIsDate(d: Date)
    requires IsDate(d) && InRange(d)
    ensures IsDate(NextDay(d)) && InRange(NextDay(d))
  {
    var (y, m) := NextMonth(d.year, d.month);
    MonthHasDays(y, m);
  }

  /** Consecutive calendar days have consecutive numbers. */
  lemma NextDayIsNext(d: Date)
    requires IsDate(d) && InRange(d)
    ensures IsDate(NextDay(d)) && InRange(NextDay(d)) && Julian(NextDay(d)) == Julian(d) + 1
  {
    NextIsDate(d);
    if d.day < MaxDay(d.year, d.month) {
      DayShift(d.year, d.month, d.day, 1);
    } else {
      MonthLength(d.year, d.month);
      DayShift(d.year, d.month, 1, d.day - 1);
    }
  }

  // ---------- there and back ----------

  /** Days before the March-based month, and the month back from a day of the year. */
  lemma MonthOfDay(m: int, day: int)
    requires 0 <= m <= 11 && 1 <= day <= if m == 11 then 29 else (153 * (m + 1) + 2) / 5 - (153 * m + 2) / 5
    ensures var e := (153 * m + 2) / 5 + day - 1; (5 * e + 2) / 153 == m && 0 <= e <= 365
  {
  }

  lemma Centuries(y: nat)
    ensures y / 4 == 25 * (y / 100) + (y % 100) / 4 && y / 400 == (y / 100) / 4
    ensures (y + 1) % 4 == ((y % 100) + 1) % 4
    ensures (y + 1) % 100 == 0 <==> y % 100 == 99
    ensures (y + 1) % 400 == 0 <==> y % 100 == 99 && (y / 100) % 4 == 3
  {
    var q, r := y / 100, y % 100;
    Quarters(25 * q, r);
    FourCenturies(q / 4, q % 4, r);
  }

  lemma Quarters(x: nat, r: nat)
    ensures (4 * x + r) / 4 == x + r / 4 && (4 * x + r + 1) % 4 == (r + 1) % 4
  {
  }

  lemma FourCenturies(u: nat, v: nat, r: nat)
    requires v < 4 && r < 100
    ensures var y := 100 * (4 * u + v) + r;
            && y / 400 == u
            && ((y + 1) % 100 == 0 <==> r == 99)
            && ((y + 1) % 400 == 0 <==> r == 99 && v == 3)
  {
    var y := 100 * (4 * u + v) + r;
    var w := 100 * v + r;
    assert y == 400 * u + w;
    Hundreds(4 * u + v, r);
    FourHundreds(u, w);
  }

  lemma Hundreds(x: nat, r: nat)
    requires r < 100
    ensures (100 * x + r + 1) % 100 == 0 <==> r == 99
  {
  }

  lemma FourHundreds(u: nat, w: nat)
    requires w < 400
    ensures (400 * u + w) / 400 == u && ((400 * u + w + 1) % 400 == 0 <==> w == 399)
  {
  }

  lemma YearInCentury(q: int, r: int, e: int)
    requires q >= 0 && 0 <= r < 100 && 0 <= e <= 365
    requires e == 365 ==> (r == 99 && q % 4 == 3) || (r != 99 && r % 4 == 3)
    ensures 0 <= 365 * r + r / 4 + e <= 36524 && (365 * r + r / 4 + e == 36524 ==> q % 4 == 3)
  {
  }

  lemma CenturyBack(q: int, c: int)
    requires q >= 0 && 0 <= c <= 36524 && (c == 36524 ==> q % 4 == 3)
    ensures (4 * (36524 * q + q / 4 + c) + 3) / 146097 == q && q * 146097 / 4 == 36524 * q + q / 4
  {
  }

  lemma YearBack(r: int, e: int)
    requires 0 <= r < 100 && 0 <= e <= 365 && (e == 365 ==> r % 4 == 3)
    ensures (4 * (365 * r + r / 4 + e) + 3) / 1461 == r && 1461 * r / 4 == 365 * r + r / 4
  {
  }

  /** The day of the March-based year. */
  function DayOfYear(d: Date): int
    requires 1 <= d.month <= 12
  {
    MonthStart(MarchMonth(d.month)) + d.day - 1
  }

  lemma DayOfYearBack(d: Date)
    requires IsDate(d) && InRange(d)
    ensures var e := DayOfYear(d);
            && 0 <= e <= 365 && (5 * e + 2) / 153 == MarchMonth(d.month)
            && (e == 365 ==> IsLeapMarch(MarchYear(d.year, d.month) + 1))
  {
    MaxDayFixed(d.year, d.month);
    if d.month == 2 {
      LeapByMarch(d.year);
      MonthOfDay(11, d.day);
    } else {
      MonthSteps(d.month);
      MonthOfDay(MarchMonth(d.month), d.day);
    }
  }

  /** `jday` is day `e` of March-based year `y`, in its month `m`. */
  predicate MarchDay(y: int, m: int, day: int, jday: int) {
    && y >= 0 && 0 <= m <= 11
    && var e := MonthStart(m) + day - 1;
       && 0 <= e <= 365 && (5 * e + 2) / 153 == m && (e == 365 ==> IsLeapMarch(y + 1))
       && jday + 32044 == 365 * y + LeapDays(y) + e
  }

  lemma DateIsMarchDay(d: Date)
    requires IsDate(d) && InRange(d)
    ensures MarchDay(MarchYear(d.year, d.month), MarchMonth(d.month), d.day, Julian(d))
  {
    JulianByMarch(d.year, d.month, d.day);
    DayOfYearBack(d);
  }

  lemma MarchDayBack(y: nat, m: nat, day: int, jday: int)
    requires MarchDay(y, m, day, jday)
    ensures jday >= FIRST_DAY
    ensures GetYmd(jday) == Date(y - 4800 + m / 10, m + 3 - 12 * (m / 10), day)
  {
    MarchBack(y, m, day, jday + 32044);
    YmdIsNat(jday);
  }

  /** A date comes back from its number. */
  lemma DateComesBack(d: Date)
    requires IsDate(d) && InRange(d)
    ensures GetYmd(Julian(d)) == d && Julian(d) >= FIRST_DAY
  {
    DateIsMarchDay(d);
    var y, m := MarchYear(d.year, d.month), MarchMonth(d.month);
    MarchDayBack(y, m, d.day, Julian(d));
    assert Date(y - 4800 + m / 10, m + 3 - 12 * (m / 10), d.day) == d;
  }

  lemma MarchBack(y: nat, m: nat, day: int, a: int)
    requires m <= 11
    requires var e := MonthStart(m) + day - 1;
             && 0 <= e <= 365 && (5 * e + 2) / 153 == m && (e == 365 ==> IsLeapMarch(y + 1))
             && a == 365 * y + LeapDays(y) + e
    ensures a >= 0
    ensures YmdNat(a) == Date(y - 4800 + m / 10, m + 3 - 12 * (m / 10), day)
  {
    var q, r := CenturyOf(y);
    CenturyForm(q, r, m, day, a);
  }

  lemma CenturyOf(y: nat) returns (q: nat, r: nat)
    ensures r < 100 && y == 100 * q + r
    ensures 365 * y + LeapDays(y) == 36524 * q + q / 4 + (365 * r + r / 4)
    ensures IsLeapMarch(y + 1) <==> (r == 99 && q % 4 == 3) || (r != 99 && r % 4 == 3)
  {
    q, r := y / 100, y % 100;
    Centuries(y);
  }

  /** `get_ymd` on the day count of year `r` of century `q`. */
  lemma CenturyForm(q: nat, r: nat, m: nat, day: int, a: nat)
    requires r < 100 && m <= 11
    requires var e := MonthStart(m) + day - 1;
             && 0 <= e <= 365 && (5 * e + 2) / 153 == m
             && (e == 365 ==> (r == 99 && q % 4 == 3) || (r != 99 && r % 4 == 3))
             && a == 36524 * q + q / 4 + (365 * r + r / 4 + e)
    ensures YmdNat(a) == Date(100 * q + r - 4800 + m / 10, m + 3 - 12 * (m / 10), day)
  {
    var e := MonthStart(m) + day - 1;
    YearInCentury(q, r, e);
    CenturyBack(q, 365 * r + r / 4 + e);
    YearBack(r, e);
  }

  /** `get_ymd` where nothing is negative. */
  function YmdNat(a: nat): Date {
    var b := (4 * a + 3) / 146097;
    var c := a - b * 146097 / 4;
    FromCenturyNat(b, c)
  }

  function FromCenturyNat(b: int, c: int): Date {
    var d := (4 * c + 3) / 1461;
    FromYearNat(b * 100 + d, c - 1461 * d / 4)
  }

  function FromYearNat(y: int, e: int): Date {
    var m := (5 * e + 2) / 153;
    Date(y - 4800 + m / 10, m + 3 - 12 * (m / 10), e - (153 * m + 2) / 5 + 1)
  }

  lemma YmdIsNat(jday: int)
    requires jday >= FIRST_DAY
    ensures GetYmd(jday) == YmdNat(jday + 32044)
  {
    var a := jday + 32044;
    var b := (4 * a + 3) / 146097;
    FirstCentury(a, b);
    CenturyIsNat(b, a - b * 146097 / 4);
  }

  lemma FirstCentury(a: nat, b: nat)
    requires b == (4 * a + 3) / 146097
    ensures Div(4 * a + 3, 146097) == b && Div(b * 146097, 4) == b * 146097 / 4 <= a
  {
    QuarterBelow(a, b, 146097);
  }

  lemma CenturyIsNat(b: int, c: nat)
    ensures FromCentury(b, c) == FromCenturyNat(b, c)
  {
    var d := (4 * c + 3) / 1461;
    QuarterBelow(c, d, 1461);
    assert d * 1461 == 1461 * d;
    YearIsNat(b * 100 + d, c - 1461 * d / 4);
  }

  lemma YearIsNat(y: int, e: nat)
    ensures FromYear(y, e) == FromYearNat(y, e)
  {
  }

  lemma QuarterBelow(a: nat, b: nat, p: nat)
    requires p > 0 && b == (4 * a + 3) / p
    ensures 0 <= b * p / 4 <= a
  {
    assert 4 * a + 3 == p * b + (4 * a + 3) % p;
    assert b * p == p * b;
  }

  /** Every number from the first day on is the number of a date. */
  lemma {:induction false} DateAt(jday: int) returns (d: Date)
    requires jday >= FIRST_DAY
    ensures IsDate(d) && InRange(d) && Julian(d) == jday
    decreases jday - FIRST_DAY
  {
    if jday == FIRST_DAY {
      d := Date(-4800, 3, 1);
      JulianByMarch(-4800, 3, 1);
    } else {
      d := DateAt(jday - 1);
      NextDayIsNext(d);
      d := NextDay(d);
    }
  }

  /** Before the first day, `get_ymd` gives no date: its day is below 1. */
  lemma NoDateBefore(jday: int)
    requires jday < FIRST_DAY
    ensures GetYmd(jday).day < 1
  {
    var a := jday + 32044;
    TruncatedBack(a, 146097);
    var c := a - Div(Div(4 * a + 3, 146097) * 146097, 4);
    TruncatedBack(c, 1461);
    var d := Div(4 * c + 3, 1461);
    assert 1461 * d == d * 1461;
    NoDayBefore(c - Div(1461 * d, 4));
  }

  lemma NoDayBefore(e: int)
    requires e < 0
    ensures e - Div(153 * Div(5 * e + 2, 153) + 2, 5) + 1 < 1
  {
    var n := -(5 * e + 2);
    var k := n / 153;
    assert Div(5 * e + 2, 153) == -k && 153 * k <= n;
    if k > 0 {
      assert Div(153 * -k + 2, 5) == -((153 * k - 2) / 5);
    } else {
      assert Div(2, 5) == 0;
    }
  }

  lemma TruncatedBack(a: int, p: int)
    requires a < 0 && p > 0
    ensures a - Div(Div(4 * a + 3, p) * p, 4) < 0
  {
    var n := -(4 * a + 3);
    var k := n / p;
    FloorTimes(n, p);
    assert Div(4 * a + 3, p) == -k;
    assert (-k) * p == -(k * p);
    var t := k * p;
    assert 0 <= t <= n;
    assert Div(-t, 4) == -(t / 4);
  }

  lemma FloorTimes(n: nat, p: nat)
    requires p > 0
    ensures 0 <= n / p * p <= n
  {
    assert n == p * (n / p) + n % p;
    assert p * (n / p) == n / p * p;
  }

  /** `get_ymd` then `julian_date` is the identity, through a real date, exactly from 1 March
      -4800 on. */
  lemma NumberRoundTrip(jday: int)
    ensures jday >= FIRST_DAY <==> (IsDate(GetYmd(jday)) && Julian(GetYmd(jday)) == jday)
    ensures jday >= FIRST_DAY ==> InRange(GetYmd(jday))
  {
    if jday >= FIRST_DAY {
      var d := DateAt(jday);
      DateComesBack(d);
    } else {
      NoDateBefore(jday);
    }
  }

  /** `julian_date` then `get_ymd` is the identity on a date exactly from 1 March -4800 on. */
  lemma DateRoundTrip(d: Date)
    requires IsDate(d)
    ensures InRange(d) <==> GetYmd(Julian(d)) == d
  {
    if InRange(d) {
      DateComesBack(d);
    } else {
      OldDatesAreLow(d);
      if Julian(d) < FIRST_DAY {
        NoDateBefore(Julian(d));
      } else {
        var first := DateAt(Julian(d));
        DateComesBack(first);
      }
    }
  }

  lemma OldDatesAreLow(d: Date)
    requires IsDate(d) && !InRange(d)
    ensures Julian(d) <= FIRST_DAY
  {
    var y, m := MarchYear(d.year, d.month), MarchMonth(d.month);
    assert Div(14 - d.month, 12) == if d.month <= 2 then 1 else 0;
    MaxDayFixed(d.year, d.month);
    if d.month != 2 { MonthSteps(d.month); }
    assert y < 0;
    assert d.day + MonthStart(m) <= 366;
    LeapsBelow(-y);
  }

  lemma LeapsBelow(n: int)
    requires n > 0
    ensures 365 * -n - n / 4 + n / 100 - n / 400 <= -365
  {
    assert n / 100 <= n / 4 by { assert n / 100 * 100 <= n; assert n / 4 * 4 + 3 >= n; }
  }

  /** From the first day on, what `get_ymd` computes fits `int` exactly up to day 536838867. */
  lemma FitsInt(jday: int)
    requires jday >= FIRST_DAY
    ensures 4 * (jday + 32044) + 3 <= INT_MAX <==> jday <= 536838867
    ensures jday <= 536838867 ==>
              var a := jday + 32044;
              var b := Div(4 * a + 3, 146097);
              var c := a - Div(b * 146097, 4);
              var d := Div(4 * c + 3, 1461);
              0 <= b * 146097 <= INT_MAX && 0 <= 4 * c + 3 <= INT_MAX && 0 <= 1461 * d <= INT_MAX
  {
    var a := jday + 32044;
    var b := (4 * a + 3) / 146097;
    assert b * 146097 <= 4 * a + 3 < b * 146097 + 146097;
    var c := a - b * 146097 / 4;
    assert 0 <= c <= 36525;
  }
}
