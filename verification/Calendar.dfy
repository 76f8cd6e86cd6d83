/** Calendar arithmetic: day numbers and civil dates of the proleptic Gregorian calendar, gmtime and timegm. */
module Calendar {
  // ----- C integer division ---------------------------------------------------------------

  /** C's quotient, rounded toward zero. */
  function Quot(a: int, b: int): int
    requires b > 0
  {
    if a >= 0 then a / b else -((-a) / b)
  }

  function Rem(a: int, b: int): int
    requires b > 0
  {
    a - Quot(a, b) * b
  }

  // ----- the calendar, said directly ---------------------------------------------------------

  datatype Date = Date(y: int, m: int, d: int)

  predicate Leap(y: int) { (y % 4 == 0 && y % 100 != 0) || y % 400 == 0 }

  function DaysInMonth(y: int, m: int): int {
    if m == 2 then (if Leap(y) then 29 else 28) else if m == 4 || m == 6 || m == 9 || m == 11 then 30 else 31
  }

  predicate ValidDate(t: Date) { 1 <= t.m <= 12 && 1 <= t.d <= DaysInMonth(t.y, t.m) }

  /** The day after. */
  function NextDay(t: Date): Date {
    if t.d < DaysInMonth(t.y, t.m) then t.(d := t.d + 1)
    else if t.m < 12 then Date(t.y, t.m + 1, 1)
    else Date(t.y + 1, 1, 1)
  }

  // ----- the code's arithmetic ------------------------------------------------------------------

  /** The leap-day formula: days before year yoe of a 400-year era. */
  function LeapSum(yoe: int): int { yoe * 365 + yoe / 4 - yoe / 100 }

  function YearOf(doe: int): int { (doe - doe / 1460 + doe / 36524 - doe / 146096) / 365 }

  /** Months counted from March: where each starts. */
  function MonthStart(mp: int): int { (153 * mp + 2) / 5 }

  /** The date of day doy of the March-based year yr. */
  function FromYear(yr: int, doy: int): Date {
    var mp := (5 * doy + 2) / 153;
    var d := doy - MonthStart(mp) + 1;
    var m := if mp < 10 then mp + 3 else mp - 9;
    Date(yr + (if m <= 2 then 1 else 0), m, d)
  }

  /** civil_from_days */
  function CivilFromDays(days: int): Date {
    var z := days + 719468;
    var era := Quot(if z >= 0 then z else z - 146096, 146097);
    var doe := z - era * 146097;
    var yoe := YearOf(doe);
    FromYear(yoe + era * 400, doe - LeapSum(yoe))
  }

  /** days_from_civil */
  function DaysFromCivil(t: Date): int {
    var y := t.y - (if t.m <= 2 then 1 else 0);
    var era := Quot(if y >= 0 then y else y - 399, 400);
    var yoe := y - era * 400;
    var doy := MonthStart(if t.m > 2 then t.m - 3 else t.m + 9) + t.d - 1;
    era * 146097 + (LeapSum(yoe) + doy) - 719468
  }

  function Cumulative(m: int): int
    requires 1 <= m <= 12
  {
    [0, 31, 59, 90, 120, 151, 181, 212, 243, 273, 304, 334][m - 1]
  }

  function DayOfYear(t: Date): int
    requires 1 <= t.m <= 12
  {
    Cumulative(t.m) + t.d - 1 + if t.m > 2 && Leap(t.y) then 1 else 0
  }

  // ----- why it works ---------------------------------------------------------------------------

  /** The adjusted numerators make C's division round down. */
  lemma FloorQuot(z: int, n: int)
    requires n > 0
    ensures Quot(if z >= 0 then z else z - (n - 1), n) == z / n
  {
    if z < 0 {
      var q := z / n;
      var a := n - 1 - z;
      assert z == q * n + z % n;
      assert a == (-q) * n + (n - 1 - z % n);
      DivUnique(a, n, -q, n - 1 - z % n);
    }
  }

  lemma {:induction false} AtLeast(k: int, n: int)
    requires k >= 1 && n > 0
    ensures k * n >= n
    decreases k
  {
    if k > 1 {
      AtLeast(k - 1, n);
      assert k * n == (k - 1) * n + n;
    }
  }

  lemma SameQuotient(q: int, p: int, n: int, r: int, s: int)
    requires n > 0 && 0 <= r < n && 0 <= s < n && q * n + r == p * n + s
    ensures q == p
  {
    assert (q - p) * n == q * n - p * n && (p - q) * n == p * n - q * n;
    if q > p { AtLeast(q - p, n); } else if q < p { AtLeast(p - q, n); }
  }

  lemma DivUnique(a: int, n: int, q: int, r: int)
    requires n > 0 && 0 <= r < n && a == q * n + r
    ensures a / n == q && a % n == r
  {
    SameQuotient(q, a / n, n, r, a % n);
  }

  /** A March-based year of the 400-year era: 100 c + 4 q + r, and the day of that year. */
  predicate InEra(c: int, q: int, r: int, doy: int) {
    && 0 <= c <= 3 && 0 <= q <= 24 && 0 <= r <= 3 && 0 <= doy <= 365
    && (doy == 365 ==> r == 3 && (q < 24 || c == 3))
  }

  function DayOfEra(c: int, q: int, r: int, doy: int): int { 36524 * c + 1461 * q + 365 * r + doy }

  /** The year-of-era formula of civil_from_days undoes the day-of-era formula. */
  lemma YearOfEra(c: int, q: int, r: int, doy: int)
    requires InEra(c, q, r, doy)
    ensures var doe := DayOfEra(c, q, r, doy);
            0 <= doe < 146097 && YearOf(doe) == 100 * c + 4 * q + r
  {
    var doe := DayOfEra(c, q, r, doy);
    var rest := 24 * c + q + 365 * r + doy;
    assert doe == 1460 * (25 * c + q) + rest;
    var e1 := if rest >= 1460 then 1 else 0;
    DivUnique(doe, 1460, 25 * c + q + e1, rest - 1460 * e1);
    var part := 1461 * q + 365 * r + doy;
    var e2 := if part >= 36524 then 1 else 0;
    DivUnique(doe, 36524, c + e2, part - 36524 * e2);
    var s := doe - doe / 1460 + doe / 36524 - doe / 146096;
    assert s == 365 * (100 * c + 4 * q + r) + doy - e1;
    DivUnique(s, 365, 100 * c + 4 * q + r, doy - e1);
  }

  /** The leap-day correction of a year of the era. */
  lemma LeapDays(c: int, q: int, r: int)
    requires 0 <= c <= 3 && 0 <= q <= 24 && 0 <= r <= 3
    ensures LeapSum(100 * c + 4 * q + r) == DayOfEra(c, q, r, 0)
  {
  }

  /** Every day of the era is one day of one year of it. */
  lemma SplitEra(doe: int) returns (c: int, q: int, r: int, doy: int)
    requires 0 <= doe < 146097
    ensures InEra(c, q, r, doy) && doe == DayOfEra(c, q, r, doy)
  {
    c := if doe / 36524 == 4 then 3 else doe / 36524;
    var a := doe - 36524 * c;
    q := a / 1461;
    var b := a - 1461 * q;
    r := if b / 365 == 4 then 3 else b / 365;
    doy := b - 365 * r;
  }

  /** The days of a March-based year: month mp, counted from March, and day d of it. */
  predicate InMarchYear(mp: int, d: int) {
    && 0 <= mp <= 11 && 1 <= d && (if mp == 11 then d <= 29 else d <= MonthStart(mp + 1) - MonthStart(mp))
  }

  lemma MonthOfDay(mp: int, d: int)
    requires InMarchYear(mp, d)
    ensures var doy := MonthStart(mp) + d - 1; 0 <= doy <= 365 && (5 * doy + 2) / 153 == mp
  {
  }

  lemma SplitYear(doy: int) returns (mp: int, d: int)
    requires 0 <= doy <= 365
    ensures InMarchYear(mp, d) && doy == MonthStart(mp) + d - 1
    ensures doy == 365 <==> mp == 11 && d == 29
  {
    mp := (5 * doy + 2) / 153;
    d := doy - MonthStart(mp) + 1;
  }

  /** March-based months have the lengths of the calendar's. */
  lemma MonthLengths(y: int, m: int)
    requires 1 <= m <= 12
    ensures var mp := if m > 2 then m - 3 else m + 9;
            mp == 11 <==> m == 2
    ensures var mp := if m > 2 then m - 3 else m + 9;
            mp < 11 ==> DaysInMonth(y, m) == MonthStart(mp + 1) - MonthStart(mp)
  {
  }

  /** March-based month and year of a date. */
  function MarchMonth(m: int): int { if m > 2 then m - 3 else m + 9 }

  function MarchYear(t: Date): int { t.y - if t.m <= 2 then 1 else 0 }

  /** Days before March-based year y, by the leap-year rule. */
  function YearDays(y: int): int { 365 * y + y / 4 - y / 100 + y / 400 }

  lemma EraDays(y: int)
    ensures var era, yoe := y / 400, y - y / 400 * 400;
            0 <= yoe < 400 && era * 146097 + LeapSum(yoe) == YearDays(y)
  {
    var era, yoe := y / 400, y % 400;
    DivUnique(y, 4, 100 * era + yoe / 4, yoe % 4);
    DivUnique(y, 100, 4 * era + yoe / 100, yoe % 100);
  }

  /** days_from_civil in closed form. */
  lemma DaysForm(t: Date)
    requires 1 <= t.m <= 12
    ensures DaysFromCivil(t) == YearDays(MarchYear(t)) + MonthStart(MarchMonth(t.m)) + t.d - 1 - 719468
  {
    hide Quot, LeapSum, YearDays, MonthStart;
    FloorQuot(MarchYear(t), 400);
    EraDays(MarchYear(t));
  }

  lemma NextYear(y: int)
    ensures YearDays(y) == YearDays(y - 1) + 365 + if Leap(y) then 1 else 0
  {
    NextMultiple(y, 4);
    NextMultiple(y, 100);
    NextMultiple(y, 400);
  }

  lemma NextMultiple(y: int, n: int)
    requires n > 1
    ensures y / n == (y - 1) / n + if y % n == 0 then 1 else 0
  {
    var q, r := y / n, y % n;
    assert y == q * n + r;
    if r == 0 {
      assert y - 1 == (q - 1) * n + (n - 1);
      DivUnique(y - 1, n, q - 1, n - 1);
    } else {
      DivUnique(y - 1, n, q, r - 1);
    }
  }

  /** days_from_civil counts days: the day after has the next number, and 1 January 1970 is day 0. */
  lemma CountsDays(t: Date)
    requires ValidDate(t)
    ensures ValidDate(NextDay(t)) && DaysFromCivil(NextDay(t)) == DaysFromCivil(t) + 1
    ensures DaysFromCivil(Date(1970, 1, 1)) == 0
  {
    hide DaysFromCivil, YearDays, Leap, MonthStart;
    DaysForm(t);
    DaysForm(NextDay(t));
    MonthLengths(t.y, t.m);
    NextYear(t.y);
    MonthStarts();
    Epoch();
  }

  lemma MonthStarts()
    ensures MonthStart(0) == 0 && MonthStart(9) == 275 && MonthStart(10) == 306 && MonthStart(11) == 337
  {
  }

  lemma Epoch()
    ensures DaysFromCivil(Date(1970, 1, 1)) == 0
  {
  }

  lemma SplitYoe(yoe: int) returns (c: int, q: int, r: int)
    requires 0 <= yoe < 400
    ensures 0 <= c <= 3 && 0 <= q <= 24 && 0 <= r <= 3 && yoe == 100 * c + 4 * q + r
  {
    c := yoe / 100;
    q := yoe % 100 / 4;
    r := yoe % 100 % 4;
  }

  /** A valid date as a year of an era, a month from March, and a day. */
  lemma DateParts(t: Date) returns (era: int, c: int, q: int, r: int)
    requires ValidDate(t)
    ensures MarchYear(t) == 400 * era + 100 * c + 4 * q + r && InMarchYear(MarchMonth(t.m), t.d)
    ensures InEra(c, q, r, MonthStart(MarchMonth(t.m)) + t.d - 1)
    ensures DaysFromCivil(t) == era * 146097 + DayOfEra(c, q, r, MonthStart(MarchMonth(t.m)) + t.d - 1) - 719468
  {
    hide MonthStart, Leap, DaysFromCivil, DayOfEra;
    var y := MarchYear(t);
    era := y / 400;
    c, q, r := SplitYoe(y % 400);
    MonthLengths(t.y, t.m);
    MonthOfDay(MarchMonth(t.m), t.d);
    PartsDays(t, era, c, q, r, MarchMonth(t.m));
    LeapParts(era, c, q, r);
    LeapDayOnly(MarchMonth(t.m), t.d);
  }

  /** Only 29 February is day 365 of a March-based year. */
  lemma LeapDayOnly(mp: int, d: int)
    requires InMarchYear(mp, d)
    ensures MonthStart(mp) + d - 1 == 365 <==> mp == 11 && d == 29
  {
  }

  lemma LeapParts(era: int, c: int, q: int, r: int)
    requires 0 <= c <= 3 && 0 <= q <= 24 && 0 <= r <= 3
    ensures Leap(400 * era + 100 * c + 4 * q + r + 1) <==> r == 3 && (q < 24 || c == 3)
  {
    var y := 400 * era + 100 * c + 4 * q + r + 1;
    var x := 100 * c + 4 * q + r + 1;
    if x == 400 {
      DivUnique(y, 400, era + 1, 0);
    } else {
      DivUnique(y, 4, 100 * era + x / 4, x % 4);
      DivUnique(y, 100, 4 * era + x / 100, x % 100);
      DivUnique(y, 400, era, x);
    }
  }

  lemma CivilEra(era: int, doe: int)
    requires 0 <= doe < 146097
    ensures CivilFromDays(era * 146097 + doe - 719468) == FromYear(YearOf(doe) + era * 400, doe - LeapSum(YearOf(doe)))
  {
    hide Quot, LeapSum, YearOf, FromYear;
    FloorQuot(era * 146097 + doe, 146097);
    DivUnique(era * 146097 + doe, 146097, era, doe);
  }

  lemma FromYearParts(yr: int, mp: int, d: int)
    requires InMarchYear(mp, d)
    ensures var m := if mp < 10 then mp + 3 else mp - 9;
            FromYear(yr, MonthStart(mp) + d - 1) == Date(yr + (if m <= 2 then 1 else 0), m, d)
  {
    MonthOfDay(mp, d);
  }

  /** civil_from_days puts the parts together again. */
  lemma CivilParts(era: int, c: int, q: int, r: int, mp: int, d: int)
    requires InMarchYear(mp, d) && InEra(c, q, r, MonthStart(mp) + d - 1)
    ensures var m := if mp < 10 then mp + 3 else mp - 9;
            CivilFromDays(era * 146097 + DayOfEra(c, q, r, MonthStart(mp) + d - 1) - 719468)
            == Date(400 * era + 100 * c + 4 * q + r + (if m <= 2 then 1 else 0), m, d)
  {
    hide LeapSum, YearOf, MonthStart, CivilFromDays, FromYear, InMarchYear, DayOfEra, InEra;
    var doy, yoe := MonthStart(mp) + d - 1, 100 * c + 4 * q + r;
    var doe := DayOfEra(c, q, r, doy);
    YearOfEra(c, q, r, doy);
    DayInYear(c, q, r, doy);
    CivilEra(era, doe);
    FromYearParts(yoe + era * 400, mp, d);
  }

  lemma DayInYear(c: int, q: int, r: int, doy: int)
    requires InEra(c, q, r, doy)
    ensures DayOfEra(c, q, r, doy) - LeapSum(100 * c + 4 * q + r) == doy
  {
    hide LeapSum;
    LeapDays(c, q, r);
  }

  /** Date to day number and back. */
  lemma CivilOfDays(t: Date)
    requires ValidDate(t)
    ensures CivilFromDays(DaysFromCivil(t)) == t
  {
    hide DaysFromCivil, CivilFromDays, MonthStart, Leap, DayOfEra, InMarchYear;
    var era, c, q, r := DateParts(t);
    CivilParts(era, c, q, r, MarchMonth(t.m), t.d);
  }

  lemma PartsDays(t: Date, era: int, c: int, q: int, r: int, mp: int)
    requires 1 <= t.m <= 12 && 0 <= c <= 3 && 0 <= q <= 24 && 0 <= r <= 3
    requires MarchYear(t) == 400 * era + 100 * c + 4 * q + r && MarchMonth(t.m) == mp
    ensures DaysFromCivil(t) == era * 146097 + DayOfEra(c, q, r, MonthStart(mp) + t.d - 1) - 719468
  {
    hide Quot, LeapSum, MonthStart;
    FloorQuot(MarchYear(t), 400);
    DivUnique(MarchYear(t), 400, era, 100 * c + 4 * q + r);
    LeapDays(c, q, r);
  }

  lemma PartsValid(t: Date, era: int, c: int, q: int, r: int, mp: int)
    requires InMarchYear(mp, t.d) && InEra(c, q, r, MonthStart(mp) + t.d - 1)
    requires t.m == (if mp < 10 then mp + 3 else mp - 9)
    requires t.y == 400 * era + 100 * c + 4 * q + r + if t.m <= 2 then 1 else 0
    ensures ValidDate(t)
  {
    hide MonthStart, Leap;
    MonthLengths(t.y, t.m);
    LeapParts(era, c, q, r);
    MonthStarts();
  }

  /** Day number to date and back: every day has a valid date. */
  lemma DaysOfCivil(days: int)
    ensures ValidDate(CivilFromDays(days)) && DaysFromCivil(CivilFromDays(days)) == days
  {
    hide DaysFromCivil, CivilFromDays, MonthStart, Leap, ValidDate, InMarchYear;
    var z := days + 719468;
    var era, doe := z / 146097, z % 146097;
    var c, q, r, doy := SplitEra(doe);
    var mp, d := SplitYear(doy);
    CivilParts(era, c, q, r, mp, d);
    MarchRange(mp, d);
    var t := CivilFromDays(days);
    PartsValid(t, era, c, q, r, mp);
    PartsDays(t, era, c, q, r, mp);
  }

  lemma MarchRange(mp: int, d: int)
    requires InMarchYear(mp, d)
    ensures 0 <= mp <= 11 && d >= 1
  {
  }

  /** So consecutive days have consecutive dates. */
  lemma NextCivil(days: int)
    ensures CivilFromDays(days + 1) == NextDay(CivilFromDays(days))
  {
    hide DaysFromCivil, CivilFromDays, ValidDate, NextDay;
    DaysOfCivil(days);
    CountsDays(CivilFromDays(days));
    CivilOfDays(NextDay(CivilFromDays(days)));
  }

  /** The month table agrees with the day numbers. */
  lemma DayOfYearIs(t: Date)
    requires ValidDate(t)
    ensures DayOfYear(t) == DaysFromCivil(t) - DaysFromCivil(Date(t.y, 1, 1))
    ensures 0 <= DayOfYear(t) < 365 + if Leap(t.y) then 1 else 0
  {
    hide DaysFromCivil, YearDays, Leap;
    DaysForm(t);
    DaysForm(Date(t.y, 1, 1));
    NextYear(t.y);
  }

  // ----- gmtime and timegm ------------------------------------------------------------------------

  const DAY := 86400

  datatype Tm = Tm(sec: int, min: int, hour: int, mday: int, mon: int, year: int, wday: int, yday: int)

  /** The year as an int: the low 32 bits, signed. */
  function Int32(y: int): int { (y + 0x8000_0000) % 0x1_0000_0000 - 0x8000_0000 }

  /** The year of time t. */
  function YearAt(t: int): int { CivilFromDays(t / DAY).y }

  predicate IsInt(x: int) { -0x8000_0000 <= x < 0x8000_0000 }

  predicate YearFits(t: int) { IsInt(YearAt(t)) }

  lemma Int32Fits(y: int)
    ensures Int32(y) == y <==> IsInt(y)
  {
  }

  /** gmtime_r; civil_from_days hands it the year as an int. */
  function Gmtime(t: int): Tm {
    var days0, sod0 := Quot(t, DAY), Rem(t, DAY);
    var sod := if sod0 < 0 then sod0 + DAY else sod0;
    var days := if sod0 < 0 then days0 - 1 else days0;
    var civil := CivilFromDays(days);
    var date := civil.(y := Int32(civil.y));
    var w := Rem(Rem(days, 7) + 4, 7);
    Tm(sod % 60, sod / 60 % 60, sod / 3600, date.d, date.m - 1, date.y - 1900, if w < 0 then w + 7 else w,
       if 1 <= date.m <= 12 then DayOfYear(date) else 0)
  }

  /** The day and second of day of a time. */
  lemma SplitTime(t: int)
    ensures var sod0 := Rem(t, DAY);
      && (if sod0 < 0 then sod0 + DAY else sod0) == t % DAY
      && (if sod0 < 0 then Quot(t, DAY) - 1 else Quot(t, DAY)) == t / DAY
  {
    if t < 0 {
      var u := -t;
      var q, r := u / DAY, u % DAY;
      assert u == q * DAY + r;
      if r == 0 { DivUnique(t, DAY, -q, 0); } else { DivUnique(t, DAY, -q - 1, DAY - r); }
    }
  }

  /** Remainders of numbers smaller than the divisor. */
  lemma SmallRem(w: int)
    requires -7 < w < 7
    ensures Rem(w, 7) == w
  {
  }

  lemma WeekDay(days: int)
    ensures var w := Rem(Rem(days, 7) + 4, 7); (if w < 0 then w + 7 else w) == (days + 4) % 7
  {
    var u := if days >= 0 then days else -days;
    var q, r := u / 7, u % 7;
    assert u == q * 7 + r;
    if days >= 0 {
      assert Rem(days, 7) == r;
      if r < 3 {
        SmallRem(r + 4);
        DivUnique(days + 4, 7, q, r + 4);
      } else {
        DivUnique(r + 4, 7, 1, r - 3);
        DivUnique(days + 4, 7, q + 1, r - 3);
      }
    } else {
      hide Rem;
      NegRem(days, q, r);
      SmallRem(4 - r);
      if r <= 4 { DivUnique(days + 4, 7, -q, 4 - r); } else { DivUnique(days + 4, 7, -q - 1, 11 - r); }
    }
  }

  lemma NegRem(days: int, q: int, r: int)
    requires days < 0 && -days == q * 7 + r && 0 <= r < 7
    ensures Rem(days, 7) == -r
  {
    DivUnique(-days, 7, q, r);
  }

  /** gmtime_r's fields are in range and mean what they say. */
  lemma GmtimeFields(t: int)
    ensures var tm, days := Gmtime(t), t / DAY;
      && 0 <= tm.sec < 60 && 0 <= tm.min < 60 && 0 <= tm.hour < 24
      && t % DAY == tm.hour * 3600 + tm.min * 60 + tm.sec
      && tm.year + 1900 == Int32(YearAt(t)) && 0 <= tm.wday < 7 && tm.wday == (days + 4) % 7
      && ValidDate(Date(YearAt(t), tm.mon + 1, tm.mday)) && DaysFromCivil(Date(YearAt(t), tm.mon + 1, tm.mday)) == days
    ensures YearFits(t) ==> var tm, days := Gmtime(t), t / DAY;
      && tm.year + 1900 == YearAt(t) && 0 <= tm.yday < 366
      && tm.yday == days - DaysFromCivil(Date(tm.year + 1900, 1, 1))
  {
    hide CivilFromDays, DaysFromCivil, Quot, Rem, DayOfYear, Leap, DaysInMonth, Int32;
    Int32Fits(YearAt(t));
    SplitTime(t);
    DaysOfCivil(t / DAY);
    WeekDay(t / DAY);
    DayOfYearIs(CivilFromDays(t / DAY));
    var days, sod := t / DAY, t % DAY;
    var date := CivilFromDays(days);
    assert Date(date.y, date.m - 1 + 1, date.d) == date;
    assert sod / 3600 * 3600 + sod / 60 % 60 * 60 + sod % 60 == sod by { ClockParts(sod); }
  }

  lemma ClockParts(sod: int)
    ensures sod / 3600 * 3600 + sod / 60 % 60 * 60 + sod % 60 == sod
  {
    DivUnique(sod / 60, 60, sod / 3600, sod / 60 % 60);
  }

  /** The seconds timegm computes once the month is in range. */
  function Seconds(y: int, m: int, tm: Tm): int {
    (DaysFromCivil(Date(y, m, 1)) + tm.mday - 1) * DAY + tm.hour * 3600 + tm.min * 60 + tm.sec
  }

  /** timegm: months outside 1..12 carry into the year; the fields are refreshed from the result. */
  method Timegm(tm: Tm) returns (t: int, fresh_: Tm)
    ensures var y, m := tm.year + 1900 + tm.mon / 12, tm.mon % 12 + 1; t == Seconds(y, m, tm)
    ensures fresh_ == Gmtime(t)
  {
    hide Gmtime, DaysFromCivil;
    var y, mo := tm.year + 1900, tm.mon + 1;
    ghost var months := 12 * y + mo;
    while mo > 12
      invariant 12 * y + mo == months && (tm.mon >= 0 ==> mo >= 1) && (tm.mon < 0 ==> mo == tm.mon + 1)
      decreases mo
    {
      mo, y := mo - 12, y + 1;
    }
    while mo < 1
      invariant 12 * y + mo == months && mo <= 12
      decreases -mo
    {
      mo, y := mo + 12, y - 1;
    }
    t := Seconds(y, mo, tm);
    fresh_ := Gmtime(t);
  }

  /** With int fields and a year that is an int after the carry, the sum of timegm fits the 64 bits of a time. */
  lemma TimeFits(y: int, m: int, tm: Tm)
    requires IsInt(y) && 1 <= m <= 12 && IsInt(tm.mday) && IsInt(tm.hour) && IsInt(tm.min) && IsInt(tm.sec)
    ensures -0x8000_0000_0000_0000 <= Seconds(y, m, tm) < 0x8000_0000_0000_0000
  {
    hide DaysFromCivil;
    DaysForm(Date(y, m, 1));
    var d := DaysFromCivil(Date(y, m, 1));
    assert -0x100_0000_0000 < d < 0x100_0000_0000;
  }

  /** timegm undoes gmtime_r for exactly the times whose year is an int. */
  lemma TimegmOfGmtime(t: int)
    ensures var tm := Gmtime(t); Seconds(tm.year + 1900 + tm.mon / 12, tm.mon % 12 + 1, tm) == t <==> YearFits(t)
  {
    hide Gmtime, DaysFromCivil, DaysInMonth, MonthStart, YearDays, Int32, CivilFromDays;
    GmtimeFields(t);
    var tm, y := Gmtime(t), YearAt(t);
    DaysForm(Date(y, tm.mon + 1, 1));
    DaysForm(Date(y, tm.mon + 1, tm.mday));
    Int32Fits(y);
    if Int32(y) != y { OtherYear(y, Int32(y), tm.mon + 1); }
  }

  /** Different years start their months on different days. */
  lemma OtherYear(y: int, z: int, m: int)
    requires y != z && 1 <= m <= 12
    ensures DaysFromCivil(Date(y, m, 1)) != DaysFromCivil(Date(z, m, 1))
  {
    hide DaysFromCivil, CivilFromDays;
    CivilOfDays(Date(y, m, 1));
    CivilOfDays(Date(z, m, 1));
  }

  /** A time past the last int year: the round trip gives another time. */
  lemma LateYear()
    ensures var t := DaysFromCivil(Date(0x8000_0000, 1, 1)) * DAY; !YearFits(t) && Gmtime(t).year + 1900 == -0x8000_0000
  {
    hide DaysFromCivil, CivilFromDays, Gmtime;
    var d := Date(0x8000_0000, 1, 1);
    var t := DaysFromCivil(d) * DAY;
    CivilOfDays(d);
    DivUnique(t, DAY, DaysFromCivil(d), 0);
    GmtimeFields(t);
  }
}
