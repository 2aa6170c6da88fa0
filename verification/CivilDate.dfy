/** The day-number to calendar-date conversion of the build script, against a
    calendar that is stepped one day at a time from 1970-01-01. */
module CivilDate {

  datatype Date = Date(year: int, month: int, day: int)

  predicate IsLeap(y: int) {
    y % 4 == 0 && (y % 100 != 0 || y % 400 == 0)
  }

  function DaysInMonth(y: int, m: int): int {
    if m == 2 then (if IsLeap(y) then 29 else 28)
    else if m == 4 || m == 6 || m == 9 || m == 11 then 30
    else 31
  }

  predicate ValidDate(d: Date) {
    1 <= d.month <= 12 && 1 <= d.day <= DaysInMonth(d.year, d.month)
  }

  const EPOCH := Date(1970, 1, 1)

  /** The calendar itself: what day comes after `d`. */
  function NextDay(d: Date): Date {
    if d.day < DaysInMonth(d.year, d.month) then d.(day := d.day + 1)
    else if d.month < 12 then Date(d.year, d.month + 1, 1)
    else Date(d.year + 1, 1, 1)
  }

  function PreviousDay(d: Date): Date {
    if 1 < d.day then d.(day := d.day - 1)
    else if 1 < d.month then Date(d.year, d.month - 1, DaysInMonth(d.year, d.month - 1))
    else Date(d.year - 1, 12, 31)
  }

  /** The reference: `n` single steps away from the epoch. */
  function StepFromEpoch(n: int): Date
    decreases if n < 0 then -n else n
  {
    if n == 0 then EPOCH
    else if n > 0 then NextDay(StepFromEpoch(n - 1))
    else PreviousDay(StepFromEpoch(n + 1))
  }

  /** Signed division that truncates toward zero. */
  function TruncatingDiv(a: int, b: int): int
    requires b > 0
  {
    if a >= 0 then a / b else -((-a) / b)
  }

  /** Days before year `yoe` of an era of 400 years that start on 1 March. */
  function YearStart(yoe: nat): nat {
    365 * yoe + yoe / 4 - yoe / 100
  }

  function YearOfEra(doe: nat): nat {
    (doe - doe / 1460 + doe / 36524 - doe / 146096) / 365
  }

  predicate InEra(doe: int) {
    0 <= doe <= 146096
  }

  lemma EraOf(z: int)
    ensures var era := TruncatingDiv(if z >= 0 then z else z - 146096, 146097);
            era == z / 146097 && InEra(z - era * 146097)
  {
    if z < 0 {
      var a := 146096 - z;
      assert a / 146097 * 146097 <= a < a / 146097 * 146097 + 146097;
    }
  }

  /** A day of the era as centuries, four-year groups, years and days left over. */
  datatype EraDay = EraDay(c: nat, q: nat, r: nat, d: nat)

  predicate Decomposes(e: EraDay, doe: nat) {
    && doe == 36524 * e.c + 1461 * e.q + 365 * e.r + e.d
    && e.c <= 3 && e.q <= 24 && e.r <= 3 && e.d <= 365
    && (e.d == 365 ==> e.r == 3 && (e.q == 24 ==> e.c == 3))
  }

  function Decompose(doe: nat): (e: EraDay)
    requires InEra(doe)
    ensures Decomposes(e, doe)
  {
    var c := if doe / 36524 < 3 then doe / 36524 else 3;
    var inCentury := doe - 36524 * c;
    var q := if inCentury / 1461 < 24 then inCentury / 1461 else 24;
    var inGroup := inCentury - 1461 * q;
    var r := if inGroup / 365 < 3 then inGroup / 365 else 3;
    EraDay(c, q, r, inGroup - 365 * r)
  }

  lemma YearOfEraOfParts(doe: nat, e: EraDay)
    requires InEra(doe) && Decomposes(e, doe)
    ensures YearOfEra(doe) == 100 * e.c + 4 * e.q + e.r
  {
    var extra, rest := 24 * e.c + e.q + 365 * e.r + e.d, 1461 * e.q + 365 * e.r + e.d;
    var carry := if extra < 1460 then 0 else 1;
    DivIs(doe, 1460, 25 * e.c + e.q + carry, extra - 1460 * carry);
    if rest == 36524 {
      assert e.c == 3;
      DivIs(doe, 36524, 4, 0);
      DivIs(doe, 146096, 1, 0);
    } else {
      DivIs(doe, 36524, e.c, rest);
      DivIs(doe, 146096, 0, doe);
    }
    var year := 100 * e.c + 4 * e.q + e.r;
    assert doe - (25 * e.c + e.q + carry) + e.c == 365 * year + (e.d - carry);
    DivIs(365 * year + (e.d - carry), 365, year, e.d - carry);
  }

  lemma DivIs(a: int, k: int, q: int, r: int)
    requires k > 0 && a == k * q + r && 0 <= r < k
    ensures a / k == q
  {
    var p := a / k;
    if p < q {
      Multiple(k, q - p);
    } else if q < p {
      Multiple(k, p - q);
    }
  }

  lemma Multiple(k: int, n: int)
    requires k > 0 && n >= 1
    ensures k * n >= k
  {
    assert k * (n - 1) >= 0;
  }

  lemma YearStartOfParts(c: nat, q: nat, r: nat)
    requires q <= 24 && r <= 3
    ensures YearStart(100 * c + 4 * q + r) == 36524 * c + 1461 * q + 365 * r
  {
  }

  /** The division chain really finds the year that contains the day. */
  lemma YearOfEraBrackets(doe: nat)
    requires InEra(doe)
    ensures YearOfEra(doe) <= 399
    ensures YearStart(YearOfEra(doe)) <= doe
    ensures doe < YearStart(YearOfEra(doe) + 1) || (YearOfEra(doe) == 399 && doe == 146096)
  {
    hide YearOfEra, YearStart, Decompose;
    var e := Decompose(doe);
    YearOfEraOfParts(doe, e);
    YearStartOfParts(e.c, e.q, e.r);
    if e.r < 3 {
      YearStartOfParts(e.c, e.q, e.r + 1);
    } else if e.q < 24 {
      YearStartOfParts(e.c, e.q + 1, 0);
    } else {
      YearStartOfParts(e.c + 1, 0, 0);
    }
  }

  /** A year of the era is pinned down by its bracket. */
  lemma YearOfEraExact(doe: nat, yoe: nat)
    requires InEra(doe) && yoe <= 399 && YearStart(yoe) <= doe
    requires doe < YearStart(yoe + 1) || (yoe == 399 && doe == 146096)
    ensures YearOfEra(doe) == yoe
  {
    hide YearOfEra, YearStart;
    YearOfEraBrackets(doe);
    var z := YearOfEra(doe);
    if z < yoe {
      YearStartMonotone(z + 1, yoe);
    } else if yoe < z {
      YearStartMonotone(yoe + 1, z);
    }
  }

  lemma YearStartMonotone(a: nat, b: nat)
    requires a <= b
    ensures YearStart(a) <= YearStart(b)
  {
  }

  /** Days from 1 March to the first of month `mp`, March being month 0. */
  function MonthStart(mp: nat): nat {
    (153 * mp + 2) / 5
  }

  /** The conversion itself; every `nat` below is an unsigned subtraction of the original. */
  function CivilFromDays(days: int): (date: Date)
    ensures ValidDate(date)
  {
    var z := days + 719468;
    var era := TruncatingDiv(if z >= 0 then z else z - 146096, 146097);
    EraOf(z);
    var doe: nat := z - era * 146097;
    YearOfEraBrackets(doe);
    var yoe: nat := YearOfEra(doe);
    var doy: nat := doe - YearStart(yoe);
    DayOfYearBound(yoe, doy);
    MarchDate(yoe, era, doy)
  }

  /** The date of a day counted from 1 March of a year of an era. */
  function MarchDate(yoe: nat, era: int, doy: nat): (date: Date)
    requires yoe <= 399 && doy <= 365 && (doy == 365 ==> IsLeap(yoe + 1))
    ensures ValidDate(date)
  {
    MonthFits(yoe, era, doy);
    var mp: nat := (5 * doy + 2) / 153;
    var d: nat := doy - (153 * mp + 2) / 5 + 1;
    var m: nat := if mp < 10 then mp + 3 else mp - 9;
    var y := yoe + era * 400;
    Date(if m <= 2 then y + 1 else y, m, d)
  }

  /** The inverse, for any valid date. */
  function DaysFromCivil(date: Date): int {
    var y := if date.month <= 2 then date.year - 1 else date.year;
    var era := y / 400;
    var yoe: nat := y - era * 400;
    var mp := (date.month + 9) % 12;
    era * 146097 + YearStart(yoe) + (153 * mp + 2) / 5 + date.day - 1 - 719468
  }

  lemma DayOfYearBound(yoe: nat, doy: nat)
    requires yoe <= 399
    requires YearStart(yoe) + doy < YearStart(yoe + 1) || (yoe == 399 && YearStart(yoe) + doy == 146096)
    ensures doy <= 365
    ensures doy == 365 ==> IsLeap(yoe + 1)
  {
  }

  lemma MonthFits(yoe: nat, era: int, doy: nat)
    requires yoe <= 399 && doy <= 365 && (doy == 365 ==> IsLeap(yoe + 1))
    ensures var mp := (5 * doy + 2) / 153;
            var m := if mp < 10 then mp + 3 else mp - 9;
            var y := yoe + era * 400;
            mp <= 11 && MonthStart(mp) <= doy && 1 <= m <= 12 &&
            doy - MonthStart(mp) + 1 <= DaysInMonth(if m <= 2 then y + 1 else y, m)
  {
    LeapPeriod(yoe + 1, era);
  }

  lemma SameRemainders(y: int, z: int, era: int)
    requires z == y + era * 400
    ensures z % 4 == y % 4 && z % 100 == y % 100 && z % 400 == y % 400
  {
    assert z / 4 == y / 4 + 100 * era;
    assert z / 100 == y / 100 + 4 * era;
    assert z / 400 == y / 400 + era;
  }

  lemma LeapPeriod(y: int, era: int)
    ensures IsLeap(y + era * 400) == IsLeap(y)
  {
    SameRemainders(y, y + era * 400, era);
  }

  lemma MarchDateCounts(yoe: nat, era: int, doy: nat)
    requires yoe <= 399 && doy <= 365 && (doy == 365 ==> IsLeap(yoe + 1))
    ensures DaysFromCivil(MarchDate(yoe, era, doy)) == era * 146097 + YearStart(yoe) + doy - 719468
  {
    hide IsLeap, YearStart, DaysInMonth;
    var date := MarchDate(yoe, era, doy);
    var y := if date.month <= 2 then date.year - 1 else date.year;
    assert y == yoe + era * 400;
    assert y / 400 == era;
    assert (date.month + 9) % 12 == (5 * doy + 2) / 153;
  }

  /** Going to a date and back loses nothing, for every day number. */
  lemma DaysRoundTrip(days: int)
    ensures DaysFromCivil(CivilFromDays(days)) == days
  {
    hide DaysFromCivil, MarchDate, IsLeap, YearOfEra, YearStart, TruncatingDiv;
    var z := days + 719468;
    EraOf(z);
    var era := z / 146097;
    var doe: nat := z - era * 146097;
    YearOfEraBrackets(doe);
    var yoe := YearOfEra(doe);
    DayOfYearBound(yoe, doe - YearStart(yoe));
    MarchDateCounts(yoe, era, doe - YearStart(yoe));
  }

  /** ... and for every valid date. */
  lemma CivilRoundTrip(date: Date)
    requires ValidDate(date)
    ensures CivilFromDays(DaysFromCivil(date)) == date
  {
    hide IsLeap, YearStart, DaysInMonth, YearOfEra, MarchDate;
    var y := if date.month <= 2 then date.year - 1 else date.year;
    var era := y / 400;
    var yoe: nat := y - era * 400;
    var mp := (date.month + 9) % 12;
    var doy := MonthStart(mp) + date.day - 1;
    YearOfDate(date, era, yoe);
    DayOfDate(date, era, yoe);
    YearLength(yoe);
    YearOfEraExact(YearStart(yoe) + doy, yoe);
    var z := DaysFromCivil(date) + 719468;
    assert z == era * 146097 + YearStart(yoe) + doy;
    EraOf(z);
    assert z / 146097 == era;
    CivilOfParts(yoe, era, doy);
  }

  lemma CivilOfParts(yoe: nat, era: int, doy: nat)
    requires yoe <= 399 && doy <= 365 && (doy == 365 ==> IsLeap(yoe + 1))
    requires InEra(YearStart(yoe) + doy) && YearOfEra(YearStart(yoe) + doy) == yoe
    ensures CivilFromDays(era * 146097 + YearStart(yoe) + doy - 719468) == MarchDate(yoe, era, doy)
  {
    hide MarchDate, IsLeap, YearOfEra, YearStart, TruncatingDiv;
    var z := era * 146097 + YearStart(yoe) + doy;
    EraOf(z);
    assert z / 146097 == era;
  }

  lemma YearLength(yoe: nat)
    requires yoe <= 399
    ensures YearStart(yoe + 1) == YearStart(yoe) + (if IsLeap(yoe + 1) && yoe < 399 then 366 else 365)
    ensures yoe == 399 ==> YearStart(yoe) + 365 == 146096
    ensures yoe < 399 ==> YearStart(yoe + 1) <= 146096
  {
    var next := yoe + 1;
    assert next / 4 == yoe / 4 + (if next % 4 == 0 then 1 else 0);
    assert next / 100 == yoe / 100 + (if next % 100 == 0 then 1 else 0);
    assert next % 100 == 0 ==> next % 4 == 0;
    assert next % 400 == 0 <==> next == 400;
  }

  lemma YearOfDate(date: Date, era: int, yoe: nat)
    requires yoe + era * 400 == (if date.month <= 2 then date.year - 1 else date.year)
    requires yoe <= 399
    ensures date.month <= 2 ==> IsLeap(yoe + 1) == IsLeap(date.year)
  {
    hide IsLeap;
    LeapPeriod(yoe + 1, era);
  }

  lemma DayOfDate(date: Date, era: int, yoe: nat)
    requires ValidDate(date) && yoe <= 399
    requires yoe + era * 400 == (if date.month <= 2 then date.year - 1 else date.year)
    requires date.month <= 2 ==> IsLeap(yoe + 1) == IsLeap(date.year)
    ensures var doy := MonthStart((date.month + 9) % 12) + date.day - 1;
            0 <= doy <= 365 && (doy == 365 ==> IsLeap(yoe + 1)) && MarchDate(yoe, era, doy) == date
  {
    hide IsLeap;
    var mp := (date.month + 9) % 12;
    assert mp == (if date.month >= 3 then date.month - 3 else date.month + 9);
    MonthStarts();
    MonthOfDay(mp, MonthStart(mp) + date.day - 1);
  }

  lemma MonthOfDay(mp: nat, doy: nat)
    requires mp <= 11 && MonthStart(mp) <= doy <= 365 && (mp < 11 ==> doy < MonthStart(mp + 1))
    ensures (5 * doy + 2) / 153 == mp
  {
  }

  /** Every month but February is as long as the March-based months say. */
  lemma MonthStep(y: int, m: int)
    requires 1 <= m <= 12 && m != 2
    ensures var next := if m == 12 then 1 else m + 1;
      MonthStart((next + 9) % 12) == MonthStart((m + 9) % 12) + DaysInMonth(y, m)
  {
    hide IsLeap;
    assert (m + 9) % 12 == (if m >= 3 then m - 3 else m + 9);
    assert ((if m == 12 then 1 else m + 1) + 9) % 12 == (if m >= 3 then m - 2 else m + 10);
    MonthStarts();
  }

  lemma MonthStarts()
    ensures MonthStart(0) == 0 && MonthStart(1) == 31 && MonthStart(2) == 61 && MonthStart(3) == 92
    ensures MonthStart(4) == 122 && MonthStart(5) == 153 && MonthStart(6) == 184 && MonthStart(7) == 214
    ensures MonthStart(8) == 245 && MonthStart(9) == 275 && MonthStart(10) == 306 && MonthStart(11) == 337
  {
  }

  lemma FebruaryStep(y: int)
    ensures var before: nat, after: nat := (y - 1) % 400, y % 400;
      y / 400 * 146097 + YearStart(after)
      == (y - 1) / 400 * 146097 + YearStart(before) + MonthStart(11) + DaysInMonth(y, 2)
  {
    hide IsLeap, YearStart;
    var before: nat := (y - 1) % 400;
    YearLength(before);
    LeapPeriod(before + 1, (y - 1) / 400);
    assert y == before + 1 + (y - 1) / 400 * 400;
    if before == 399 {
      assert y / 400 == (y - 1) / 400 + 1;
      assert IsLeap(400) by { LeapFourHundred(); }
      assert YearStart(0) == 0 by { FirstYear(); }
    } else {
      assert y / 400 == (y - 1) / 400;
    }
  }

  lemma LeapFourHundred()
    ensures IsLeap(400)
  {
  }

  lemma FirstYear()
    ensures YearStart(0) == 0
  {
  }

  lemma NextDayCounts(date: Date)
    requires ValidDate(date)
    ensures ValidDate(NextDay(date))
    ensures DaysFromCivil(NextDay(date)) == DaysFromCivil(date) + 1
  {
    hide IsLeap, YearStart;
    if date.day == DaysInMonth(date.year, date.month) {
      hide DaysInMonth;
      if date.month == 2 {
        FebruaryStep(date.year);
        assert MonthStart(0) == 0 && (2 + 9) % 12 == 11 && (3 + 9) % 12 == 0;
      } else {
        MonthStep(date.year, date.month);
      }
      FirstOfMonthIsValid(NextDay(date));
    }
  }

  lemma FirstOfMonthIsValid(date: Date)
    requires 1 <= date.month <= 12 && date.day == 1
    ensures ValidDate(date)
  {
  }

  lemma PreviousIsInverse(date: Date)
    requires ValidDate(date)
    ensures ValidDate(PreviousDay(date)) && NextDay(PreviousDay(date)) == date
  {
  }

  /** One more day is the next day of the calendar, in both directions of time. */
  lemma CivilSteps(days: int)
    ensures CivilFromDays(days + 1) == NextDay(CivilFromDays(days))
  {
    hide CivilFromDays, DaysFromCivil, NextDay, DaysInMonth;
    var date := CivilFromDays(days);
    NextDayCounts(date);
    DaysRoundTrip(days);
    CivilRoundTrip(NextDay(date));
  }

  lemma EpochIsDayZero()
    ensures ValidDate(EPOCH) && DaysFromCivil(EPOCH) == 0
  {
  }

  /** The arithmetic is the calendar: `n` days from the epoch, for every integer `n`. */
  lemma {:induction false} CivilIsCalendar(n: int)
    ensures CivilFromDays(n) == StepFromEpoch(n)
    decreases if n < 0 then -n else n
  {
    hide CivilFromDays, NextDay, PreviousDay, DaysInMonth, DaysFromCivil;
    if n == 0 {
      EpochIsDayZero();
      CivilRoundTrip(EPOCH);
    } else if n > 0 {
      CivilIsCalendar(n - 1);
      CivilSteps(n - 1);
    } else {
      CivilIsCalendar(n + 1);
      var next := CivilFromDays(n + 1);
      PreviousIsInverse(next);
      NextDayCounts(PreviousDay(next));
      DaysRoundTrip(n + 1);
      CivilRoundTrip(PreviousDay(next));
    }
  }

  predicate DateBefore(a: Date, b: Date) {
    a.year < b.year || (a.year == b.year && (a.month < b.month || (a.month == b.month && a.day < b.day)))
  }

  /** Day order is date order. */
  lemma {:induction false} CivilIsMonotone(a: int, b: int)
    requires a < b
    ensures DateBefore(CivilFromDays(a), CivilFromDays(b))
    decreases b - a
  {
    hide CivilFromDays;
    CivilSteps(b - 1);
    if a < b - 1 {
      CivilIsMonotone(a, b - 1);
    }
  }
}
