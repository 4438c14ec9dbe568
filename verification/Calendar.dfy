/**
 * Day numbers and dates (rb-tracing, json_layer.rs), in the proleptic Gregorian calendar.
 */
module Calendar {
  import opened Prelude

  datatype Date = Date(year: int, month: int, day: int)

  /** Division as on `i64`: it truncates toward zero. */
  function Quotient(a: int, b: int): int
    requires b > 0
  {
    (if a >= 0 then a else a + b - 1) / b
  }

  function EraOf(z: int): int {
    Quotient(if z >= 0 then z else z - 146_096, 146_097)
  }

  /** Days before year `yoe` of an era. */
  function DaysBefore(yoe: int): int {
    365 * yoe + Quotient(yoe, 4) - Quotient(yoe, 100)
  }

  function YearOfEra(doe: int): int {
    Quotient(doe - Quotient(doe, 1460) + Quotient(doe, 36524) - Quotient(doe, 146_096), 365)
  }

  /** Month and day of the `doy`-th day of a year that starts in March. */
  function MarchDate(year: int, doy: int): Date {
    var mp := Quotient(5 * doy + 2, 153);
    var d := doy - Quotient(153 * mp + 2, 5) + 1;
    var m := if mp < 10 then mp + 3 else mp - 9;
    Date(if m <= 2 then year + 1 else year, m, d)
  }

  /** The `doe`-th day of an era. */
  function EraDate(era: int, doe: int): Date {
    var yoe := YearOfEra(doe);
    MarchDate(yoe + era * 400, doe - DaysBefore(yoe))
  }

  function CivilFromDays(days: int): Date {
    var z := days + 719_468;
    var era := EraOf(z);
    EraDate(era, z - era * 146_097)
  }

  // Every value the computation passes through, in three parts.

  function EraSteps(z: int, era: int): seq<int> {
    [z, if z >= 0 then z else z - 146_096, era, era * 146_097, z - era * 146_097]
  }

  function YearSteps(doe: int, yoe: int, era: int): seq<int> {
    [doe - Quotient(doe, 1460), doe - Quotient(doe, 1460) + Quotient(doe, 36524),
     doe - Quotient(doe, 1460) + Quotient(doe, 36524) - Quotient(doe, 146_096), yoe, era * 400, yoe + era * 400,
     yoe + era * 400 + 1, 365 * yoe, 365 * yoe + Quotient(yoe, 4), DaysBefore(yoe)]
  }

  function MonthSteps(doy: int, mp: int): seq<int> {
    [doy, 5 * doy, 5 * doy + 2, mp, 153 * mp, 153 * mp + 2, doy - Quotient(153 * mp + 2, 5),
     doy - Quotient(153 * mp + 2, 5) + 1, mp + 3, mp - 9]
  }

  function EraDateSteps(era: int, doe: int): seq<int> {
    var yoe := YearOfEra(doe);
    var doy := doe - DaysBefore(yoe);
    YearSteps(doe, yoe, era) + MonthSteps(doy, Quotient(5 * doy + 2, 153))
  }

  function Intermediates(days: int): seq<int> {
    var z := days + 719_468;
    var era := EraOf(z);
    EraSteps(z, era) + EraDateSteps(era, z - era * 146_097)
  }

  // ---------------------------------------------------------------------------------------------
  // The calendar, counted year by year and month by month
  // ---------------------------------------------------------------------------------------------

  predicate IsLeap(year: int) {
    year % 4 == 0 && (year % 100 != 0 || year % 400 == 0)
  }

  function YearLength(year: int): int {
    if IsLeap(year) then 366 else 365
  }

  function MonthLength(year: int, month: int): int {
    if month == 2 then if IsLeap(year) then 29 else 28
    else if month == 4 || month == 6 || month == 9 || month == 11 then 30
    else 31
  }

  /** Days from 1 January 1970 to 1 January of `year`. */
  function YearStart(year: int): int
    decreases if year >= 1970 then year - 1970 else 1970 - year
  {
    if year == 1970 then 0
    else if year > 1970 then YearStart(year - 1) + YearLength(year - 1)
    else YearStart(year + 1) - YearLength(year)
  }

  /** Days from 1 January of `year` to the first of `month`. */
  function MonthStart(year: int, month: int): int
    requires 1 <= month <= 13
    decreases month
  {
    if month == 1 then 0 else MonthStart(year, month - 1) + MonthLength(year, month - 1)
  }

  predicate IsDate(date: Date) {
    1 <= date.month <= 12 && 1 <= date.day <= MonthLength(date.year, date.month)
  }

  function DaysTo(date: Date): int
    requires IsDate(date)
  {
    YearStart(date.year) + MonthStart(date.year, date.month) + date.day - 1
  }

  function NextDay(date: Date): Date {
    if date.day < MonthLength(date.year, date.month) then date.(day := date.day + 1)
    else if date.month < 12 then Date(date.year, date.month + 1, 1)
    else Date(date.year + 1, 1, 1)
  }

  // ---------------------------------------------------------------------------------------------
  // The inverse theorem
  // ---------------------------------------------------------------------------------------------

  lemma {:induction false} YearStartIs(year: int)
    ensures YearStart(year) == 365 * (year - 1970) + (year - 1) / 4 - (year - 1) / 100 + (year - 1) / 400 - 477
    decreases if year >= 1970 then year - 1970 else 1970 - year
  {
    if year > 1970 {
      YearStartIs(year - 1);
      LeapSteps(year - 1);
    } else if year < 1970 {
      YearStartIs(year + 1);
      LeapSteps(year);
    }
  }

  lemma {:induction false} LeapSteps(year: int)
    ensures YearLength(year) - 365 ==
      (year / 4 - (year - 1) / 4) - (year / 100 - (year - 1) / 100) + (year / 400 - (year - 1) / 400)
  {
    Multiples(year);
    DivStep(year, 4);
    DivStep(year, 100);
    DivStep(year, 400);
  }

  lemma {:induction false} Multiples(n: int)
    ensures (n % 400 == 0 ==> n % 100 == 0) && (n % 100 == 0 ==> n % 4 == 0)
  {
  }

  lemma {:induction false} DivStep(n: int, k: int)
    requires k == 4 || k == 100 || k == 400
    ensures n / k - (n - 1) / k == if n % k == 0 then 1 else 0
  {
  }

  lemma {:induction false} MonthStarts(year: int)
    ensures var leap := YearLength(year) - 365;
      && MonthStart(year, 1) == 0 && MonthStart(year, 2) == 31 && MonthStart(year, 3) == 59 + leap
      && MonthStart(year, 4) == 90 + leap && MonthStart(year, 5) == 120 + leap && MonthStart(year, 6) == 151 + leap
      && MonthStart(year, 7) == 181 + leap && MonthStart(year, 8) == 212 + leap && MonthStart(year, 9) == 243 + leap
      && MonthStart(year, 10) == 273 + leap && MonthStart(year, 11) == 304 + leap && MonthStart(year, 12) == 334 + leap
      && MonthStart(year, 13) == 365 + leap
  {
  }

  /** A day of the 400-year era: `c` centuries, `q` four-year cycles, `t` years and `doy` days. */
  predicate Splits(doe: int, c: int, q: int, t: int, doy: int) {
    && 0 <= c <= 3 && 0 <= q <= 24 && 0 <= t <= 3 && 0 <= doy <= 365
    && doe == 36524 * c + 1461 * q + 365 * t + doy
    && (doy == 365 ==> t == 3 && (q == 24 ==> c == 3))
  }

  lemma {:induction false} EraDay(doe: int) returns (c: int, q: int, t: int, doy: int)
    requires 0 <= doe <= 146_096
    ensures Splits(doe, c, q, t, doy)
    ensures c == doe / 36524 - doe / 146_096
  {
    c := if doe == 146_096 then 3 else doe / 36524;
    var r := doe - 36524 * c;
    q := r / 1461;
    var s := r - 1461 * q;
    t := if s == 1460 then 3 else s / 365;
    doy := s - 365 * t;
  }

  lemma {:induction false} YearOfEraIs(doe: int, c: int, q: int, t: int, doy: int)
    requires 0 <= doe <= 146_096 && Splits(doe, c, q, t, doy) && c == doe / 36524 - doe / 146_096
    ensures YearOfEra(doe) == 100 * c + 4 * q + t
  {
  }

  lemma {:induction false} DayOfEra(c: int, q: int, t: int)
    requires 0 <= c <= 3 && 0 <= q <= 24 && 0 <= t <= 3
    ensures var yoe := 100 * c + 4 * q + t;
      0 <= yoe < 400 && DaysBefore(yoe) == 36524 * c + 1461 * q + 365 * t
  {
  }

  /** The first of March that starts year `yoe` of an era. */
  lemma {:induction false} MarchStart(era: int, yoe: int, year: int)
    requires 0 <= yoe < 400 && year == yoe + era * 400
    ensures YearStart(year + 1) - 306 == era * 146_097 + DaysBefore(yoe) - 719_468
  {
    YearStartIs(year + 1);
    assert year / 4 == yoe / 4 + 100 * era;
    assert year / 100 == yoe / 100 + 4 * era;
    assert year / 400 == era;
  }

  /** Days of the months before the `mp`-th of a year that starts in March. */
  lemma {:induction false} MarchMonths(year: int, mp: int)
    requires 0 <= mp <= 11
    ensures mp < 10 ==> MonthStart(year, mp + 3) == MonthStart(year, 3) + (153 * mp + 2) / 5
    ensures mp >= 10 ==> MonthStart(year + 1, mp - 9) == (153 * mp + 2) / 5 - 306
  {
    MonthStarts(year);
    MonthStarts(year + 1);
  }

  lemma {:induction false} MarchLengths(year: int, mp: int)
    requires 0 <= mp <= 10
    ensures (153 * (mp + 1) + 2) / 5 - (153 * mp + 2) / 5 ==
      if mp < 10 then MonthLength(year, mp + 3) else MonthLength(year + 1, mp - 9)
  {
  }

  lemma {:induction false} MarchMonth(doy: int) returns (mp: int, d: int)
    requires 0 <= doy <= 365
    ensures mp == (5 * doy + 2) / 153 && 0 <= mp <= 11 && d == doy - (153 * mp + 2) / 5 + 1
    ensures d >= 1 && (mp < 11 ==> doy < (153 * (mp + 1) + 2) / 5)
    ensures mp == 11 ==> d <= 29 && (doy < 365 ==> d <= 28)
  {
    mp := (5 * doy + 2) / 153;
    d := doy - (153 * mp + 2) / 5 + 1;
  }

  lemma {:induction false} MarchDateIs(year: int, doy: int)
    requires 0 <= doy <= 365 && (doy == 365 ==> IsLeap(year + 1))
    ensures IsDate(MarchDate(year, doy)) && DaysTo(MarchDate(year, doy)) == YearStart(year + 1) - 306 + doy
  {
    var mp, d := MarchMonth(doy);
    MarchMonths(year, mp);
    if mp < 11 {
      MarchLengths(year, mp);
    }
    if mp < 10 {
      MonthStarts(year);
      YearAfter(year);
    }
  }

  lemma {:induction false} YearAfter(year: int)
    ensures YearStart(year + 1) == YearStart(year) + YearLength(year)
  {
  }

  lemma {:induction false} FourTimes(y: int, n: int)
    requires y == 4 * n
    ensures y % 4 == 0
  {
  }

  lemma {:induction false} FourHundredTimes(y: int, n: int)
    requires y == 400 * n
    ensures y % 400 == 0
  {
  }

  lemma {:induction false} NoCentury(y: int, m: int, r: int)
    requires y == 100 * m + r && 0 < r < 100
    ensures y % 100 != 0
  {
  }

  /** The leap day closes a leap year. */
  lemma {:induction false} LeapDay(era: int, c: int, q: int, t: int, y: int)
    requires 0 <= c <= 3 && 0 <= q <= 24 && t == 3 && (q == 24 ==> c == 3)
    requires y == 100 * c + 4 * q + t + era * 400 + 1
    ensures IsLeap(y)
  {
    FourTimes(y, 25 * c + q + 1 + 100 * era);
    if q == 24 {
      FourHundredTimes(y, era + 1);
    } else {
      NoCentury(y, c + 4 * era, 4 * q + 4);
    }
  }

  lemma {:induction false} TruncatesToFloor(z: int)
    ensures EraOf(z) == z / 146_097
  {
  }

  lemma {:induction false} PartsOf(z: int, era: int, doe: int) returns (c: int, q: int, t: int, doy: int)
    requires era == EraOf(z) && doe == z - era * 146_097
    ensures era == z / 146_097 && 0 <= doe <= 146_096 && Splits(doe, c, q, t, doy)
    ensures 0 <= YearOfEra(doe) < 400 && YearOfEra(doe) == 100 * c + 4 * q + t
    ensures doe - DaysBefore(YearOfEra(doe)) == doy
  {
    TruncatesToFloor(z);
    c, q, t, doy := EraDay(doe);
    YearOfEraIs(doe, c, q, t, doy);
    DayOfEra(c, q, t);
  }

  lemma {:induction false} CivilIs(days: int, era: int, doe: int, yoe: int, year: int, doy: int)
    requires era == EraOf(days + 719_468) && doe == days + 719_468 - era * 146_097
    requires yoe == YearOfEra(doe) && doy == doe - DaysBefore(yoe) && year == yoe + era * 400
    ensures CivilFromDays(days) == EraDate(era, doe) == MarchDate(year, doy)
  {
  }

  lemma {:induction false} DayNumber(z: int) returns (era: int, doe: int, yoe: int, year: int, doy: int)
    ensures era == EraOf(z) && doe == z - era * 146_097 && yoe == YearOfEra(doe) && doy == doe - DaysBefore(yoe)
    ensures 0 <= yoe < 400 && 0 <= doy <= 365 && year == yoe + era * 400 && (doy == 365 ==> IsLeap(year + 1))
    ensures era == z / 146_097 && 0 <= doe <= 146_096
  {
    era := EraOf(z);
    doe := z - era * 146_097;
    yoe := YearOfEra(doe);
    year := yoe + era * 400;
    var c, q, t, d := PartsOf(z, era, doe);
    doy := d;
    if doy == 365 {
      LeapDay(era, c, q, t, year + 1);
    }
  }

  /** For every day number: the result is a real date, and counting the days up to it gives the number back. */
  lemma {:induction false} CivilInverts(days: int)
    ensures IsDate(CivilFromDays(days)) && DaysTo(CivilFromDays(days)) == days
  {
    var era, doe, yoe, year, doy := DayNumber(days + 719_468);
    CivilIs(days, era, doe, yoe, year, doy);
    MarchStart(era, yoe, year);
    MarchDateIs(year, doy);
  }

  lemma {:induction false} DayInYear(date: Date)
    requires IsDate(date)
    ensures YearStart(date.year) <= DaysTo(date) < YearStart(date.year + 1)
    ensures MonthStart(date.year, date.month) <= DaysTo(date) - YearStart(date.year)
      < MonthStart(date.year, date.month + 1)
  {
    MonthStarts(date.year);
    YearAfter(date.year);
  }

  lemma {:induction false} YearsIncrease(a: int, b: int)
    requires a <= b
    ensures YearStart(a) <= YearStart(b)
    decreases b - a
  {
    if a < b {
      YearsIncrease(a, b - 1);
      YearAfter(b - 1);
    }
  }

  lemma {:induction false} MonthsIncrease(year: int, a: int, b: int)
    requires 1 <= a <= b <= 13
    ensures MonthStart(year, a) <= MonthStart(year, b)
    decreases b - a
  {
    if a < b {
      MonthsIncrease(year, a, b - 1);
    }
  }

  predicate Before(a: Date, b: Date) {
    a.year < b.year || (a.year == b.year && (a.month < b.month || (a.month == b.month && a.day < b.day)))
  }

  lemma {:induction false} DaysIncrease(a: Date, b: Date)
    requires IsDate(a) && IsDate(b) && Before(a, b)
    ensures DaysTo(a) < DaysTo(b)
  {
    DayInYear(a);
    DayInYear(b);
    if a.year < b.year {
      YearsIncrease(a.year + 1, b.year);
    } else if a.month < b.month {
      MonthsIncrease(a.year, a.month + 1, b.month);
    }
  }

  lemma {:induction false} SameNumberSameDate(a: Date, b: Date)
    requires IsDate(a) && IsDate(b) && DaysTo(a) == DaysTo(b)
    ensures a == b
  {
    if Before(a, b) {
      DaysIncrease(a, b);
    } else if Before(b, a) {
      DaysIncrease(b, a);
    }
  }

  /** Every date is reached, from its own number. */
  lemma {:induction false} CivilIsOnto(date: Date, days: int)
    requires IsDate(date) && DaysTo(date) == days
    ensures CivilFromDays(days) == date
  {
    CivilInverts(days);
    SameNumberSameDate(CivilFromDays(days), date);
  }

  lemma {:induction false} NextDayIsNext(date: Date)
    requires IsDate(date)
    ensures IsDate(NextDay(date)) && DaysTo(NextDay(date)) == DaysTo(date) + 1
  {
    MonthStarts(date.year);
    YearAfter(date.year);
  }

  lemma {:induction false} NextNumber(date: Date, days: int)
    requires IsDate(date) && DaysTo(date) == days
    ensures CivilFromDays(days + 1) == NextDay(date)
  {
    NextDayIsNext(date);
    CivilIsOnto(NextDay(date), days + 1);
  }

  /** Successive numbers are successive calendar days. */
  lemma {:induction false} Successive(days: int)
    ensures CivilFromDays(days + 1) == NextDay(CivilFromDays(days))
  {
    CivilInverts(days);
    NextNumber(CivilFromDays(days), days);
  }

  predicate FitsI64(n: int) {
    I64_MIN <= n <= I64_MAX
  }

  predicate AllFit(ns: seq<int>) {
    forall n | n in ns :: FitsI64(n)
  }

  lemma {:induction false} EraStepsFit(days: int, era: int)
    requires FitsI64(days) && era == (days + 719_468) / 146_097
    ensures AllFit(EraSteps(days + 719_468, era)) <==> days <= I64_MAX - 719_468
  {
    assert days + 719_468 in EraSteps(days + 719_468, era);
  }

  lemma {:induction false} YearStepsFit(doe: int, yoe: int, era: int)
    requires 0 <= doe <= 146_096 && 0 <= yoe < 400 && -I64_MAX / 1000 < era < I64_MAX / 1000
    ensures AllFit(YearSteps(doe, yoe, era))
  {
  }

  lemma {:induction false} MonthStepsFit(doy: int)
    requires 0 <= doy <= 365
    ensures AllFit(MonthSteps(doy, Quotient(5 * doy + 2, 153)))
  {
  }

  lemma {:induction false} AllFitBoth(a: seq<int>, b: seq<int>)
    ensures AllFit(a + b) <==> AllFit(a) && AllFit(b)
  {
  }

  lemma {:induction false} IntermediatesAre(days: int, era: int, doe: int, yoe: int, doy: int)
    requires era == EraOf(days + 719_468) && doe == days + 719_468 - era * 146_097
    requires yoe == YearOfEra(doe) && doy == doe - DaysBefore(yoe)
    ensures Intermediates(days) == EraSteps(days + 719_468, era) + EraDateSteps(era, doe)
    ensures EraDateSteps(era, doe) == YearSteps(doe, yoe, era) + MonthSteps(doy, Quotient(5 * doy + 2, 153))
  {
  }

  /** On `i64` the computation overflows exactly when its first addition does. */
  lemma {:induction false} OverflowsExactly(days: int)
    requires FitsI64(days)
    ensures AllFit(Intermediates(days)) <==> days <= I64_MAX - 719_468
  {
    var z := days + 719_468;
    var era, doe, yoe, year, doy := DayNumber(z);
    IntermediatesAre(days, era, doe, yoe, doy);
    EraStepsFit(days, era);
    YearStepsFit(doe, yoe, era);
    MonthStepsFit(doy);
    AllFitBoth(YearSteps(doe, yoe, era), MonthSteps(doy, Quotient(5 * doy + 2, 153)));
    AllFitBoth(EraSteps(z, era), EraDateSteps(era, doe));
  }
}
