/**
 * The printed timestamp reads back to the clock reading, and up to year 9999 it is an RFC 3339 date-time.
 */
module TimestampTheorems {
  import opened Prelude
  import opened Calendar
  import opened Decimal
  import opened Timestamp

  /** The fifteen characters between the year and the fraction. */
  function Fields(month: nat, day: nat, h: nat, mi: nat, sec: nat): string
    requires month < 100 && day < 100 && h < 100 && mi < 100 && sec < 100
  {
    ['-', DigitChar(month / 10), DigitChar(month % 10), '-', DigitChar(day / 10), DigitChar(day % 10), 'T',
     DigitChar(h / 10), DigitChar(h % 10), ':', DigitChar(mi / 10), DigitChar(mi % 10), ':',
     DigitChar(sec / 10), DigitChar(sec % 10)]
  }

  lemma {:induction false} JoinFields(a: string, b: string, c: string, d: string, e: string)
    requires |a| == |b| == |c| == |d| == |e| == 2
    ensures "-" + a + "-" + b + "T" + c + ":" + d + ":" + e ==
      ['-', a[0], a[1], '-', b[0], b[1], 'T', c[0], c[1], ':', d[0], d[1], ':', e[0], e[1]]
  {
  }

  lemma {:induction false} MonthToSecondIs(date: Date, sod: nat)
    requires IsDate(date) && sod < DAY
    ensures MonthToSecond(date, sod) == Fields(date.month, date.day, sod / 3600, sod % 3600 / 60, sod % 60)
  {
    TwoDigits(date.month);
    TwoDigits(date.day);
    TwoDigits(sod / 3600);
    TwoDigits(sod % 3600 / 60);
    TwoDigits(sod % 60);
    JoinFields(Padded(date.month, 2), Padded(date.day, 2), Padded(sod / 3600, 2), Padded(sod % 3600 / 60, 2),
               Padded(sod % 60, 2));
  }

  predicate FieldsAt(s: string, month: nat, day: nat, h: nat, mi: nat, sec: nat) {
    && IsAt(s, 0, '-') && IsAt(s, 3, '-') && IsAt(s, 6, 'T') && IsAt(s, 9, ':') && IsAt(s, 12, ':')
    && TwoAt(s, 1) == Some(month) && TwoAt(s, 4) == Some(day) && TwoAt(s, 7) == Some(h) && TwoAt(s, 10) == Some(mi)
    && TwoAt(s, 13) == Some(sec)
  }

  lemma {:induction false} FieldsRead(month: nat, day: nat, h: nat, mi: nat, sec: nat, rest: string)
    requires month < 100 && day < 100 && h < 100 && mi < 100 && sec < 100
    ensures FieldsAt(Fields(month, day, h, mi, sec) + rest, month, day, h, mi, sec)
    ensures (Fields(month, day, h, mi, sec) + rest)[15..] == rest
  {
  }

  lemma {:induction false} FractionReads(nanos: nat)
    requires nanos < BILLION
    ensures ReadFraction(Fraction(nanos) + "Z") == Some(nanos)
  {
    if nanos > 0 {
      var digits := Padded(nanos, 9);
      NineDigits(nanos);
      NotAllZeros(nanos);
      DigitsRead(Trimmed(digits));
      TrimmedAndZeros(digits);
      NumPadded(nanos, 9);
    }
  }

  lemma {:induction false} NineDigits(nanos: nat)
    requires nanos < BILLION
    ensures |Padded(nanos, 9)| == 9
  {
    DecLength(nanos, 9);
    assert Pow10(9) == BILLION;
  }

  lemma {:induction false} DigitsRead(digits: string)
    requires 1 <= |digits| <= 9 && AllDigits(digits)
    ensures ReadFraction("." + digits + "Z") == Some(Num(digits + Zeros(9 - |digits|)))
  {
  }

  lemma {:induction false} NotAllZeros(nanos: nat)
    requires nanos > 0
    ensures Trimmed(Padded(nanos, 9)) != ""
  {
    if Trimmed(Padded(nanos, 9)) == "" {
      TrimmedAndZeros(Padded(nanos, 9));
      assert "" + Zeros(|Padded(nanos, 9)|) == Zeros(|Padded(nanos, 9)|) + "";
      NumZeros(|Padded(nanos, 9)|, "");
      NumPadded(nanos, 9);
    }
  }

  lemma {:induction false} YearDigits(year: nat, rest: string)
    requires rest != "" && !IsDigit(rest[0])
    ensures var s := Padded(year, 4) + rest;
      var k := PrefixLen(s, Class.Digit);
      k >= 4 && s[..k] == Padded(year, 4) && s[k..] == rest
  {
    var s := Padded(year, 4) + rest;
    PrefixLenIs(s, Class.Digit, |Padded(year, 4)|);
  }

  lemma {:induction false} ReadTailIs(year: nat, s: string, date: Date, h: nat, mi: nat, sec: nat, nanos: nat)
    requires IsDate(date) && date.year == year && DaysTo(date) >= 0 && h < 24 && mi < 60 && sec < 60
    requires FieldsAt(s, date.month, date.day, h, mi, sec) && |s| >= 15 && ReadFraction(s[15..]) == Some(nanos)
    ensures ReadTail(year, s) == Some((DaysTo(date) * DAY + h * 3600 + mi * 60 + sec, nanos))
  {
  }

  lemma {:induction false} TimeOfDay(sod: nat) returns (h: nat, mi: nat, sec: nat)
    requires sod < DAY
    ensures h == sod / 3600 && mi == sod % 3600 / 60 && sec == sod % 60
    ensures h < 24 && mi < 60 && sec < 60 && h * 3600 + mi * 60 + sec == sod
  {
    h, mi, sec := sod / 3600, sod % 3600 / 60, sod % 60;
  }

  lemma {:induction false} TailOf(date: Date, s: string, rest: string, h: nat, mi: nat, sec: nat, nanos: nat, secs: nat)
    requires IsDate(date) && date.year >= 0 && DaysTo(date) >= 0 && h < 24 && mi < 60 && sec < 60
    requires DaysTo(date) * DAY + h * 3600 + mi * 60 + sec == secs
    requires FieldsAt(s, date.month, date.day, h, mi, sec) && |s| >= 15 && s[15..] == rest
    requires ReadFraction(rest) == Some(nanos)
    ensures ReadTail(date.year, s) == Some((secs, nanos))
  {
    ReadTailIs(date.year, s, date, h, mi, sec, nanos);
  }

  lemma {:induction false} TailIs(date: Date, h: nat, mi: nat, sec: nat, rest: string, nanos: nat, secs: nat)
    requires IsDate(date) && date.year >= 0 && DaysTo(date) >= 0 && h < 24 && mi < 60 && sec < 60
    requires DaysTo(date) * DAY + h * 3600 + mi * 60 + sec == secs && ReadFraction(rest) == Some(nanos)
    ensures ReadTail(date.year, Fields(date.month, date.day, h, mi, sec) + rest) == Some((secs, nanos))
  {
    FieldsRead(date.month, date.day, h, mi, sec, rest);
    TailOf(date, Fields(date.month, date.day, h, mi, sec) + rest, rest, h, mi, sec, nanos, secs);
  }

  lemma {:induction false} TailReads(date: Date, sod: nat, nanos: nat, secs: nat)
    requires IsDate(date) && date.year >= 0 && DaysTo(date) >= 0 && sod < DAY && nanos < BILLION
    requires DaysTo(date) * DAY + sod == secs
    ensures ReadTail(date.year, MonthToSecond(date, sod) + (Fraction(nanos) + "Z")) == Some((secs, nanos))
  {
    MonthToSecondIs(date, sod);
    var h, mi, sec := TimeOfDay(sod);
    FractionReads(nanos);
    TailIs(date, h, mi, sec, Fraction(nanos) + "Z", nanos, secs);
  }

  lemma {:induction false} ReadsBack(date: Date, sod: nat, nanos: nat, secs: nat)
    requires IsDate(date) && date.year >= 0 && DaysTo(date) >= 0 && sod < DAY && nanos < BILLION
    requires DaysTo(date) * DAY + sod == secs
    ensures Read(Print(date, sod, nanos)) == Some((secs, nanos))
  {
    YearDigits(date.year, MonthToSecond(date, sod) + (Fraction(nanos) + "Z"));
    NumPadded(date.year, 4);
    TailReads(date, sod, nanos, secs);
  }

  lemma {:induction false} PrintedDate(r: Reading) returns (date: Date, sod: nat)
    requires IsReading(r)
    ensures IsDate(date) && date.year >= 1970 && sod < DAY && 0 <= DaysTo(date)
    ensures DaysTo(date) * DAY + sod == Seconds(r) && TimestampNow(r) == Print(date, sod, Nanos(r))
  {
    date := CivilFromDays(Seconds(r) / DAY);
    sod := Seconds(r) % DAY;
    CivilInverts(Seconds(r) / DAY);
    SinceEpoch(date);
  }

  /** What was printed reads back to the very seconds and nanoseconds of the clock. */
  lemma {:induction false} RoundTrip(r: Reading)
    requires IsReading(r)
    ensures Read(TimestampNow(r)) == Some((Seconds(r), Nanos(r)))
  {
    var date, sod := PrintedDate(r);
    ReadsBack(date, sod, Nanos(r), Seconds(r));
  }

  /** The same, spelled out: seconds that do not fit an `i64`, and times before 1970, are printed as 1970. */
  lemma {:induction false} ClockReadsBack(secs: nat, nanos: nat)
    requires secs < 0x1_0000_0000_0000_0000 && nanos < 1_000_000_000
    ensures Read(TimestampNow(Since(secs, nanos))) ==
      Some((if secs < 0x8000_0000_0000_0000 then secs else 0, nanos))
    ensures Read(TimestampNow(BeforeEpoch)) == Some((0, 0))
  {
    RoundTrip(Since(secs, nanos));
    RoundTrip(BeforeEpoch);
  }

  /** Different readings are printed differently, unless their seconds overflow an `i64`. */
  lemma {:induction false} PrintIsInjective(a: Reading, b: Reading)
    requires IsReading(a) && IsReading(b) && TimestampNow(a) == TimestampNow(b)
    ensures Seconds(a) == Seconds(b) && Nanos(a) == Nanos(b)
  {
    RoundTrip(a);
    RoundTrip(b);
  }

  /** No point for whole seconds; else at most nine digits, the last of them not a zero. */
  lemma {:induction false} FractionShape(nanos: nat)
    requires nanos < BILLION
    ensures nanos == 0 <==> Fraction(nanos) == ""
    ensures nanos != 0 ==>
      var f := Fraction(nanos); 2 <= |f| <= 10 && f[0] == '.' && AllDigits(f[1..]) && f[|f| - 1] != '0'
  {
    if nanos > 0 {
      NotAllZeros(nanos);
      NineDigits(nanos);
    }
  }

  lemma {:induction false} FractionIsRfc(nanos: nat)
    requires nanos < BILLION
    ensures IsSecfracOffset(Fraction(nanos) + "Z")
  {
    FractionShape(nanos);
    if nanos > 0 {
      var f := Fraction(nanos);
      assert (f + "Z")[1..] == f[1..] + "Z";
      PrefixLenIs(f[1..] + "Z", Class.Digit, |f| - 1);
    }
  }

  lemma {:induction false} DateTimeParts(year: string, fields: string, rest: string)
    requires |year| == 4 && |fields| == 15 && |rest| >= 1
    ensures var s := year + (fields + rest);
      && |s| >= 20 && s[..10] == year + fields[..6] && s[10] == fields[6] && s[11..] == fields[7..] + rest
      && s[19..] == rest
  {
  }

  lemma {:induction false} TwoAtIs(s: string, i: nat, n: nat)
    requires n < 100 && i + 2 <= |s| && s[i] == DigitChar(n / 10) && s[i + 1] == DigitChar(n % 10)
    ensures TwoAt(s, i) == Some(n)
  {
  }

  lemma {:induction false} DateChars(year: string, fields: string, s: string)
    requires |year| == 4 && |fields| == 6 && s == year + fields
    ensures |s| == 10 && s[..4] == year && s[4] == fields[0] && s[5] == fields[1] && s[6] == fields[2]
    ensures s[7] == fields[3] && s[8] == fields[4] && s[9] == fields[5]
  {
  }

  lemma {:induction false} FieldsAreDate(year: string, month: nat, day: nat, h: nat, mi: nat, sec: nat)
    requires |year| == 4 && AllDigits(year) && IsDate(Date(Num(year), month, day)) && h < 100 && mi < 100 && sec < 100
    ensures IsFullDate(year + Fields(month, day, h, mi, sec)[..6])
  {
    var fields := Fields(month, day, h, mi, sec)[..6];
    var s := year + fields;
    DateChars(year, fields, s);
    TwoAtIs(s, 5, month);
    TwoAtIs(s, 8, day);
  }

  lemma {:induction false} FieldsAreTime(month: nat, day: nat, h: nat, mi: nat, sec: nat, rest: string)
    requires month < 100 && day < 100 && h < 24 && mi < 60 && sec < 60
    ensures IsPartialTime(Fields(month, day, h, mi, sec)[7..] + rest)
  {
  }

  /** Of a date in a four-digit year. */
  lemma {:induction false} FourDigitYear(date: Date, sod: nat, nanos: nat)
    requires IsDate(date) && 0 <= date.year <= 9999 && sod < DAY && nanos < BILLION
    ensures IsDateTime(Print(date, sod, nanos))
  {
    var h, mi, sec := sod / 3600, sod % 3600 / 60, sod % 60;
    var year, fields := Padded(date.year, 4), Fields(date.month, date.day, h, mi, sec);
    DecLength(date.year, 4);
    assert Pow10(4) == 10_000;
    NumPadded(date.year, 4);
    MonthToSecondIs(date, sod);
    DateTimeParts(year, fields, Fraction(nanos) + "Z");
    FieldsAreDate(year, date.month, date.day, h, mi, sec);
    FieldsAreTime(date.month, date.day, h, mi, sec, Fraction(nanos) + "Z");
    FractionIsRfc(nanos);
  }

  lemma {:induction false} LongYear(date: Date, sod: nat, nanos: nat)
    requires IsDate(date) && date.year > 9999
    ensures !IsDateTime(Print(date, sod, nanos))
  {
    DecLength(date.year, 4);
    assert Pow10(4) == 10_000;
    assert Print(date, sod, nanos)[4] == Padded(date.year, 4)[4];
  }

  /** 1 January 10000, in days and in seconds. */
  const DAY_10000 := 2_932_897
  const YEAR_10000 := DAY_10000 * DAY

  lemma {:induction false} Year10000()
    ensures YearStart(10_000) == DAY_10000
  {
    YearStartIs(10_000);
  }

  lemma {:induction false} LaterYear(date: Date)
    requires IsDate(date)
    ensures date.year <= 9999 <==> DaysTo(date) < DAY_10000
  {
    DayInYear(date);
    Year10000();
    if date.year <= 9999 {
      YearsIncrease(date.year + 1, 10_000);
    } else {
      YearsIncrease(10_000, date.year);
    }
  }

  /** The timestamp is an RFC 3339 date-time exactly for times before the year 10000. */
  lemma {:induction false} IsRfc3339Exactly(r: Reading)
    requires IsReading(r)
    ensures IsDateTime(TimestampNow(r)) <==> Seconds(r) < YEAR_10000
  {
    var date, sod := PrintedDate(r);
    LaterYear(date);
    if date.year <= 9999 {
      FourDigitYear(date, sod, Nanos(r));
    } else {
      LongYear(date, sod, Nanos(r));
    }
  }
}
