/**
 * The log layer's timestamp (rb-tracing, json_layer.rs), with the clock reading as a parameter.
 */
module Timestamp {
  import opened Prelude
  import opened Calendar
  import opened Decimal

  const DAY := 86_400
  const BILLION := 1_000_000_000

  /** The system clock, as a time before 1970 or a time since then. */
  datatype Reading = BeforeEpoch | Since(secs: nat, nanos: nat)

  predicate IsReading(r: Reading) {
    r.Since? ==> r.secs <= U64_MAX && r.nanos < BILLION
  }

  /** The seconds that get printed: zero when they do not fit an `i64`. */
  function Seconds(r: Reading): nat {
    if r.Since? && r.secs <= I64_MAX then r.secs else 0
  }

  function Nanos(r: Reading): nat {
    if r.Since? then r.nanos else 0
  }

  function MonthToSecond(date: Date, sod: nat): string
    requires date.month >= 0 && date.day >= 0
  {
    "-" + Padded(date.month, 2) + "-" + Padded(date.day, 2) + "T" +
    Padded(sod / 3600, 2) + ":" + Padded(sod % 3600 / 60, 2) + ":" + Padded(sod % 60, 2)
  }

  function Fraction(nanos: nat): string {
    if nanos == 0 then "" else "." + Trimmed(Padded(nanos, 9))
  }

  /** `sod`: second of the day. */
  function Print(date: Date, sod: nat, nanos: nat): string
    requires date.year >= 0 && date.month >= 0 && date.day >= 0
  {
    Padded(date.year, 4) + (MonthToSecond(date, sod) + (Fraction(nanos) + "Z"))
  }

  function TimestampNow(r: Reading): string {
    var date := CivilFromDays(Seconds(r) / DAY);
    CivilInverts(Seconds(r) / DAY);
    SinceEpoch(date);
    Print(date, Seconds(r) % DAY, Nanos(r))
  }

  lemma {:induction false} SinceEpoch(date: Date)
    requires IsDate(date) && DaysTo(date) >= 0
    ensures date.year >= 1970
  {
    DayInYear(date);
    if date.year < 1970 {
      YearsIncrease(date.year + 1, 1970);
    }
  }

  // ---------------------------------------------------------------------------------------------
  // Reading a timestamp back
  // ---------------------------------------------------------------------------------------------

  /** The two digits at `i`. */
  function TwoAt(s: string, i: nat): (r: Option<nat>)
    ensures r.Some? ==> r.value < 100
  {
    if i + 2 <= |s| && IsDigit(s[i]) && IsDigit(s[i + 1]) then Some(10 * Value(s[i]) + Value(s[i + 1])) else None
  }

  predicate IsAt(s: string, i: nat, c: char) {
    i < |s| && s[i] == c
  }

  /** Nanoseconds from what follows the seconds: `Z`, or a point, up to nine digits and `Z`. */
  function ReadFraction(s: string): Option<nat> {
    if s == "Z" then Some(0)
    else if |s| >= 3 && s[0] == '.' && s[|s| - 1] == 'Z' && |s| <= 11 && AllDigits(s[1..|s| - 1]) then
      Some(Num(s[1..|s| - 1] + Zeros(11 - |s|)))
    else None
  }

  function ReadTail(year: nat, s: string): Option<(nat, nat)> {
    if !(IsAt(s, 0, '-') && IsAt(s, 3, '-') && IsAt(s, 6, 'T') && IsAt(s, 9, ':') && IsAt(s, 12, ':')) then None
    else
      var month, day, h, mi, sec := TwoAt(s, 1), TwoAt(s, 4), TwoAt(s, 7), TwoAt(s, 10), TwoAt(s, 13);
      if month.None? || day.None? || h.None? || mi.None? || sec.None? then None
      else
        var date := Date(year, month.value, day.value);
        if !IsDate(date) || h.value > 23 || mi.value > 59 || sec.value > 59 || DaysTo(date) < 0 then None
        else
          var nanos := ReadFraction(s[15..]);
          if nanos.None? then None
          else Some((DaysTo(date) * DAY + h.value * 3600 + mi.value * 60 + sec.value, nanos.value))
  }

  /** Seconds and nanoseconds since 1970, from a UTC timestamp. */
  function Read(s: string): Option<(nat, nat)> {
    var k := PrefixLen(s, Class.Digit);
    if k < 4 then None else ReadTail(Num(s[..k]), s[k..])
  }

  // ---------------------------------------------------------------------------------------------
  // RFC 3339, section 5.6
  // ---------------------------------------------------------------------------------------------

  predicate IsTwo(s: string, i: nat, lo: nat, hi: nat) {
    TwoAt(s, i).Some? && lo <= TwoAt(s, i).value <= hi
  }

  predicate IsFullDate(s: string) {
    && |s| == 10 && AllDigits(s[..4]) && IsAt(s, 4, '-') && IsAt(s, 7, '-')
    && IsTwo(s, 5, 1, 12) && IsTwo(s, 8, 1, MonthLength(Num(s[..4]), TwoAt(s, 5).value))
  }

  predicate IsPartialTime(s: string) {
    IsTwo(s, 0, 0, 23) && IsAt(s, 2, ':') && IsTwo(s, 3, 0, 59) && IsAt(s, 5, ':') && IsTwo(s, 6, 0, 60)
  }

  predicate IsOffset(s: string) {
    || s == "Z" || s == "z"
    || (|s| == 6 && s[0] in "+-" && IsTwo(s, 1, 0, 23) && IsAt(s, 3, ':') && IsTwo(s, 4, 0, 59))
  }

  /** An optional `time-secfrac`, then a `time-offset`. */
  predicate IsSecfracOffset(s: string) {
    if IsAt(s, 0, '.') then
      var k := PrefixLen(s[1..], Class.Digit);
      k >= 1 && IsOffset(s[1 + k..])
    else IsOffset(s)
  }

  predicate IsDateTime(s: string) {
    && |s| >= 20 && IsFullDate(s[..10]) && s[10] in "Tt" && IsPartialTime(s[11..]) && IsSecfracOffset(s[19..])
  }
}
