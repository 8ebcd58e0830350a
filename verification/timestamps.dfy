/** Points in time as the store keeps them, and their fixed text form
    `YYYY-MM-DD HH:MM:SS` (strftime('%Y-%m-%d %H:%M:%S')), which drops the
    sub-second part. Parsing models pd.to_datetime on text of that form only,
    with the range check of its nanosecond unit. */
module Timestamps {

  import opened Wrappers

  /** A naive (time-zone free) point in time with nanosecond precision. */
  datatype Timestamp = Timestamp(year: int, month: int, day: int,
                                 hour: int, minute: int, second: int, nanos: int)

  /** The calendar date of a timestamp (pandas `.dt.date`). */
  datatype Date = Date(year: int, month: int, day: int)

  function DateOf(t: Timestamp): Date {
    Date(t.year, t.month, t.day)
  }

  predicate LeapYear(y: int) {
    (y % 4 == 0 && y % 100 != 0) || y % 400 == 0
  }

  function DaysInMonth(y: int, m: int): int {
    if m == 2 then (if LeapYear(y) then 29 else 28)
    else if m == 4 || m == 6 || m == 9 || m == 11 then 30
    else 31
  }

  predicate ValidDate(d: Date) {
    1000 <= d.year <= 9999 && 1 <= d.month <= 12 && 1 <= d.day <= DaysInMonth(d.year, d.month)
  }

  /** Sort key of a timestamp to the second: YYYYMMDDhhmmss read as a number. */
  function SecondKey(t: Timestamp): int {
    DateKey(DateOf(t)) * 1_000_000 + t.hour * 10_000 + t.minute * 100 + t.second
  }

  /** The first whole second a nanosecond-unit pandas Timestamp can hold,
      1677-09-21 00:12:44, and the last second it reaches, 2262-04-11 23:47:16,
      which it holds up to its 854775807th nanosecond. */
  const FirstSecond: int := 16770921001244
  const LastSecond: int := 22620411234716
  const LastNanos: int := 854_775_807

  predicate InPandasRange(t: Timestamp) {
    && FirstSecond <= SecondKey(t)
    && (SecondKey(t) < LastSecond || (SecondKey(t) == LastSecond && t.nanos <= LastNanos))
  }

  /** A timestamp whose fields are in range: one strftime can write. */
  predicate WellFormed(t: Timestamp) {
    && ValidDate(DateOf(t))
    && 0 <= t.hour < 24 && 0 <= t.minute < 60 && 0 <= t.second < 60
    && 0 <= t.nanos < 1_000_000_000
  }

  /** A well-formed timestamp inside the range of datetime64[ns]. */
  predicate ValidTimestamp(t: Timestamp) {
    WellFormed(t) && InPandasRange(t)
  }

  /** A timestamp pandas can hold. */
  type Time = t: Timestamp | ValidTimestamp(t) witness Timestamp(1970, 1, 1, 0, 0, 0, 0)

  /** The same timestamp with the sub-second part dropped. */
  function TruncateToSecond(t: Timestamp): Timestamp {
    t.(nanos := 0)
  }

  // ---------------------------------------------------------------------
  // Fixed-width decimal fields

  function Pow10(w: nat): nat {
    if w == 0 then 1 else 10 * Pow10(w - 1)
  }

  predicate IsDigit(c: char) {
    '0' <= c <= '9'
  }

  predicate AllDigits(s: string) {
    forall i :: 0 <= i < |s| ==> IsDigit(s[i])
  }

  function DigitChar(d: nat): char
    requires d < 10
  {
    ('0' as int + d) as char
  }

  /** n written in exactly w decimal digits, with leading zeros. */
  function Digits(n: nat, w: nat): (s: string)
    requires n < Pow10(w)
    ensures |s| == w
    ensures AllDigits(s)
  {
    if w == 0 then "" else Digits(n / 10, w - 1) + [DigitChar(n % 10)]
  }

  /** The value of a string of decimal digits. */
  function DigitsValue(s: string): nat
    requires AllDigits(s)
  {
    if s == [] then 0
    else DigitsValue(s[..|s| - 1]) * 10 + (s[|s| - 1] as int - '0' as int)
  }

  lemma {:induction false} DigitsRoundTrip(n: nat, w: nat)
    requires n < Pow10(w)
    ensures DigitsValue(Digits(n, w)) == n
  {
    if w > 0 {
      var s := Digits(n, w);
      assert s[..|s| - 1] == Digits(n / 10, w - 1);
      DigitsRoundTrip(n / 10, w - 1);
    }
  }

  // ---------------------------------------------------------------------
  // strftime('%Y-%m-%d %H:%M:%S') and its inverse

  function FormatTimestamp(t: Timestamp): (s: string)
    requires WellFormed(t)
    ensures |s| == 19
  {
    Digits(t.year, 4) + "-" + Digits(t.month, 2) + "-" + Digits(t.day, 2) + " "
      + Digits(t.hour, 2) + ":" + Digits(t.minute, 2) + ":" + Digits(t.second, 2)
  }

  /** Reads text of the form `YYYY-MM-DD HH:MM:SS` back into a timestamp;
      None for any other text, for out-of-range fields and for a second
      outside the range pandas can hold (OutOfBoundsDatetime). */
  function ParseTimestamp(s: string): (r: Option<Timestamp>)
    ensures r.Some? ==> ValidTimestamp(r.value) && r.value.nanos == 0
    ensures r.Some? ==> FirstSecond <= SecondKey(r.value) <= LastSecond
  {
    if |s| == 19 && s[4] == '-' && s[7] == '-' && s[10] == ' ' && s[13] == ':' && s[16] == ':'
       && AllDigits(s[0..4]) && AllDigits(s[5..7]) && AllDigits(s[8..10])
       && AllDigits(s[11..13]) && AllDigits(s[14..16]) && AllDigits(s[17..19])
    then
      var t := Timestamp(DigitsValue(s[0..4]), DigitsValue(s[5..7]), DigitsValue(s[8..10]),
                         DigitsValue(s[11..13]), DigitsValue(s[14..16]), DigitsValue(s[17..19]), 0);
      if ValidTimestamp(t) then Some(t) else None
    else None
  }

  /** Writing a timestamp and reading it back gives it again, to the second. */
  lemma FormatParseRoundTrip(t: Timestamp)
    requires ValidTimestamp(t)
    ensures ParseTimestamp(FormatTimestamp(t)) == Some(TruncateToSecond(t))
  {
    FormatFields(t);
  }

  /** The text of a well-formed second outside pandas' range, such as one in
      the year 1500, does not parse. */
  lemma FormatOutOfRange(t: Timestamp)
    requires WellFormed(t) && !InPandasRange(TruncateToSecond(t))
    ensures ParseTimestamp(FormatTimestamp(t)) == None
  {
    FormatFields(t);
  }

  /** 1500-01-01 00:00:00 is one such second. */
  lemma EarlyYearOutOfRange()
    ensures WellFormed(Timestamp(1500, 1, 1, 0, 0, 0, 0))
    ensures !InPandasRange(Timestamp(1500, 1, 1, 0, 0, 0, 0))
  {
  }

  /** Reading the six fields of the text back gives the fields written. */
  lemma FormatFields(t: Timestamp)
    requires WellFormed(t)
    ensures var s := FormatTimestamp(t);
      && |s| == 19 && s[4] == '-' && s[7] == '-' && s[10] == ' ' && s[13] == ':' && s[16] == ':'
      && AllDigits(s[0..4]) && AllDigits(s[5..7]) && AllDigits(s[8..10])
      && AllDigits(s[11..13]) && AllDigits(s[14..16]) && AllDigits(s[17..19])
      && DigitsValue(s[0..4]) == t.year && DigitsValue(s[5..7]) == t.month && DigitsValue(s[8..10]) == t.day
      && DigitsValue(s[11..13]) == t.hour && DigitsValue(s[14..16]) == t.minute && DigitsValue(s[17..19]) == t.second
  {
    var s := FormatTimestamp(t);
    assert s[0..4] == Digits(t.year, 4);
    assert s[5..7] == Digits(t.month, 2);
    assert s[8..10] == Digits(t.day, 2);
    assert s[11..13] == Digits(t.hour, 2);
    assert s[14..16] == Digits(t.minute, 2);
    assert s[17..19] == Digits(t.second, 2);
    DigitsRoundTrip(t.year, 4);
    DigitsRoundTrip(t.month, 2);
    DigitsRoundTrip(t.day, 2);
    DigitsRoundTrip(t.hour, 2);
    DigitsRoundTrip(t.minute, 2);
    DigitsRoundTrip(t.second, 2);
  }

  /** Two timestamps have the same text form exactly when they agree to the
      second: the format loses the sub-second part and nothing else. */
  lemma FormatIdentifiesSecond(a: Timestamp, b: Timestamp)
    requires WellFormed(a) && WellFormed(b)
    ensures FormatTimestamp(a) == FormatTimestamp(b) <==> TruncateToSecond(a) == TruncateToSecond(b)
  {
    FormatFields(a);
    FormatFields(b);
  }

  // ---------------------------------------------------------------------
  // Chronological order of dates

  /** Sort key of a date: YYYYMMDD read as a number. */
  function DateKey(d: Date): int {
    d.year * 10000 + d.month * 100 + d.day
  }

  predicate DateBefore(a: Date, b: Date) {
    a.year < b.year
    || (a.year == b.year && a.month < b.month)
    || (a.year == b.year && a.month == b.month && a.day < b.day)
  }

  /** On valid dates the key orders dates chronologically. */
  lemma DateKeyChronological(a: Date, b: Date)
    requires ValidDate(a) && ValidDate(b)
    ensures DateKey(a) < DateKey(b) <==> DateBefore(a, b)
  {
    var ma := a.month * 100 + a.day;
    var mb := b.month * 100 + b.day;
    assert 101 <= ma <= 1231 && 101 <= mb <= 1231;
    if a.year < b.year {
      assert a.year * 10000 + 10000 <= b.year * 10000;
    } else if a.year > b.year {
      assert b.year * 10000 + 10000 <= a.year * 10000;
    }
  }
}
