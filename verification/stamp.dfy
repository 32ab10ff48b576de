/**
 * Date-times as the gateway writes and reads them with `strptime` and
 * `strftime`: "%Y-%m-%d %H:%M:%S" in the store and the log, "%Y/%m/%d %H:%M:%S"
 * for the remote API, and the log stamp "%Y-%m-%d %H:%M:%S:<ms>" written by
 * `get_timestamp` (ft-zktco.py:200-203) and read back by `clean_attlog_file`.
 */
module Stamp {
  import opened Wrappers
  import opened Text

  datatype DateTime = DateTime(year: int, month: int, day: int, hour: int, minute: int, second: int, micro: int)

  predicate IsLeap(y: int)
  {
    y % 4 == 0 && (y % 100 != 0 || y % 400 == 0)
  }

  function DaysIn(y: int, m: int): int
  {
    if m == 2 then (if IsLeap(y) then 29 else 28)
    else if m == 4 || m == 6 || m == 9 || m == 11 then 30
    else 31
  }

  /** The ranges `datetime` accepts; `strptime` raises `ValueError` outside them. */
  predicate Valid(dt: DateTime)
  {
    1 <= dt.year <= 9999 && 1 <= dt.month <= 12 && 1 <= dt.day <= DaysIn(dt.year, dt.month)
    && 0 <= dt.hour < 24 && 0 <= dt.minute < 60 && 0 <= dt.second < 60 && 0 <= dt.micro < 1000000
  }

  /** A reading of the clock: always a date-time `datetime` can represent. */
  type Instant = dt: DateTime | Valid(dt) witness DateTime(1, 1, 1, 0, 0, 0, 0)

  /** Chronological order, field by field. */
  predicate AtOrAfter(a: DateTime, b: DateTime)
  {
    var ka := [a.year, a.month, a.day, a.hour, a.minute, a.second, a.micro];
    var kb := [b.year, b.month, b.day, b.hour, b.minute, b.second, b.micro];
    LexGeq(ka, kb)
  }

  predicate LexGeq(a: seq<int>, b: seq<int>)
    requires |a| == |b|
  {
    a == [] || a[0] > b[0] || (a[0] == b[0] && LexGeq(a[1..], b[1..]))
  }

  // ---------------------------------------------------------------- "%Y?%m?%d %H:%M:%S"

  /** The positions of the digits in a zero-padded stamp such as "2025-02-19 08:30:05". */
  predicate IsDigitSlot(i: int)
  {
    0 <= i < 19 && i != 4 && i != 7 && i != 10 && i != 13 && i != 16
  }

  predicate StampShape(s: string, sep: char)
  {
    |s| == 19 && s[4] == sep && s[7] == sep && s[10] == ' ' && s[13] == ':' && s[16] == ':'
    && forall i :: 0 <= i < 19 && IsDigitSlot(i) ==> IsDigit(s[i])
  }

  function Two(s: string, i: nat): int
    requires i + 1 < |s| && IsDigit(s[i]) && IsDigit(s[i + 1])
  {
    DigitValue(s[i]) * 10 + DigitValue(s[i + 1])
  }

  /**
   * `datetime.strptime(s, "%Y<sep>%m<sep>%d %H:%M:%S")` for zero-padded fields:
   * `None` where Python raises `ValueError`.
   */
  function ParseStamp(s: string, sep: char): (r: Option<DateTime>)
    ensures r.Some? ==> Valid(r.value) && r.value.micro == 0 && |s| == 19
  {
    if !StampShape(s, sep) then None
    else
      var dt := DateTime(Two(s, 0) * 100 + Two(s, 2), Two(s, 5), Two(s, 8), Two(s, 11), Two(s, 14), Two(s, 17), 0);
      if Valid(dt) then Some(dt) else None
  }

  function Pad2(n: int): (r: string)
    requires 0 <= n < 100
    ensures |r| == 2 && IsDigit(r[0]) && IsDigit(r[1])
  {
    [DigitChar(n / 10), DigitChar(n % 10)]
  }

  /**
   * `dt.strftime("%Y<sep>%m<sep>%d %H:%M:%S")`. As with the C library on Linux,
   * `%Y` is not zero-padded, so years below 1000 print with fewer digits.
   */
  function FormatStamp(dt: DateTime, sep: char): string
    requires Valid(dt)
  {
    NatToString(dt.year) + [sep] + Pad2(dt.month) + [sep] + Pad2(dt.day) + " "
    + Pad2(dt.hour) + ":" + Pad2(dt.minute) + ":" + Pad2(dt.second)
  }

  lemma DigitRoundTrip(d: nat)
    requires d < 10
    ensures DigitValue(DigitChar(d)) == d
  {
  }

  lemma Pad2Value(n: int)
    requires 0 <= n < 100
    ensures Two(Pad2(n), 0) == n
  {
    DigitRoundTrip(n / 10);
    DigitRoundTrip(n % 10);
  }

  lemma YearDigits(y: int)
    requires 1000 <= y < 10000
    ensures var s := NatToString(y); |s| == 4 && AllDigits(s) && Two(s, 0) * 100 + Two(s, 2) == y
  {
    FourDigits(y);
    DigitRoundTrip(y / 1000);
    DigitRoundTrip(y / 100 % 10);
    DigitRoundTrip(y / 10 % 10);
    DigitRoundTrip(y % 10);
    assert (y / 1000 * 10 + y / 100 % 10) * 100 + (y / 10 % 10 * 10 + y % 10) == y;
  }

  /** Where each field of a printed four-digit-year date-time sits. */
  lemma FormatStampLayout(dt: DateTime, sep: char)
    requires Valid(dt) && dt.year >= 1000
    ensures var s := FormatStamp(dt, sep);
      && |s| == 19 && s[..4] == NatToString(dt.year) && s[4] == sep && s[7] == sep
      && s[10] == ' ' && s[13] == ':' && s[16] == ':'
      && s[5..7] == Pad2(dt.month) && s[8..10] == Pad2(dt.day) && s[11..13] == Pad2(dt.hour)
      && s[14..16] == Pad2(dt.minute) && s[17..19] == Pad2(dt.second)
  {
    YearDigits(dt.year);
  }

  /** Reading two digits from a copy of a two-digit string gives its value. */
  lemma TwoAt(s: string, i: nat, p: string)
    requires i + 1 < |s| && |p| == 2 && s[i..i + 2] == p && IsDigit(p[0]) && IsDigit(p[1])
    ensures IsDigit(s[i]) && IsDigit(s[i + 1]) && Two(s, i) == Two(p, 0)
  {
    assert s[i] == p[0] && s[i + 1] == p[1];
  }

  /** A printed four-digit-year date-time has the shape `strptime` expects. */
  lemma FormatStampShape(dt: DateTime, sep: char)
    requires Valid(dt) && dt.year >= 1000
    ensures StampShape(FormatStamp(dt, sep), sep)
  {
    var s := FormatStamp(dt, sep);
    FormatStampLayout(dt, sep);
    YearDigits(dt.year);
    var y := NatToString(dt.year);
    forall i | 0 <= i < 19 && IsDigitSlot(i) ensures IsDigit(s[i]) {
      if i < 4 {
        assert s[i] == s[..4][i] == y[i];
      } else if i < 7 {
        assert s[i] == s[5..7][i - 5];
      } else if i < 10 {
        assert s[i] == s[8..10][i - 8];
      } else if i < 13 {
        assert s[i] == s[11..13][i - 11];
      } else if i < 16 {
        assert s[i] == s[14..16][i - 14];
      } else {
        assert s[i] == s[17..19][i - 17];
      }
    }
  }

  /** Each field of a printed four-digit-year date-time reads back as its value. */
  lemma FormatStampFields(dt: DateTime, sep: char)
    requires Valid(dt) && dt.year >= 1000
    ensures var s := FormatStamp(dt, sep);
      && StampShape(s, sep)
      && Two(s, 0) * 100 + Two(s, 2) == dt.year
      && Two(s, 5) == dt.month && Two(s, 8) == dt.day
      && Two(s, 11) == dt.hour && Two(s, 14) == dt.minute && Two(s, 17) == dt.second
  {
    var s := FormatStamp(dt, sep);
    FormatStampShape(dt, sep);
    FormatStampLayout(dt, sep);
    var y := NatToString(dt.year);
    YearDigits(dt.year);
    assert s[..4][0..2] == y[0..2] && s[..4][2..4] == y[2..4];
    TwoAt(s, 0, y[0..2]);
    TwoAt(y, 0, y[0..2]);
    TwoAt(s, 2, y[2..4]);
    TwoAt(y, 2, y[2..4]);
    Pad2Value(dt.month);
    TwoAt(s, 5, Pad2(dt.month));
    Pad2Value(dt.day);
    TwoAt(s, 8, Pad2(dt.day));
    Pad2Value(dt.hour);
    TwoAt(s, 11, Pad2(dt.hour));
    Pad2Value(dt.minute);
    TwoAt(s, 14, Pad2(dt.minute));
    Pad2Value(dt.second);
    TwoAt(s, 17, Pad2(dt.second));
  }

  /** Printing a date-time of a four-digit year and parsing it back gives it again, to the second. */
  lemma StampRoundTrip(dt: DateTime, sep: char)
    requires Valid(dt) && dt.year >= 1000 && dt.micro == 0
    requires !IsDigit(sep)
    ensures ParseStamp(FormatStamp(dt, sep), sep) == Some(dt)
  {
    FormatStampFields(dt, sep);
  }

  lemma Pad2OfTwo(s: string, i: nat)
    requires i + 1 < |s| && IsDigit(s[i]) && IsDigit(s[i + 1])
    ensures Pad2(Two(s, i)) == s[i..i + 2]
  {
    var d0, d1 := DigitValue(s[i]), DigitValue(s[i + 1]);
    assert (d0 * 10 + d1) / 10 == d0 && (d0 * 10 + d1) % 10 == d1;
  }

  /**
   * Re-printing a parsed stamp of a four-digit year with another separator
   * changes the two date separators and nothing else.
   */
  lemma ReformatChangesOnlySeparators(s: string, from: char, to: char)
    requires ParseStamp(s, from).Some? && ParseStamp(s, from).value.year >= 1000
    ensures FormatStamp(ParseStamp(s, from).value, to) == s[..4] + [to] + s[5..7] + [to] + s[8..]
  {
    var dt := ParseStamp(s, from).value;
    var y := dt.year;
    YearDigits(y);
    FourDigits(y);
    var a, b := Two(s, 0), Two(s, 2);
    assert y == a * 100 + b;
    assert y / 1000 == a / 10 && y / 100 % 10 == a % 10 && y / 10 % 10 == b / 10 && y % 10 == b % 10;
    Pad2OfTwo(s, 0);
    Pad2OfTwo(s, 2);
    assert NatToString(y) == s[..4];
    Pad2OfTwo(s, 5);
    Pad2OfTwo(s, 8);
    Pad2OfTwo(s, 11);
    Pad2OfTwo(s, 14);
    Pad2OfTwo(s, 17);
    assert s[8..] == s[8..10] + [s[10]] + s[11..13] + [s[13]] + s[14..16] + [s[16]] + s[17..19];
  }

  // ---------------------------------------------------------------- calendar days

  /** `dt.strftime("%Y-%m-%d")`. */
  function FormatDate(dt: DateTime): string
    requires Valid(dt)
  {
    NatToString(dt.year) + "-" + Pad2(dt.month) + "-" + Pad2(dt.day)
  }

  /** The first instant `datetime` can represent has no day before it. */
  predicate IsFirstDay(dt: DateTime)
  {
    dt.year == 1 && dt.month == 1 && dt.day == 1
  }

  /** `dt - timedelta(days=1)`; Python raises `OverflowError` on the first day, which is excluded here. */
  function PreviousDay(dt: DateTime): (r: DateTime)
    requires Valid(dt) && !IsFirstDay(dt)
    ensures Valid(r)
  {
    if dt.day > 1 then dt.(day := dt.day - 1)
    else if dt.month > 1 then dt.(month := dt.month - 1, day := DaysIn(dt.year, dt.month - 1))
    else dt.(year := dt.year - 1, month := 12, day := 31)
  }

  /** The day before is strictly earlier. */
  lemma PreviousDayEarlier(dt: DateTime)
    requires Valid(dt) && !IsFirstDay(dt)
    ensures AtOrAfter(dt, PreviousDay(dt)) && PreviousDay(dt) != dt
  {
  }

  /** `dt + timedelta(days=1)` below the last representable year. */
  function NextDay(dt: DateTime): (r: DateTime)
    requires Valid(dt) && !(dt.year == 9999 && dt.month == 12 && dt.day == 31)
    ensures Valid(r)
  {
    if dt.day < DaysIn(dt.year, dt.month) then dt.(day := dt.day + 1)
    else if dt.month < 12 then dt.(month := dt.month + 1, day := 1)
    else dt.(year := dt.year + 1, month := 1, day := 1)
  }

  /** Going back one day and forward one day returns to the same date-time. */
  lemma PreviousDayInverse(dt: DateTime)
    requires Valid(dt) && !IsFirstDay(dt)
    ensures NextDay(PreviousDay(dt)) == dt
  {
  }

  // ---------------------------------------------------------------- the log stamp

  function Pad3(n: int): (r: string)
    requires 0 <= n < 1000
    ensures |r| == 3 && AllDigits(r)
  {
    [DigitChar(n / 100), DigitChar(n / 10 % 10), DigitChar(n % 10)]
  }

  /** `get_timestamp()`: the clock reading printed with milliseconds, "%Y-%m-%d %H:%M:%S:<ms:03d>". */
  function FormatLogStamp(now: DateTime): string
    requires Valid(now)
  {
    FormatStamp(now, '-') + ":" + Pad3(now.micro / 1000)
  }

  /** The index of the last `c` in `s`, as `str.rsplit(c, 1)` finds it. */
  function LastIndexOf(s: string, c: char): (r: Option<nat>)
    ensures r.Some? ==> r.value < |s| && s[r.value] == c && c !in s[r.value + 1..]
    ensures r.None? ==> c !in s
  {
    if s == [] then None
    else if s[|s| - 1] == c then Some(|s| - 1)
    else
      var r := LastIndexOf(s[..|s| - 1], c);
      assert s == s[..|s| - 1] + [s[|s| - 1]];
      r
  }

  /** What `clean_attlog_file` makes of one `log_timestamp` value. */
  datatype StampRead =
    | NoStamp            // missing, empty, or without ':': the record is dropped
    | Unreadable         // `strptime`, `int()` or `replace(microsecond=...)` raises
    | Read(at: DateTime)

  /**
   * ft-zktco.py:187-189: split on the last ':', parse the left part as
   * "%Y-%m-%d %H:%M:%S" and the right part as milliseconds.
   */
  function ReadLogStamp(ts: Option<string>): (r: StampRead)
    ensures r.Read? ==> Valid(r.at) && r.at.micro % 1000 == 0
    ensures r.NoStamp? <==> ts.None? || ts.value == [] || ':' !in ts.value
  {
    if ts.None? || ts.value == [] then NoStamp
    else
      match LastIndexOf(ts.value, ':')
      case None => NoStamp
      case Some(k) => ReadParts(ParseStamp(ts.value[..k], '-'), ParseInt(ts.value[k + 1..]))
  }

  /** The date-time and milliseconds on either side of the last ':', combined. */
  function ReadParts(date: Option<DateTime>, ms: Option<int>): (r: StampRead)
    requires date.Some? ==> Valid(date.value)
    ensures r.Read? ==> Valid(r.at) && r.at.micro % 1000 == 0
    ensures r.Read? <==> date.Some? && ms.Some? && 0 <= ms.value <= 999
  {
    // `replace(microsecond=ms * 1000)` accepts 0 <= ms * 1000 <= 999999, that is 0 <= ms <= 999
    if date.None? || ms.None? || !(0 <= ms.value <= 999) then Unreadable
    else Read(WithMillis(date.value, ms.value))
  }

  function WithMillis(dt: DateTime, ms: int): (r: DateTime)
    requires Valid(dt) && 0 <= ms <= 999
    ensures Valid(r) && r.micro % 1000 == 0
  {
    dt.(micro := ms * 1000)
  }

  lemma Pad3Value(n: int)
    requires 0 <= n < 1000
    ensures ParseInt(Pad3(n)) == Some(n)
  {
    var p := Pad3(n);
    DigitRoundTrip(n / 100);
    DigitRoundTrip(n / 10 % 10);
    DigitRoundTrip(n % 10);
    assert p[..2][..1] == [p[0]];
    assert DecimalValue(p) == n by {
      assert p[..2] == [p[0], p[1]];
      assert DecimalValue([p[0]]) == n / 100 by {
        assert [p[0]][..0] == [];
      }
      assert DecimalValue(p[..2]) == n / 100 * 10 + n / 10 % 10;
    }
    ParseIntOfDigits(p, false);
  }

  /** In a log stamp the last ':' separates the 19-character date-time from the milliseconds. */
  lemma LogStampSplit(now: DateTime)
    requires Valid(now) && now.year >= 1000
    ensures var ts := FormatLogStamp(now);
      LastIndexOf(ts, ':') == Some(19) && ts[..19] == FormatStamp(now, '-') && ts[20..] == Pad3(now.micro / 1000)
  {
    var date := FormatStamp(now, '-');
    var ms := Pad3(now.micro / 1000);
    var ts := FormatLogStamp(now);
    assert ts == date + [':'] + ms;
    assert |date| == 19 by {
      YearDigits(now.year);
    }
    assert ':' !in ms;
    assert ts[19] == ':';
    assert ts[20..] == ms;
    assert ts[..19] == date;
  }

  /**
   * The stamp `get_timestamp` writes is one the retention sweep can read: it
   * reads back as the clock reading truncated to the millisecond.
   */
  lemma LogStampRoundTrip(now: DateTime)
    requires Valid(now) && now.year >= 1000
    ensures ReadLogStamp(Some(FormatLogStamp(now))) == Read(now.(micro := now.micro / 1000 * 1000))
  {
    LogStampSplit(now);
    LogStampParts(now);
    ReadLogStampOf(FormatLogStamp(now), 19);
  }

  lemma ReadLogStampOf(ts: string, k: nat)
    requires LastIndexOf(ts, ':') == Some(k)
    ensures ReadLogStamp(Some(ts)) == ReadParts(ParseStamp(ts[..k], '-'), ParseInt(ts[k + 1..]))
  {
  }

  /** Each half of a log stamp reads back: the date-time to the second, and the milliseconds. */
  lemma LogStampParts(now: DateTime)
    requires Valid(now) && now.year >= 1000
    ensures var ts := FormatLogStamp(now);
      |ts| >= 20
      && ParseStamp(ts[..19], '-') == Some(now.(micro := 0))
      && ParseInt(ts[20..]) == Some(now.micro / 1000)
  {
    LogStampSplit(now);
    var date := now.(micro := 0);
    StampRoundTrip(date, '-');
    assert FormatStamp(date, '-') == FormatStamp(now, '-');
    Pad3Value(now.micro / 1000);
  }
}
