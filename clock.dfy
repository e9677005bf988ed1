/**
 * Calendar arithmetic and the date/time text formats the handlers produce:
 * datetime.fromtimestamp(n, tz=timezone.utc), isoformat(), strftime and
 * the zero-padded f-string fields. Clock readings themselves (utcnow, now)
 * are inputs of the operations that use them.
 */
module Clock {
  import opened Text

  /** A broken-down UTC time, as Python's datetime exposes it (whole seconds). */
  datatype DateTime = DateTime(year: int, month: int, day: int, hour: int, minute: int, second: int)

  predicate IsLeapYear(y: int)
  {
    y % 4 == 0 && (y % 100 != 0 || y % 400 == 0)
  }

  function DaysInMonth(y: int, m: int): int
  {
    if m == 2 then (if IsLeapYear(y) then 29 else 28)
    else if m == 4 || m == 6 || m == 9 || m == 11 then 30
    else 31
  }

  /** The values datetime accepts (datetime.MINYEAR is 1, MAXYEAR is 9999). */
  predicate ValidDateTime(d: DateTime)
  {
    1 <= d.year <= 9999 && 1 <= d.month <= 12 && 1 <= d.day <= DaysInMonth(d.year, d.month) &&
    0 <= d.hour < 24 && 0 <= d.minute < 60 && 0 <= d.second < 60
  }

  /**
   * A reading of the system clock: a valid datetime from year 1000 on, where
   * `str(year)` and strftime's %Y agree on four digits.
   */
  predicate IsClockReading(d: DateTime)
  {
    ValidDateTime(d) && 1000 <= d.year
  }

  /** Seconds since 1970-01-01T00:00:00Z of 0001-01-01T00:00:00Z and of 9999-12-31T23:59:59Z. */
  const MinEpoch: int := -62135596800
  const MaxEpoch: int := 253402300799

  /**
   * The proleptic Gregorian date `z` days after 1970-01-01, as (year, month,
   * day); Hinnant's civil-from-days algorithm (Dafny's `/` and `%` on a
   * positive divisor floor, as the algorithm needs).
   */
  function CivilFromDays(days: int): (int, int, int)
  {
    var z := days + 719468;
    var era := z / 146097;
    var doe := z - era * 146097;
    var yoe := (doe - doe / 1460 + doe / 36524 - doe / 146096) / 365;
    var doy := doe - (365 * yoe + yoe / 4 - yoe / 100);
    var mp := (5 * doy + 2) / 153;
    var d := doy - (153 * mp + 2) / 5 + 1;
    var m := if mp < 10 then mp + 3 else mp - 9;
    var y := yoe + era * 400 + (if m <= 2 then 1 else 0);
    (y, m, d)
  }

  /** datetime.fromtimestamp(secs, tz=timezone.utc), for whole seconds. */
  function FromEpoch(secs: int): DateTime
  {
    var days := secs / 86400;
    var rem := secs % 86400;
    var date := CivilFromDays(days);
    DateTime(date.0, date.1, date.2, rem / 3600, rem % 3600 / 60, rem % 60)
  }

  /** The date and time part of datetime.isoformat(): "YYYY-MM-DDTHH:MM:SS". */
  function IsoSeconds(t: DateTime): string
  {
    ZeroPad(t.year, 4) + "-" + ZeroPad(t.month, 2) + "-" + ZeroPad(t.day, 2) + "T" +
    ZeroPad(t.hour, 2) + ":" + ZeroPad(t.minute, 2) + ":" + ZeroPad(t.second, 2)
  }

  /**
   * fromtimestamp(n, tz=timezone.utc).isoformat().replace("+00:00", "Z"),
   * or None where fromtimestamp raises (year outside 1..9999). The only "+"
   * in isoformat's text is that of the "+00:00" offset (IsoSecondsShape), so
   * the replace turns the offset into "Z" and touches nothing else.
   */
  function EpochToIsoZ(n: int): Option<string>
  {
    if MinEpoch <= n <= MaxEpoch then Some(IsoSeconds(FromEpoch(n)) + "Z") else None
  }

  /** strftime("%Y-%m-%d") of a clock reading. */
  function DateText(t: DateTime): string
  {
    FormatInt(t.year) + "-" + ZeroPad(t.month, 2) + "-" + ZeroPad(t.day, 2)
  }

  /** strftime("%Y%m%d_%H%M%S") of a clock reading. */
  function CompactStamp(t: DateTime): string
  {
    FormatInt(t.year) + ZeroPad(t.month, 2) + ZeroPad(t.day, 2) + "_" +
    ZeroPad(t.hour, 2) + ZeroPad(t.minute, 2) + ZeroPad(t.second, 2)
  }

  predicate IsoChar(c: char)
  {
    IsDigit(c) || c == '-' || c == ':' || c == 'T'
  }

  predicate IsoText(s: string)
  {
    forall i :: 0 <= i < |s| ==> IsoChar(s[i])
  }

  lemma IsoTextConcat(a: string, b: string)
    requires IsoText(a) && IsoText(b)
    ensures IsoText(a + b)
  {
    forall i | 0 <= i < |a + b|
      ensures IsoChar((a + b)[i])
    {
      if i >= |a| {
        assert (a + b)[i] == b[i - |a|];
      }
    }
  }

  /** "HH:MM:SS" or "YYYY-MM-DD": three zero-padded fields and two separators. */
  lemma IsoTriple(x: int, wx: nat, sep: char, y: int, z: int)
    requires sep == '-' || sep == ':'
    ensures IsoText(ZeroPad(x, wx) + [sep] + ZeroPad(y, 2) + [sep] + ZeroPad(z, 2))
  {
    IsoTextConcat(ZeroPad(x, wx), [sep]);
    IsoTextConcat(ZeroPad(x, wx) + [sep], ZeroPad(y, 2));
    IsoTextConcat(ZeroPad(x, wx) + [sep] + ZeroPad(y, 2), [sep]);
    IsoTextConcat(ZeroPad(x, wx) + [sep] + ZeroPad(y, 2) + [sep], ZeroPad(z, 2));
  }

  /**
   * isoformat's date-time text holds one 'T' and otherwise only digits,
   * '-' and ':'; so it has no '+' and no 'Z'.
   */
  lemma IsoSecondsShape(t: DateTime)
    ensures 'T' in IsoSeconds(t)
    ensures IsoText(IsoSeconds(t))
  {
    var head := ZeroPad(t.year, 4) + "-" + ZeroPad(t.month, 2) + "-" + ZeroPad(t.day, 2);
    var tail := ZeroPad(t.hour, 2) + ":" + ZeroPad(t.minute, 2) + ":" + ZeroPad(t.second, 2);
    IsoTriple(t.year, 4, '-', t.month, t.day);
    IsoTriple(t.hour, 2, ':', t.minute, t.second);
    IsoTextConcat(head, "T");
    IsoTextConcat(head + "T", tail);
    assert IsoSeconds(t) == head + "T" + tail;
    assert IsoSeconds(t)[|head|] == 'T';
  }

  /** Every converted epoch is an ISO string with a 'T', no '+', ending in "Z". */
  lemma EpochToIsoZShape(n: int)
    requires MinEpoch <= n <= MaxEpoch
    ensures EpochToIsoZ(n).Some?
    ensures var s := EpochToIsoZ(n).value;
      'T' in s && '+' !in s && EndsWith(s, "Z")
  {
    var t := FromEpoch(n);
    IsoSecondsShape(t);
    var s := IsoSeconds(t) + "Z";
    assert s[|s| - 1..] == "Z";
    assert 'T' in IsoSeconds(t);
    forall i | 0 <= i < |s| ensures s[i] != '+' {
      if i < |IsoSeconds(t)| {
        assert IsoChar(IsoSeconds(t)[i]);
      }
    }
  }

  /** Day 0 is 1970-01-01. */
  lemma CivilFromDaysZero()
    ensures CivilFromDays(0) == (1970, 1, 1)
  {
    assert 719468 / 146097 == 4;
    assert 135080 / 1460 == 92;
    assert 135080 / 36524 == 3;
    assert 135080 / 146096 == 0;
    assert 134991 / 365 == 369;
    assert 369 / 4 == 92;
    assert 369 / 100 == 3;
    assert 1532 / 153 == 10;
    assert 1532 / 5 == 306;
  }
  /** Day 20491 is 2026-02-07. */
  lemma CivilFromDaysExample()
    ensures CivilFromDays(20491) == (2026, 2, 7)
  {
    assert 739959 / 146097 == 5;
    assert 9474 / 1460 == 6;
    assert 9474 / 36524 == 0;
    assert 9474 / 146096 == 0;
    assert 9468 / 365 == 25;
    assert 25 / 4 == 6;
    assert 25 / 100 == 0;
    assert 1717 / 153 == 11;
    assert 1685 / 5 == 337;
  }
  /** Day -719162 is 0001-01-01, datetime's first date. */
  lemma CivilFromDaysFirst()
    ensures CivilFromDays(-719162) == (1, 1, 1)
  {
    assert 306 / 146097 == 0;
    assert 306 / 1460 == 0;
    assert 306 / 36524 == 0;
    assert 306 / 146096 == 0;
    assert 306 / 365 == 0;
    assert 0 / 4 == 0;
    assert 0 / 100 == 0;
    assert 1532 / 153 == 10;
    assert 1532 / 5 == 306;
  }
  /** Day 2932896 is 9999-12-31, datetime's last date. */
  lemma CivilFromDaysLast()
    ensures CivilFromDays(2932896) == (9999, 12, 31)
  {
    assert 3652364 / 146097 == 24;
    assert 146036 / 1460 == 100;
    assert 146036 / 36524 == 3;
    assert 146036 / 146096 == 0;
    assert 145939 / 365 == 399;
    assert 399 / 4 == 99;
    assert 399 / 100 == 3;
    assert 1527 / 153 == 9;
    assert 1379 / 5 == 275;
  }

  /** The epoch itself, as the calendar gives it. */
  lemma FromEpochZero()
    ensures FromEpoch(0) == DateTime(1970, 1, 1, 0, 0, 0)
  {
    CivilFromDaysZero();
    assert 0 / 86400 == 0;
    assert 0 % 86400 == 0;
    assert 0 / 3600 == 0;
    assert 0 % 3600 / 60 == 0;
    assert 0 % 60 == 0;
  }

  /** A time on the date of the example raw key year=2026/month=02/day=07. */
  lemma FromEpochExample()
    ensures FromEpoch(1770465045) == DateTime(2026, 2, 7, 11, 50, 45)
  {
    CivilFromDaysExample();
    assert 1770465045 / 86400 == 20491;
    assert 1770465045 % 86400 == 42645;
    assert 42645 / 3600 == 11;
    assert 42645 % 3600 / 60 == 50;
    assert 42645 % 60 == 45;
  }

  /** The first and last instants datetime can represent. */
  lemma FromEpochBounds()
    ensures FromEpoch(MinEpoch) == DateTime(1, 1, 1, 0, 0, 0)
    ensures FromEpoch(MaxEpoch) == DateTime(9999, 12, 31, 23, 59, 59)
  {
    CivilFromDaysFirst();
    CivilFromDaysLast();
    assert -62135596800 / 86400 == -719162;
    assert -62135596800 % 86400 == 0;
    assert 0 / 3600 == 0;
    assert 0 % 3600 / 60 == 0;
    assert 0 % 60 == 0;
    assert 253402300799 / 86400 == 2932896;
    assert 253402300799 % 86400 == 86399;
    assert 86399 / 3600 == 23;
    assert 86399 % 3600 / 60 == 59;
    assert 86399 % 60 == 59;
  }

  lemma DateFields(y: string, m: string, d: string)
    requires |y| == 4 && |m| == 2 && |d| == 2
    ensures var s := y + "-" + m + "-" + d;
      |s| == 10 && s[..4] == y && s[4] == '-' && s[5..7] == m && s[7] == '-' && s[8..] == d
  {
  }

  /** A clock reading's date text is "YYYY-MM-DD", with month and day two digits each. */
  lemma DateTextShape(t: DateTime)
    requires IsClockReading(t)
    ensures var s := DateText(t);
      |s| == 10 && s[4] == '-' && s[7] == '-' &&
      ReadsAs(s[..4], t.year) && ReadsAs(s[5..7], t.month) && ReadsAs(s[8..], t.day)
  {
    ZeroPadExact(t.month, 2);
    ZeroPadExact(t.day, 2);
    ZeroPadExact(t.year, 4);
    ZeroPadFull(t.year, 4);
    DateFields(FormatInt(t.year), ZeroPad(t.month, 2), ZeroPad(t.day, 2));
  }

  lemma StampFields(y: string, mo: string, d: string, h: string, mi: string, se: string)
    requires |y| == 4 && |mo| == 2 && |d| == 2 && |h| == 2 && |mi| == 2 && |se| == 2
    ensures var s := y + mo + d + "_" + h + mi + se;
      |s| == 15 && s[..4] == y && s[4..6] == mo && s[6..8] == d && s[8] == '_' &&
      s[9..11] == h && s[11..13] == mi && s[13..] == se
  {
  }

  /** A clock reading's compact stamp is "YYYYMMDD_HHMMSS", every field reading back as the time. */
  lemma CompactStampShape(t: DateTime)
    requires IsClockReading(t)
    ensures var s := CompactStamp(t);
      |s| == 15 && s[8] == '_' &&
      ReadsAs(s[..4], t.year) && ReadsAs(s[4..6], t.month) && ReadsAs(s[6..8], t.day) &&
      ReadsAs(s[9..11], t.hour) && ReadsAs(s[11..13], t.minute) && ReadsAs(s[13..], t.second)
  {
    ZeroPadExact(t.month, 2);
    ZeroPadExact(t.day, 2);
    ZeroPadExact(t.hour, 2);
    ZeroPadExact(t.minute, 2);
    ZeroPadExact(t.second, 2);
    ZeroPadExact(t.year, 4);
    ZeroPadFull(t.year, 4);
    StampFields(FormatInt(t.year), ZeroPad(t.month, 2), ZeroPad(t.day, 2),
                ZeroPad(t.hour, 2), ZeroPad(t.minute, 2), ZeroPad(t.second, 2));
  }
}
