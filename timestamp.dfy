/**
  The date branch of the record builder: a Python `datetime` rendered as
  `strftime("%Y-%m-%dT%H:%M:%S")` followed by a zone suffix, which is the `%z`
  offset with a colon spliced in before its last two characters, or `-00:00`
  for a naive date.
 */
module Timestamp {

  /** The `tzinfo` of a datetime, as far as the formatting can see it. */
  datatype Zone =
    | Naive              // tzinfo is None
    | Fixed(offset: int) // a tzinfo whose utcoffset() is `offset` whole seconds east of UTC
    | Unknown            // a tzinfo whose utcoffset() answers None

  /** A Python `datetime` as a record of its fields. */
  datatype DateTime = DateTime(year: nat, month: nat, day: nat,
                               hour: nat, minute: nat, second: nat, zone: Zone)

  /** The ranges a Python datetime guarantees for its fields. */
  predicate InRange(dt: DateTime) {
    && 1 <= dt.year <= 9999 && 1 <= dt.month <= 12 && 1 <= dt.day <= 31
    && dt.hour < 24 && dt.minute < 60 && dt.second < 60
  }

  // ---------------------------------------------------------------------------
  // Decimal digits

  predicate IsDigit(c: char) { '0' <= c <= '9' }

  predicate AllDigits(s: string) {
    forall i :: 0 <= i < |s| ==> IsDigit(s[i])
  }

  function DigitChar(d: nat): (c: char)
    requires d < 10
    ensures IsDigit(c) && c as int - '0' as int == d
  {
    "0123456789"[d]
  }

  function DigitValue(c: char): nat
    requires IsDigit(c)
  {
    c as int - '0' as int
  }

  /** The shortest decimal representation of `n`. */
  function Digits(n: nat): (s: string)
    ensures 1 <= |s| && AllDigits(s)
  {
    if n < 10 then [DigitChar(n)] else Digits(n / 10) + [DigitChar(n % 10)]
  }

  function Zeros(k: nat): (s: string)
    ensures |s| == k && AllDigits(s)
  {
    seq(k, _ => '0')
  }

  /** printf's `%0<width>d` on a non-negative number: its digits, left-padded with
      zeros to at least `width` characters. */
  function Pad(n: nat, width: nat): string
  {
    var ds := Digits(n);
    if |ds| >= width then ds else Zeros(width - |ds|) + ds
  }

  /** The number a string of decimal digits denotes: the reading of what Pad writes. */
  function ValueOf(s: string): nat
    requires AllDigits(s)
  {
    if s == [] then 0 else ValueOf(s[..|s| - 1]) * 10 + DigitValue(s[|s| - 1])
  }

  function Pow10(w: nat): (p: nat)
    ensures p >= 1
  {
    if w == 0 then 1 else 10 * Pow10(w - 1)
  }

  lemma {:induction false} DigitsRoundTrip(n: nat)
    ensures ValueOf(Digits(n)) == n
  {
    if n >= 10 {
      var ds := Digits(n);
      DigitsRoundTrip(n / 10);
      assert ds[..|ds| - 1] == Digits(n / 10);
    }
  }

  lemma {:induction false} DigitsFit(n: nat, w: nat)
    requires 1 <= w && n < Pow10(w)
    ensures |Digits(n)| <= w
  {
    if n >= 10 {
      assert w >= 2;
      assert n / 10 < Pow10(w - 1);
      DigitsFit(n / 10, w - 1);
    }
  }

  lemma {:induction false} LeadingZerosValue(k: nat, s: string)
    requires AllDigits(s)
    ensures AllDigits(Zeros(k) + s) && ValueOf(Zeros(k) + s) == ValueOf(s)
  {
    var t := Zeros(k) + s;
    if s == [] {
      assert t == Zeros(k);
      ZerosValue(k);
    } else {
      LeadingZerosValue(k, s[..|s| - 1]);
      assert t[..|t| - 1] == Zeros(k) + s[..|s| - 1];
    }
  }

  lemma {:induction false} ZerosValue(k: nat)
    ensures ValueOf(Zeros(k)) == 0
  {
    if k > 0 {
      ZerosValue(k - 1);
      assert Zeros(k)[..k - 1] == Zeros(k - 1);
    }
  }

  /** Pad is read back by ValueOf, and a number below 10^width fills exactly
      `width` characters. */
  lemma PadRoundTrip(n: nat, width: nat)
    ensures AllDigits(Pad(n, width)) && ValueOf(Pad(n, width)) == n
    ensures |Pad(n, width)| >= width
    ensures 1 <= width && n < Pow10(width) ==> |Pad(n, width)| == width
  {
    DigitsRoundTrip(n);
    LeadingZerosValue(if |Digits(n)| >= width then 0 else width - |Digits(n)|, Digits(n));
    if 1 <= width && n < Pow10(width) {
      DigitsFit(n, width);
    }
  }

  // ---------------------------------------------------------------------------
  // The formatting itself

  /** `dt.strftime("%Y-%m-%dT%H:%M:%S")` */
  function Strftime(dt: DateTime): string
  {
    (Pad(dt.year, 4) + "-" + Pad(dt.month, 2) + "-" + Pad(dt.day, 2))
      + "T" + (Pad(dt.hour, 2) + ":" + Pad(dt.minute, 2) + ":" + Pad(dt.second, 2))
  }

  /** The offsets `datetime.utcoffset()` accepts: strictly within a day. For any other
      offset, `%z` raises `ValueError` instead of printing. */
  predicate ZoneInRange(zone: Zone) {
    zone.Fixed? ==> -86400 < zone.offset < 86400
  }

  /** `dt.strftime("%z")`: nothing when the tzinfo gives no offset; otherwise the
      sign, hours and minutes of the offset, and its seconds only when there are any. */
  function StrftimeZ(zone: Zone): string
    requires ZoneInRange(zone)
  {
    match zone
    case Fixed(offset) =>
      var a := Magnitude(offset);
      OffsetText(if offset < 0 then '-' else '+', a / 3600, a % 3600 / 60, a % 60)
    case _ => ""
  }

  function Magnitude(offset: int): nat {
    if offset < 0 then -offset else offset
  }

  function OffsetText(sign: char, hours: nat, minutes: nat, seconds: nat): string
  {
    [sign] + Pad(hours, 2) + Pad(minutes, 2) + (if seconds != 0 then Pad(seconds, 2) else "")
  }

  /** Python's `s[:-2]` */
  function DropLastTwo(s: string): string {
    if |s| >= 2 then s[..|s| - 2] else []
  }

  /** Python's `s[-2:]` */
  function LastTwo(s: string): string {
    if |s| >= 2 then s[|s| - 2..] else s
  }

  /** `tz[:-2] + ':' + tz[-2:]`: a colon inserted before the last two characters;
      removing it again gives `tz` back. */
  function InsertColon(tz: string): (r: string)
    ensures |r| == |tz| + 1
    ensures |tz| >= 2 ==> r[|tz| - 2] == ':' && r[..|tz| - 2] + r[|tz| - 1..] == tz
    ensures |tz| < 2 ==> r == [':'] + tz
  {
    DropLastTwo(tz) + ":" + LastTwo(tz)
  }

  /** The suffix after the seconds: the spliced offset when a tzinfo is attached,
      `-00:00` when the date is naive. */
  function ZoneSuffix(zone: Zone): string
    requires ZoneInRange(zone)
  {
    if zone.Naive? then "-00:00" else InsertColon(StrftimeZ(zone))
  }

  /** The value the date branch stores. */
  function FormatDate(dt: DateTime): string
    requires ZoneInRange(dt.zone)
  {
    Strftime(dt) + ZoneSuffix(dt.zone)
  }

  // ---------------------------------------------------------------------------
  // What the formatting promises

  lemma SplitAt(a: string, b: string)
    ensures (a + b)[..|a|] == a && (a + b)[|a|..] == b
  {
  }

  lemma Join2(a: string, sep: char, b: string)
    ensures var r := a + [sep] + b;
      r[..|a|] == a && r[|a|] == sep && r[|a| + 1..] == b
  {
    var r := a + [sep] + b;
    assert r[..|a|] == a;
    assert r[|a| + 1..] == b;
  }

  lemma Join3(a: string, s: char, b: string, t: char, c: string)
    ensures var r := a + [s] + b + [t] + c;
      && |r| == |a| + |b| + |c| + 2
      && r[..|a|] == a && r[|a|] == s && r[|a| + 1..|a| + 1 + |b|] == b
      && r[|a| + 1 + |b|] == t && r[|a| + 2 + |b|..] == c
  {
    var r := a + [s] + b + [t] + c;
    assert r[..|a|] == a;
    assert r[|a| + 1..|a| + 1 + |b|] == b;
    assert r[|a| + 2 + |b|..] == c;
  }

  /** Where each piece of the strftime text sits, for pieces of the printed widths. */
  lemma FieldPositions(y: string, mo: string, d: string, h: string, mi: string, se: string)
    requires |y| == 4 && |mo| == 2 && |d| == 2 && |h| == 2 && |mi| == 2 && |se| == 2
    ensures var r := (y + "-" + mo + "-" + d) + "T" + (h + ":" + mi + ":" + se);
      && |r| == 19
      && r[4] == '-' && r[7] == '-' && r[10] == 'T' && r[13] == ':' && r[16] == ':'
      && r[0..4] == y && r[5..7] == mo && r[8..10] == d && r[11..13] == h
      && r[14..16] == mi && r[17..19] == se
  {
    var datePart := y + "-" + mo + "-" + d;
    var timePart := h + ":" + mi + ":" + se;
    Join3(y, '-', mo, '-', d);
    Join3(h, ':', mi, ':', se);
    Join2(datePart, 'T', timePart);
    var r := datePart + "T" + timePart;
    assert r[0..4] == datePart[0..4];
    assert r[5..7] == datePart[5..7];
    assert r[8..10] == datePart[8..10];
    assert r[11..13] == timePart[0..2];
    assert r[14..16] == timePart[3..5];
    assert r[17..19] == timePart[6..8];
  }

  /** Strftime lays the fields out at fixed positions, each read back exactly. */
  lemma StrftimeLayout(dt: DateTime)
    requires InRange(dt)
    ensures var r := Strftime(dt);
      && |r| == 19
      && r[4] == '-' && r[7] == '-' && r[10] == 'T' && r[13] == ':' && r[16] == ':'
      && AllDigits(r[0..4]) && ValueOf(r[0..4]) == dt.year
      && AllDigits(r[5..7]) && ValueOf(r[5..7]) == dt.month
      && AllDigits(r[8..10]) && ValueOf(r[8..10]) == dt.day
      && AllDigits(r[11..13]) && ValueOf(r[11..13]) == dt.hour
      && AllDigits(r[14..16]) && ValueOf(r[14..16]) == dt.minute
      && AllDigits(r[17..19]) && ValueOf(r[17..19]) == dt.second
  {
    assert Pow10(2) == 100 && Pow10(4) == 10000;
    PadRoundTrip(dt.year, 4);
    PadRoundTrip(dt.month, 2);
    PadRoundTrip(dt.day, 2);
    PadRoundTrip(dt.hour, 2);
    PadRoundTrip(dt.minute, 2);
    PadRoundTrip(dt.second, 2);
    FieldPositions(Pad(dt.year, 4), Pad(dt.month, 2), Pad(dt.day, 2),
                   Pad(dt.hour, 2), Pad(dt.minute, 2), Pad(dt.second, 2));
  }

  /** A naive date renders as its strftime text followed by `-00:00`. */
  lemma NaiveDateSuffix(dt: DateTime)
    requires InRange(dt) && dt.zone == Naive
    ensures var r := FormatDate(dt);
      |r| == 25 && r[..19] == Strftime(dt) && r[19..] == "-00:00"
  {
    StrftimeLayout(dt);
  }

  /** A 19-character head followed by a colonised zone text. */
  lemma HeadThenColonised(head: string, z: string)
    requires |head| == 19
    ensures var r := head + InsertColon(z);
      && |r| == 20 + |z|
      && r[..19] == head
      && (|z| >= 2 ==> r[|r| - 3] == ':' && r[19..|r| - 3] + r[|r| - 2..] == z)
  {
    var tail := InsertColon(z);
    var r := head + tail;
    assert r[..19] == head;
    if |z| >= 2 {
      var n := |z|;
      assert r[|r| - 3] == tail[n - 2];
      assert r[19..|r| - 3] == tail[..n - 2];
      assert r[|r| - 2..] == tail[n - 1..];
    }
  }

  /** An aware date renders as its strftime text followed by its `%z` text with a colon
      inserted before the last two characters. */
  lemma AwareDateSuffix(dt: DateTime)
    requires InRange(dt) && dt.zone != Naive && ZoneInRange(dt.zone)
    ensures var r := FormatDate(dt);
      var z := StrftimeZ(dt.zone);
      && |r| == 20 + |z|
      && r[..19] == Strftime(dt)
      && (|z| >= 2 ==> r[|r| - 3] == ':' && r[19..|r| - 3] + r[|r| - 2..] == z)
  {
    StrftimeLayout(dt);
    HeadThenColonised(Strftime(dt), StrftimeZ(dt.zone));
  }

  /** The colon goes in front of a two-character tail. */
  lemma InsertColonBeforeTail(head: string, tail: string)
    requires |tail| == 2
    ensures InsertColon(head + tail) == head + [':'] + tail
  {
    SplitAt(head, tail);
  }

  /** The hours and minutes of a whole-minute offset give back its magnitude. */
  lemma MinuteOffsetArithmetic(a: nat)
    requires a < 86400 && a % 60 == 0
    ensures a / 3600 < 24 && a % 3600 / 60 < 60 && a % 60 == 0
    ensures a / 3600 * 3600 + a % 3600 / 60 * 60 == a
  {
    assert a == a / 3600 * 3600 + a % 3600;
    assert a % 3600 == a % 3600 / 60 * 60 + a % 3600 % 60;
  }

  /** Where the pieces of `±HHMM` sit once the colon is in. */
  lemma MinuteColonLayout(sign: char, hh: string, mm: string)
    requires |hh| == 2 && |mm| == 2
    ensures var s := InsertColon([sign] + hh + mm);
      s == [sign] + hh + [':'] + mm && |s| == 6 && s[0] == sign && s[3] == ':'
      && s[1..3] == hh && s[4..6] == mm
  {
    InsertColonBeforeTail([sign] + hh, mm);
    Join2([sign] + hh, ':', mm);
    var s := [sign] + hh + [':'] + mm;
    assert s[1..3] == hh;
  }

  /** Printed hours and minutes: `±HHMM`, the colon goes in as `±HH:MM`. */
  lemma MinuteOffsetText(sign: char, hours: nat, minutes: nat)
    requires hours < 100 && minutes < 100
    ensures var s := InsertColon(OffsetText(sign, hours, minutes, 0));
      && |s| == 6 && s[0] == sign && s[3] == ':'
      && AllDigits(s[1..3]) && ValueOf(s[1..3]) == hours
      && AllDigits(s[4..6]) && ValueOf(s[4..6]) == minutes
  {
    assert Pow10(2) == 100;
    PadRoundTrip(hours, 2);
    PadRoundTrip(minutes, 2);
    assert OffsetText(sign, hours, minutes, 0) == [sign] + Pad(hours, 2) + Pad(minutes, 2);
    MinuteColonLayout(sign, Pad(hours, 2), Pad(minutes, 2));
  }

  /** strftime's `%z` splits the magnitude of a fixed offset into hours, minutes and seconds. */
  lemma FixedOffsetText(offset: int, a: nat)
    requires -86400 < offset < 86400 && a == Magnitude(offset)
    ensures StrftimeZ(Fixed(offset))
      == OffsetText(if offset < 0 then '-' else '+', a / 3600, a % 3600 / 60, a % 60)
  {
  }

  /** A whole-minute offset renders as `±HH:MM`, from which the offset is read back. */
  lemma MinuteOffsetSuffix(offset: int)
    requires -86400 < offset < 86400 && offset % 60 == 0
    ensures var s := ZoneSuffix(Fixed(offset));
      && |s| == 6
      && s[0] == (if offset < 0 then '-' else '+')
      && s[3] == ':'
      && AllDigits(s[1..3]) && AllDigits(s[4..6])
      && ValueOf(s[1..3]) < 24 && ValueOf(s[4..6]) < 60
      && (if s[0] == '-' then -1 else 1) * (ValueOf(s[1..3]) * 3600 + ValueOf(s[4..6]) * 60) == offset
  {
    var a: nat := if offset < 0 then -offset else offset;
    var sign := if offset < 0 then '-' else '+';
    FixedOffsetText(offset, a);
    SignedMagnitude(offset, a, sign, a / 3600, a % 3600 / 60);
    MinuteOffsetText(sign, a / 3600, a % 3600 / 60);
  }

  /** The sign and the hours and minutes of a whole-minute offset give it back. */
  lemma SignedMagnitude(offset: int, a: nat, sign: char, h: nat, m: nat)
    requires -86400 < offset < 86400 && offset % 60 == 0
    requires a == (if offset < 0 then -offset else offset)
    requires sign == (if offset < 0 then '-' else '+')
    requires h == a / 3600 && m == a % 3600 / 60
    ensures h < 24 && m < 60 && a % 60 == 0
    ensures (if sign == '-' then -1 else 1) * (h * 3600 + m * 60) == offset
  {
    MinuteOffsetArithmetic(a);
  }

  /** The fields strftime prints for the magnitude of an offset under a day. */
  lemma OffsetFields(offset: int, a: nat)
    requires -86400 < offset < 86400
    requires a == if offset < 0 then -offset else offset
    ensures a / 3600 < 24 && a % 3600 / 60 < 60 && a % 60 < 60
    ensures a % 60 == 0 <==> offset % 60 == 0
  {
  }

  /** Where the pieces of `±HHMMSS` sit once the colon is in. */
  lemma SecondsColonLayout(sign: char, hh: string, mm: string, ss: string)
    requires |hh| == 2 && |mm| == 2 && |ss| == 2
    ensures var s := InsertColon([sign] + hh + mm + ss);
      && |s| == 8 && s[0] == sign && s[5] == ':'
      && s[1..3] == hh && s[3..5] == mm && s[6..8] == ss
  {
    InsertColonBeforeTail([sign] + hh + mm, ss);
    Join2([sign] + hh + mm, ':', ss);
    var s := [sign] + hh + mm + [':'] + ss;
    assert s[1..3] == hh;
    assert s[3..5] == mm;
  }

  /** Printed hours, minutes and seconds: `±HHMMSS`, the colon goes in as `±HHMM:SS`. */
  lemma SecondsOffsetText(sign: char, hours: nat, minutes: nat, seconds: nat)
    requires hours < 100 && minutes < 100 && 0 < seconds < 100
    ensures var s := InsertColon(OffsetText(sign, hours, minutes, seconds));
      && |s| == 8 && s[0] == sign && s[5] == ':'
      && AllDigits(s[1..3]) && ValueOf(s[1..3]) == hours
      && AllDigits(s[3..5]) && ValueOf(s[3..5]) == minutes
      && AllDigits(s[6..8]) && ValueOf(s[6..8]) == seconds
  {
    assert Pow10(2) == 100;
    PadRoundTrip(hours, 2);
    PadRoundTrip(minutes, 2);
    PadRoundTrip(seconds, 2);
    assert OffsetText(sign, hours, minutes, seconds) == [sign] + Pad(hours, 2) + Pad(minutes, 2) + Pad(seconds, 2);
    SecondsColonLayout(sign, Pad(hours, 2), Pad(minutes, 2), Pad(seconds, 2));
  }

  /** The sign and the hours, minutes and seconds of an offset under a day give it back. */
  lemma SignedMagnitudeSeconds(offset: int, a: nat, sign: char, h: nat, m: nat, sec: nat)
    requires -86400 < offset < 86400
    requires a == Magnitude(offset)
    requires sign == (if offset < 0 then '-' else '+')
    requires h == a / 3600 && m == a % 3600 / 60 && sec == a % 60
    ensures h < 24 && m < 60 && sec < 60
    ensures (if sign == '-' then -1 else 1) * (h * 3600 + m * 60 + sec) == offset
  {
    assert a == a / 3600 * 3600 + a % 3600;
    assert a % 3600 == a % 3600 / 60 * 60 + a % 3600 % 60;
    assert a % 3600 % 60 == a % 60;
  }

  /** An offset with a seconds part renders as `±HHMM:SS`: the colon lands before the
      seconds, and the sign, hours, minutes and seconds read back give the offset. */
  lemma SecondsOffsetSuffix(offset: int)
    requires -86400 < offset < 86400 && offset % 60 != 0
    ensures var s := ZoneSuffix(Fixed(offset));
      && |s| == 8
      && s[0] == (if offset < 0 then '-' else '+')
      && s[5] == ':'
      && AllDigits(s[1..3]) && AllDigits(s[3..5]) && AllDigits(s[6..8])
      && ValueOf(s[1..3]) < 24 && ValueOf(s[3..5]) < 60 && 0 < ValueOf(s[6..8]) < 60
      && (if s[0] == '-' then -1 else 1)
           * (ValueOf(s[1..3]) * 3600 + ValueOf(s[3..5]) * 60 + ValueOf(s[6..8])) == offset
  {
    var a := Magnitude(offset);
    var sign := if offset < 0 then '-' else '+';
    FixedOffsetText(offset, a);
    OffsetFields(offset, a);
    SignedMagnitudeSeconds(offset, a, sign, a / 3600, a % 3600 / 60, a % 60);
    SecondsOffsetText(sign, a / 3600, a % 3600 / 60, a % 60);
  }

  /** A tzinfo that gives no offset leaves only the inserted colon as the suffix. */
  lemma UnknownOffsetSuffix(dt: DateTime)
    requires dt.zone == Unknown
    ensures FormatDate(dt) == Strftime(dt) + ":"
  {
  }

  /** `+0200` becomes `+02:00`. */
  lemma TwoHoursEastExample()
    ensures StrftimeZ(Fixed(7200)) == "+0200"
    ensures ZoneSuffix(Fixed(7200)) == "+02:00"
  {
    FixedOffsetText(7200, 7200);
    assert 7200 / 3600 == 2 && 7200 % 3600 / 60 == 0 && 7200 % 60 == 0;
    TwoHoursText();
    InsertColonBeforeTail("+02", "00");
    assert "+02" + "00" == "+0200";
  }

  lemma TwoHoursText()
    ensures OffsetText('+', 2, 0, 0) == "+0200"
  {
    assert Digits(2) == "2" && Digits(0) == "0";
    assert Pad(2, 2) == "02" && Pad(0, 2) == "00";
  }

  lemma YearDigitsExample()
    ensures Pad(2020, 4) == "2020" && Pad(1, 2) == "01" && Pad(0, 2) == "00"
  {
    assert Digits(2) == "2";
    assert Digits(20) == Digits(2) + "0";
    assert Digits(202) == Digits(20) + "2";
    assert Digits(2020) == Digits(202) + "0";
    assert Digits(0) == "0" && Digits(1) == "1";
  }

  /** The naive date 2020-01-01 00:00:00 renders as `2020-01-01T00:00:00-00:00`. */
  lemma NaiveNewYearExample()
    ensures FormatDate(DateTime(2020, 1, 1, 0, 0, 0, Naive)) == "2020-01-01T00:00:00-00:00"
  {
    YearDigitsExample();
    assert Strftime(DateTime(2020, 1, 1, 0, 0, 0, Naive)) == "2020-01-01T00:00:00";
  }
}
