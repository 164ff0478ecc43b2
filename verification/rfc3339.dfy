/** Time stamps of the audit log, in the UTC form of RFC 3339 (section 5.6). */
module Rfc3339 {
  import opened Decimal
  import opened Wrappers
  import opened CivilDate

  /** A clock before the epoch is recorded as the epoch. */
  function ClockSeconds(t: int): nat {
    if t < 0 then 0 else t
  }

  function FormatRfc3339(t: int): string {
    var secs := ClockSeconds(t);
    var days := secs / 86400;
    var timeOfDay := secs % 86400;
    var hours, minutes, seconds := timeOfDay / 3600, timeOfDay % 3600 / 60, timeOfDay % 60;
    var x := CivilFromDays(days);
    CivilIsCounted(days);
    CountedNumber(days);
    ZeroPad(x.y, 4) + "-" + ZeroPad(x.m, 2) + "-" + ZeroPad(x.d, 2)
    + "T" + ZeroPad(hours, 2) + ":" + ZeroPad(minutes, 2) + ":" + ZeroPad(seconds, 2) + "Z"
  }

  datatype DateTime = DateTime(date: Date, hour: nat, minute: nat, second: nat)

  /** The restrictions of section 5.7, leap seconds left out. */
  predicate InRange(t: DateTime) {
    Valid(t.date) && t.hour <= 23 && t.minute <= 59 && t.second <= 59
  }

  predicate Shaped(s: string) {
    && |s| == 20 && s[4] == '-' && s[7] == '-' && s[10] == 'T' && s[13] == ':' && s[16] == ':' && s[19] == 'Z'
    && AllDigits(s[0..4]) && AllDigits(s[5..7]) && AllDigits(s[8..10])
    && AllDigits(s[11..13]) && AllDigits(s[14..16]) && AllDigits(s[17..19])
  }

  /** `full-date "T" partial-time "Z"`, four-digit year, no fraction. */
  function ParseRfc3339(s: string): Option<DateTime> {
    if !Shaped(s) then None
    else
      var t := DateTime(Date(ParseNat(s[0..4]), ParseNat(s[5..7]), ParseNat(s[8..10])),
                        ParseNat(s[11..13]), ParseNat(s[14..16]), ParseNat(s[17..19]));
      if InRange(t) then Some(t) else None
  }

  /** Seconds since the epoch, by the calendar's own day count. */
  function Seconds(t: DateTime): int
    requires InRange(t) && t.date.y >= 1970
  {
    DayNumber(t.date) * 86400 + t.hour * 3600 + t.minute * 60 + t.second
  }

  /** First second of the year 10000. */
  const YEAR_10000: nat := 253402300800

  lemma {:induction false} LastFourDigitDay(days: nat)
    ensures CivilFromDays(days).y <= 9999 <==> days < 2932897
  {
    CivilIsCounted(days);
    CivilIsCounted(2932896);
    CivilIsCounted(2932897);
    LastDay();
    FirstDay();
    hide CivilFromDays, NthDate;
    if days < 2932897 { YearsInOrder(days, 2932896); } else { YearsInOrder(2932897, days); }
  }

  lemma {:induction false} YearStart399()
    ensures YearStart(399) == 145731
  {
  }

  lemma {:induction false} FromMarchIs(era: nat, yoe: nat, doy: nat, mp: nat)
    requires mp <= 11 && MonthStart(mp) <= doy < MonthStart(mp + 1)
    ensures FromMarch(era, yoe, doy) ==
      Date(yoe + era * 400 + (if mp < 10 then 0 else 1), if mp < 10 then mp + 3 else mp - 9, doy - MonthStart(mp) + 1)
  {
    MonthUnique(doy, mp);
  }

  lemma {:induction false} LastDay()
    ensures CivilFromDays(2932896) == Date(9999, 12, 31)
  {
    assert 3652364 / DAYS_PER_ERA == 24 && 3652364 - 24 * DAYS_PER_ERA == 146036;
    hide FromEra, FromMarch;
    FromEraIs(24, 146036, 399);
    YearStart399();
    FromMarchIs(24, 399, 305, 9);
  }

  lemma {:induction false} FirstDay()
    ensures CivilFromDays(2932897) == Date(10000, 1, 1)
  {
    assert 3652365 / DAYS_PER_ERA == 24 && 3652365 - 24 * DAYS_PER_ERA == 146037;
    hide FromEra, FromMarch;
    YearStart399();
    FromEraIs(24, 146037, 399);
    FromMarchIs(24, 399, 306, 10);
  }

  lemma {:induction false} ZeroPadFixed(n: nat, w: nat)
    requires w > 0
    ensures n < Pow10(w) ==> ZeroPad(n, w) == Fixed(n, w)
    ensures n >= Pow10(w) ==> |ZeroPad(n, w)| > w && AllDigits(ZeroPad(n, w))
  {
    DigitsLength(n, w);
    if |Digits(n)| == w { FixedIsDigits(n, w); }
  }

  lemma {:induction false} Powers()
    ensures Pow10(2) == 100 && Pow10(4) == 10000
  {
    assert Pow10(0) == 1 && Pow10(1) == 10 && Pow10(2) == 100 && Pow10(3) == 1000;
  }

  /** Six fixed-width fields between their separators. */
  ghost function Stamp(y: string, m: string, d: string, h: string, i: string, s: string): string {
    y + "-" + m + "-" + d + "T" + h + ":" + i + ":" + s + "Z"
  }

  lemma {:induction false} StampSlices(y: string, m: string, d: string, h: string, i: string, s: string)
    requires |y| == 4 && |m| == |d| == |h| == |i| == |s| == 2
    ensures var t := Stamp(y, m, d, h, i, s);
      |t| == 20 && t[4] == '-' && t[7] == '-' && t[10] == 'T' && t[13] == ':' && t[16] == ':' && t[19] == 'Z'
      && t[0..4] == y && t[5..7] == m && t[8..10] == d && t[11..13] == h && t[14..16] == i && t[17..19] == s
  {
    var date, time := y + "-" + m + "-" + d, h + ":" + i + ":" + s;
    var t := Stamp(y, m, d, h, i, s);
    DateSlices(y, m, d);
    TimeSlices(h, i, s);
    hide Stamp;
    assert t == date + ("T" + time + "Z");
    assert t[..10] == date && t[11..19] == time && t[10] == 'T' && t[19] == 'Z';
    assert t[0..4] == date[0..4] && t[5..7] == date[5..7] && t[8..10] == date[8..10];
    assert t[4] == date[4] && t[7] == date[7] && t[13] == time[2] && t[16] == time[5];
    assert t[11..13] == time[0..2] && t[14..16] == time[3..5] && t[17..19] == time[6..8];
  }

  lemma {:induction false} DateSlices(y: string, m: string, d: string)
    requires |y| == 4 && |m| == |d| == 2
    ensures var t := y + "-" + m + "-" + d;
      |t| == 10 && t[4] == '-' && t[7] == '-' && t[0..4] == y && t[5..7] == m && t[8..10] == d
  {
  }

  lemma {:induction false} TimeSlices(h: string, i: string, s: string)
    requires |h| == |i| == |s| == 2
    ensures var t := h + ":" + i + ":" + s;
      |t| == 8 && t[2] == ':' && t[5] == ':' && t[0..2] == h && t[3..5] == i && t[6..8] == s
  {
  }

  lemma {:induction false} TimeParts(secs: nat)
    ensures var r := secs % 86400;
      r / 3600 <= 23 && r % 3600 / 60 <= 59 && r % 60 <= 59
      && secs == secs / 86400 * 86400 + r / 3600 * 3600 + r % 3600 / 60 * 60 + r % 60
  {
  }

  lemma {:induction false} FormatIsStamp(t: int)
    requires CivilFromDays((if t < 0 then 0 else t) / 86400).y <= 9999
    ensures var secs := if t < 0 then 0 else t; var x := CivilFromDays(secs / 86400); var r := secs % 86400;
      Valid(x) && 1970 <= x.y
      && FormatRfc3339(t) == Stamp(Fixed(x.y, 4), Fixed(x.m, 2), Fixed(x.d, 2),
                                   Fixed(r / 3600, 2), Fixed(r % 3600 / 60, 2), Fixed(r % 60, 2))
  {
    hide Fixed, ZeroPad, CivilFromDays, DayNumber;
    var secs := ClockSeconds(t);
    var x, r := CivilFromDays(secs / 86400), secs % 86400;
    CivilIsCounted(secs / 86400);
    CountedNumber(secs / 86400);
    TimeParts(secs);
    Powers();
    ZeroPadFixed(x.y, 4);
    ZeroPadFixed(x.m, 2);
    ZeroPadFixed(x.d, 2);
    ZeroPadFixed(r / 3600, 2);
    ZeroPadFixed(r % 3600 / 60, 2);
    ZeroPadFixed(r % 60, 2);
  }

  lemma {:induction false} ParseStamp(t: DateTime)
    requires InRange(t) && 0 <= t.date.y <= 9999
    ensures ParseRfc3339(Stamp(Fixed(t.date.y, 4), Fixed(t.date.m, 2), Fixed(t.date.d, 2),
                               Fixed(t.hour, 2), Fixed(t.minute, 2), Fixed(t.second, 2))) == Some(t)
  {
    hide Fixed, Stamp, ParseNat;
    StampSlices(Fixed(t.date.y, 4), Fixed(t.date.m, 2), Fixed(t.date.d, 2),
                Fixed(t.hour, 2), Fixed(t.minute, 2), Fixed(t.second, 2));
    Powers();
    FixedParse(t.date.y, 4);
    FixedParse(t.date.m, 2);
    FixedParse(t.date.d, 2);
    FixedParse(t.hour, 2);
    FixedParse(t.minute, 2);
    FixedParse(t.second, 2);
  }

  /** The date and time of day that the stamp of `secs` shows. */
  ghost function Shown(secs: nat): DateTime {
    var r := secs % 86400;
    DateTime(CivilFromDays(secs / 86400), r / 3600, r % 3600 / 60, r % 60)
  }

  lemma {:induction false} ShownSeconds(secs: nat)
    ensures InRange(Shown(secs)) && Shown(secs).date.y >= 1970 && Seconds(Shown(secs)) == secs
  {
    hide CivilFromDays, DayNumber, Valid;
    TimeParts(secs);
    CivilIsCounted(secs / 86400);
    CountedNumber(secs / 86400);
  }

  /** From the epoch through the end of the year 9999, the printed stamp parses back to the same second; a
      clock before the epoch prints the epoch. */
  lemma {:induction false} StampReadsBack(t: int)
    requires t < YEAR_10000
    ensures var p := ParseRfc3339(FormatRfc3339(t));
      p.Some? && InRange(p.value) && p.value.date.y >= 1970 && Seconds(p.value) == if t < 0 then 0 else t
    ensures t < 0 ==> FormatRfc3339(t) == FormatRfc3339(0)
  {
    var secs := ClockSeconds(t);
    BeforeTheEpoch(t);
    hide CivilFromDays, Fixed, ParseRfc3339, FormatRfc3339, Stamp, DayNumber, Seconds, InRange;
    LastFourDigitDay(secs / 86400);
    FormatIsStamp(t);
    ShownSeconds(secs);
    ParseStamp(Shown(secs));
  }

  lemma {:induction false} BeforeTheEpoch(t: int)
    ensures t < 0 ==> FormatRfc3339(t) == FormatRfc3339(0)
  {
    hide CivilFromDays, ZeroPad;
  }

  lemma {:induction false} LongYear(y: nat, rest: string)
    requires y >= 10000
    ensures ParseRfc3339(ZeroPad(y, 4) + rest) == None
  {
    Powers();
    ZeroPadFixed(y, 4);
    hide ZeroPad, ParseNat;
    assert (ZeroPad(y, 4) + rest)[4] == ZeroPad(y, 4)[4];
    assert IsDigit(ZeroPad(y, 4)[4]);
  }

  /** And only that far: the form has four year digits, so a later stamp does not parse. */
  lemma {:induction false} StampParsesIff(t: int)
    ensures ParseRfc3339(FormatRfc3339(t)).Some? <==> t < YEAR_10000
  {
    var secs := ClockSeconds(t);
    if secs < YEAR_10000 {
      hide ParseRfc3339, FormatRfc3339;
      StampReadsBack(t);
    } else {
      LastFourDigitDay(secs / 86400);
      FormatLong(t);
      hide ParseRfc3339, FormatRfc3339, CivilFromDays;
      var y := CivilFromDays(secs / 86400).y;
      var rest := FormatRfc3339(t)[|ZeroPad(y, 4)|..];
      LongYear(y, rest);
    }
  }

  lemma {:induction false} FormatLong(t: int)
    requires CivilFromDays(ClockSeconds(t) / 86400).y >= 10000
    ensures var p := ZeroPad(CivilFromDays(ClockSeconds(t) / 86400).y, 4);
      var s := FormatRfc3339(t); |p| <= |s| && s == p + s[|p|..]
  {
    hide CivilFromDays, ZeroPad;
  }
}
