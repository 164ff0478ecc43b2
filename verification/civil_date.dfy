/** The calendar by its rule, day by day, and the division-based conversion from a day count. */
module CivilDate {
  datatype Date = Date(y: int, m: int, d: int)

  // ----- the calendar -----

  predicate IsLeap(y: int) {
    y % 4 == 0 && (y % 100 != 0 || y % 400 == 0)
  }

  function DaysInMonth(y: int, m: int): int {
    if m == 2 then (if IsLeap(y) then 29 else 28)
    else if m == 4 || m == 6 || m == 9 || m == 11 then 30
    else 31
  }

  predicate Valid(x: Date) {
    1 <= x.m <= 12 && 1 <= x.d <= DaysInMonth(x.y, x.m)
  }

  function NextDay(x: Date): Date {
    if x.d < DaysInMonth(x.y, x.m) then x.(d := x.d + 1)
    else if x.m < 12 then Date(x.y, x.m + 1, 1)
    else Date(x.y + 1, 1, 1)
  }

  const EPOCH: Date := Date(1970, 1, 1)

  /** The date reached by counting `n` days from the epoch. */
  function NthDate(n: nat): Date {
    if n == 0 then EPOCH else NextDay(NthDate(n - 1))
  }

  // ----- the conversion -----

  const DAYS_PER_ERA := 146097

  function YearOfEra(doe: nat): (yoe: nat)
    requires doe < DAYS_PER_ERA
  {
    var a: nat := doe - doe / 1460;
    var b: nat := a + doe / 36524;
    var c: nat := b - doe / 146096;
    c / 365
  }

  /** Days of the era before year `yoe`, whose years start in March. */
  function YearStart(yoe: nat): int {
    365 * yoe + yoe / 4 - yoe / 100
  }

  function EraEnd(yoe: nat): int {
    if yoe == 399 then DAYS_PER_ERA else YearStart(yoe + 1)
  }

  /** The conversion's year is the one whose days hold `doe`. */
  lemma {:induction false} YearOfEraFits(doe: nat)
    requires doe < DAYS_PER_ERA
    ensures YearOfEra(doe) <= 399
    ensures YearStart(YearOfEra(doe)) <= doe < EraEnd(YearOfEra(doe))
  {
    var c := if doe == 146096 then 3 else doe / 36524;
    var r := doe - 36524 * c;
    var q, s := r / 1461, r % 1461;
    assert doe == 36524 * c + 1461 * q + s;
    YearFromParts(doe, c, q, s);
  }

  /** A day of the era as centuries, four-year cycles and the rest. */
  predicate Parts(doe: nat, c: nat, q: nat, s: nat) {
    doe < DAYS_PER_ERA && doe == 36524 * c + 1461 * q + s &&
    c <= 3 && s <= 1460 && 1461 * q + s <= (if c == 3 then 36524 else 36523)
  }

  lemma {:induction false} CycleDays(doe: nat, c: nat, q: nat, s: nat)
    requires Parts(doe, c, q, s)
    ensures q <= 24 && doe / 1460 == 25 * c + q + (if 24 * c + q + s >= 1460 then 1 else 0)
  {
    var r := 24 * c + q + s;
    assert doe == 1460 * (25 * c + q) + r && r < 2920;
  }

  lemma {:induction false} CenturyDays(doe: nat, c: nat, q: nat, s: nat)
    requires Parts(doe, c, q, s)
    ensures doe / 36524 == c + doe / 146096 && doe / 146096 == if doe == 146096 then 1 else 0
  {
    var r := 1461 * q + s;
    assert doe == 36524 * c + r && r <= 36524;
  }

  lemma {:induction false} RestYears(c: nat, q: nat, s: nat)
    requires c <= 3 && q <= 24 && s <= 1460
    ensures var e := if 24 * c + q + s >= 1460 then 1 else 0;
      s - e >= 0 && (s - e) / 365 == if s == 1460 then 3 else s / 365
  {
  }

  /** The corrected day count is whole years of 365 days and the rest of the last one. */
  lemma {:induction false} CorrectedDays(doe: nat, c: nat, q: nat, s: nat)
    requires Parts(doe, c, q, s)
    ensures YearOfEra(doe) == 100 * c + 4 * q + (if s == 1460 then 3 else s / 365)
  {
    CycleDays(doe, c, q, s);
    CenturyDays(doe, c, q, s);
    RestYears(c, q, s);
    hide Parts;
    var e := if 24 * c + q + s >= 1460 then 1 else 0;
    Div365(100 * c + 4 * q, s - e);
    assert doe - doe / 1460 + doe / 36524 - doe / 146096 ==
      365 * (100 * c + 4 * q) + (s - e) by { PartsSum(doe, c, q, s); }
  }

  lemma {:induction false} PartsSum(doe: nat, c: nat, q: nat, s: nat)
    requires Parts(doe, c, q, s)
    ensures doe == 36524 * c + 1461 * q + s
  {
  }

  lemma {:induction false} Div365(k: nat, r: nat)
    ensures (365 * k + r) / 365 == k + r / 365
  {
  }

  lemma {:induction false} YearFromParts(doe: nat, c: nat, q: nat, s: nat)
    requires Parts(doe, c, q, s)
    ensures YearOfEra(doe) <= 399
    ensures YearStart(YearOfEra(doe)) <= doe < EraEnd(YearOfEra(doe))
  {
    CorrectedDays(doe, c, q, s);
    hide YearOfEra;
    assert q <= 24;
    var k := if s == 1460 then 3 else s / 365;
    var y := 100 * c + 4 * q + k;
    assert k <= 3 && 365 * k <= s && (s < 365 * (k + 1) || k == 3);
    assert y / 4 == 25 * c + q && y / 100 == c;
    NextYear(c, q, k);
  }

  lemma {:induction false} NextYear(c: nat, q: nat, k: nat)
    requires c <= 3 && q <= 24 && k <= 3
    ensures var y := 100 * c + 4 * q + k + 1;
      y / 4 == 25 * c + q + (if k == 3 then 1 else 0) && y / 100 == c + (if q == 24 && k == 3 then 1 else 0)
  {
  }

  /** The conversion from days since the epoch, with eras of 400 years from March of year 0. */
  function CivilFromDays(days: nat): Date {
    var z: nat := days + 719468;
    var era: nat := z / DAYS_PER_ERA;
    var doe: nat := z - era * DAYS_PER_ERA;
    FromEra(era, doe)
  }

  /** Year, then day of the year; no subtraction goes below zero. */
  function FromEra(era: nat, doe: nat): Date
    requires doe < DAYS_PER_ERA
  {
    var yoe := YearOfEra(doe);
    YearOfEraFits(doe);
    var doy: nat := doe - (365 * yoe + yoe / 4 - yoe / 100);
    FromMarch(era, yoe, doy)
  }

  /** Month and day from the day of a year that starts in March. */
  function FromMarch(era: nat, yoe: nat, doy: nat): Date {
    var mp: nat := (5 * doy + 2) / 153;
    var d := doy - (153 * mp + 2) / 5 + 1;
    var m := if mp < 10 then mp + 3 else mp - 9;
    var y := yoe + era * 400;
    Date(if m <= 2 then y + 1 else y, m, d)
  }

  // ----- the conversion follows the calendar -----

  /** Length of the March-based year. */
  function YearLength(yoe: nat): int {
    EraEnd(yoe) - YearStart(yoe)
  }

  lemma {:induction false} Mod4(y: nat, era: nat)
    ensures (y + era * 400) % 4 == y % 4
  {
  }

  lemma {:induction false} Mod100(y: nat, era: nat)
    ensures (y + era * 400) % 100 == y % 100
  {
  }

  lemma {:induction false} Mod400(y: nat, era: nat)
    ensures (y + era * 400) % 400 == y % 400
  {
  }

  lemma {:induction false} LeapShift(y: nat, era: nat)
    ensures IsLeap(y + era * 400) == IsLeap(y)
  {
    Mod4(y, era);
    Mod100(y, era);
    Mod400(y, era);
  }

  lemma {:induction false} YearLengthIsLeap(era: nat, yoe: nat)
    requires yoe <= 399
    ensures YearLength(yoe) == if IsLeap(yoe + era * 400 + 1) then 366 else 365
  {
    LeapShift(yoe + 1, era);
  }

  lemma {:induction false} YearUnique(doe: nat, yoe: nat)
    requires doe < DAYS_PER_ERA && yoe <= 399 && YearStart(yoe) <= doe < EraEnd(yoe)
    ensures YearOfEra(doe) == yoe
  {
    YearOfEraFits(doe);
    hide YearOfEra;
    var y := YearOfEra(doe);
    if y < yoe { StartsInOrder(y, yoe); }
    if yoe < y { StartsInOrder(yoe, y); }
  }

  lemma {:induction false} StartsInOrder(a: nat, b: nat)
    requires a < b <= 399
    ensures EraEnd(a) <= YearStart(b)
  {
    assert (a + 1) / 4 <= b / 4 && b / 100 <= (a + 1) / 100 + (b - a - 1) / 100 + 1;
  }

  /** Where each month of the March-based year starts. */
  function MonthStart(mp: nat): nat { (153 * mp + 2) / 5 }

  lemma {:induction false} MonthFits(doy: nat)
    requires doy <= 365
    ensures var mp := (5 * doy + 2) / 153; mp <= 11 && MonthStart(mp) <= doy < MonthStart(mp + 1)
  {
  }

  lemma {:induction false} MonthUnique(doy: nat, mp: nat)
    requires mp <= 11 && MonthStart(mp) <= doy < MonthStart(mp + 1)
    ensures (5 * doy + 2) / 153 == mp
  {
  }

  lemma {:induction false} MonthLength(y: int, mp: nat)
    requires mp <= 10
    ensures MonthStart(mp + 1) - MonthStart(mp) == DaysInMonth(y, if mp < 10 then mp + 3 else mp - 9)
  {
    if mp <= 5 {
      assert mp == 0 || mp == 1 || mp == 2 || mp == 3 || mp == 4 || mp == 5;
    } else {
      assert mp == 6 || mp == 7 || mp == 8 || mp == 9 || mp == 10;
    }
  }

  /** Inside the year, the next day of the year is the next calendar day. */
  lemma {:induction false} NextInMonth(era: nat, yoe: nat, doy: nat, mp: nat)
    requires mp <= 11 && MonthStart(mp) <= doy && doy + 1 < MonthStart(mp + 1)
    requires var y := yoe + era * 400 + (if mp >= 10 then 1 else 0);
      doy + 1 - MonthStart(mp) < DaysInMonth(y, if mp < 10 then mp + 3 else mp - 9)
    ensures FromMarch(era, yoe, doy + 1) == NextDay(FromMarch(era, yoe, doy)) && Valid(FromMarch(era, yoe, doy))
  {
    hide DaysInMonth;
    MonthUnique(doy, mp);
    MonthUnique(doy + 1, mp);
  }

  lemma {:induction false} NextMonth(era: nat, yoe: nat, doy: nat, mp: nat)
    requires mp <= 10 && MonthStart(mp) <= doy && doy + 1 == MonthStart(mp + 1)
    ensures FromMarch(era, yoe, doy + 1) == NextDay(FromMarch(era, yoe, doy)) && Valid(FromMarch(era, yoe, doy))
  {
    hide DaysInMonth;
    MonthUnique(doy, mp);
    MonthUnique(doy + 1, mp + 1);
    MonthLength(yoe + era * 400 + (if mp >= 10 then 1 else 0), mp);
  }

  lemma {:induction false} NextInYear(era: nat, yoe: nat, doy: nat)
    requires yoe <= 399 && doy + 1 < YearLength(yoe)
    ensures FromMarch(era, yoe, doy + 1) == NextDay(FromMarch(era, yoe, doy))
    ensures Valid(FromMarch(era, yoe, doy))
  {
    YearLengthIsLeap(era, yoe);
    hide YearLength, IsLeap, FromMarch, NextDay, Valid;
    MonthFits(doy);
    var mp := (5 * doy + 2) / 153;
    if mp == 11 {
      NextInMonth(era, yoe, doy, mp);
    } else {
      MonthLength(yoe + era * 400 + (if mp >= 10 then 1 else 0), mp);
      if doy + 1 < MonthStart(mp + 1) {
        NextInMonth(era, yoe, doy, mp);
      } else {
        NextMonth(era, yoe, doy, mp);
      }
    }
  }

  lemma {:induction false} NextAtYearEnd(era: nat, yoe: nat, doy: nat)
    requires yoe <= 399 && doy + 1 == YearLength(yoe)
    ensures NextDay(FromMarch(era, yoe, doy)) == Date(yoe + era * 400 + 1, 3, 1)
    ensures Valid(FromMarch(era, yoe, doy))
  {
    YearLengthIsLeap(era, yoe);
    hide YearLength, IsLeap;
    assert MonthStart(11) == 337;
    MonthUnique(doy, 11);
  }

  lemma {:induction false} FromEraIs(era: nat, doe: nat, yoe: nat)
    requires doe < DAYS_PER_ERA && yoe <= 399 && YearStart(yoe) <= doe < EraEnd(yoe)
    ensures FromEra(era, doe) == FromMarch(era, yoe, doe - YearStart(yoe))
  {
    YearUnique(doe, yoe);
    hide YearOfEra, FromMarch;
  }

  /** The day after day `doe` of an era. */
  lemma {:induction false} EraStep(era: nat, doe: nat)
    requires doe < DAYS_PER_ERA
    ensures Valid(FromEra(era, doe))
    ensures NextDay(FromEra(era, doe)) == if doe + 1 < DAYS_PER_ERA then FromEra(era, doe + 1) else FromEra(era + 1, 0)
  {
    hide YearOfEra, NextDay, Valid, FromMarch, FromEra;
    YearOfEraFits(doe);
    var yoe := YearOfEra(doe);
    var doy := doe - YearStart(yoe);
    FromEraIs(era, doe, yoe);
    if doy + 1 < YearLength(yoe) {
      FromEraIs(era, doe + 1, yoe);
      NextInYear(era, yoe, doy);
    } else {
      NextAtYearEnd(era, yoe, doy);
      if yoe < 399 {
        FromEraIs(era, doe + 1, yoe + 1);
        FirstOfMarch(era, yoe + 1);
      } else {
        FromEraIs(era + 1, 0, 0);
        FirstOfMarch(era + 1, 0);
      }
    }
  }

  lemma {:induction false} FirstOfMarch(era: nat, yoe: nat)
    ensures FromMarch(era, yoe, 0) == Date(yoe + era * 400, 3, 1)
  {
  }

  lemma {:induction false} EraOf(z: nat)
    ensures var era, doe := z / DAYS_PER_ERA, z - z / DAYS_PER_ERA * DAYS_PER_ERA;
      0 <= doe < DAYS_PER_ERA
      && (doe + 1 < DAYS_PER_ERA ==> (z + 1) / DAYS_PER_ERA == era)
      && (doe + 1 == DAYS_PER_ERA ==> (z + 1) / DAYS_PER_ERA == era + 1)
  {
  }

  /** The next day's conversion is the calendar successor. */
  lemma {:induction false} CivilSuccessor(days: nat)
    ensures Valid(CivilFromDays(days)) && CivilFromDays(days + 1) == NextDay(CivilFromDays(days))
  {
    hide NextDay, FromEra, Valid;
    var z: nat := days + 719468;
    EraOf(z);
    EraStep(z / DAYS_PER_ERA, z - z / DAYS_PER_ERA * DAYS_PER_ERA);
  }

  lemma {:induction false} CivilEpoch()
    ensures CivilFromDays(0) == EPOCH
  {
    YearUnique(135080, 369);
    assert 719468 / DAYS_PER_ERA == 4;
    MonthUnique(306, 10);
  }

  /** For every day count, the conversion gives the date reached by counting. */
  lemma {:induction false} CivilIsCounted(days: nat)
    ensures CivilFromDays(days) == NthDate(days) && Valid(NthDate(days))
  {
    hide CivilFromDays, NextDay, Valid;
    CivilSuccessor(days);
    if days == 0 {
      CivilEpoch();
    } else {
      CivilIsCounted(days - 1);
      CivilSuccessor(days - 1);
    }
  }

  // ----- counting days back from a date -----

  function DaysInYear(y: int): int { if IsLeap(y) then 366 else 365 }

  function DaysBeforeYear(y: int): int
    requires y >= 1970
  {
    if y == 1970 then 0 else DaysBeforeYear(y - 1) + DaysInYear(y - 1)
  }

  function DaysBeforeMonth(y: int, m: int): int
    requires 1 <= m <= 13
    decreases m
  {
    if m == 1 then 0 else DaysBeforeMonth(y, m - 1) + DaysInMonth(y, m - 1)
  }

  /** Days from the epoch to a date, counted year by year and month by month. */
  function DayNumber(x: Date): int
    requires Valid(x) && x.y >= 1970
  {
    DaysBeforeYear(x.y) + DaysBeforeMonth(x.y, x.m) + x.d - 1
  }

  lemma {:induction false} MonthsMakeYear(y: int)
    ensures DaysBeforeMonth(y, 13) == DaysInYear(y)
  {
    assert DaysBeforeMonth(y, 3) == DaysInMonth(y, 1) + DaysInMonth(y, 2);
    assert DaysBeforeMonth(y, 5) == DaysBeforeMonth(y, 3) + 61;
    assert DaysBeforeMonth(y, 7) == DaysBeforeMonth(y, 5) + 61;
    assert DaysBeforeMonth(y, 9) == DaysBeforeMonth(y, 7) + 62;
    assert DaysBeforeMonth(y, 11) == DaysBeforeMonth(y, 9) + 61;
  }

  lemma {:induction false} NextDayNumber(x: Date)
    requires Valid(x) && x.y >= 1970
    ensures Valid(NextDay(x)) && NextDay(x).y >= 1970 && DayNumber(NextDay(x)) == DayNumber(x) + 1
  {
    MonthsMakeYear(x.y);
    hide IsLeap, DaysInYear;
    assert DaysBeforeMonth(x.y, x.m + 1) == DaysBeforeMonth(x.y, x.m) + DaysInMonth(x.y, x.m);
  }

  lemma {:induction false} CountedNumber(n: nat)
    ensures Valid(NthDate(n)) && NthDate(n).y >= 1970 && DayNumber(NthDate(n)) == n
  {
    if n > 0 {
      CountedNumber(n - 1);
      hide Valid, NextDay, DayNumber;
      NextDayNumber(NthDate(n - 1));
    }
  }

  function PrevDay(x: Date): Date {
    if x.d > 1 then x.(d := x.d - 1)
    else if x.m > 1 then Date(x.y, x.m - 1, DaysInMonth(x.y, x.m - 1))
    else Date(x.y - 1, 12, 31)
  }

  lemma {:induction false} PrevNext(x: Date)
    requires Valid(x)
    ensures Valid(PrevDay(x)) && NextDay(PrevDay(x)) == x
  {
  }

  lemma {:induction false} DayNumberPositive(x: Date)
    requires Valid(x) && x.y >= 1970
    ensures DayNumber(x) >= x.d - 1 && (x.y > 1970 || x.m > 1 ==> DayNumber(x) > 0)
  {
    YearsPositive(x.y);
    MonthsPositive(x.y, x.m);
  }

  lemma {:induction false} YearsPositive(y: int)
    requires y >= 1970
    ensures DaysBeforeYear(y) >= 0 && (y > 1970 ==> DaysBeforeYear(y) > 0)
  {
    if y > 1970 { YearsPositive(y - 1); }
  }

  lemma {:induction false} MonthsPositive(y: int, m: int)
    requires 1 <= m <= 13
    ensures DaysBeforeMonth(y, m) >= 0 && (m > 1 ==> DaysBeforeMonth(y, m) > 0)
    decreases m
  {
    if m > 1 { MonthsPositive(y, m - 1); }
  }

  lemma {:induction false} EpochNumber()
    ensures DayNumber(EPOCH) == 0
  {
    assert DaysBeforeMonth(1970, 1) == 0 && DaysBeforeYear(1970) == 0;
  }

  lemma {:induction false} PrevEarlier(x: Date)
    requires Valid(x) && x.y >= 1970 && x != EPOCH
    ensures var p := PrevDay(x);
      p.y >= 1970 && (p.y < x.y || (p.y == x.y && p.m < x.m) || (p.y == x.y && p.m == x.m && p.d < x.d))
  {
  }

  /** Every valid date from the epoch on is reached by counting, after exactly its number of
      days; so the conversion's result is the only valid date with that number. */
  lemma {:induction false} OnlyDate(x: Date)
    requires Valid(x) && x.y >= 1970
    ensures DayNumber(x) >= 0 && CivilFromDays(DayNumber(x)) == x
    decreases x.y, x.m, x.d
  {
    hide CivilFromDays, DayNumber, Valid, NextDay, PrevDay;
    DayNumberPositive(x);
    if x == EPOCH {
      EpochNumber();
      CivilEpoch();
    } else {
      PrevNext(x);
      PrevEarlier(x);
      var p := PrevDay(x);
      NextDayNumber(p);
      OnlyDate(p);
      CivilSuccessor(DayNumber(p));
    }
  }

  lemma {:induction false} YearsInOrder(i: nat, j: nat)
    requires i <= j
    ensures NthDate(i).y <= NthDate(j).y
  {
    if i < j {
      YearsInOrder(i, j - 1);
    }
  }
}
