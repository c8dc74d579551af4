/** The build timestamp: `days_to_ymd` and `format_iso8601_utc` of `build.rs`,
    against the proleptic Gregorian calendar and RFC 3339. */
module Calendar {
  datatype Date = Date(year: int, month: nat, day: nat)

  // ---------------------------------------------------------------------------
  // The calendar, by its rules (Appendix C of RFC 3339)

  predicate Leap(y: int) {
    y % 4 == 0 && (y % 100 != 0 || y % 400 == 0)
  }

  function DaysIn(y: int, m: nat): nat {
    if m == 2 then (if Leap(y) then 29 else 28)
    else if m == 4 || m == 6 || m == 9 || m == 11 then 30
    else 31
  }

  predicate ValidDate(d: Date) {
    1 <= d.month <= 12 && 1 <= d.day <= DaysIn(d.year, d.month)
  }

  function NextDate(d: Date): Date {
    if d.day < DaysIn(d.year, d.month) then d.(day := d.day + 1)
    else if d.month < 12 then Date(d.year, d.month + 1, 1)
    else Date(d.year + 1, 1, 1)
  }

  predicate Before(a: Date, b: Date) {
    a.year < b.year || (a.year == b.year && (a.month < b.month || (a.month == b.month && a.day < b.day)))
  }

  // ---------------------------------------------------------------------------
  // The program

  /** Integer division as the machine does it, towards zero. */
  function TruncDiv(a: int, b: int): int
    requires b > 0
  {
    if a >= 0 then a / b else -((-a) / b)
  }

  /** The steps of `days_to_ymd` before the casts to 32 bits. The results of the
      unsigned steps are `nat`: none of those subtractions goes below zero. */
  function Civil(days: int): Date {
    var z := days + 719468;
    EraRange(z);
    CivilInEra(EraOf(z), z - EraOf(z) * 146097)
  }

  function EraOf(z: int): int {
    TruncDiv(if z >= 0 then z else z - 146096, 146097)
  }

  function CivilInEra(era: int, doe: nat): Date
    requires doe <= 146096
  {
    YearOfEra(doe);
    var yoe: nat := YoeOf(doe);
    var y := yoe + era * 400;
    var doy: nat := doe - (365 * yoe + yoe / 4 - yoe / 100);
    MonthAndDay(y, doy)
  }

  /** The month and day of a day of the year that starts in March of `y`. */
  function MonthAndDay(y: int, doy: nat): Date {
    var mp: nat := (5 * doy + 2) / 153;
    var d: nat := doy - (153 * mp + 2) / 5 + 1;
    var m: nat := if mp < 10 then mp + 3 else mp - 9;
    Date(if m <= 2 then y + 1 else y, m, d)
  }

  function YoeOf(doe: nat): nat {
    (doe - doe / 1460 + doe / 36524 - doe / 146096) / 365
  }

  /** `as i32`. */
  function Wrap32(y: int): int {
    (y + 0x8000_0000) % 0x1_0000_0000 - 0x8000_0000
  }

  function DaysToYmd(days: int): Date {
    var d := Civil(days);
    d.(year := Wrap32(d.year))
  }

  // ---------------------------------------------------------------------------
  // Arithmetic of the eras

  /** First day, within the era, of a year that starts in March. */
  function YearStart(yoe: nat): nat {
    365 * yoe + yoe / 4 - yoe / 100
  }

  /** Length of the March-based year number `y`: it ends with February of `y + 1`. */
  function YearLength(y: int): nat {
    if Leap(y + 1) then 366 else 365
  }

  lemma EraRange(z: int)
    ensures EraOf(z) == z / 146097 && 0 <= z - EraOf(z) * 146097 <= 146096
  {}

  /** `doe` in centuries, four-year groups, years and days. */
  lemma EraDigits(doe: nat) returns (c: nat, q: nat, k: nat, r: nat)
    requires doe <= 146096
    ensures c <= 3 && q <= 24 && k <= 3 && r <= 365
    ensures r == 365 ==> k == 3 && (q < 24 || c == 3)
    ensures doe == 36524 * c + 1461 * q + 365 * k + r
  {
    c := if doe == 146096 then 3 else doe / 36524;
    var inCentury := doe - 36524 * c;
    q := inCentury / 1461;
    var inGroup := inCentury - 1461 * q;
    k := if inGroup == 1460 then 3 else inGroup / 365;
    r := inGroup - 365 * k;
  }

  lemma YoeOfDigits(doe: nat, c: nat, q: nat, k: nat, r: nat)
    requires c <= 3 && q <= 24 && k <= 3 && r <= 365
    requires r == 365 ==> k == 3 && (q < 24 || c == 3)
    requires doe == 36524 * c + 1461 * q + 365 * k + r
    ensures YoeOf(doe) == 100 * c + 4 * q + k
  {
    var e := if 24 * c + q + 365 * k + r >= 1460 then 1 else 0;
    assert doe == 1460 * (25 * c + q + e) + (24 * c + q + 365 * k + r - 1460 * e);
    assert doe / 1460 == 25 * c + q + e;
    if doe == 146096 {
      assert c == 3 && q == 24 && k == 3 && r == 365;
    } else {
      assert doe / 36524 == c && doe / 146096 == 0;
      assert doe - doe / 1460 + doe / 36524 == 365 * (100 * c + 4 * q + k) + (r - e);
    }
  }

  lemma YearStartDigits(c: nat, q: nat, k: nat)
    requires c <= 3 && q <= 24 && k <= 3
    ensures YearStart(100 * c + 4 * q + k) == 36524 * c + 1461 * q + 365 * k
  {
    var y := 100 * c + 4 * q + k;
    assert y / 100 == c;
    assert y / 4 == 25 * c + q;
  }

  /** The nested divisions find the year of the era that holds the day. */
  lemma YearOfEra(doe: nat)
    requires doe <= 146096
    ensures YoeOf(doe) <= 399
    ensures YearStart(YoeOf(doe)) <= doe < YearStart(YoeOf(doe)) + YearLength(YoeOf(doe))
  {
    var c, q, k, r := EraDigits(doe);
    YoeOfDigits(doe, c, q, k, r);
    YearStartDigits(c, q, k);
    if r == 365 { LongYear(c, q, 100 * c + 4 * q + 4); }
  }

  /** The years with a 366th day are the leap years. */
  lemma LongYear(c: nat, q: nat, y: nat)
    requires c <= 3 && q <= 24 && (q < 24 || c == 3) && y == 100 * c + 4 * q + 4
    ensures Leap(y)
  {
    assert y == 4 * (25 * c + q + 1);
    if q == 24 {
      assert y == 400;
    } else {
      assert y % 100 == 4 * (q + 1);
    }
  }

  // ---------------------------------------------------------------------------
  // Counting days

  /** First day of the year that starts in March of `y`, counted from March of year 0. */
  function EpochStart(y: int): int {
    365 * y + y / 4 - y / 100 + y / 400
  }

  function MonthStart(mp: nat): nat {
    (153 * mp + 2) / 5
  }

  function MarchYear(d: Date): int {
    if d.month <= 2 then d.year - 1 else d.year
  }

  function MarchMonth(m: nat): nat
    requires 1 <= m <= 12
  {
    if m > 2 then m - 3 else m + 9
  }

  /** Day of the March-based year. */
  function YearDay(d: Date): int
    requires ValidDate(d)
  {
    MonthStart(MarchMonth(d.month)) + d.day - 1
  }

  /** Days from 1970-01-01 to a date: the inverse of `Civil`. */
  function DayNumber(d: Date): int
    requires ValidDate(d)
  {
    EpochStart(MarchYear(d)) + YearDay(d) - 719468
  }

  lemma EpochStartOfEra(yoe: nat, era: int)
    requires yoe <= 399
    ensures EpochStart(yoe + 400 * era) == 146097 * era + YearStart(yoe)
  {
    var y := yoe + 400 * era;
    assert y / 4 == yoe / 4 + 100 * era;
    assert y / 100 == yoe / 100 + 4 * era;
    assert y / 400 == era;
  }

  lemma EpochStartNext(y: int)
    ensures EpochStart(y + 1) == EpochStart(y) + YearLength(y)
  {
    Next4(y);
    Next100(y);
    Next400(y);
    Mod4Of100(y + 1);
    Mod100Of400(y + 1);
  }

  lemma Next4(y: int)
    ensures (y + 1) / 4 == y / 4 + (if (y + 1) % 4 == 0 then 1 else 0)
  {}

  lemma Next100(y: int)
    ensures (y + 1) / 100 == y / 100 + (if (y + 1) % 100 == 0 then 1 else 0)
  {}

  lemma Next400(y: int)
    ensures (y + 1) / 400 == y / 400 + (if (y + 1) % 400 == 0 then 1 else 0)
  {}

  lemma Mod4Of100(y: int)
    ensures y % 100 == 0 ==> y % 4 == 0
  {}

  lemma Mod100Of400(y: int)
    ensures y % 400 == 0 ==> y % 100 == 0
  {}

  lemma {:induction false} EpochStartGrows(y1: int, y2: int)
    requires y1 < y2
    ensures EpochStart(y1) + YearLength(y1) <= EpochStart(y2)
    decreases y2 - y1
  {
    EpochStartNext(y1);
    if y1 + 1 < y2 {
      EpochStartGrows(y1 + 1, y2);
    }
  }

  lemma MonthOfYear(doy: nat, mp: nat)
    requires doy <= 365 && mp == (5 * doy + 2) / 153
    ensures mp <= 11 && MonthStart(mp) <= doy < MonthStart(mp + 1)
  {}

  lemma YearDayRange(d: Date)
    requires ValidDate(d)
    ensures 0 <= YearDay(d) < YearLength(MarchYear(d))
  {}

  lemma LeapPeriod(y: int, era: int)
    ensures Leap(y + era * 400) <==> Leap(y)
  {
    assert (y + era * 400) / 4 == y / 4 + 100 * era;
    assert (y + era * 400) / 100 == y / 100 + 4 * era;
    assert (y + era * 400) / 400 == y / 400 + era;
  }

  /** The date is valid and its number is the day it came from. */
  lemma CivilCounts(days: int)
    ensures ValidDate(Civil(days)) && DayNumber(Civil(days)) == days
  {
    var era, doe := CivilSplit(days);
    EraCounts(era, doe);
  }

  lemma CivilSplit(days: int) returns (era: int, doe: nat)
    ensures doe <= 146096 && Civil(days) == CivilInEra(era, doe)
    ensures days == 146097 * era + doe - 719468
  {
    hide CivilInEra, EraOf;
    var z := days + 719468;
    EraRange(z);
    era := EraOf(z);
    doe := z - era * 146097;
  }

  lemma EraCounts(era: int, doe: nat)
    requires doe <= 146096
    ensures ValidDate(CivilInEra(era, doe)) && DayNumber(CivilInEra(era, doe)) == 146097 * era + doe - 719468
  {
    YearOfEra(doe);
    var yoe := YoeOf(doe);
    var y, doy := yoe + era * 400, doe - YearStart(yoe);
    LeapPeriod(yoe + 1, era);
    InEraIs(era, doe, yoe, y, doy);
    MonthAndDayParts(y, doy);
    EpochStartOfEra(yoe, era);
    DayNumberIs(MonthAndDay(y, doy), y, doy);
  }

  lemma InEraIs(era: int, doe: nat, yoe: nat, y: int, doy: nat)
    requires doe <= 146096 && yoe == YoeOf(doe) && y == yoe + era * 400 && doe == YearStart(yoe) + doy
    ensures CivilInEra(era, doe) == MonthAndDay(y, doy)
  {
    hide YoeOf, MonthAndDay;
  }

  lemma DayNumberIs(d: Date, y: int, doy: nat)
    requires ValidDate(d) && MarchYear(d) == y && YearDay(d) == doy
    ensures DayNumber(d) == EpochStart(y) + doy - 719468
  {
    hide EpochStart, YearDay, MarchYear, ValidDate;
  }

  lemma MonthAndDayParts(y: int, doy: nat)
    requires doy < YearLength(y)
    ensures var d := MonthAndDay(y, doy); ValidDate(d) && MarchYear(d) == y && YearDay(d) == doy
  {
    MonthOfYear(doy, (5 * doy + 2) / 153);
  }

  lemma BeforeCounts(a: Date, b: Date)
    requires ValidDate(a) && ValidDate(b) && Before(a, b)
    ensures DayNumber(a) < DayNumber(b)
  {
    hide EpochStart, YearLength;
    YearDayRange(a);
    YearDayRange(b);
    if MarchYear(a) < MarchYear(b) {
      EpochStartGrows(MarchYear(a), MarchYear(b));
    } else {
      assert MarchYear(a) == MarchYear(b);
    }
  }

  lemma BeforeTotal(a: Date, b: Date)
    ensures a == b || Before(a, b) || Before(b, a)
  {}

  lemma NextCounts(d: Date)
    requires ValidDate(d)
    ensures ValidDate(NextDate(d)) && DayNumber(NextDate(d)) == DayNumber(d) + 1
  {
    if d.day == DaysIn(d.year, d.month) {
      if d.month == 2 {
        EpochStartNext(d.year - 1);
      } else {
        MonthEnds(d.year, d.month);
      }
    }
  }

  lemma MonthEnds(y: int, m: nat)
    requires 1 <= m <= 12 && m != 2
    ensures MonthStart(MarchMonth(m)) + DaysIn(y, m) == MonthStart(MarchMonth(if m == 12 then 1 else m + 1))
  {}

  /** The inverse the other way: every valid date comes back from its day number. */
  lemma DayNumberInverts(d: Date)
    requires ValidDate(d)
    ensures Civil(DayNumber(d)) == d
  {
    var d' := Civil(DayNumber(d));
    CivilCounts(DayNumber(d));
    BeforeTotal(d, d');
    if Before(d, d') {
      BeforeCounts(d, d');
    } else if Before(d', d) {
      BeforeCounts(d', d);
    }
  }

  /** The program is the calendar: day 0 is 1970-01-01 and each day is followed by
      the next date under the leap-year rule, on every day before or after. */
  lemma CivilIsTheCalendar(days: int)
    ensures Civil(0) == Date(1970, 1, 1)
    ensures Civil(days + 1) == NextDate(Civil(days))
  {
    DayZero(0, Date(1970, 1, 1));
    NextDay(days, Civil(days));
  }

  lemma DayZero(n: int, d: Date)
    requires n == 0 && d.year == 1970 && d.month == 1 && d.day == 1
    ensures Civil(n) == d
  {
    assert MarchYear(d) == 1969 && MarchMonth(d.month) == 10 && MonthStart(10) == 306;
    assert EpochStart(1969) == 719162;
    DayNumberInverts(d);
  }

  lemma NextDay(days: int, d: Date)
    requires d == Civil(days)
    ensures Civil(days + 1) == NextDate(d)
  {
    hide Civil, DayNumber, NextDate, ValidDate;
    CivilCounts(days);
    NextCounts(d);
    DayNumberInverts(NextDate(d));
  }

  lemma BeforeIff(a: Date, b: Date)
    requires ValidDate(a) && ValidDate(b)
    ensures DayNumber(a) <= DayNumber(b) <==> !Before(b, a)
  {
    BeforeTotal(a, b);
    if Before(a, b) { BeforeCounts(a, b); }
    if Before(b, a) { BeforeCounts(b, a); }
  }

  const MIN_DATE := Date(-0x8000_0000, 1, 1)
  const MAX_DATE := Date(0x7fff_ffff, 12, 31)

  /** The cast keeps the year exactly on the days from 1 January of the least 32-bit
      year to 31 December of the greatest. */
  lemma CastKeepsYear(days: int)
    ensures DaysToYmd(days) == Civil(days) <==> DayNumber(MIN_DATE) <= days <= DayNumber(MAX_DATE)
  {
    var d := Civil(days);
    CivilCounts(days);
    BeforeIff(MIN_DATE, d);
    BeforeIff(d, MAX_DATE);
    CastIff(d);
  }

  lemma CastIff(d: Date)
    requires ValidDate(d)
    ensures Wrap32(d.year) == d.year <==> !Before(d, MIN_DATE) && !Before(MAX_DATE, d)
  {
    assert DaysIn(0x7fff_ffff, 12) == 31;
  }

  /** Later days have later dates. */
  lemma CivilMonotone(a: int, b: int)
    requires a < b
    ensures Before(Civil(a), Civil(b))
  {
    CivilCounts(a);
    CivilCounts(b);
    BeforeTotal(Civil(a), Civil(b));
    if Before(Civil(b), Civil(a)) {
      BeforeCounts(Civil(b), Civil(a));
    }
  }
}
