/** The ISO 8601 form of the build timestamp (`format_iso8601_utc` of `build.rs`),
    which is the `date-time` of section 5.6 of RFC 3339. */
module Timestamp {
  import opened Text
  import opened Calendar

  /** `{n:0w}` for an unsigned number. */
  function Pad(n: nat, width: nat): string {
    Zeros(width - |Decimal(n)|) + Decimal(n)
  }

  function Zeros(k: int): string
    decreases k
  {
    if k <= 0 then "" else "0" + Zeros(k - 1)
  }

  /** `{n:0w}` for a signed number: the sign takes one place. */
  function PadSigned(n: int, width: nat): string {
    if n < 0 then "-" + Pad(-n, if width == 0 then 0 else width - 1) else Pad(n, width)
  }

  datatype Moment = Moment(date: Date, hour: nat, minute: nat, second: nat)

  /** The fields printed for a number of seconds since 1970. */
  function MomentOf(secs: nat): Moment {
    var days := secs / 86400;
    var secsOfDay := secs % 86400;
    Moment(DaysToYmd(days), secsOfDay / 3600, (secsOfDay % 3600) / 60, secsOfDay % 60)
  }

  function Render(m: Moment): string {
    PadSigned(m.date.year, 4) + ("-" + (Pad(m.date.month, 2) + ("-" + (Pad(m.date.day, 2) + ("T"
      + (Pad(m.hour, 2) + (":" + (Pad(m.minute, 2) + (":" + (Pad(m.second, 2) + "Z"))))))))))
  }

  /** `format_iso8601_utc`. */
  function Format(secs: nat): string {
    Render(MomentOf(secs))
  }

  // ---------------------------------------------------------------------------
  // A reader for the fixed form

  predicate IsDigit(c: char) {
    '0' <= c <= '9'
  }

  function DigitValue(c: char): nat
    requires IsDigit(c)
  {
    c as int - '0' as int
  }

  predicate DigitsAt(s: string, i: nat, n: nat) {
    i + n <= |s| && forall j :: i <= j < i + n ==> IsDigit(s[j])
  }

  function Two(s: string, i: nat): nat
    requires DigitsAt(s, i, 2)
  {
    10 * DigitValue(s[i]) + DigitValue(s[i + 1])
  }

  predicate Shaped(s: string) {
    && |s| == 20
    && DigitsAt(s, 0, 4) && s[4] == '-' && DigitsAt(s, 5, 2) && s[7] == '-' && DigitsAt(s, 8, 2) && s[10] == 'T'
    && DigitsAt(s, 11, 2) && s[13] == ':' && DigitsAt(s, 14, 2) && s[16] == ':' && DigitsAt(s, 17, 2) && s[19] == 'Z'
  }

  function Fields(s: string): Moment
    requires Shaped(s)
  {
    Moment(Date(100 * Two(s, 0) + Two(s, 2), Two(s, 5), Two(s, 8)), Two(s, 11), Two(s, 14), Two(s, 17))
  }

  predicate ValidMoment(m: Moment) {
    ValidDate(m.date) && 0 <= m.date.year <= 9999 && m.hour < 24 && m.minute < 60 && m.second < 60
  }

  function SecondsOf(m: Moment): int
    requires ValidMoment(m)
  {
    86400 * DayNumber(m.date) + 3600 * m.hour + 60 * m.minute + m.second
  }

  /** The second a timestamp names, if it is one. */
  function Read(s: string): Option<int> {
    if Shaped(s) && ValidMoment(Fields(s)) then Some(SecondsOf(Fields(s))) else None
  }

  // ---------------------------------------------------------------------------
  // Digits

  lemma {:induction false} DecimalLength(n: nat)
    ensures n < 10 ==> |Decimal(n)| == 1
    ensures 10 <= n < 100 ==> |Decimal(n)| == 2
    ensures 100 <= n < 1000 ==> |Decimal(n)| == 3
    ensures 1000 <= n < 10000 ==> |Decimal(n)| == 4
    ensures n >= 10000 ==> |Decimal(n)| >= 5
  {
    if n >= 10 { DecimalLength(n / 10); }
  }

  lemma PadTwo(n: nat)
    requires n < 100
    ensures Pad(n, 2) == [Digit(n / 10), Digit(n % 10)]
  {
    DecimalLength(n);
    if n >= 10 {
      assert Decimal(n / 10) == [Digit(n / 10)];
    }
  }

  lemma PadFour(n: nat)
    requires n < 10000
    ensures Pad(n, 4) == Pad(n / 100, 2) + Pad(n % 100, 2)
  {
    PadTwo(n / 100);
    PadTwo(n % 100);
    DecimalLength(n);
    var a, b := n / 10, n / 10 / 10;
    assert n / 100 == b && n % 100 / 10 == a % 10 && n % 100 % 10 == n % 10;
    DecimalTop(b);
    if n < 100 {
      assert Zeros(2) + Pad(n, 2) == Pad(n, 4);
    }
  }

  lemma DecimalTop(b: nat)
    requires b < 100
    ensures Decimal(b) == if b < 10 then [Digit(b)] else [Digit(b / 10), Digit(b % 10)]
  {
    if b >= 10 { assert Decimal(b / 10) == [Digit(b / 10)]; }
  }

  /** A separator followed by a two-digit field, as a prefix. */
  lemma TwoChars(n: nat, sep: string, rest: string, s: string)
    requires n < 100 && s == Pad(n, 2) + (sep + rest) && |sep| == 1
    ensures |s| == 3 + |rest| && s[3..] == rest && s[2] == sep[0]
    ensures DigitsAt(s, 0, 2) && Two(s, 0) == n
  {
    PadTwo(n);
  }

  function Clock(m: Moment): string {
    Pad(m.hour, 2) + (":" + (Pad(m.minute, 2) + (":" + (Pad(m.second, 2) + "Z"))))
  }

  lemma ClockFields(m: Moment)
    requires m.hour < 24 && m.minute < 60 && m.second < 60
    ensures var s := Clock(m);
      && |s| == 9 && DigitsAt(s, 0, 2) && s[2] == ':' && DigitsAt(s, 3, 2) && s[5] == ':' && DigitsAt(s, 6, 2) && s[8] == 'Z'
      && Two(s, 0) == m.hour && Two(s, 3) == m.minute && Two(s, 6) == m.second
  {
    var s := Clock(m);
    var s1, s2 := s[3..], s[6..];
    TwoChars(m.hour, ":", Pad(m.minute, 2) + (":" + (Pad(m.second, 2) + "Z")), s);
    TwoChars(m.minute, ":", Pad(m.second, 2) + "Z", s1);
    assert s1[3..] == s2 == Pad(m.second, 2) + ("Z" + "");
    TwoChars(m.second, "Z", "", s2);
  }

  function Day(d: Date): string {
    Pad(d.month, 2) + ("-" + (Pad(d.day, 2) + "T"))
  }

  lemma DayFields(d: Date)
    requires ValidDate(d)
    ensures var s := Day(d);
      && |s| == 6 && DigitsAt(s, 0, 2) && s[2] == '-' && DigitsAt(s, 3, 2) && s[5] == 'T'
      && Two(s, 0) == d.month && Two(s, 3) == d.day
  {
    var s := Day(d);
    var s1 := s[3..];
    TwoChars(d.month, "-", Pad(d.day, 2) + "T", s);
    assert s1 == Pad(d.day, 2) + ("T" + "");
    TwoChars(d.day, "T", "", s1);
  }

  lemma YearFields(y: nat)
    requires y <= 9999
    ensures |Pad(y, 4)| == 4 && DigitsAt(Pad(y, 4), 0, 4) && 100 * Two(Pad(y, 4), 0) + Two(Pad(y, 4), 2) == y
  {
    PadFour(y);
    PadTwo(y / 100);
    PadTwo(y % 100);
  }

  lemma RenderParts(m: Moment)
    ensures Render(m) == PadSigned(m.date.year, 4) + "-" + Day(m.date) + Clock(m)
  {
    var y, mo, d, c := PadSigned(m.date.year, 4), Pad(m.date.month, 2), Pad(m.date.day, 2), Clock(m);
    assert mo + ("-" + (d + ("T" + c))) == Day(m.date) + c;
    assert y + ("-" + (Day(m.date) + c)) == y + "-" + Day(m.date) + c;
  }

  /** A rendered moment of the years 0 to 9999 has the fixed shape and reads back. */
  lemma RenderReads(m: Moment)
    requires ValidMoment(m)
    ensures Shaped(Render(m)) && Fields(Render(m)) == m
  {
    RenderParts(m);
    YearFields(m.date.year);
    DayFields(m.date);
    ClockFields(m);
    var y, d, c, s := Pad(m.date.year, 4), Day(m.date), Clock(m), Render(m);
    assert s[..4] == y && s[4] == '-';
    assert s[5..11] == d;
    assert s[11..] == c;
    ShapedParts(s, y, d, c);
  }

  lemma ShapedParts(s: string, y: string, d: string, c: string)
    requires |s| == 20 && s[..4] == y && s[4] == '-' && s[5..11] == d && s[11..] == c
    requires DigitsAt(y, 0, 4)
    requires DigitsAt(d, 0, 2) && d[2] == '-' && DigitsAt(d, 3, 2) && d[5] == 'T'
    requires DigitsAt(c, 0, 2) && c[2] == ':' && DigitsAt(c, 3, 2) && c[5] == ':' && DigitsAt(c, 6, 2) && c[8] == 'Z'
    ensures Shaped(s)
    ensures Two(s, 0) == Two(y, 0) && Two(s, 2) == Two(y, 2) && Two(s, 5) == Two(d, 0) && Two(s, 8) == Two(d, 3)
    ensures Two(s, 11) == Two(c, 0) && Two(s, 14) == Two(c, 3) && Two(s, 17) == Two(c, 6)
  {
    forall i | 0 <= i < 4 ensures s[i] == y[i] {}
    forall i | 0 <= i < 6 ensures s[5 + i] == d[i] {}
    forall i | 0 <= i < 9 ensures s[11 + i] == c[i] {}
  }

  // ---------------------------------------------------------------------------
  // Seconds to text and back

  /** The first second of the year 10000. */
  const LIMIT: nat := 253402300800

  lemma YearBounds(d: Date)
    requires ValidDate(d) && DayNumber(d) >= 0
    ensures d.year >= 1970
    ensures d.year <= 9999 <==> DayNumber(d) < 2932897
  {
    hide DayNumber;
    var first, last := Date(1970, 1, 1), Date(9999, 12, 31);
    EndDates(first, last);
    BeforeIff(first, d);
    BeforeIff(d, last);
  }

  lemma EndDates(first: Date, last: Date)
    requires first == Date(1970, 1, 1) && last == Date(9999, 12, 31)
    ensures ValidDate(first) && ValidDate(last) && DayNumber(first) == 0 && DayNumber(last) == 2932896
  {}

  lemma DateBounds()
    ensures DayNumber(MIN_DATE) <= 0 && DayNumber(MAX_DATE) > 2932897
  {}

  lemma DaysOfYears(days: nat)
    ensures ValidDate(Civil(days)) && Civil(days).year >= 1970
    ensures Civil(days).year <= 9999 <==> days < 2932897
    ensures days <= DayNumber(MAX_DATE) ==> DaysToYmd(days) == Civil(days)
  {
    CivilCounts(days);
    YearBounds(Civil(days));
    CastKeepsYear(days);
    DateBounds();
  }

  lemma MomentCounts(secs: nat)
    requires secs < LIMIT
    ensures ValidMoment(MomentOf(secs)) && SecondsOf(MomentOf(secs)) == secs
  {
    var days := secs / 86400;
    DaysOfYears(days);
    DateBounds();
    CivilCounts(days);
    ClockCounts(secs % 86400);
  }

  lemma ClockCounts(s: nat)
    requires s < 86400
    ensures s / 3600 < 24 && s % 3600 / 60 < 60 && s % 60 < 60
    ensures 3600 * (s / 3600) + 60 * (s % 3600 / 60) + s % 60 == s
  {
    var h, r := s / 3600, s % 3600;
    assert s == 60 * (60 * h) + r;
    assert s % 60 == r % 60;
  }

  /** Before the year 10000 a timestamp has 20 characters and names its own second. */
  lemma FormatReadsBack(secs: nat)
    requires secs < LIMIT
    ensures |Format(secs)| == 20 && Read(Format(secs)) == Some(secs)
  {
    MomentCounts(secs);
    RenderReads(MomentOf(secs));
  }

  lemma {:induction false} ZerosLength(k: int)
    ensures |Zeros(k)| == if k <= 0 then 0 else k
    decreases k
  {
    if k > 0 { ZerosLength(k - 1); }
  }

  lemma YearLengthIs(y: int)
    ensures |PadSigned(y, 4)| == 4 <==> -999 <= y <= 9999
  {
    var n, w := if y < 0 then -y else y, if y < 0 then 3 else 4;
    DecimalLength(n);
    ZerosLength(w - |Decimal(n)|);
  }

  lemma DayLength(d: Date)
    requires d.month < 100 && d.day < 100
    ensures |Day(d)| == 6
  {
    PadTwo(d.month);
    PadTwo(d.day);
  }

  /** For every number of seconds: a timestamp has 20 characters exactly when its year, as
      the cast leaves it, needs four. Where the cast keeps the year, that is before 10000. */
  lemma FormatLength(secs: nat)
    ensures |Format(secs)| == 20 <==> -999 <= DaysToYmd(secs / 86400).year <= 9999
    ensures secs / 86400 <= DayNumber(MAX_DATE) ==> (|Format(secs)| == 20 <==> secs < LIMIT)
  {
    var m := MomentOf(secs);
    CivilCounts(secs / 86400);
    DaysOfYears(secs / 86400);
    RenderParts(m);
    YearLengthIs(m.date.year);
    DayLength(m.date);
    ClockCounts(secs % 86400);
    ClockFields(m);
  }

  lemma SamePairs(a: string, b: string, i: nat)
    requires DigitsAt(a, i, 2) && DigitsAt(b, i, 2)
    ensures Two(a, i) == Two(b, i) <==> a[i] == b[i] && a[i + 1] == b[i + 1]
  {}

  lemma SameFields(a: string, b: string)
    requires Shaped(a) && Shaped(b) && Fields(a) == Fields(b)
    ensures a == b
  {
    assert Two(a, 0) == Two(b, 0) && Two(a, 2) == Two(b, 2);
    SamePairs(a, b, 0);
    SamePairs(a, b, 2);
    SamePairs(a, b, 5);
    SamePairs(a, b, 8);
    SamePairs(a, b, 11);
    SamePairs(a, b, 14);
    SamePairs(a, b, 17);
  }

  /** The only text that reads as a second from 1970 on is its timestamp. */
  lemma ReadFormats(s: string, secs: nat)
    requires Read(s) == Some(secs)
    ensures secs < LIMIT && Format(secs) == s
  {
    var m := Fields(s);
    BeforeIff(m.date, Date(9999, 12, 31));
    assert DayNumber(Date(9999, 12, 31)) == 2932896;
    var sod := 3600 * m.hour + 60 * m.minute + m.second;
    assert sod < 86400;
    DivModOfDay(secs, DayNumber(m.date), sod);
    ClockDigits(m.hour, m.minute, m.second);
    DayNumberInverts(m.date);
    DaysOfYears(secs / 86400);
    DateBounds();
    assert MomentOf(secs) == m;
    RenderReads(m);
    SameFields(s, Render(m));
  }

  lemma DivModOfDay(secs: nat, days: int, sod: nat)
    requires secs == 86400 * days + sod && sod < 86400
    ensures days >= 0 && secs / 86400 == days && secs % 86400 == sod
  {}

  lemma ClockDigits(h: nat, m: nat, s: nat)
    requires h < 24 && m < 60 && s < 60
    ensures var sod := 3600 * h + 60 * m + s; sod / 3600 == h && sod % 3600 / 60 == m && sod % 60 == s
  {
    var sod := 3600 * h + 60 * m + s;
    assert sod == 60 * (60 * h + m) + s;
  }

  // ---------------------------------------------------------------------------
  // Order

  predicate Earlier(a: Moment, b: Moment) {
    Before(a.date, b.date) || (a.date == b.date && 3600 * a.hour + 60 * a.minute + a.second < 3600 * b.hour + 60 * b.minute + b.second)
  }

  lemma LessPair(a: string, b: string, i: nat)
    requires |a| == |b| && DigitsAt(a, i, 2) && DigitsAt(b, i, 2) && a[..i] == b[..i]
    ensures Two(a, i) < Two(b, i) ==> Less(a, b)
    ensures Two(a, i) == Two(b, i) ==> a[..i + 2] == b[..i + 2]
  {
    if Two(a, i) < Two(b, i) {
      if a[i] == b[i] {
        assert a[..i + 1] == a[..i] + [a[i]] && b[..i + 1] == b[..i] + [b[i]];
        LessAt(a, b, i + 1);
      } else {
        LessAt(a, b, i);
      }
    } else if Two(a, i) == Two(b, i) {
      SamePairs(a, b, i);
      assert a[..i + 2] == a[..i] + [a[i], a[i + 1]] && b[..i + 2] == b[..i] + [b[i], b[i + 1]];
    }
  }

  lemma NextChar(a: string, b: string, i: nat)
    requires i < |a| && i < |b| && a[..i] == b[..i] && a[i] == b[i]
    ensures a[..i + 1] == b[..i + 1]
  {
    assert a[..i + 1] == a[..i] + [a[i]] && b[..i + 1] == b[..i] + [b[i]];
  }

  lemma EarlierIsLess(a: string, b: string)
    requires Shaped(a) && Shaped(b) && ValidMoment(Fields(a)) && ValidMoment(Fields(b))
    requires Earlier(Fields(a), Fields(b))
    ensures Less(a, b)
  {
    LessPair(a, b, 0);
    if Two(a, 0) == Two(b, 0) {
      LessPair(a, b, 2);
      if Two(a, 2) == Two(b, 2) {
        NextChar(a, b, 4);
        LessPair(a, b, 5);
        if Two(a, 5) == Two(b, 5) {
          NextChar(a, b, 7);
          LessPair(a, b, 8);
          if Two(a, 8) == Two(b, 8) {
            NextChar(a, b, 10);
            EarlierClock(a, b);
          }
        }
      }
    }
  }

  lemma EarlierClock(a: string, b: string)
    requires Shaped(a) && Shaped(b) && ValidMoment(Fields(a)) && ValidMoment(Fields(b))
    requires a[..11] == b[..11]
    requires 3600 * Two(a, 11) + 60 * Two(a, 14) + Two(a, 17) < 3600 * Two(b, 11) + 60 * Two(b, 14) + Two(b, 17)
    ensures Less(a, b)
  {
    assert Two(a, 14) < 60 && Two(b, 14) < 60 && Two(a, 17) < 60 && Two(b, 17) < 60;
    LessPair(a, b, 11);
    if Two(a, 11) == Two(b, 11) {
      NextChar(a, b, 13);
      LessPair(a, b, 14);
      if Two(a, 14) == Two(b, 14) {
        NextChar(a, b, 16);
        LessPair(a, b, 17);
      }
    }
  }

  lemma MomentOfDay(secs: nat)
    requires secs < LIMIT
    ensures var m := MomentOf(secs);
      ValidMoment(m) && m.date == Civil(secs / 86400) && 3600 * m.hour + 60 * m.minute + m.second == secs % 86400
  {
    MomentCounts(secs);
    DaysOfYears(secs / 86400);
    DateBounds();
    ClockCounts(secs % 86400);
  }

  lemma SecondsOrder(a: nat, b: nat, m: Moment, n: Moment)
    requires a < b < LIMIT && m == MomentOf(a) && n == MomentOf(b)
    ensures ValidMoment(m) && ValidMoment(n) && Earlier(m, n)
  {
    hide MomentOf, ValidMoment, Civil, Before;
    MomentOfDay(a);
    MomentOfDay(b);
    if a / 86400 < b / 86400 {
      CivilMonotone(a / 86400, b / 86400);
    }
  }

  lemma FormatIncreases(a: nat, b: nat)
    requires a < b < LIMIT
    ensures Less(Format(a), Format(b))
  {
    var m, n := MomentOf(a), MomentOf(b);
    SecondsOrder(a, b, m, n);
    RenderReads(m);
    RenderReads(n);
    EarlierIsLess(Render(m), Render(n));
  }

  /** Before the year 10000, timestamps sort as strings the way their seconds do
      (section 5.1 of RFC 3339). */
  lemma StringOrderIsTimeOrder(a: nat, b: nat)
    requires a < LIMIT && b < LIMIT
    ensures Less(Format(a), Format(b)) <==> a < b
  {
    LessTotal(Format(a), Format(b));
    if a < b {
      FormatIncreases(a, b);
    } else if b < a {
      FormatIncreases(b, a);
    }
  }
}
