/** Calendar dates from day numbers, and the daily rollup keyed by them. */
module CivilDate {
  import opened Text

  datatype Date = Date(year: int, month: int, day: int)

  // ---- The Gregorian calendar (section 5.7 and Appendix C of RFC 3339) ----

  predicate IsLeap(y: int) { y % 4 == 0 && (y % 100 != 0 || y % 400 == 0) }

  function DaysInMonth(y: int, m: int): int
    requires 1 <= m <= 12
  {
    if m == 2 then (if IsLeap(y) then 29 else 28)
    else if m == 4 || m == 6 || m == 9 || m == 11 then 30
    else 31
  }

  predicate ValidDate(d: Date) { 1 <= d.month <= 12 && 1 <= d.day <= DaysInMonth(d.year, d.month) }

  function NextDay(d: Date): Date
    requires ValidDate(d)
  {
    if d.day < DaysInMonth(d.year, d.month) then Date(d.year, d.month, d.day + 1)
    else if d.month < 12 then Date(d.year, d.month + 1, 1)
    else Date(d.year + 1, 1, 1)
  }

  /** Chronological order. */
  predicate Before(a: Date, b: Date) {
    a.year < b.year || (a.year == b.year && (a.month < b.month || (a.month == b.month && a.day < b.day)))
  }

  // ---- The algorithm ----

  /** Year of the era from day of the era. */
  function YearOfEra(doe: int): int { (doe - doe / 1460 + doe / 36524 - doe / 146096) / 365 }

  /** First day of a March-based year within its era. */
  function YearStart(yoe: int): int { 365 * yoe + yoe / 4 - yoe / 100 }

  /** First day of a month within its March-based year. */
  function MonthStart(mp: int): int { (153 * mp + 2) / 5 }

  function CivilFromDays(days: int): Date {
    var z := days + 719468;
    var era := z / 146097;
    var doe := z - era * 146097;
    var yoe := YearOfEra(doe);
    var y := yoe + era * 400;
    var doy := doe - YearStart(yoe);
    var mp := (5 * doy + 2) / 153;
    var d := doy - MonthStart(mp) + 1;
    var m := if mp < 10 then mp + 3 else mp - 9;
    Date(if m <= 2 then y + 1 else y, m, d)
  }

  /** `as i32`: the year is kept modulo 2^32. */
  function AsI32(x: int): int {
    var r := x % 0x1_0000_0000;
    if r < 0x8000_0000 then r else r - 0x1_0000_0000
  }

  /** What the function returns: the year passes through a 32-bit cast. */
  function CivilFromDaysCast(days: int): Date {
    var d := CivilFromDays(days);
    d.(year := AsI32(d.year))
  }

  // ---- The inverse: day number of a date ----

  function DayNumber(d: Date): int {
    var y := if d.month <= 2 then d.year - 1 else d.year;
    var era := y / 400;
    var yoe := y - era * 400;
    var mp := if d.month > 2 then d.month - 3 else d.month + 9;
    era * 146097 + YearStart(yoe) + MonthStart(mp) + d.day - 1 - 719468
  }

  // ---- Year of era ----

  /** The last day of a March-based year within its era, plus one. */
  function YearEnd(yoe: int): int { if yoe == 399 then 146097 else YearStart(yoe + 1) }

  /** The year-of-era formula, by centuries and four-year cycles. */
  lemma YearOfEraCycles(c: int, q: int, s: int)
    requires 0 <= c <= 3 && 0 <= q <= 24 && 0 <= s <= 1460
    requires q == 24 && s == 1460 ==> c == 3
    ensures YearOfEra(36524 * c + 1461 * q + s) == 100 * c + 4 * q + (if s == 1460 then 3 else s / 365)
  {
    var doe := 36524 * c + 1461 * q + s;
    var e := if 24 * c + q + s >= 1460 then 1 else 0;
    assert doe == 1460 * (25 * c + q + e) + (24 * c + q + s - 1460 * e);
    assert doe / 1460 == 25 * c + q + e;
    var last := if doe == 146096 then 1 else 0;
    assert doe / 36524 == c + last;
    assert doe / 146096 == last;
    assert doe - doe / 1460 + doe / 36524 - doe / 146096 == 365 * (100 * c + 4 * q) + (s - e);
  }

  lemma YearStartCycles(c: int, q: int, t: int)
    requires 0 <= c <= 3 && 0 <= q <= 24 && 0 <= t <= 3
    ensures YearStart(100 * c + 4 * q + t) == 36524 * c + 1461 * q + 365 * t
  {
    assert (100 * c + 4 * q + t) / 4 == 25 * c + q;
    assert (100 * c + 4 * q + t) / 100 == c;
  }

  /** A day lies in the year the formula assigns to it. */
  lemma YearOfEraBounds(doe: int)
    requires 0 <= doe < 146097
    ensures 0 <= YearOfEra(doe) <= 399
    ensures YearStart(YearOfEra(doe)) <= doe < YearEnd(YearOfEra(doe))
  {
    hide YearOfEra, YearStart;
    var c := if doe == 146096 then 3 else doe / 36524;
    var r := doe - 36524 * c;
    var q := if r == 36524 then 24 else r / 1461;
    var s := r - 1461 * q;
    var t := if s == 1460 then 3 else s / 365;
    YearOfEraCycles(c, q, s);
    YearStartCycles(c, q, t);
    if t < 3 {
      YearStartCycles(c, q, t + 1);
    } else if q < 24 {
      YearStartCycles(c, q + 1, 0);
    } else if c < 3 {
      YearStartCycles(c + 1, 0, 0);
    }
  }

  lemma YearStartGrows(a: int, b: int)
    requires 0 <= a < b <= 399
    ensures YearEnd(a) <= YearStart(b)
  {
    assert (a + 1) / 4 <= b / 4 && b / 100 - (a + 1) / 100 <= b - (a + 1);
  }

  /** No other year contains the day. */
  lemma YearOfEraUnique(doe: int, yoe: int)
    requires 0 <= yoe <= 399 && YearStart(yoe) <= doe < YearEnd(yoe) && 0 <= doe < 146097
    ensures YearOfEra(doe) == yoe
  {
    hide YearOfEra, YearStart;
    var v := YearOfEra(doe);
    YearOfEraBounds(doe);
    if v < yoe { YearStartGrows(v, yoe); }
    if yoe < v { YearStartGrows(yoe, v); }
  }

  // ---- Months and years of the March-based calendar ----

  function MarchMonth(m: int): int { if m > 2 then m - 3 else m + 9 }

  /** Months fit together: each starts where the one before it ends. */
  lemma MonthStarts(y: int, m: int)
    requires 1 <= m <= 12 && m != 2
    ensures MonthStart(MarchMonth(m) + 1) == MonthStart(MarchMonth(m)) + DaysInMonth(y, m)
  {
  }

  /** The month formula finds the month whose span contains the day. */
  lemma MonthUnique(doy: int, mp: int)
    requires 0 <= mp <= 11 && MonthStart(mp) <= doy <= 365 && (mp < 11 ==> doy < MonthStart(mp + 1))
    ensures (5 * doy + 2) / 153 == mp
  {
  }

  lemma MonthBounds(doy: int)
    requires 0 <= doy <= 365
    ensures var mp := (5 * doy + 2) / 153;
      0 <= mp <= 11 && MonthStart(mp) <= doy && (mp < 11 ==> doy < MonthStart(mp + 1))
  {
  }

  lemma LeapPeriod(y: int, era: int)
    ensures IsLeap(y + era * 400) <==> IsLeap(y)
  {
    ModFour(y, 100 * era);
    ModHundred(y, 4 * era);
    ModFourHundred(y, era);
  }

  lemma ModFour(y: int, k: int)
    ensures (y + 4 * k) % 4 == y % 4
  {
  }

  lemma ModHundred(y: int, k: int)
    ensures (y + 100 * k) % 100 == y % 100
  {
  }

  lemma ModFourHundred(y: int, k: int)
    ensures (y + 400 * k) % 400 == y % 400
  {
  }

  lemma YearSpan(yoe: int)
    requires 0 <= yoe <= 399
    ensures YearEnd(yoe) - YearStart(yoe) == if IsLeap(yoe + 1) then 366 else 365
  {
    var y := yoe + 1;
    assert y / 4 - yoe / 4 == if y % 4 == 0 then 1 else 0;
    assert y / 100 - yoe / 100 == if y % 100 == 0 then 1 else 0;
  }

  /** A March-based year has 366 days exactly when the following civil year is a leap year. */
  lemma YearLength(era: int, yoe: int)
    requires 0 <= yoe <= 399
    ensures YearEnd(yoe) - YearStart(yoe) == if IsLeap(yoe + era * 400 + 1) then 366 else 365
  {
    hide IsLeap, YearEnd, YearStart;
    YearSpan(yoe);
    LeapPeriod(yoe + 1, era);
    assert yoe + 1 + era * 400 == yoe + era * 400 + 1;
  }

  lemma EraOf(era: int, rest: int)
    requires 0 <= rest < 146097
    ensures (era * 146097 + rest) / 146097 == era
  {
  }

  lemma YearsOf(era: int, yoe: int)
    requires 0 <= yoe < 400
    ensures (yoe + era * 400) / 400 == era
  {
  }

  // ---- The algorithm inverts the day number ----

  /** The algorithm on a day given by era, year, month and day of the March-based calendar. */
  lemma CivilOf(era: int, yoe: int, mp: int, d: int)
    requires 0 <= yoe <= 399 && 0 <= mp <= 11 && 1 <= d
    requires mp < 11 ==> MonthStart(mp) + d <= MonthStart(mp + 1)
    requires YearStart(yoe) + MonthStart(mp) + d <= YearEnd(yoe)
    ensures CivilFromDays(era * 146097 + YearStart(yoe) + MonthStart(mp) + d - 1 - 719468) ==
      var m := if mp < 10 then mp + 3 else mp - 9;
      Date(if m <= 2 then yoe + era * 400 + 1 else yoe + era * 400, m, d)
  {
    hide YearOfEra, YearStart;
    var doe := YearStart(yoe) + MonthStart(mp) + d - 1;
    YearLength(era, yoe);
    assert doe < 146097 by { if yoe < 399 { YearStartGrows(yoe, 399); YearLength(0, 399); } }
    assert 0 <= YearStart(yoe) by { YearStartPositive(yoe); }
    EraOf(era, doe);
    YearOfEraUnique(doe, yoe);
    MonthUnique(MonthStart(mp) + d - 1, mp);
  }

  lemma YearStartPositive(yoe: int)
    requires 0 <= yoe
    ensures 0 <= YearStart(yoe)
  {
  }

  /** Every valid date comes back from its own day number. */
  lemma CivilOfDayNumber(d: Date)
    requires ValidDate(d)
    ensures CivilFromDays(DayNumber(d)) == d
  {
    hide CivilFromDays, YearStart, YearEnd, IsLeap;
    var y := if d.month <= 2 then d.year - 1 else d.year;
    var era, mp := y / 400, MarchMonth(d.month);
    var yoe := y - era * 400;
    YearLength(era, yoe);
    if d.month != 2 { MonthStarts(d.year, d.month); }
    CivilOf(era, yoe, mp, d.day);
  }

  /** Every day number comes back from its own date, and that date exists. */
  lemma DayNumberOfCivil(n: int)
    ensures ValidDate(CivilFromDays(n)) && DayNumber(CivilFromDays(n)) == n
  {
    hide YearOfEra, YearStart, YearEnd, IsLeap;
    var z := n + 719468;
    var era := z / 146097;
    var doe := z - era * 146097;
    var yoe := YearOfEra(doe);
    YearOfEraBounds(doe);
    YearLength(era, yoe);
    var doy := doe - YearStart(yoe);
    MonthBounds(doy);
    var mp := (5 * doy + 2) / 153;
    var date := CivilFromDays(n);
    var year, month := yoe + era * 400, if mp < 10 then mp + 3 else mp - 9;
    assert date == Date(if mp < 10 then year else year + 1, month, doy - MonthStart(mp) + 1);
    hide CivilFromDays;
    if mp < 11 { MonthStarts(date.year, date.month); }
    YearsOf(era, yoe);
  }

  /** The day number of tomorrow. */
  lemma DayNumberNext(d: Date)
    requires ValidDate(d)
    ensures ValidDate(NextDay(d)) && DayNumber(NextDay(d)) == DayNumber(d) + 1
  {
    hide YearStart, IsLeap;
    if d.day == DaysInMonth(d.year, d.month) {
      if d.month != 2 {
        MonthStarts(d.year, d.month);
      } else {
        var era := (d.year - 1) / 400;
        NewMarchYear(d.year, era, d.year - 1 - era * 400);
      }
    }
  }

  lemma DayNumberIs(d: Date, era: int, yoe: int)
    requires 0 <= yoe < 400 && 1 <= d.month <= 12
    requires yoe + era * 400 == if d.month <= 2 then d.year - 1 else d.year
    ensures DayNumber(d) == era * 146097 + YearStart(yoe) + MonthStart(MarchMonth(d.month)) + d.day - 1 - 719468
  {
    hide YearStart, MonthStart;
    YearsOf(era, yoe);
  }

  lemma MarchConstants()
    ensures YearStart(0) == 0 && MonthStart(MarchMonth(2)) == 337 && MonthStart(MarchMonth(3)) == 0
  {
  }

  /** The last day of February ends the March-based year. */
  lemma NewMarchYear(year: int, era: int, yoe: int)
    requires 0 <= yoe < 400 && yoe + era * 400 + 1 == year
    ensures DayNumber(Date(year, 3, 1)) == DayNumber(Date(year, 2, DaysInMonth(year, 2))) + 1
  {
    hide IsLeap, YearStart, MonthStart, MarchMonth, DayNumber;
    MarchConstants();
    YearLength(era, yoe);
    DayNumberIs(Date(year, 2, DaysInMonth(year, 2)), era, yoe);
    if yoe == 399 {
      DayNumberIs(Date(year, 3, 1), era + 1, 0);
    } else {
      DayNumberIs(Date(year, 3, 1), era, yoe + 1);
    }
  }

  lemma Epoch()
    ensures CivilFromDays(0) == Date(1970, 1, 1)
  {
    assert YearOfEra(135080) == 369 && YearStart(369) == 134774 && MonthStart(10) == 306;
    assert 719468 / 146097 == 4;
    hide YearOfEra, YearStart, MonthStart;
  }

  /** Day 0 is 1970-01-01, and each following day number is the Gregorian next day, for every integer. */
  lemma CivilIsGregorian(n: int)
    ensures CivilFromDays(0) == Date(1970, 1, 1)
    ensures ValidDate(CivilFromDays(n)) && CivilFromDays(n + 1) == NextDay(CivilFromDays(n))
  {
    Epoch();
    hide CivilFromDays, DayNumber, NextDay, ValidDate;
    DayNumberOfCivil(n);
    DayNumberNext(CivilFromDays(n));
    CivilOfDayNumber(NextDay(CivilFromDays(n)));
  }

  /** Later days have later dates; in particular no two days share a date. */
  lemma {:induction false} CivilKeepsOrder(a: int, b: int)
    requires a < b
    ensures Before(CivilFromDays(a), CivilFromDays(b))
    decreases b - a
  {
    hide CivilFromDays;
    CivilIsGregorian(b - 1);
    if a < b - 1 { CivilKeepsOrder(a, b - 1); }
  }

  /** The 32-bit cast is exact precisely when the year fits. */
  lemma CastIsExactIff(n: int)
    ensures CivilFromDaysCast(n) == CivilFromDays(n) <==> -0x8000_0000 <= CivilFromDays(n).year < 0x8000_0000
  {
    hide CivilFromDays;
    AsI32Exact(CivilFromDays(n).year);
  }

  lemma AsI32Exact(x: int)
    ensures AsI32(x) == x <==> -0x8000_0000 <= x < 0x8000_0000
  {
  }

  /** Dates the cast makes equal: the same month and day, and years that differ by a multiple of 2^32. */
  predicate SameCast(a: Date, b: Date) {
    a.month == b.month && a.day == b.day && (a.year - b.year) % 0x1_0000_0000 == 0
  }

  /** Two days get the same date if and only if the cast makes their dates equal. */
  lemma CastAgreeIff(a: int, b: int)
    ensures CivilFromDaysCast(a) == CivilFromDaysCast(b) <==> SameCast(CivilFromDays(a), CivilFromDays(b))
  {
    hide CivilFromDays;
    AsI32AgreeIff(CivilFromDays(a).year, CivilFromDays(b).year);
  }

  lemma AsI32AgreeIff(x: int, y: int)
    ensures AsI32(x) == AsI32(y) <==> (x - y) % 0x1_0000_0000 == 0
  {
  }

  /** Day 0 and the first of January 2^32 years later get the same date. */
  lemma CastRepeats()
    ensures CivilFromDaysCast(1568704592610) == CivilFromDaysCast(0)
  {
    var later := Date(4294969266, 1, 1);
    Epoch();
    hide CivilFromDays;
    assert DayNumber(later) == 1568704592610;
    CivilOfDayNumber(later);
    CastAgreeIff(1568704592610, 0);
  }

  // ---- Date keys ----

  function Zeros(n: nat): string { if n == 0 then "" else Zeros(n - 1) + "0" }

  /** `{:0w}` for a non-negative number. */
  function Pad(n: nat, w: nat): string {
    var s := Decimal(n);
    if |s| >= w then s else Zeros(w - |s|) + s
  }

  /** `{:0w}` for any number: a sign counts towards the width. */
  function PadSigned(n: int, w: nat): string
    requires w > 0
  {
    if n >= 0 then Pad(n, w) else "-" + Pad(-n, w - 1)
  }

  /** `{y:04}-{m:02}-{d:02}`. */
  function DateKey(d: Date): string
    requires d.month >= 0 && d.day >= 0
  {
    PadSigned(d.year, 4) + ("-" + (Pad(d.month, 2) + ("-" + Pad(d.day, 2))))
  }

  /** Month and day in the range of some date, whatever the year. */
  predicate PlausibleDate(d: Date) { 1 <= d.month <= 12 && 1 <= d.day <= 31 }

  lemma {:induction false} ZerosValue(n: nat, s: string)
    requires AllDigits(s)
    ensures AllDigits(Zeros(n) + s) && NumeralValue(Zeros(n) + s) == NumeralValue(s) && |Zeros(n)| == n
    decreases n, |s|
  {
    var t := Zeros(n) + s;
    if s != "" {
      assert t[..|t| - 1] == Zeros(n) + s[..|s| - 1];
      ZerosValue(n, s[..|s| - 1]);
    } else if n > 0 {
      ZerosValue(n - 1, "");
      assert Zeros(n - 1) + "" == Zeros(n - 1) && t == Zeros(n);
      assert t[..|t| - 1] == Zeros(n - 1) && t[|t| - 1] == '0';
    }
  }

  lemma PadValue(n: nat, w: nat)
    ensures AllDigits(Pad(n, w)) && NumeralValue(Pad(n, w)) == n && |Pad(n, w)| >= w
  {
    DecimalValue(n);
    if |Decimal(n)| < w { ZerosValue(w - |Decimal(n)|, Decimal(n)); }
  }

  lemma PadTwo(n: nat)
    requires n < 100
    ensures |Pad(n, 2)| == 2
  {
    if n < 10 { ZerosValue(1, ""); } else { assert |Decimal(n / 10)| == 1; }
  }

  lemma PadFour(n: nat)
    requires n < 10000
    ensures |Pad(n, 4)| == 4
  {
    DecimalLength(n);
    if |Decimal(n)| < 4 { ZerosValue(4 - |Decimal(n)|, ""); }
  }

  lemma DecimalLength(n: nat)
    requires n < 10000
    ensures |Decimal(n)| == if n < 10 then 1 else if n < 100 then 2 else if n < 1000 then 3 else 4
  {
    assert n >= 10 ==> |Decimal(n)| == |Decimal(n / 10)| + 1;
    assert n >= 100 ==> |Decimal(n / 10)| == |Decimal(n / 100)| + 1 by { assert n / 10 / 10 == n / 100; }
    assert n >= 1000 ==> |Decimal(n / 100)| == |Decimal(n / 1000)| + 1 by { assert n / 100 / 10 == n / 1000; }
  }

  function Number(s: string): int { if AllDigits(s) then NumeralValue(s) else 0 }

  function SignedNumber(s: string): int { if s != "" && s[0] == '-' then -Number(s[1..]) else Number(s) }

  lemma SignedNumberOfPad(n: int, w: nat)
    requires w > 0
    ensures SignedNumber(PadSigned(n, w)) == n
  {
    hide Pad, Number;
    if n >= 0 {
      PadValue(n, w);
      NumberOfPad(n, w);
      assert IsDigit(Pad(n, w)[0]);
    } else {
      NumberOfPad(-n, w - 1);
      assert ("-" + Pad(-n, w - 1))[1..] == Pad(-n, w - 1);
    }
  }

  /** Read a key back: the three numbers stand at positions counted from its end. */
  function ParseKey(k: string): Date
    requires |k| >= 6
  {
    var n := |k| - 6;
    Date(SignedNumber(k[..n]), Number(k[n + 1..n + 3]), Number(k[n + 4..]))
  }

  lemma KeyRoundTrip(d: Date)
    requires PlausibleDate(d)
    ensures |DateKey(d)| >= 6 && ParseKey(DateKey(d)) == d
  {
    hide Pad, PadSigned, Number, SignedNumber;
    PadTwo(d.month);
    PadTwo(d.day);
    SignedNumberOfPad(d.year, 4);
    NumberOfPad(d.month, 2);
    NumberOfPad(d.day, 2);
    var y, m, e := PadSigned(d.year, 4), Pad(d.month, 2), Pad(d.day, 2);
    KeyParts(y, m, e);
  }

  lemma NumberOfPad(n: nat, w: nat)
    ensures Number(Pad(n, w)) == n
  {
    hide Pad, NumeralValue, AllDigits;
    PadValue(n, w);
  }

  lemma KeyParts(y: string, m: string, e: string)
    requires |m| == 2 && |e| == 2
    ensures var k := y + ("-" + (m + ("-" + e)));
      |k| == |y| + 6 && k[..|y|] == y && k[|y| + 1..|y| + 3] == m && k[|y| + 4..] == e
  {
  }

  /** The key of a date of the years 0 to 9999: four, two and two digits, with dashes between them. */
  lemma DateKeyForm(d: Date)
    requires PlausibleDate(d) && 0 <= d.year < 10000
    ensures var k := DateKey(d);
      && |k| == 10 && k[4] == '-' && k[7] == '-'
      && AllDigits(k[..4]) && AllDigits(k[5..7]) && AllDigits(k[8..])
      && NumeralValue(k[..4]) == d.year && NumeralValue(k[5..7]) == d.month && NumeralValue(k[8..]) == d.day
  {
    hide Pad, NumeralValue, AllDigits;
    PadFour(d.year);
    PadTwo(d.month);
    PadTwo(d.day);
    PadValue(d.year, 4);
    PadValue(d.month, 2);
    PadValue(d.day, 2);
    var y, m, e := Pad(d.year, 4), Pad(d.month, 2), Pad(d.day, 2);
    KeyParts(y, m, e);
    assert DateKey(d) == y + ("-" + (m + ("-" + e)));
  }

  /** Distinct dates have distinct keys. */
  lemma DateKeyInjective(a: Date, b: Date)
    requires PlausibleDate(a) && PlausibleDate(b)
    requires DateKey(a) == DateKey(b)
    ensures a == b
  {
    hide DateKey, ParseKey;
    KeyRoundTrip(a);
    KeyRoundTrip(b);
  }
}
