/**
 The UTC timestamp printer of the updater. The closed-form era arithmetic is proved equal to
 counting Gregorian days one at a time from 1970-01-01.
 */
module Calendar {

  datatype Date = Date(year: int, month: int, day: int)

  const EPOCH := Date(1970, 1, 1)

  /** The Gregorian leap-year rule (RFC 3339, Appendix C). */
  predicate IsLeap(year: int) {
    year % 4 == 0 && (year % 100 != 0 || year % 400 == 0)
  }

  function DaysInMonth(year: int, month: int): int
    requires 1 <= month <= 12
  {
    if month == 2 then (if IsLeap(year) then 29 else 28)
    else if month in {4, 6, 9, 11} then 30
    else 31
  }

  predicate IsDate(d: Date) {
    1 <= d.month <= 12 && 1 <= d.day <= DaysInMonth(d.year, d.month)
  }

  /** The day after `d` (RFC 3339, section 5.7). */
  function Successor(d: Date): Date
    requires IsDate(d)
  {
    if d.day < DaysInMonth(d.year, d.month) then d.(day := d.day + 1)
    else if d.month < 12 then Date(d.year, d.month + 1, 1)
    else Date(d.year + 1, 1, 1)
  }

  /** The date `days` days after 1970-01-01, counted one day at a time. */
  function CountDays(days: nat): (d: Date)
    ensures IsDate(d)
  {
    if days == 0 then EPOCH else Successor(CountDays(days - 1))
  }

  /** Howard Hinnant's civil_from_days, as the updater computes it. */
  function CivilFromDays(days: nat): Date {
    var z := days + 719_468;
    var era := z / 146_097;
    var doe := z - era * 146_097;
    var yoe := YearOfEra(doe);
    MarchDate(yoe + era * 400, doe - YearStart(yoe))
  }

  /** The date of day `doy` of year `y`, years starting on 1 March. */
  function MarchDate(y: int, doy: int): Date {
    var mp := (5 * doy + 2) / 153;
    var day := doy - MonthStart(mp) + 1;
    var month := if mp < 10 then mp + 3 else mp - 9;
    Date(y + (if month <= 2 then 1 else 0), month, day)
  }

  /** Days from 1 March to the start of the month numbered `mp` from March. */
  function MonthStart(mp: int): int {
    (153 * mp + 2) / 5
  }

  function YearOfEra(doe: int): int {
    (doe - doe / 1460 + doe / 36524 - doe / 146_096) / 365
  }

  /** Days before year `y` of an era, its years starting on 1 March. */
  function YearStart(y: int): int {
    365 * y + y / 4 - y / 100
  }

  /** A day of an era split into centuries, four-year groups, years and days. */
  datatype Split = Split(c: int, q: int, a: int, r: int) {
    function Day(): int { 36524 * c + 1461 * q + 365 * a + r }

    function Year(): int { 100 * c + 4 * q + a }

    /** The 366th day exists in the last year of a group, except in a short century. */
    predicate Valid() {
      && 0 <= c <= 3 && 0 <= q <= 24 && 0 <= a <= 3 && 0 <= r <= 365
      && (r == 365 ==> Long())
    }

    predicate Long() { a == 3 && (q < 24 || c == 3) }
  }

  lemma SplitOf(doe: int) returns (s: Split)
    requires 0 <= doe < 146_097
    ensures s.Valid() && s.Day() == doe
  {
    var c := if doe / 36524 > 3 then 3 else doe / 36524;
    var n := doe - 36524 * c;
    var q := n / 1461;
    var m := n - 1461 * q;
    var a := if m / 365 > 3 then 3 else m / 365;
    s := Split(c, q, a, m - 365 * a);
  }

  lemma Quotient(x: int, d: int, k: int)
    requires d > 0 && k * d <= x < (k + 1) * d
    ensures x / d == k
  {
    var j := x / d;
    assert j * d <= x < (j + 1) * d;
    if j < k { Scale(j + 1, k, d); }
    if k < j { Scale(k + 1, j, d); }
  }

  lemma Scale(a: int, b: int, d: int)
    requires a <= b && d > 0
    ensures a * d <= b * d
  {}

  lemma YearFound(s: Split)
    requires s.Valid()
    ensures 0 <= s.Day() < 146_097
    ensures YearOfEra(s.Day()) == s.Year()
  {
    var Split(c, q, a, r) := s;
    var doe := s.Day();
    var rest := 24 * c + q + 365 * a + r;
    var e := if rest >= 1460 then 1 else 0;
    Quotient(doe, 1460, 25 * c + q + e);
    var f := if doe == 146_096 then 1 else 0;
    Quotient(doe, 36524, c + f);
    Quotient(doe, 146_096, f);
    assert doe - (25 * c + q + e) + (c + f) - f == 365 * s.Year() + (r - e);
    Quotient(365 * s.Year() + (r - e), 365, s.Year());
  }

  lemma DayFound(s: Split)
    requires s.Valid()
    ensures s.Day() - YearStart(s.Year()) == s.r
  {
    Quotient(s.Year(), 4, 25 * s.c + s.q);
    Quotient(s.Year(), 100, s.c);
  }

  lemma LongIsLeap(s: Split)
    requires s.Valid()
    ensures s.Long() <==> IsLeap(s.Year() + 1)
  {
    var Split(c, q, a, _) := s;
    if a == 3 && q == 24 {
      assert s.Year() + 1 == 100 * (c + 1);
    } else if a == 3 {
      assert s.Year() + 1 == 100 * c + 4 * (q + 1);
      Quotient(s.Year() + 1, 100, c);
    } else {
      assert s.Year() + 1 == 4 * (25 * c + q) + (a + 1);
      Quotient(s.Year() + 1, 4, 25 * c + q);
    }
  }

  /** The month found holds the day, and its length is the Gregorian one. */
  lemma MonthFound(y: int, doy: int)
    requires 0 <= doy <= 365
    ensures var mp := (5 * doy + 2) / 153;
            && 0 <= mp <= 11 && MonthStart(mp) <= doy
            && (mp < 11 ==> doy < MonthStart(mp + 1))
            && (mp == 11 <==> MarchDate(y, doy).month == 2)
            && (mp < 11 ==> MonthStart(mp + 1) - MonthStart(mp) ==
                            DaysInMonth(MarchDate(y, doy).year, MarchDate(y, doy).month))
  {
    var mp := (5 * doy + 2) / 153;
    assert mp in {0, 1, 2, 3, 4, 5, 6, 7, 8, 9, 10, 11};
  }

  /** Within a March year the day after `doy` is day `doy + 1`; after the last comes 1 March. */
  lemma MarchStep(y: int, doy: int)
    requires 0 <= doy <= 365 && (doy == 365 ==> IsLeap(y + 1))
    ensures IsDate(MarchDate(y, doy))
    ensures Successor(MarchDate(y, doy)) ==
            if doy == 365 || (doy == 364 && !IsLeap(y + 1)) then Date(y + 1, 3, 1) else MarchDate(y, doy + 1)
  {
    MonthFound(y, doy);
    var mp := (5 * doy + 2) / 153;
    if doy < 365 {
      MonthFound(y, doy + 1);
      var np := (5 * (doy + 1) + 2) / 153;
      assert np == mp || np == mp + 1;
      if np == mp + 1 { assert doy + 1 == MonthStart(np); }
    }
    if mp == 11 { assert MonthStart(11) == 337; }
  }

  /** The day number inside its era, with the era's first day as 0. */
  function DayOfEra(days: nat): (doe: int)
    ensures 0 <= doe < 146_097
  {
    (days + 719_468) % 146_097
  }

  /** The year a split of day `days` falls in, its years starting on 1 March. */
  function MarchYear(days: nat, s: Split): int {
    s.Year() + (days + 719_468) / 146_097 * 400
  }

  lemma Shift(days: nat, s: Split)
    requires s.Valid() && s.Day() == DayOfEra(days)
    ensures CivilFromDays(days) == MarchDate(MarchYear(days, s), s.r)
    ensures s.Long() <==> IsLeap(MarchYear(days, s) + 1)
  {
    hide MarchDate, IsLeap, YearOfEra, YearStart, Split.Valid, Split.Long, Split.Year;
    var era := (days + 719_468) / 146_097;
    WithinEra(days, era);
    YearFound(s);
    DayFound(s);
    LongIsLeap(s);
    LeapShift(s.Year() + 1, era);
  }

  lemma WithinEra(days: nat, era: int)
    requires era == (days + 719_468) / 146_097
    ensures days + 719_468 - era * 146_097 == DayOfEra(days)
  {}

  lemma LeapShift(y: int, era: int)
    ensures IsLeap(y + 400 * era) == IsLeap(y)
  {
    Mod4(y, 100 * era);
    Mod100(y, 4 * era);
    Mod400(y, era);
  }

  lemma Mod4(y: int, k: int)
    ensures (y + 4 * k) % 4 == y % 4
  {
    Quotient(y + 4 * k, 4, y / 4 + k);
  }

  lemma Mod100(y: int, k: int)
    ensures (y + 100 * k) % 100 == y % 100
  {
    Quotient(y + 100 * k, 100, y / 100 + k);
  }

  lemma Mod400(y: int, k: int)
    ensures (y + 400 * k) % 400 == y % 400
  {
    Quotient(y + 400 * k, 400, y / 400 + k);
  }

  /** The split of the next day, wrapping to the next era after the last one. */
  function NextSplit(s: Split): Split
    requires s.Valid()
  {
    var Split(c, q, a, r) := s;
    if r < YearLength(s) - 1 then Split(c, q, a, r + 1)
    else if a < 3 then Split(c, q, a + 1, 0)
    else if q < 24 then Split(c, q + 1, 0, 0)
    else if c < 3 then Split(c + 1, 0, 0, 0)
    else Split(0, 0, 0, 0)
  }

  function YearLength(s: Split): int {
    if s.Long() then 366 else 365
  }

  lemma NextSplitStep(s: Split)
    requires s.Valid()
    ensures var t := NextSplit(s);
            && t.Valid()
            && t.Day() == (if s.Day() == 146_096 then 0 else s.Day() + 1)
            && (s.r < YearLength(s) - 1 ==> t.Year() == s.Year() && t.r == s.r + 1)
            && (s.r == YearLength(s) - 1 ==>
                  t.r == 0 && t.Year() == if s.Day() == 146_096 then 0 else s.Year() + 1)
  {
    hide Split.Valid, Split.Day, Split.Year, NextSplit, YearLength;
    if s == Split(3, 24, 3, 365) {
      EraTurns();
    } else {
      BeforeLastDay(s);
      NextWithinEra(s);
    }
  }

  lemma EraTurns()
    ensures var last, first := Split(3, 24, 3, 365), Split(0, 0, 0, 0);
            && last.Valid() && last.Day() == 146_096 && YearLength(last) == 366
            && NextSplit(last) == first && first.Valid() && first.Day() == first.Year() == 0
  {}

  lemma BeforeLastDay(s: Split)
    requires s.Valid() && s != Split(3, 24, 3, 365)
    ensures s.Day() < 146_096
  {
    var Split(c, q, a, r) := s;
    if c < 3 {
      assert s.Day() <= 36524 * 2 + 1461 * 24 + 365 * 3 + 365;
    } else if q < 24 {
      assert s.Day() <= 36524 * 3 + 1461 * 23 + 365 * 3 + 365;
    } else if a < 3 {
      assert s.Day() <= 36524 * 3 + 1461 * 24 + 365 * 2 + 365;
    }
  }

  lemma NextWithinEra(s: Split)
    requires s.Valid() && s != Split(3, 24, 3, 365)
    ensures var t := NextSplit(s);
            && t.Valid() && t.Day() == s.Day() + 1 && s.r <= YearLength(s) - 1
            && if s.r < YearLength(s) - 1 then t.Year() == s.Year() && t.r == s.r + 1
               else t.Year() == s.Year() + 1 && t.r == 0
  {
    var Split(c, q, a, r) := s;
    if r == YearLength(s) - 1 {
      assert r == if a == 3 && (q < 24 || c == 3) then 365 else 364;
    }
  }

  lemma NextDayOfEra(days: nat)
    ensures var z := days + 719_468;
            if DayOfEra(days) == 146_096 then DayOfEra(days + 1) == 0 && (z + 1) / 146_097 == z / 146_097 + 1
            else DayOfEra(days + 1) == DayOfEra(days) + 1 && (z + 1) / 146_097 == z / 146_097
  {}

  lemma NextMarchYear(days: nat, s: Split)
    requires s.Valid() && s.Day() == DayOfEra(days)
    ensures NextSplit(s).Valid() && NextSplit(s).Day() == DayOfEra(days + 1)
    ensures MarchYear(days + 1, NextSplit(s)) ==
            MarchYear(days, s) + if s.r == YearLength(s) - 1 then 1 else 0
  {
    NextDayOfEra(days);
    NextSplitStep(s);
    if s.Day() == 146_096 { LastDay(s); }
  }

  lemma LastDay(s: Split)
    requires s.Valid() && s.Day() == 146_096
    ensures s == Split(3, 24, 3, 365) && s.Year() == 399
  {}

  /** The date of day d+1 is the Gregorian successor of the date of day d. */
  lemma NextDay(days: nat)
    ensures IsDate(CivilFromDays(days))
    ensures CivilFromDays(days + 1) == Successor(CivilFromDays(days))
  {
    hide CivilFromDays, Successor, MarchDate, IsDate, MarchYear, IsLeap, Split.Day, Split.Year, NextSplit;
    var s := SplitOf(DayOfEra(days));
    Shift(days, s);
    NextSplitStep(s);
    NextMarchYear(days, s);
    Shift(days + 1, NextSplit(s));
    MarchStep(MarchYear(days, s), s.r);
    FirstOfMarch(MarchYear(days, s) + 1);
  }

  lemma FirstOfMarch(y: int)
    ensures MarchDate(y, 0) == Date(y, 3, 1)
  {}

  /** Day 0 is 1970-01-01. */
  lemma EpochDay()
    ensures CivilFromDays(0) == EPOCH
  {
    hide CivilFromDays;
    Shift(0, Split(3, 17, 1, 306));
  }

  /** The closed form is the date reached by counting days one by one from 1970-01-01. */
  lemma {:induction false} ClosedFormCountsDays(days: nat)
    ensures CivilFromDays(days) == CountDays(days)
  {
    hide CivilFromDays, Successor;
    if days == 0 {
      EpochDay();
    } else {
      ClosedFormCountsDays(days - 1);
      NextDay(days - 1);
    }
  }

  /** Dates compare by year, month, day. */
  function Key(d: Date): int {
    d.year * 10_000 + d.month * 100 + d.day
  }

  /** Later days get later dates, so no date is printed for two days. */
  lemma {:induction false} DatesIncrease(a: nat, b: nat)
    requires a < b
    ensures Key(CivilFromDays(a)) < Key(CivilFromDays(b))
    decreases b
  {
    hide CivilFromDays;
    NextDay(b - 1);
    if a < b - 1 { DatesIncrease(a, b - 1); }
  }

  lemma YearIsPositive(days: nat)
    ensures IsDate(CivilFromDays(days)) && CivilFromDays(days).year >= 1970
  {
    hide CivilFromDays;
    EpochDay();
    NextDay(days);
    if days > 0 { DatesIncrease(0, days); }
  }

  function Digits(n: nat): string {
    if n < 10 then [(n + '0' as int) as char] else Digits(n / 10) + Digits(n % 10)
  }

  function Zeros(n: nat): string {
    seq(n, _ => '0')
  }

  /** `n` in decimal, zero-padded to at least `width` characters. */
  function Padded(n: nat, width: nat): string {
    var text := Digits(n);
    if |text| < width then Zeros(width - |text|) + text else text
  }

  /** The timestamp text of a Unix time in milliseconds (RFC 3339, section 5.6). */
  function FormatUtc(ms: nat): string {
    var seconds := ms / 1000;
    var rest := seconds % 86_400;
    YearIsPositive(seconds / 86_400);
    var date := CivilFromDays(seconds / 86_400);
    Padded(date.year, 4) + "-" + Padded(date.month, 2) + "-" + Padded(date.day, 2) + "T"
    + Padded(rest / 3600, 2) + ":" + Padded(rest / 60 % 60, 2) + ":" + Padded(rest % 60, 2) + "Z"
  }

  predicate AllDigits(text: string) {
    forall i :: 0 <= i < |text| ==> '0' <= text[i] <= '9'
  }

  /** The number a decimal text spells. */
  function Value(text: string): int {
    if text == "" then 0 else Value(text[..|text| - 1]) * 10 + text[|text| - 1] as int - '0' as int
  }

  lemma {:induction false} ValueOfDigits(n: nat)
    ensures Value(Digits(n)) == n
    ensures n < 10 <==> |Digits(n)| == 1
    ensures n < 100 ==> |Digits(n)| <= 2
    ensures |Digits(n)| > 0 && AllDigits(Digits(n))
    ensures n > 0 ==> Digits(n)[0] != '0'
  {
    if n >= 10 {
      ValueOfDigits(n / 10);
      assert Digits(n)[..|Digits(n)| - 1] == Digits(n / 10);
    } else {
      assert Digits(n)[..0] == "";
    }
  }

  lemma {:induction false} ValueOfZeros(n: nat, text: string)
    ensures Value(Zeros(n) + text) == Value(text)
    decreases n + |text|
  {
    var all := Zeros(n) + text;
    if text != "" {
      assert all[..|all| - 1] == Zeros(n) + text[..|text| - 1];
      ValueOfZeros(n, text[..|text| - 1]);
    } else if n > 0 {
      assert all[..|all| - 1] == Zeros(n - 1) + "";
      ValueOfZeros(n - 1, "");
    } else {
      assert all == text;
    }
  }

  lemma ValueOfPadded(n: nat, width: nat)
    ensures Value(Padded(n, width)) == n
    ensures |Padded(n, width)| > 0 && |Padded(n, width)| >= width && AllDigits(Padded(n, width))
    ensures n < 100 && width == 2 ==> |Padded(n, width)| == 2
  {
    ValueOfDigits(n);
    hide Digits, Value;
    if |Digits(n)| < width { ValueOfZeros(width - |Digits(n)|, Digits(n)); }
  }

  /** The fields a timestamp text spells: the last 16 characters have fixed positions. */
  function ParseUtc(text: string): (Date, int)
    requires |text| > 16
  {
    var n := |text|;
    (Date(Value(text[..n - 16]), Value(text[n - 15..n - 13]), Value(text[n - 12..n - 10])),
     Value(text[n - 9..n - 7]) * 3600 + Value(text[n - 6..n - 4]) * 60 + Value(text[n - 3..n - 1]))
  }

  /** A year of at least four digits, and two digits for every other field (RFC 3339, section 5.6). */
  predicate IsTimestamp(text: string) {
    && |text| >= 20
    && var n := |text|;
    && AllDigits(text[..n - 16]) && text[n - 16] == '-'
    && AllDigits(text[n - 15..n - 13]) && text[n - 13] == '-'
    && AllDigits(text[n - 12..n - 10]) && text[n - 10] == 'T'
    && AllDigits(text[n - 9..n - 7]) && text[n - 7] == ':'
    && AllDigits(text[n - 6..n - 4]) && text[n - 4] == ':'
    && AllDigits(text[n - 3..n - 1]) && text[n - 1] == 'Z'
  }

  lemma {:induction false} DigitCount(n: nat, width: nat)
    ensures |Digits(n)| <= width <==> width > 0 && n < Power10(width)
  {
    if n >= 10 && width > 0 { DigitCount(n / 10, width - 1); }
  }

  function Power10(width: nat): (p: nat)
    ensures p > 0
  {
    if width == 0 then 1 else 10 * Power10(width - 1)
  }

  /** Years up to 9999 take exactly four digits, later ones as many as they need and no leading zero. */
  lemma YearIsNotPadded(ms: nat)
    ensures var year := CountDays(ms / 86_400_000).year;
            && (year <= 9999 <==> |FormatUtc(ms)| == 20)
            && (year > 9999 ==> FormatUtc(ms)[0] != '0')
  {
    hide CivilFromDays, IsDate, CountDays, AllDigits, Digits;
    DaysOf(ms);
    var days := ms / 1000 / 86_400;
    var rest := ms / 1000 % 86_400;
    ClosedFormCountsDays(days);
    YearIsPositive(days);
    var date := CivilFromDays(days);
    DateBounds(date);
    ValueOfPadded(date.month, 2);
    ValueOfPadded(date.day, 2);
    ValueOfPadded(rest / 3600, 2);
    ValueOfPadded(rest / 60 % 60, 2);
    ValueOfPadded(rest % 60, 2);
    ValueOfDigits(date.year);
    DigitCount(date.year, 4);
    assert Power10(4) == 10_000 by { assert Power10(2) == 100; }
  }

  /** Reading the text back gives the date and the second of the day it was printed from. */
  lemma FormatRoundTrips(ms: nat)
    ensures IsTimestamp(FormatUtc(ms))
    ensures ParseUtc(FormatUtc(ms)) == (CountDays(ms / 86_400_000), ms / 1000 % 86_400)
  {
    hide CivilFromDays, IsDate, Padded, Value, CountDays, AllDigits;
    DaysOf(ms);
    var days := ms / 1000 / 86_400;
    var rest := ms / 1000 % 86_400;
    ClosedFormCountsDays(days);
    YearIsPositive(days);
    var date := CivilFromDays(days);
    DateBounds(date);
    ValueOfPadded(date.year, 4);
    ValueOfPadded(date.month, 2);
    ValueOfPadded(date.day, 2);
    ValueOfPadded(rest / 3600, 2);
    ValueOfPadded(rest / 60 % 60, 2);
    ValueOfPadded(rest % 60, 2);
    Layout(Padded(date.year, 4), Padded(date.month, 2), Padded(date.day, 2),
           Padded(rest / 3600, 2), Padded(rest / 60 % 60, 2), Padded(rest % 60, 2));
  }

  lemma DaysOf(ms: nat)
    ensures ms / 1000 / 86_400 == ms / 86_400_000
  {}

  lemma DateBounds(d: Date)
    requires IsDate(d)
    ensures 1 <= d.month <= 12 && 1 <= d.day <= 31
  {}

  lemma Layout(y: string, mo: string, d: string, h: string, mi: string, s: string)
    requires |mo| == |d| == |h| == |mi| == |s| == 2 && |y| >= 4
    requires AllDigits(y) && AllDigits(mo) && AllDigits(d) && AllDigits(h) && AllDigits(mi) && AllDigits(s)
    ensures var text := y + "-" + mo + "-" + d + "T" + h + ":" + mi + ":" + s + "Z";
            var n := |text|;
            && n == |y| + 16 && IsTimestamp(text)
            && text[..n - 16] == y && text[n - 15..n - 13] == mo && text[n - 12..n - 10] == d
            && text[n - 9..n - 7] == h && text[n - 6..n - 4] == mi && text[n - 3..n - 1] == s
  {
    hide AllDigits;
    var text := y + "-" + mo + "-" + d + "T" + h + ":" + mi + ":" + s + "Z";
    var n := |text|;
    assert text[..n - 16] == y && text[n - 15..n - 13] == mo && text[n - 12..n - 10] == d;
    assert text[n - 9..n - 7] == h && text[n - 6..n - 4] == mi && text[n - 3..n - 1] == s;
  }
}
