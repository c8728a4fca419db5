/** Seconds to a Gregorian date in closed form, against the calendar itself: the
    next-day rule of RFC 3339 (section 5.7 for the lengths of months, appendix C for
    leap years), stepped from the first of January 1970. */

module Calendar {
  /// The calendar

  datatype Date = Date(year: int, month: int, day: int)

  predicate Leap(year: int) {
    year % 4 == 0 && (year % 100 != 0 || year % 400 == 0)
  }

  function DaysIn(year: int, month: int): int {
    if month == 2 then (if Leap(year) then 29 else 28)
    else if month == 4 || month == 6 || month == 9 || month == 11 then 30
    else 31
  }

  predicate Real(d: Date) {
    1 <= d.month <= 12 && 1 <= d.day <= DaysIn(d.year, d.month)
  }

  function Next(d: Date): Date {
    if d.day < DaysIn(d.year, d.month) then d.(day := d.day + 1)
    else if d.month < 12 then Date(d.year, d.month + 1, 1)
    else Date(d.year + 1, 1, 1)
  }

  predicate Earlier(a: Date, b: Date) {
    a.year < b.year || (a.year == b.year && (a.month < b.month || (a.month == b.month && a.day < b.day)))
  }

  const EPOCH: Date := Date(1970, 1, 1)

  /** The date reached by stepping the next-day rule `n` times. */
  function DateAfter(n: nat): Date {
    if n == 0 then EPOCH else Next(DateAfter(n - 1))
  }

  /// The program

  /** The closed form, as the program computes it. Past the first division nothing is
      negative, so truncating and flooring division agree. */
  function Civil(days: nat): Date {
    var z := days + 719_468;
    var era := z / 146_097;
    FromEra(era, z - era * 146_097)
  }

  function FromEra(era: nat, doe: nat): Date
    requires doe < 146_097
  {
    var yoe := (doe - doe / 1460 + doe / 36_524 - doe / 146_096) / 365;
    var y := yoe + era * 400;
    var doy := doe - (365 * yoe + yoe / 4 - yoe / 100);
    var mp := (5 * doy + 2) / 153;
    var d := doy - (153 * mp + 2) / 5 + 1;
    var m := if mp < 10 then mp + 3 else mp - 9;
    Date(if m <= 2 then y + 1 else y, m, d)
  }

  function Decimal(n: nat): (s: string)
    ensures |s| > 0
  {
    if n < 10 then [Digit(n)] else Decimal(n / 10) + [Digit(n % 10)]
  }

  function Digit(n: nat): char
    requires n < 10
  {
    "0123456789"[n]
  }

  function Padded(n: nat, width: nat): string {
    Zeros(width - |Decimal(n)|) + Decimal(n)
  }

  function Zeros(n: int): (s: string)
    ensures |s| == if n > 0 then n else 0
    decreases n
  {
    if n <= 0 then "" else "0" + Zeros(n - 1)
  }

  predicate Digits(s: string) {
    forall i :: 0 <= i < |s| ==> '0' <= s[i] <= '9'
  }

  /** The year, the month and the day in this order, in digits and with dashes between:
      two digits for the month and the day, and for the year four, or as many more as it
      needs. */
  ghost predicate FullDate(s: string, d: Date) {
    var n := |s| - 6;
    && n >= 4 && s[n] == '-' && s[n + 3] == '-'
    && Digits(s[..n]) && Digits(s[n + 1..n + 3]) && Digits(s[n + 4..])
    && Number(s[..n]) == d.year && Number(s[n + 1..n + 3]) == d.month && Number(s[n + 4..]) == d.day
    && (n == 4 <==> d.year < 10_000) && (n > 4 ==> s[0] != '0')
  }

  method Day(secs: int) returns (s: string)
    ensures secs <= 0 ==> s == "??????????"
    ensures secs > 0 ==> DateAfter(secs / 86_400).year >= 1970 && Real(DateAfter(secs / 86_400))
                         && FullDate(s, DateAfter(secs / 86_400))
    ensures |s| == 10 <==> secs < 253_402_300_800
  {
    if secs <= 0 {
      return "??????????";
    }
    ClosedFormIsTheCalendar(secs / 86_400);
    TenThousandBegins(secs / 86_400);
    var date := Civil(secs / 86_400);
    s := Padded(date.year, 4) + "-" + Padded(date.month, 2) + "-" + Padded(date.day, 2);
    WrittenIsFullDate(date, s);
  }

  /// A day counted from the first of March: eras, centuries, olympiads, years

  /** Years here begin in March, so a leap day is the last of its year. */
  datatype Parts = Parts(era: nat, century: nat, quad: nat, year: nat, doy: nat)

  predicate LongYear(p: Parts) {
    p.year == 3 && (p.quad != 24 || p.century == 3)
  }

  predicate Valid(p: Parts) {
    p.century < 4 && p.quad < 25 && p.year < 4 && p.doy < if LongYear(p) then 366 else 365
  }

  function YearOfEra(p: Parts): nat {
    100 * p.century + 4 * p.quad + p.year
  }

  function DayOfEra(p: Parts): nat {
    36_524 * p.century + 1461 * p.quad + 365 * p.year + p.doy
  }

  function PartsOf(z: nat): Parts {
    var doe := z % 146_097;
    var century := if doe / 36_524 > 3 then 3 else doe / 36_524;
    var rest := doe - 36_524 * century;
    var quad := rest / 1461;
    var last := rest % 1461;
    var year := if last / 365 > 3 then 3 else last / 365;
    Parts(z / 146_097, century, quad, year, last - 365 * year)
  }

  lemma EveryDayHasParts(z: nat)
    ensures var p := PartsOf(z); Valid(p) && z == p.era * 146_097 + DayOfEra(p)
  {
  }

  /** The number-theoretic heart: the year the program works out by three corrected
      divisions is the year the parts say, for every day of every era. */
  lemma YearIsRight(p: Parts)
    requires Valid(p)
    ensures var doe := DayOfEra(p);
            && doe < 146_097
            && (doe - doe / 1460 + doe / 36_524 - doe / 146_096) / 365 == YearOfEra(p)
            && doe - (365 * YearOfEra(p) + YearOfEra(p) / 4 - YearOfEra(p) / 100) == p.doy
  {
    var doe := DayOfEra(p);
    var inCentury := 1461 * p.quad + 365 * p.year + p.doy;
    assert doe / 36_524 - doe / 146_096 == p.century;
    var extra := (24 * p.century + p.quad + 365 * p.year + p.doy) / 1460;
    assert doe == 1460 * (25 * p.century + p.quad) + (24 * p.century + p.quad + 365 * p.year + p.doy);
    assert doe / 1460 == 25 * p.century + p.quad + extra;
    assert doe - doe / 1460 + doe / 36_524 - doe / 146_096 == 365 * YearOfEra(p) + (p.doy - extra);
    assert 0 <= p.doy - extra < 365;
    assert YearOfEra(p) / 4 == 25 * p.century + p.quad;
    assert YearOfEra(p) / 100 == p.century;
  }

  /** The month and day of a day of a March year. */
  function MonthDay(doy: nat): (int, int) {
    var mp := (5 * doy + 2) / 153;
    (if mp < 10 then mp + 3 else mp - 9, doy - (153 * mp + 2) / 5 + 1)
  }

  function DateOf(p: Parts): Date {
    var (m, d) := MonthDay(p.doy);
    var y := YearOfEra(p) + p.era * 400;
    Date(if m <= 2 then y + 1 else y, m, d)
  }

  lemma FromEraIsByParts(p: Parts)
    requires Valid(p)
    ensures DayOfEra(p) < 146_097 && FromEra(p.era, DayOfEra(p)) == DateOf(p)
  {
    YearIsRight(p);
  }

  lemma ClosedFormIsByParts(n: nat)
    ensures Civil(n) == DateOf(PartsOf(n + 719_468)) && Valid(PartsOf(n + 719_468))
  {
    var z := n + 719_468;
    EveryDayHasParts(z);
    FromEraIsByParts(PartsOf(z));
  }

  function Tomorrow(p: Parts): Parts {
    if p.doy + 1 < (if LongYear(p) then 366 else 365) then p.(doy := p.doy + 1)
    else if p.year < 3 then p.(year := p.year + 1, doy := 0)
    else if p.quad < 24 then p.(quad := p.quad + 1, year := 0, doy := 0)
    else if p.century < 3 then p.(century := p.century + 1, quad := 0, year := 0, doy := 0)
    else Parts(p.era + 1, 0, 0, 0, 0)
  }

  /** The next parts are the parts of the next day. */
  lemma TomorrowIsNext(p: Parts)
    requires Valid(p)
    ensures Valid(Tomorrow(p))
    ensures Tomorrow(p).era * 146_097 + DayOfEra(Tomorrow(p)) == p.era * 146_097 + DayOfEra(p) + 1
  {
  }

  lemma PartsAreUnique(p: Parts, q: Parts)
    requires Valid(p) && Valid(q)
    requires p.era * 146_097 + DayOfEra(p) == q.era * 146_097 + DayOfEra(q)
    ensures p == q
  {
    YearIsRight(p);
    YearIsRight(q);
    SameEra(p.era, DayOfEra(p), q.era, DayOfEra(q));
    SameYear(p, q);
  }

  lemma SameEra(e: nat, d: nat, f: nat, c: nat)
    requires d < 146_097 && c < 146_097 && e * 146_097 + d == f * 146_097 + c
    ensures e == f && d == c
  {
  }

  lemma SameYear(p: Parts, q: Parts)
    requires Valid(p) && Valid(q) && p.era == q.era && YearOfEra(p) == YearOfEra(q) && p.doy == q.doy
    ensures p == q
  {
  }

  /** Within a March year, the date of the next day is the next date; the last day of
      the year is the last of February. */
  lemma MonthDayStep(doy: nat)
    requires doy < 366
    ensures var (m, d) := MonthDay(doy);
            && 1 <= m <= 12 && (m == 3 && d == 1 <==> doy == 0)
            && (doy >= 306 <==> m <= 2) && (doy == 305 <==> m == 12 && d == 31)
            && (m == 2 ==> d == doy - 336) && (m == 2 <==> doy >= 337)
            && (m != 2 ==> 1 <= d <= DaysIn(0, m)
                           && MonthDay(doy + 1) == if d < DaysIn(0, m) then (m, d + 1) else (m % 12 + 1, 1))
  {
    if doy < 184 {
      MonthDayStepFirst(doy);
    } else {
      MonthDayStepLast(doy);
    }
  }

  lemma MonthDayStepFirst(doy: nat)
    requires doy < 184
    ensures var (m, d) := MonthDay(doy);
            && 1 <= m <= 12 && (m == 3 && d == 1 <==> doy == 0)
            && (doy >= 306 <==> m <= 2) && (doy == 305 <==> m == 12 && d == 31)
            && (m == 2 ==> d == doy - 336) && (m == 2 <==> doy >= 337)
            && (m != 2 ==> 1 <= d <= DaysIn(0, m)
                           && MonthDay(doy + 1) == if d < DaysIn(0, m) then (m, d + 1) else (m % 12 + 1, 1))
  {
    var mp := (5 * doy + 2) / 153;
    assert 0 <= mp <= 5;
    if mp == 0 {} else if mp == 1 {} else if mp == 2 {} else if mp == 3 {} else if mp == 4 {} else {}
  }

  lemma MonthDayStepLast(doy: nat)
    requires 184 <= doy < 366
    ensures var (m, d) := MonthDay(doy);
            && 1 <= m <= 12 && (m == 3 && d == 1 <==> doy == 0)
            && (doy >= 306 <==> m <= 2) && (doy == 305 <==> m == 12 && d == 31)
            && (m == 2 ==> d == doy - 336) && (m == 2 <==> doy >= 337)
            && (m != 2 ==> 1 <= d <= DaysIn(0, m)
                           && MonthDay(doy + 1) == if d < DaysIn(0, m) then (m, d + 1) else (m % 12 + 1, 1))
  {
    var mp := (5 * doy + 2) / 153;
    assert 6 <= mp <= 11;
    if mp == 6 {} else if mp == 7 {} else if mp == 8 {} else if mp == 9 {} else if mp == 10 {} else {}
  }

  lemma RemaindersInEra(era: nat, k: nat)
    ensures (400 * era + k) % 400 == k % 400
    ensures (400 * era + k) % 100 == k % 100
    ensures (400 * era + k) % 4 == k % 4
  {
    RemainderOf400(400 * era + k, era + k / 400, k % 400);
    RemainderOf100(400 * era + k, 4 * era + k / 100, k % 100);
    RemainderOf4(400 * era + k, 100 * era + k / 4, k % 4);
  }

  lemma RemainderOf400(n: nat, q: nat, r: nat)
    requires n == q * 400 + r && r < 400
    ensures n % 400 == r
  {}

  lemma RemainderOf100(n: nat, q: nat, r: nat)
    requires n == q * 100 + r && r < 100
    ensures n % 100 == r
  {}

  lemma RemainderOf4(n: nat, q: nat, r: nat)
    requires n == q * 4 + r && r < 4
    ensures n % 4 == r
  {}

  lemma LongYearsAreLeap(p: Parts)
    requires Valid(p)
    ensures LongYear(p) <==> Leap(YearOfEra(p) + p.era * 400 + 1)
  {
    var k := YearOfEra(p) + 1;
    RemaindersInEra(p.era, k);
    assert k % 4 == 0 <==> p.year == 3;
    assert k % 100 == 0 <==> p.year == 3 && p.quad == 24;
    assert k % 400 == 0 <==> p.year == 3 && p.quad == 24 && p.century == 3;
    assert LongYear(p) <==> Leap(400 * p.era + k);
  }

  lemma DateStep(p: Parts)
    requires Valid(p)
    ensures Real(DateOf(p)) && DateOf(Tomorrow(p)) == Next(DateOf(p))
  {
    MonthDayStep(p.doy);
    MonthDayStep(0);
    LongYearsAreLeap(p);
  }

  /** The parts of the `n`th day from the epoch. */
  function PartsAfter(n: nat): Parts {
    if n == 0 then Parts(4, 3, 17, 1, 306) else Tomorrow(PartsAfter(n - 1))
  }

  lemma {:induction false} PartsAfterCount(n: nat)
    ensures Valid(PartsAfter(n))
    ensures PartsAfter(n).era * 146_097 + DayOfEra(PartsAfter(n)) == n + 719_468
  {
    if n > 0 {
      PartsAfterCount(n - 1);
      TomorrowIsNext(PartsAfter(n - 1));
    }
  }

  lemma FirstPartsAreTheEpoch()
    ensures DateOf(Parts(4, 3, 17, 1, 306)) == EPOCH
  {
  }

  lemma {:induction false} PartsAfterAreTheCalendar(n: nat)
    ensures DateOf(PartsAfter(n)) == DateAfter(n)
  {
    if n == 0 {
      FirstPartsAreTheEpoch();
    } else {
      PartsAfterAreTheCalendar(n - 1);
      PartsAfterCount(n - 1);
      DateStep(PartsAfter(n - 1));
    }
  }

  lemma YearsGoOn(d: Date)
    ensures Next(d).year >= d.year
  {
  }

  lemma {:induction false} NoneBeforeTheEpoch(n: nat)
    ensures DateAfter(n).year >= 1970
  {
    if n > 0 {
      NoneBeforeTheEpoch(n - 1);
      YearsGoOn(DateAfter(n - 1));
    }
  }

  /** Every date the calendar reaches is one it has. */
  lemma DatesAreReal(n: nat)
    ensures Real(DateAfter(n)) && DateAfter(n).year >= 1970
  {
    PartsAfterCount(n);
    DateStep(PartsAfter(n));
    PartsAfterAreTheCalendar(n);
    NoneBeforeTheEpoch(n);
  }

  /** For every day from the epoch on, the closed form is the date the calendar
      reaches, and a date the calendar has. */
  lemma ClosedFormIsTheCalendar(n: nat)
    ensures Civil(n) == DateAfter(n) && Real(DateAfter(n)) && DateAfter(n).year >= 1970
  {
    ClosedFormIsByParts(n);
    EveryDayHasParts(n + 719_468);
    PartsOfTheDay(n, PartsOf(n + 719_468));
    PartsAfterAreTheCalendar(n);
    DatesAreReal(n);
  }

  /** The parts that count a day are the parts stepped to. */
  lemma PartsOfTheDay(n: nat, p: Parts)
    requires Valid(p) && p.era * 146_097 + DayOfEra(p) == n + 719_468
    ensures PartsAfter(n) == p
  {
    PartsAfterCount(n);
    PartsAreUnique(PartsAfter(n), p);
  }

  lemma NextIsLater(d: Date)
    requires Real(d)
    ensures Earlier(d, Next(d))
  {
  }

  /** Later seconds never give an earlier date, and a later day gives a later one. */
  lemma {:induction false} DatesRise(a: nat, b: nat)
    requires a < b
    ensures Earlier(DateAfter(a), DateAfter(b))
    decreases b - a
  {
    ClosedFormIsTheCalendar(b - 1);
    NextIsLater(DateAfter(b - 1));
    if a < b - 1 {
      DatesRise(a, b - 1);
    }
  }

  /// What is written

  function Number(s: string): nat {
    if s == "" then 0 else 10 * Number(s[..|s| - 1]) + Value(s[|s| - 1])
  }

  function Value(c: char): nat {
    if '0' <= c <= '9' then (c - '0') as nat else 0
  }

  lemma {:induction false} DecimalReads(n: nat)
    ensures Number(Decimal(n)) == n
  {
    if n >= 10 {
      DecimalReads(n / 10);
      assert Decimal(n)[..|Decimal(n)| - 1] == Decimal(n / 10);
    } else {
      assert Decimal(n)[..0] == "";
    }
  }

  lemma DecimalLength(n: nat)
    ensures |Decimal(n)| <= 2 <==> n < 100
    ensures |Decimal(n)| <= 4 <==> n < 10_000
    ensures n >= 1000 ==> |Decimal(n)| >= 4
  {
    DecimalDrops(n);
    DecimalDrops(n / 10);
    DecimalDrops(n / 100);
    DecimalDrops(n / 1000);
    assert n / 10 / 10 == n / 100 && n / 100 / 10 == n / 1000;
  }

  lemma DecimalDrops(n: nat)
    ensures |Decimal(n)| == if n < 10 then 1 else 1 + |Decimal(n / 10)|
  {
  }

  lemma {:induction false} LeadingZeros(k: nat, s: string)
    ensures Number(Zeros(k) + s) == Number(s)
    decreases k, |s|
  {
    if s == "" {
      if k > 0 {
        ZerosEndInZero(k);
        assert (Zeros(k) + s)[..k - 1] == Zeros(k - 1) + s;
        LeadingZeros(k - 1, s);
      }
    } else {
      assert (Zeros(k) + s)[..k + |s| - 1] == Zeros(k) + s[..|s| - 1];
      LeadingZeros(k, s[..|s| - 1]);
    }
  }

  lemma {:induction false} ZerosEndInZero(k: nat)
    requires k > 0
    ensures Zeros(k)[k - 1] == '0' && Zeros(k)[..k - 1] == Zeros(k - 1)
  {
    if k > 1 {
      ZerosEndInZero(k - 1);
      assert Zeros(k)[..k - 1] == "0" + Zeros(k - 1)[..k - 2];
    }
  }

  /** A number padded to a width reads back as itself, and is as wide as asked unless
      it has more digits than that. */
  lemma PaddedReads(n: nat, width: nat)
    ensures Number(Padded(n, width)) == n
    ensures |Padded(n, width)| == if |Decimal(n)| > width then |Decimal(n)| else width
  {
    DecimalReads(n);
    if width > |Decimal(n)| {
      LeadingZeros(width - |Decimal(n)|, Decimal(n));
    } else {
      assert Padded(n, width) == Decimal(n);
    }
  }

  lemma {:induction false} DecimalDigits(n: nat)
    ensures Digits(Decimal(n)) && (n > 0 ==> Decimal(n)[0] != '0')
  {
    if n >= 10 {
      DecimalDigits(n / 10);
    }
  }

  lemma PaddedDigits(n: nat, width: nat)
    ensures Digits(Padded(n, width))
  {
    DecimalDigits(n);
    ZerosAreZeros(width - |Decimal(n)|);
  }

  lemma {:induction false} ZerosAreZeros(n: int)
    ensures forall i :: 0 <= i < |Zeros(n)| ==> Zeros(n)[i] == '0'
    decreases n
  {
    if n > 0 {
      ZerosAreZeros(n - 1);
    }
  }

  /** The three padded parts are the full-date of RFC 3339 (section 5.6) up to the last
      second of the year 9999, and the same with a longer year from then on. */
  lemma WrittenIsFullDate(d: Date, s: string)
    requires Real(d) && d.year >= 1000
    requires s == Padded(d.year, 4) + "-" + Padded(d.month, 2) + "-" + Padded(d.day, 2)
    ensures FullDate(s, d)
  {
    var y, m, e := Padded(d.year, 4), Padded(d.month, 2), Padded(d.day, 2);
    PaddedWide(d);
    PaddedReads(d.year, 4);
    PaddedReads(d.month, 2);
    PaddedReads(d.day, 2);
    PaddedDigits(d.year, 4);
    PaddedDigits(d.month, 2);
    PaddedDigits(d.day, 2);
    DecimalDigits(d.year);
    PartsOfText(y, m, e, s);
    TextOfParts(y, m, e, s, d);
  }

  lemma PaddedWide(d: Date)
    requires Real(d) && d.year >= 1000
    ensures |Padded(d.month, 2)| == 2 && |Padded(d.day, 2)| == 2
    ensures Padded(d.year, 4) == Decimal(d.year) && |Decimal(d.year)| >= 4
    ensures |Decimal(d.year)| == 4 <==> d.year < 10_000
  {
    DecimalLength(d.month);
    DecimalLength(d.day);
    DecimalLength(d.year);
    assert Zeros(4 - |Decimal(d.year)|) == "";
  }

  lemma PartsOfText(y: string, m: string, e: string, s: string)
    requires |m| == 2 && |e| == 2 && s == y + "-" + m + "-" + e
    ensures var n := |y|;
            && |s| == n + 6 && s[n] == '-' && s[n + 3] == '-'
            && s[..n] == y && s[n + 1..n + 3] == m && s[n + 4..] == e
  {
  }

  lemma TextOfParts(y: string, m: string, e: string, s: string, d: Date)
    requires |s| == |y| + 6 && |y| >= 4 && s[|y|] == '-' && s[|y| + 3] == '-'
    requires s[..|y|] == y && s[|y| + 1..|y| + 3] == m && s[|y| + 4..] == e
    requires Digits(y) && Digits(m) && Digits(e)
    requires Number(y) == d.year && Number(m) == d.month && Number(e) == d.day
    requires (|y| == 4 <==> d.year < 10_000) && (|y| > 4 ==> y[0] != '0')
    ensures FullDate(s, d)
  {
  }

  lemma LastDayOfFourDigits(n: nat)
    requires n == 2_932_896
    ensures DateAfter(n) == Date(9999, 12, 31)
  {
    var p := LastParts();
    PartsOfTheDay(n, p);
    PartsAfterAreTheCalendar(n);
  }

  lemma LastParts() returns (p: Parts)
    ensures Valid(p) && p.era * 146_097 + DayOfEra(p) == 2_932_896 + 719_468
    ensures DateOf(p) == Date(9999, 12, 31)
  {
    p := Parts(24, 3, 24, 3, 305);
  }

  lemma TenThousandBegins(n: nat)
    ensures DateAfter(n).year < 10_000 <==> n < 2_932_897
  {
    var last: nat :| last == 2_932_896;
    BeginsAfter(last, n);
  }

  lemma BeginsAfter(last: nat, n: nat)
    requires last == 2_932_896
    ensures DateAfter(n).year < 10_000 <==> n <= last
  {
    LastDayOfFourDigits(last);
    assert DateAfter(last + 1) == Next(DateAfter(last)) == Date(10_000, 1, 1);
    if n < last {
      DatesRise(n, last);
    } else if n > last + 1 {
      DatesRise(last + 1, n);
    }
  }
}
