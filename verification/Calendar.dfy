/** Dashboard date ranges: day, month, year and custom, from a first day up to, not including, an end. */
module Calendar {
  import opened Wrappers

  datatype Date = Date(year: nat, month: nat, day: nat)

  const LAST_DAY := Date(9999, 12, 31)

  // ----- The calendar -----

  predicate Leap(year: nat) {
    year % 4 == 0 && (year % 100 != 0 || year % 400 == 0)
  }

  function DaysIn(year: nat, month: nat): (days: nat)
    ensures 28 <= days <= 31
  {
    if month == 2 then (if Leap(year) then 29 else 28) else if month in {4, 6, 9, 11} then 30 else 31
  }

  /** A day that exists, with a year of four digits. */
  predicate Real(d: Date) {
    d.year <= 9999 && 1 <= d.month <= 12 && 1 <= d.day <= DaysIn(d.year, d.month)
  }

  function DaysBeforeMonth(year: nat, month: nat): nat {
    if month <= 1 then 0 else DaysBeforeMonth(year, month - 1) + DaysIn(year, month - 1)
  }

  function DaysBeforeYear(year: nat): nat {
    if year == 0 then 0 else DaysBeforeYear(year - 1) + DaysBeforeMonth(year - 1, 13)
  }

  /** Days since the first of January of year 0. */
  function Number(d: Date): nat
    requires d.day >= 1
  {
    DaysBeforeYear(d.year) + DaysBeforeMonth(d.year, d.month) + d.day - 1
  }

  /** Leap days before the year, counted by 4, 100 and 400 years. */
  function LeapDays(year: nat): int {
    (year + 3) / 4 - (year + 99) / 100 + (year + 399) / 400
  }

  /** The Gregorian calendar in closed form, its months of 367/12 days but for the short February. */
  function Gregorian(year: nat, month: nat, day: nat): int {
    365 * year + LeapDays(year) + (367 * month - 362) / 12
    - (if month <= 2 then 0 else 2 - (LeapDays(year + 1) - LeapDays(year))) + day - 1
  }

  lemma LeapDaysGrow(year: nat)
    ensures LeapDays(year + 1) == LeapDays(year) + if Leap(year) then 1 else 0
  {
    Carry4(year);
    Carry100(year);
    Carry400(year);
    EveryHundredth(year);
    EveryFourHundredth(year);
    CountLeaps(year, (year + 3) / 4, (year + 99) / 100, (year + 399) / 400);
  }

  /** The count goes up with the fourths that are no hundredths, and the four hundredths. */
  lemma CountLeaps(year: nat, fours: nat, hundreds: nat, fourHundreds: nat)
    requires fours == (year + 3) / 4 && hundreds == (year + 99) / 100 && fourHundreds == (year + 399) / 400
    requires (year + 4) / 4 == fours + if year % 4 == 0 then 1 else 0
    requires (year + 100) / 100 == hundreds + if year % 100 == 0 then 1 else 0
    requires (year + 400) / 400 == fourHundreds + if year % 400 == 0 then 1 else 0
    requires (year % 100 == 0 ==> year % 4 == 0) && (year % 400 == 0 ==> year % 100 == 0)
    ensures LeapDays(year + 1) == LeapDays(year) + if Leap(year) then 1 else 0
  {
    assert year + 1 + 3 == year + 4 && year + 1 + 99 == year + 100 && year + 1 + 399 == year + 400;
  }

  lemma EveryHundredth(n: nat)
    ensures n % 100 == 0 ==> n % 4 == 0
  {
    assert n == 100 * (n / 100) + n % 100;
    assert n % 100 == 0 ==> n == 4 * (25 * (n / 100));
  }

  lemma EveryFourHundredth(n: nat)
    ensures n % 400 == 0 ==> n % 100 == 0
  {
    assert n == 400 * (n / 400) + n % 400;
    assert n % 400 == 0 ==> n == 100 * (4 * (n / 400));
  }

  lemma Carry4(n: nat)
    ensures (n + 4) / 4 == (n + 3) / 4 + if n % 4 == 0 then 1 else 0
  {
  }

  lemma Carry100(n: nat)
    ensures (n + 100) / 100 == (n + 99) / 100 + if n % 100 == 0 then 1 else 0
  {
  }

  lemma Carry400(n: nat)
    ensures (n + 400) / 400 == (n + 399) / 400 + if n % 400 == 0 then 1 else 0
  {
  }

  lemma YearLength(year: nat)
    ensures DaysBeforeMonth(year, 13) == if Leap(year) then 366 else 365
  {
    hide Leap;
    FirstMonths(year);
    MonthStep(year, 8);
    MonthStep(year, 9);
    MonthStep(year, 10);
    MonthStep(year, 11);
    MonthStep(year, 12);
  }

  lemma FirstMonths(year: nat)
    ensures var x := if Leap(year) then 1 else 0;
      && DaysBeforeMonth(year, 1) == 0 && DaysBeforeMonth(year, 2) == 31 && DaysBeforeMonth(year, 3) == 59 + x
      && DaysBeforeMonth(year, 4) == 90 + x && DaysBeforeMonth(year, 5) == 120 + x && DaysBeforeMonth(year, 6) == 151 + x
      && DaysBeforeMonth(year, 7) == 181 + x && DaysBeforeMonth(year, 8) == 212 + x
  {
    hide Leap;
    MonthStep(year, 1);
    MonthStep(year, 2);
    MonthStep(year, 3);
    MonthStep(year, 4);
    MonthStep(year, 5);
    MonthStep(year, 6);
    MonthStep(year, 7);
  }

  lemma NoLeapDays()
    ensures LeapDays(0) == 0
  {
  }

  lemma {:induction false} YearsAreGregorian(year: nat)
    ensures DaysBeforeYear(year) == 365 * year + LeapDays(year)
    decreases year
  {
    NoLeapDays();
    hide DaysBeforeMonth, Leap, LeapDays;
    if year > 0 {
      YearsAreGregorian(year - 1);
      YearLength(year - 1);
      LeapDaysGrow(year - 1);
    }
  }

  /** The days are numbered as the Gregorian calendar has them. */
  lemma NumberIsGregorian(d: Date)
    requires 1 <= d.month <= 12 && d.day >= 1
    ensures Number(d) == Gregorian(d.year, d.month, d.day)
  {
    hide Leap, LeapDays, DaysBeforeYear;
    YearsAreGregorian(d.year);
    LeapDaysGrow(d.year);
    FirstMonths(d.year);
    YearLength(d.year);
    if d.month > 8 {
      MonthStep(d.year, 8);
      MonthStep(d.year, 9);
      MonthStep(d.year, 10);
      MonthStep(d.year, 11);
    }
    hide DaysBeforeMonth;
  }

  /** The dates the order synchroniser and the R&D reader start from are 46021 and 46264 days after 1900-01-01. */
  lemma StartDates()
    ensures Number(Date(2026, 1, 1)) - Number(Date(1900, 1, 1)) == 46021
    ensures Number(Date(2026, 9, 1)) - Number(Date(1900, 1, 1)) == 46264
  {
    hide Number;
    NumberIsGregorian(Date(2026, 1, 1));
    NumberIsGregorian(Date(2026, 9, 1));
    NumberIsGregorian(Date(1900, 1, 1));
  }

  /** One day later, the date 86400000 milliseconds on. */
  function Tomorrow(d: Date): Date {
    if d.day < DaysIn(d.year, d.month) then d.(day := d.day + 1)
    else if d.month < 12 then Date(d.year, d.month + 1, 1)
    else Date(d.year + 1, 1, 1)
  }

  lemma TomorrowIsReal(d: Date)
    requires Real(d)
    ensures Real(Tomorrow(d)) <==> d != LAST_DAY
  {
    hide Leap;
  }

  lemma TomorrowIsNext(d: Date)
    requires Real(d)
    ensures Number(Tomorrow(d)) == Number(d) + 1
  {
    hide Leap, DaysIn;
    var length := DaysIn(d.year, d.month);
    MonthStep(d.year, d.month);
    if d.day == length && d.month == 12 {
      YearStep(d.year);
    }
  }

  lemma MonthStep(year: nat, month: nat)
    requires month >= 1
    ensures DaysBeforeMonth(year, month + 1) == DaysBeforeMonth(year, month) + DaysIn(year, month)
  {
  }

  lemma YearStep(year: nat)
    ensures DaysBeforeYear(year + 1) == DaysBeforeYear(year) + DaysBeforeMonth(year, 13)
    ensures DaysBeforeMonth(year + 1, 1) == 0
  {
  }

  lemma {:induction false} MonthsGrow(year: nat, a: nat, b: nat)
    requires 1 <= a <= b
    ensures DaysBeforeMonth(year, a) <= DaysBeforeMonth(year, b)
    decreases b
  {
    if a < b {
      MonthsGrow(year, a, b - 1);
    }
  }

  lemma {:induction false} YearsGrow(a: nat, b: nat)
    requires a <= b
    ensures DaysBeforeYear(a) <= DaysBeforeYear(b)
    decreases b
  {
    if a < b {
      YearsGrow(a, b - 1);
    }
  }

  predicate Before(a: Date, b: Date) {
    a.year < b.year || (a.year == b.year && (a.month < b.month || (a.month == b.month && a.day < b.day)))
  }

  lemma EarlierIsLess(a: Date, b: Date)
    requires Real(a) && Real(b) && Before(a, b)
    ensures Number(a) < Number(b)
  {
    MonthStep(a.year, a.month);
    YearStep(a.year);
    hide Leap, DaysIn, DaysBeforeMonth, DaysBeforeYear;
    MonthsGrow(a.year, a.month + 1, 13);
    if a.year < b.year {
      YearsGrow(a.year + 1, b.year);
    } else if a.month < b.month {
      MonthsGrow(a.year, a.month + 1, b.month);
    }
  }

  lemma NumberOrder(a: Date, b: Date)
    requires Real(a) && Real(b)
    ensures Before(a, b) <==> Number(a) < Number(b)
    ensures a == b <==> Number(a) == Number(b)
  {
    if Before(a, b) {
      EarlierIsLess(a, b);
    } else if Before(b, a) {
      EarlierIsLess(b, a);
    }
  }

  // ----- Text -----

  function Digit(n: nat): char
    requires n < 10
  {
    ('0' as int + n) as char
  }

  predicate IsDigit(c: char) {
    '0' <= c <= '9'
  }

  function Pair(n: nat): string
    requires n < 100
  {
    [Digit(n / 10), Digit(n % 10)]
  }

  function PairAt(s: string, at: nat): (n: nat)
    requires at + 2 <= |s| && IsDigit(s[at]) && IsDigit(s[at + 1])
    ensures n < 100
  {
    10 * (s[at] as int - '0' as int) + (s[at + 1] as int - '0' as int)
  }

  function Format(d: Date): string
    requires Real(d)
  {
    Pair(d.year / 100) + (Pair(d.year % 100) + (['-'] + (Pair(d.month) + (['-'] + Pair(d.day)))))
  }

  predicate DigitsAt(s: string, at: nat, n: nat)
    requires at + n <= |s|
  {
    forall i :: at <= i < at + n ==> IsDigit(s[i])
  }

  function YearAt(s: string): (n: nat)
    requires |s| >= 4 && DigitsAt(s, 0, 4)
    ensures n <= 9999
  {
    100 * PairAt(s, 0) + PairAt(s, 2)
  }

  /** valid(v): the shape of a date, and the day exists. */
  function ParseDate(s: string): (r: Option<Date>)
    ensures r.Some? ==> Real(r.value)
  {
    if |s| == 10 && DigitsAt(s, 0, 4) && s[4] == '-' && DigitsAt(s, 5, 2) && s[7] == '-' && DigitsAt(s, 8, 2) then
      var d := Date(YearAt(s), PairAt(s, 5), PairAt(s, 8));
      if Real(d) then Some(d) else None
    else None
  }

  /** Dates and their texts are one to one. */
  lemma ParseFormat(d: Date)
    requires Real(d)
    ensures ParseDate(Format(d)) == Some(d)
  {
    var s := Format(d);
    assert |s| == 10 && s[4] == '-' && s[7] == '-';
    assert s[0..2] == Pair(d.year / 100) && s[2..4] == Pair(d.year % 100) && s[5..7] == Pair(d.month) && s[8..10] == Pair(d.day);
  }

  lemma PairOfPairAt(s: string, at: nat)
    requires at + 2 <= |s| && IsDigit(s[at]) && IsDigit(s[at + 1])
    ensures Pair(PairAt(s, at)) == s[at..at + 2]
  {
  }

  lemma FormatParse(s: string)
    requires ParseDate(s).Some?
    ensures Format(ParseDate(s).value) == s
  {
    hide Pair, PairAt;
    PairOfPairAt(s, 0);
    PairOfPairAt(s, 2);
    PairOfPairAt(s, 5);
    PairOfPairAt(s, 8);
    assert s == s[0..2] + (s[2..4] + (['-'] + (s[5..7] + (['-'] + s[8..10]))));
  }

  /** Comparison of texts, character by character. */
  predicate Less(s: string, t: string) {
    t != "" && (s == "" || s[0] < t[0] || (s[0] == t[0] && Less(s[1..], t[1..])))
  }

  lemma {:induction false} LessAppend(a: string, x: string, b: string, y: string)
    requires |a| == |b|
    ensures Less(a + x, b + y) <==> Less(a, b) || (a == b && Less(x, y))
  {
    if a == "" {
      assert a + x == x && b + y == y;
    } else {
      assert (a + x)[1..] == a[1..] + x && (b + y)[1..] == b[1..] + y;
      LessAppend(a[1..], x, b[1..], y);
      assert a == [a[0]] + a[1..] && b == [b[0]] + b[1..];
    }
  }

  lemma DigitLess(a: nat, b: nat)
    requires a < 10 && b < 10
    ensures Less([Digit(a)], [Digit(b)]) <==> a < b
    ensures Digit(a) < Digit(b) <==> a < b
    ensures Digit(a) == Digit(b) <==> a == b
  {
    assert [Digit(a)][1..] == "" && [Digit(b)][1..] == "";
  }

  lemma PairLess(a: nat, b: nat)
    requires a < 100 && b < 100
    ensures Less(Pair(a), Pair(b)) <==> a < b
    ensures Pair(a) == Pair(b) <==> a == b
  {
    hide Less, Digit;
    assert Pair(a) == [Digit(a / 10)] + [Digit(a % 10)] && Pair(b) == [Digit(b / 10)] + [Digit(b % 10)];
    LessAppend([Digit(a / 10)], [Digit(a % 10)], [Digit(b / 10)], [Digit(b % 10)]);
    DigitLess(a / 10, b / 10);
    DigitLess(a % 10, b % 10);
    assert [Digit(a / 10)][0] == Digit(a / 10) && [Digit(b / 10)][0] == Digit(b / 10);
    assert Pair(a)[0] == Digit(a / 10) && Pair(a)[1] == Digit(a % 10);
    assert Pair(b)[0] == Digit(b / 10) && Pair(b)[1] == Digit(b % 10);
  }

  lemma PairAppend(a: nat, x: string, b: nat, y: string)
    requires a < 100 && b < 100
    ensures Less(Pair(a) + x, Pair(b) + y) <==> a < b || (a == b && Less(x, y))
  {
    LessAppend(Pair(a), x, Pair(b), y);
    PairLess(a, b);
  }

  lemma DashAppend(x: string, y: string)
    ensures Less(['-'] + x, ['-'] + y) <==> Less(x, y)
  {
    LessAppend(['-'], x, ['-'], y);
    assert !Less(['-'], ['-']) by {
      assert ['-'][1..] == "";
    }
  }

  /** Comparing texts is comparing days. */
  lemma TextOrder(a: Date, b: Date)
    requires Real(a) && Real(b)
    ensures Less(Format(a), Format(b)) <==> Number(a) < Number(b)
  {
    hide Less, Pair;
    PairLess(a.day, b.day);
    DashAppend(Pair(a.day), Pair(b.day));
    PairAppend(a.month, ['-'] + Pair(a.day), b.month, ['-'] + Pair(b.day));
    DashAppend(Pair(a.month) + (['-'] + Pair(a.day)), Pair(b.month) + (['-'] + Pair(b.day)));
    PairAppend(a.year % 100, ['-'] + (Pair(a.month) + (['-'] + Pair(a.day))), b.year % 100, ['-'] + (Pair(b.month) + (['-'] + Pair(b.day))));
    PairAppend(a.year / 100, Pair(a.year % 100) + (['-'] + (Pair(a.month) + (['-'] + Pair(a.day)))),
               b.year / 100, Pair(b.year % 100) + (['-'] + (Pair(b.month) + (['-'] + Pair(b.day)))));
    NumberOrder(a, b);
  }

  // ----- Ranges -----

  datatype Filters = Filters(dateType: string, period: string, value: string, from: string, to: string)

  datatype Interval = Interval(start: string, end: string)

  datatype Error = DateType | Day | Month | Year | Custom | Period

  /** next(v). After the last day of year 9999 the ISO text has a sign and six digits of year, cut to ten characters. */
  function Next(d: Date): string
    requires Real(d)
  {
    if d == LAST_DAY then "+010000-01" else Format(Tomorrow(d))
  }

  /** Date.UTC takes the years 0 to 99 as 1900 to 1999. */
  function UtcYear(year: nat): nat {
    if year <= 99 then 1900 + year else year
  }

  function LastOfMonth(year: nat, month: nat): Date {
    Date(UtcYear(year), month, DaysIn(UtcYear(year), month))
  }

  function ParseMonth(s: string): (r: Option<(nat, nat)>)
    ensures r.Some? ==> r.value.0 <= 9999 && 1 <= r.value.1 <= 12
  {
    if |s| == 7 && DigitsAt(s, 0, 4) && s[4] == '-' && DigitsAt(s, 5, 2) && 1 <= PairAt(s, 5) <= 12 then Some((YearAt(s), PairAt(s, 5)))
    else None
  }

  function ParseYear(s: string): (r: Option<nat>)
    ensures r.Some? ==> 1000 <= r.value <= 9998
  {
    if |s| == 4 && DigitsAt(s, 0, 4) && s[0] != '0' && s != "9999" then
      assert YearAt(s) == 9999 ==> s == "9999";
      Some(YearAt(s))
    else None
  }

  function MonthRange(year: nat, month: nat): Interval
    requires year <= 9999 && 1 <= month <= 12
  {
    Interval(Format(Date(year, month, 1)), Next(LastOfMonth(year, month)))
  }

  function YearRange(year: nat): Interval
    requires year <= 9998
  {
    Interval(Format(Date(year, 1, 1)), Format(Date(year + 1, 1, 1)))
  }

  function CustomRange(from: string, to: string): Result<Option<Interval>, Error> {
    var a, b := ParseDate(from), ParseDate(to);
    if a.None? || b.None? || Less(to, from) then Err(Custom) else Ok(Some(Interval(from, Next(b.value))))
  }

  /** mpsDashboardDateRange. An absent date type is the empty text. */
  function DateRange(f: Filters): Result<Option<Interval>, Error> {
    if f.dateType in {"", "NONE"} then Ok(None)
    else if f.dateType !in {"ORDER", "DELIVERY"} then Err(DateType)
    else if f.period == "DAY" then
      var d := ParseDate(f.value);
      if d.None? then Err(Day) else Ok(Some(Interval(f.value, Next(d.value))))
    else if f.period == "MONTH" then
      var m := ParseMonth(f.value);
      if m.None? then Err(Month) else Ok(Some(MonthRange(m.value.0, m.value.1)))
    else if f.period == "YEAR" then
      var y := ParseYear(f.value);
      if y.None? then Err(Year) else Ok(Some(YearRange(y.value)))
    else if f.period == "CUSTOM" then CustomRange(f.from, f.to)
    else Err(Period)
  }

  /** What is no date type or no period is refused, and no date type is no range, whatever else is chosen. */
  lemma OtherwiseRefused(f: Filters)
    ensures f.dateType in {"", "NONE"} ==> DateRange(f) == Ok(None)
    ensures f.dateType !in {"", "NONE", "ORDER", "DELIVERY"} ==> DateRange(f) == Err(DateType)
    ensures f.dateType in {"ORDER", "DELIVERY"} && f.period !in {"DAY", "MONTH", "YEAR", "CUSTOM"} ==> DateRange(f) == Err(Period)
    ensures f.dateType in {"ORDER", "DELIVERY"} ==> DateRange(f) != Ok(None) && DateRange(f) == DateRange(f.(dateType := "ORDER"))
  {
    hide ParseDate, ParseMonth, ParseYear, MonthRange, YearRange, Less, Next;
  }

  /** A text in the half-open range. */
  predicate Within(s: string, r: Interval) {
    !Less(s, r.start) && Less(s, r.end)
  }

  /** The range holds exactly the days from a to b. */
  ghost predicate Covers(r: Interval, a: Date, b: Date)
    requires Real(a) && Real(b)
  {
    forall x: Date :: Real(x) ==> (Within(Format(x), r) <==> Number(a) <= Number(x) <= Number(b))
  }

  /** A range up to the day after b covers a to b, both included, unless b is the last day of year 9999: then it is empty. */
  lemma RangeCovers(a: Date, b: Date)
    requires Real(a) && Real(b) && Number(a) <= Number(b)
    ensures Covers(Interval(Format(a), Next(b)), a, b) <==> b != LAST_DAY
  {
    hide Less, Format;
    var r := Interval(Format(a), Next(b));
    if b == LAST_DAY {
      SignIsFirst(b);
      assert !Within(Format(b), r);
    } else {
      TomorrowIsNext(b);
      TomorrowIsReal(b);
      forall x: Date | Real(x) ensures Within(Format(x), r) <==> Number(a) <= Number(x) <= Number(b) {
        TextOrder(x, a);
        TextOrder(x, Tomorrow(b));
      }
    }
  }

  /** A plus sign sorts before every digit. */
  lemma SignIsFirst(x: Date)
    requires Real(x)
    ensures !Less(Format(x), "+010000-01")
  {
    assert Format(x)[0] == Digit(x.year / 100 / 10);
  }

  /** DAY is CUSTOM with one day; both hold that day alone, unless it is the last of year 9999. */
  lemma CustomOfOneDay(f: Filters, day: string)
    requires f.dateType in {"ORDER", "DELIVERY"}
    ensures DateRange(f.(period := "CUSTOM", from := day, to := day)).Ok? <==> DateRange(f.(period := "DAY", value := day)).Ok?
    ensures DateRange(f.(period := "DAY", value := day)).Ok? ==>
      DateRange(f.(period := "CUSTOM", from := day, to := day)) == DateRange(f.(period := "DAY", value := day))
  {
    if ParseDate(day).Some? {
      FormatParse(day);
      TextOrder(ParseDate(day).value, ParseDate(day).value);
    }
  }

  /** CUSTOM is refused unless both days exist in order, and covers exactly the days chosen unless the last is the
      last of year 9999. */
  lemma CustomCovers(f: Filters, from: string, to: string)
    requires f.dateType in {"ORDER", "DELIVERY"}
    ensures var a, b, r := ParseDate(from), ParseDate(to), DateRange(f.(period := "CUSTOM", from := from, to := to));
      if a.Some? && b.Some? && Number(a.value) <= Number(b.value)
      then r.Ok? && r.value.Some? && (Covers(r.value.value, a.value, b.value) <==> b.value != LAST_DAY)
      else r == Err(Custom)
  {
    hide Less, ParseDate, Format, Covers, Next, Number, DaysBeforeYear, DaysBeforeMonth, Leap;
    var a, b := ParseDate(from), ParseDate(to);
    if a.Some? && b.Some? {
      FormatParse(from);
      FormatParse(to);
      TextOrder(b.value, a.value);
      if Number(a.value) <= Number(b.value) {
        RangeCovers(a.value, b.value);
      }
    }
  }

  /** A month's range covers exactly the month, for years from 100 on and up to November 9999, and for no other. */
  lemma MonthCovers(year: nat, month: nat)
    requires year <= 9999 && 1 <= month <= 12
    ensures Covers(MonthRange(year, month), Date(year, month, 1), Date(year, month, DaysIn(year, month)))
       <==> year >= 100 && (year, month) != (9999, 12)
  {
    hide Less, Format, Next, Number, Leap;
    var first, last := Date(year, month, 1), LastOfMonth(year, month);
    NumberOrder(first, last);
    RangeCovers(first, last);
    if year < 100 {
      var x := Date(500, 1, 1);
      NumberOrder(first, x);
      NumberOrder(x, last);
      NumberOrder(Date(year, month, DaysIn(year, month)), x);
      assert Within(Format(x), MonthRange(year, month));
    }
  }

  /** Months of the years 0 to 99 run on to the same month of a year 1900 years later. */
  lemma EarlyMonthsRunOn(year: nat, month: nat)
    requires year <= 99 && 1 <= month <= 12
    ensures Covers(MonthRange(year, month), Date(year, month, 1), Date(1900 + year, month, DaysIn(1900 + year, month)))
  {
    hide Less, Format, Next, Number, Leap, DaysIn, Covers;
    var first, last := Date(year, month, 1), Date(1900 + year, month, DaysIn(1900 + year, month));
    NumberOrder(first, last);
    RangeCovers(first, last);
  }

  /** The twelve months of a year tile the year: each begins where the one before ends. */
  lemma MonthsTileYear(year: nat, month: nat)
    requires 1000 <= year <= 9998 && 1 <= month <= 12
    ensures MonthRange(year, 1).start == YearRange(year).start
    ensures MonthRange(year, month).end == if month < 12 then MonthRange(year, month + 1).start else YearRange(year).end
  {
  }

  /** Every year and month has the text that MONTH takes for it. */
  lemma MonthIsRead(f: Filters, year: nat, month: nat)
    requires f.dateType in {"ORDER", "DELIVERY"} && year <= 9999 && 1 <= month <= 12
    ensures DateRange(f.(period := "MONTH", value := Pair(year / 100) + Pair(year % 100) + ['-'] + Pair(month)))
         == Ok(Some(MonthRange(year, month)))
  {
    hide MonthRange;
    var s := Pair(year / 100) + Pair(year % 100) + ['-'] + Pair(month);
    assert |s| == 7 && s[4] == '-';
    assert s[0..2] == Pair(year / 100) && s[2..4] == Pair(year % 100) && s[5..7] == Pair(month);
  }

  /** Every year from 1000 to 9998 has the text that YEAR takes for it. */
  lemma YearIsRead(f: Filters, year: nat)
    requires f.dateType in {"ORDER", "DELIVERY"} && 1000 <= year <= 9998
    ensures DateRange(f.(period := "YEAR", value := Pair(year / 100) + Pair(year % 100))) == Ok(Some(YearRange(year)))
  {
    hide YearRange;
    var s := Pair(year / 100) + Pair(year % 100);
    assert |s| == 4;
    assert s[0..2] == Pair(year / 100) && s[2..4] == Pair(year % 100);
    assert s[0] == Digit(year / 100 / 10);
    assert YearAt("9999") == 9999;
  }

  /** A year's range covers the year. */
  lemma YearCovers(year: nat)
    requires year <= 9998
    ensures Covers(YearRange(year), Date(year, 1, 1), Date(year, 12, 31))
  {
    hide Less, Format, Covers;
    NumberOrder(Date(year, 1, 1), Date(year, 12, 31));
    RangeCovers(Date(year, 1, 1), Date(year, 12, 31));
  }
}
