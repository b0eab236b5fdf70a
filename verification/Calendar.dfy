/** Dates as ECMAScript computes them, in UTC: time values in milliseconds, the proleptic Gregorian
    calendar by its closed formulas (sections 21.4.1.3 and 21.4.1.12 of ECMA-262, 13th edition), and
    an independent calendar that simply counts the days one by one from 1 January 1970. */
module Calendar {

  const MS_PER_DAY: int := 86400000

  // ---------- Years and months ----------

  predicate IsLeap(y: int) {
    y % 4 == 0 && (y % 100 != 0 || y % 400 == 0)
  }

  /** The day number of 1 January. */
  function DayFromYear(y: int): int {
    365 * (y - 1970) + (y - 1969) / 4 - (y - 1901) / 100 + (y - 1601) / 400
  }

  function DaysIn(y: int, m: int): (n: int)
    ensures 28 <= n <= 31
  {
    if m == 1 then (if IsLeap(y) then 29 else 28)
    else if m == 3 || m == 5 || m == 8 || m == 10 then 30
    else 31
  }

  /** The days of the year before its month m. */
  function DaysBefore(y: int, m: int): int
    requires 0 <= m <= 12
  {
    [0, 31, 59, 90, 120, 151, 181, 212, 243, 273, 304, 334, 365][m] + if m >= 2 && IsLeap(y) then 1 else 0
  }

  /** Months are counted from January of year 0: month 12 * y + m, with m = 0 for January. */
  function DaysInMonth(month: int): (n: int)
    ensures 28 <= n <= 31
  {
    DaysIn(month / 12, month % 12)
  }

  /** The day number of the first of a month. */
  function MonthStart(month: int): int {
    DayFromYear(month / 12) + DaysBefore(month / 12, month % 12)
  }

  /** The lengths of the months by the rule of the knuckles: up to July the odd ones are long, from August
      the even ones, counted from one; February has 28 days, 29 in a leap year, and a year is leap when 16
      divides it, or 4 but not 25. */
  lemma MonthLengths(y: int, m: nat)
    requires m < 12
    ensures DaysInMonth(12 * y + m) ==
            if m == 1 then (if y % 16 == 0 || (y % 4 == 0 && y % 25 != 0) then 29 else 28)
            else if (m < 7) == (m % 2 == 0) then 31 else 30
  {
    MonthOf(y, m);
    LeapOtherwise(y);
  }

  lemma LeapOtherwise(y: int)
    ensures IsLeap(y) <==> y % 16 == 0 || (y % 4 == 0 && y % 25 != 0)
  {
    HundredIff(y);
    FourHundredIff(y);
  }

  lemma HundredIff(y: int)
    ensures y % 100 == 0 <==> y % 4 == 0 && y % 25 == 0
  {
    if y % 100 == 0 { Multiples(y, y / 100); }
    if y % 25 == 0 && y % 4 == 0 { FourAndTwentyFive(y, y / 25, y / 4); }
  }

  lemma FourHundredIff(y: int)
    ensures y % 400 == 0 <==> y % 16 == 0 && y % 25 == 0
    ensures y % 16 == 0 ==> y % 4 == 0
  {
    if y % 400 == 0 { Multiples(y, 4 * (y / 400)); }
    if y % 400 == 0 { SixteenDivides(y, 25 * (y / 400)); }
    if y % 16 == 0 { SixteenDivides(y, y / 16); }
    if y % 25 == 0 && y % 16 == 0 { SixteenAndTwentyFive(y, y / 25, y / 16); }
  }

  lemma Multiples(y: int, k: int)
    requires y == 100 * k
    ensures y % 25 == 0 && y % 4 == 0
  {
    assert y == 25 * (4 * k) && y == 4 * (25 * k);
  }

  lemma SixteenDivides(y: int, k: int)
    requires y == 16 * k
    ensures y % 16 == 0 && y % 4 == 0
  {
    assert y == 4 * (4 * k);
  }

  lemma FourAndTwentyFive(y: int, a: int, c: int)
    requires y == 25 * a == 4 * c
    ensures y % 100 == 0
  {
    assert y == 100 * (c - 6 * a);
  }

  lemma SixteenAndTwentyFive(y: int, a: int, c: int)
    requires y == 25 * a == 16 * c
    ensures y % 400 == 0
  {
    assert y == 400 * (9 * c - 14 * a);
  }

  /** Four hundred years, starting anywhere, have 146097 days. */
  lemma FourCenturies(month: int)
    ensures MonthStart(month + 4800) - MonthStart(month) == 146097
  {
    var y, m := month / 12, month % 12;
    MonthOf(y + 400, m);
    assert month + 4800 == 12 * (y + 400) + m;
    LeapRepeats(y);
    assert DaysBefore(y + 400, m) == DaysBefore(y, m);
    hide DaysBefore, IsLeap;
    assert (y + 400 - 1969) / 4 == (y - 1969) / 4 + 100;
    assert (y + 400 - 1901) / 100 == (y - 1901) / 100 + 4;
    assert (y + 400 - 1601) / 400 == (y - 1601) / 400 + 1;
  }

  lemma LeapRepeats(y: int)
    ensures IsLeap(y + 400) <==> IsLeap(y)
  {
    assert (y + 400) % 4 == y % 4 && (y + 400) % 100 == y % 100 && (y + 400) % 400 == y % 400;
  }

  lemma QuotientStep(n: int, d: int)
    requires d > 0
    ensures (n + 1) / d == n / d + if (n + 1) % d == 0 then 1 else 0
  {
    var q, r := n / d, n % d;
    assert n == q * d + r;
    if r + 1 < d {
      QuotientIs(n + 1, d, q, r + 1);
    } else {
      assert (q + 1) * d == q * d + d;
      QuotientIs(n + 1, d, q + 1, 0);
    }
  }

  lemma QuotientIs(n: int, d: int, q: int, r: int)
    requires d > 0 && 0 <= r < d && n == q * d + r
    ensures n / d == q && n % d == r
  {
    var q', r' := n / d, n % d;
    assert n == q' * d + r';
    assert (q - q') * d == r' - r;
    assert (q' - q) * d == r - r';
    if q > q' { Product(1, q - q', d); }
    if q < q' { Product(1, q' - q, d); }
  }

  lemma Product(a: int, b: int, d: int)
    requires a <= b && d >= 0
    ensures a * d <= b * d
  {
  }

  lemma YearLength(y: int)
    ensures DayFromYear(y + 1) == DayFromYear(y) + if IsLeap(y) then 366 else 365
  {
    QuotientStep(y - 1969, 4);
    QuotientStep(y - 1901, 100);
    QuotientStep(y - 1601, 400);
    assert (y - 1968) % 4 == 0 <==> y % 4 == 0;
    assert (y - 1900) % 100 == 0 <==> y % 100 == 0;
    assert (y - 1600) % 400 == 0 <==> y % 400 == 0;
    assert y % 400 == 0 ==> y % 100 == 0;
    assert y % 100 == 0 ==> y % 4 == 0;
  }

  lemma MonthOf(y: int, m: int)
    requires 0 <= m < 12
    ensures (12 * y + m) / 12 == y && (12 * y + m) % 12 == m
  {
  }

  lemma MonthStep(y: int, m: int)
    requires 0 <= m < 12
    ensures DaysBefore(y, m + 1) == DaysBefore(y, m) + DaysIn(y, m)
  {
  }

  /** The formulas agree with the month lengths: each month starts where the one before it ends. */
  lemma MonthFollows(month: int)
    ensures MonthStart(month + 1) == MonthStart(month) + DaysInMonth(month)
  {
    var y, m := month / 12, month % 12;
    MonthStep(y, m);
    if m < 11 {
      MonthOf(y, m + 1);
    } else {
      MonthOf(y + 1, 0);
      YearLength(y);
    }
  }

  lemma {:induction false} MonthsAscend(a: int, b: int)
    requires a < b
    ensures MonthStart(a) + DaysInMonth(a) <= MonthStart(b)
    decreases b - a
  {
    hide MonthStart, DaysInMonth;
    MonthFollows(a);
    if a + 1 < b { MonthsAscend(a + 1, b); }
  }

  // ---------- Dates ----------

  datatype Civil = Civil(month: int, date: int)

  predicate IsDate(c: Civil) {
    1 <= c.date <= DaysInMonth(c.month)
  }

  function DayOf(c: Civil): int {
    MonthStart(c.month) + c.date - 1
  }

  function NextDay(c: Civil): Civil {
    if c.date < DaysInMonth(c.month) then Civil(c.month, c.date + 1) else Civil(c.month + 1, 1)
  }

  function PreviousDay(c: Civil): Civil {
    if c.date > 1 then Civil(c.month, c.date - 1) else Civil(c.month - 1, DaysInMonth(c.month - 1))
  }

  lemma NextDayIsNext(c: Civil)
    requires IsDate(c)
    ensures IsDate(NextDay(c)) && DayOf(NextDay(c)) == DayOf(c) + 1
  {
    hide MonthStart, DaysInMonth;
    MonthFollows(c.month);
  }

  lemma PreviousDayIsPrevious(c: Civil)
    requires IsDate(c)
    ensures IsDate(PreviousDay(c)) && DayOf(PreviousDay(c)) == DayOf(c) - 1
  {
    hide MonthStart, DaysInMonth;
    MonthFollows(c.month - 1);
  }

  lemma Epoch()
    ensures IsDate(Civil(12 * 1970, 1)) && DayOf(Civil(12 * 1970, 1)) == 0
  {
    MonthOf(1970, 0);
  }

  /** The date of a day number, found by counting from 1 January 1970. */
  function CivilOf(day: int): Civil
    decreases if day < 0 then -day else day
  {
    if day == 0 then Civil(12 * 1970, 1)
    else if day > 0 then NextDay(CivilOf(day - 1))
    else PreviousDay(CivilOf(day + 1))
  }

  /** Counting days and the closed formulas are the same calendar. */
  lemma {:induction false} CountingIsFormula(day: int)
    ensures IsDate(CivilOf(day)) && DayOf(CivilOf(day)) == day
    decreases if day < 0 then -day else day
  {
    if day == 0 {
      Epoch();
    } else if day > 0 {
      CountingIsFormula(day - 1);
      NextDayIsNext(CivilOf(day - 1));
    } else {
      CountingIsFormula(day + 1);
      PreviousDayIsPrevious(CivilOf(day + 1));
    }
  }

  /** A day has one date. */
  lemma DateIsUnique(c: Civil)
    requires IsDate(c)
    ensures CivilOf(DayOf(c)) == c
  {
    hide MonthStart, DaysInMonth, CivilOf;
    var e := CivilOf(DayOf(c));
    CountingIsFormula(DayOf(c));
    if e.month < c.month { MonthsAscend(e.month, c.month); }
    if c.month < e.month { MonthsAscend(c.month, e.month); }
  }

  // ---------- Time values ----------

  function Day(t: int): int { t / MS_PER_DAY }

  function TimeInDay(t: int): int { t % MS_PER_DAY }

  function DateOf(t: int): Civil { CivilOf(Day(t)) }

  /** The time value with month and date put in place of t's own; an impossible date overflows. */
  function WithMonth(t: int, month: int): int {
    (MonthStart(month) + DateOf(t).date - 1) * MS_PER_DAY + TimeInDay(t)
  }

  /** What `setMonth(getMonth() + k)`, or `setFullYear(getFullYear() + k / 12)`, does. */
  function AddMonths(t: int, k: int): int {
    WithMonth(t, DateOf(t).month + k)
  }

  /** A date k months on, with its overflow into the following month settled. */
  function Settled(month: int, date: int): Civil {
    if date <= DaysInMonth(month) then Civil(month, date) else Civil(month + 1, date - DaysInMonth(month))
  }

  lemma SettledIsDate(month: int, date: int)
    requires 1 <= date <= 31
    ensures IsDate(Settled(month, date)) && DayOf(Settled(month, date)) == MonthStart(month) + date - 1
  {
    hide MonthStart, DaysInMonth;
    MonthFollows(month);
  }

  lemma DayAndTime(day: int, rest: int)
    requires 0 <= rest < MS_PER_DAY
    ensures Day(day * MS_PER_DAY + rest) == day && TimeInDay(day * MS_PER_DAY + rest) == rest
  {
  }

  /** Finding a date by its closed formula. */
  lemma DateAt(t: int, y: int, m: nat, d: nat)
    requires m < 12 && 1 <= d <= DaysIn(y, m) && Day(t) == DayFromYear(y) + DaysBefore(y, m) + d - 1
    ensures DateOf(t) == Civil(12 * y + m, d)
  {
    hide CivilOf;
    MonthOf(y, m);
    DateIsUnique(Civil(12 * y + m, d));
  }

  /** Well-known dates in milliseconds since the start of 1970: the last instant before it, the day after
      28 February in 1900, 2000 and 2100, a day of June 2023 and the last of January 2024. */
  lemma KnownDates()
    ensures DateOf(-1) == Civil(12 * 1969 + 11, 31) && DateOf(0) == Civil(12 * 1970, 1)
    ensures DateOf(-2203891200000) == Civil(12 * 1900 + 2, 1)
    ensures DateOf(951782400000) == Civil(12 * 2000 + 1, 29)
    ensures DateOf(4107542400000) == Civil(12 * 2100 + 2, 1) && DateOf(4107542399999) == Civil(12 * 2100 + 1, 28)
    ensures DateOf(1686787200000) == Civil(12 * 2023 + 5, 15)
    ensures DateOf(1706659200000) == Civil(12 * 2024 + 0, 31)
  {
    hide DateOf, CivilOf;
    DateAt(-1, 1969, 11, 31);
    DateAt(0, 1970, 0, 1);
    DateAt(-2203891200000, 1900, 2, 1);
    DateAt(951782400000, 2000, 1, 29);
    DateAt(4107542400000, 2100, 2, 1);
    DateAt(4107542399999, 2100, 1, 28);
    DateAt(1686787200000, 2023, 5, 15);
    DateAt(1706659200000, 2024, 0, 31);
  }

  /** Month arithmetic keeps the time of day; it keeps the date if the month is long enough, and
      otherwise runs over into the first days of the next month. */
  lemma AddMonthsDate(t: int, k: int)
    ensures DateOf(AddMonths(t, k)) == Settled(DateOf(t).month + k, DateOf(t).date)
    ensures TimeInDay(AddMonths(t, k)) == TimeInDay(t)
    ensures AddMonths(t, k) - t == (MonthStart(DateOf(t).month + k) - MonthStart(DateOf(t).month)) * MS_PER_DAY
    ensures IsDate(DateOf(t))
  {
    hide MonthStart, CivilOf, Settled, Day, TimeInDay;
    var c := DateOf(t);
    var month := c.month + k;
    CountingIsFormula(Day(t));
    var day := MonthStart(month) + c.date - 1;
    Recompose(t);
    DayAndTime(day, TimeInDay(t));
    SettledIsDate(month, c.date);
    DateIsUnique(Settled(month, c.date));
    Spread(day, Day(t), TimeInDay(t));
  }

  lemma Recompose(t: int)
    ensures t == Day(t) * MS_PER_DAY + TimeInDay(t) && 0 <= TimeInDay(t) < MS_PER_DAY
  {
  }

  lemma Spread(a: int, b: int, r: int)
    ensures (a * MS_PER_DAY + r) - (b * MS_PER_DAY + r) == (a - b) * MS_PER_DAY
  {
  }

  /** A mutable `Date`. */
  class JsDate {
    var time: int

    constructor (time: int)
      ensures this.time == time
    {
      this.time := time;
    }

    function GetFullYear(): int
      reads this
    {
      DateOf(time).month / 12
    }

    function GetMonth(): int
      reads this
    {
      DateOf(time).month % 12
    }

    function GetDate(): int
      reads this
    {
      DateOf(time).date
    }

    method SetMonth(month: int)
      modifies this
      ensures time == WithMonth(old(time), 12 * old(GetFullYear()) + month)
    {
      var ym, mn := GetFullYear() + month / 12, month % 12;
      assert 12 * ym + mn == 12 * GetFullYear() + month;
      time := (MonthStart(12 * ym + mn) + GetDate() - 1) * MS_PER_DAY + TimeInDay(time);
    }

    method SetFullYear(year: int)
      modifies this
      ensures time == WithMonth(old(time), 12 * year + old(GetMonth()))
    {
      time := (MonthStart(12 * year + GetMonth()) + GetDate() - 1) * MS_PER_DAY + TimeInDay(time);
    }

    /** Setting the day of the month to `date`, which may lie outside the month. */
    method SetDate(date: int)
      modifies this
      ensures time == old(time) + (date - old(GetDate())) * MS_PER_DAY
    {
      CountingIsFormula(Day(time));
      time := (MonthStart(12 * GetFullYear() + GetMonth()) + date - 1) * MS_PER_DAY + TimeInDay(time);
    }
  }
}
