/** Billing periods: what the overflow-style month arithmetic does to a subscription's end date. */
module Periods {
  import opened Calendar

  datatype Cycle = Monthly | Quarterly | Yearly

  function Months(cycle: Cycle): int {
    match cycle
    case Monthly => 1
    case Quarterly => 3
    case Yearly => 12
  }

  /** The end of the period that starts at t. */
  function PeriodEnd(t: int, cycle: Cycle): int {
    AddMonths(t, Months(cycle))
  }

  function DaysInYear(y: int): int {
    if IsLeap(y) then 366 else 365
  }

  lemma TwelveMonths(month: int)
    ensures MonthStart(month + 12) - MonthStart(month) ==
            DaysInYear(if month % 12 <= 1 then month / 12 else month / 12 + 1)
  {
    var y, m := month / 12, month % 12;
    MonthOf(y + 1, m);
    assert month + 12 == 12 * (y + 1) + m;
    YearLength(y);
  }

  /** The length of a period is exact. A monthly one lasts as long as the month it starts in, a
      quarterly one as long as three months, a yearly one as the year whose February it crosses;
      the overflow of the date never adds or loses a day. */
  lemma PeriodLength(t: int, cycle: Cycle)
    ensures var month := DateOf(t).month;
            PeriodEnd(t, cycle) - t == MS_PER_DAY *
              match cycle
              case Monthly => DaysInMonth(month)
              case Quarterly => DaysInMonth(month) + DaysInMonth(month + 1) + DaysInMonth(month + 2)
              case Yearly => DaysInYear(if month % 12 <= 1 then month / 12 else month / 12 + 1)
  {
    hide MonthStart, DaysInMonth, DateOf;
    var month := DateOf(t).month;
    AddMonthsDate(t, Months(cycle));
    MonthFollows(month);
    MonthFollows(month + 1);
    MonthFollows(month + 2);
    TwelveMonths(month);
  }

  /** 28 to 31 days, 89 to 92 days, 365 or 366 days. */
  lemma PeriodBounds(t: int, cycle: Cycle)
    ensures cycle == Monthly ==> 28 * MS_PER_DAY <= PeriodEnd(t, cycle) - t <= 31 * MS_PER_DAY
    ensures cycle == Quarterly ==> 89 * MS_PER_DAY <= PeriodEnd(t, cycle) - t <= 92 * MS_PER_DAY
    ensures cycle == Yearly ==> 365 * MS_PER_DAY <= PeriodEnd(t, cycle) - t <= 366 * MS_PER_DAY
  {
    hide PeriodEnd;
    PeriodLength(t, cycle);
    QuarterBounds(DateOf(t).month);
  }

  /** From midnight of 31 January 2024 a monthly period ends on 2 March, a quarterly one on 1 May, a yearly
      one on 31 January 2025. */
  lemma KnownPeriods()
    ensures PeriodEnd(1706659200000, Monthly) == 1709337600000
    ensures PeriodEnd(1706659200000, Quarterly) == 1714521600000
    ensures PeriodEnd(1706659200000, Yearly) == 1738281600000
  {
    hide DateOf, PeriodEnd;
    KnownDates();
    PeriodLength(1706659200000, Monthly);
    PeriodLength(1706659200000, Quarterly);
    PeriodLength(1706659200000, Yearly);
    MonthLengths(2024, 0);
    MonthLengths(2024, 1);
    MonthLengths(2024, 2);
  }

  lemma QuarterBounds(month: int)
    ensures 89 <= DaysInMonth(month) + DaysInMonth(month + 1) + DaysInMonth(month + 2) <= 92
  {
    var y, m := month / 12, month % 12;
    if m <= 9 {
      MonthOf(y, m + 1);
      MonthOf(y, m + 2);
    } else if m == 10 {
      MonthOf(y, 11);
      MonthOf(y + 1, 0);
    } else {
      MonthOf(y + 1, 0);
      MonthOf(y + 1, 1);
    }
  }

  // ---------- Many renewals ----------

  function Renewed(t: int, cycle: Cycle, n: nat): int {
    if n == 0 then t else PeriodEnd(Renewed(t, cycle, n - 1), cycle)
  }

  /** The dates alone. */
  function Dates(c: Civil, k: int, n: nat): Civil {
    if n == 0 then c else Settled(Dates(c, k, n - 1).month + k, Dates(c, k, n - 1).date)
  }

  lemma {:induction false} RenewedDates(t: int, cycle: Cycle, n: nat)
    ensures DateOf(Renewed(t, cycle, n)) == Dates(DateOf(t), Months(cycle), n)
    ensures TimeInDay(Renewed(t, cycle, n)) == TimeInDay(t)
    decreases n
  {
    hide DateOf, TimeInDay, AddMonths, Settled;
    if n > 0 {
      RenewedDates(t, cycle, n - 1);
      AddMonthsDate(Renewed(t, cycle, n - 1), Months(cycle));
    }
  }

  /** A time value is its date and its time of day. */
  lemma SameDateSameTime(s: int, t: int)
    requires DateOf(s) == DateOf(t) && TimeInDay(s) == TimeInDay(t)
    ensures s == t
  {
    hide CivilOf;
    CountingIsFormula(Day(s));
    CountingIsFormula(Day(t));
  }

  /** The j-th month from here is long enough for this day of the month. */
  predicate FitsAt(c: Civil, j: int) {
    c.date <= DaysInMonth(c.month + j)
  }

  predicate Fits(c: Civil, n: nat) {
    forall j :: 1 <= j <= n ==> FitsAt(c, j)
  }

  /** Monthly renewals keep the day of the month as long as every month is long enough; from the
      first that is not, the period ends on one of the first three days of a month, for good. */
  lemma {:induction false} MonthlyDates(c: Civil, n: nat)
    requires IsDate(c)
    ensures var d := Dates(c, 1, n);
            if Fits(c, n) then d == Civil(c.month + n, c.date) else 1 <= d.date <= 3
    decreases n
  {
    if n > 0 {
      MonthlyDates(c, n - 1);
      if Fits(c, n - 1) { assert Fits(c, n) <==> FitsAt(c, n); }
    }
  }

  lemma {:induction false} MonthlyDatesFall(c: Civil, m: nat, n: nat)
    requires IsDate(c) && m <= n
    ensures Dates(c, 1, m).date <= 28 ==> Dates(c, 1, n).date == Dates(c, 1, m).date
    decreases n
  {
    if m < n { MonthlyDatesFall(c, m, n - 1); }
  }

  // ---------- Twelve months and a year ----------

  /** The months between a date and its anniversary are long enough for it: always up to the 28th,
      for the 29th if the February among them is in a leap year or is the starting month itself. */
  predicate KeepsItsDay(c: Civil) {
    c.date <= 28 ||
    (c.date == 29 && (c.month % 12 == 1 || IsLeap(if c.month % 12 == 0 then c.month / 12 else c.month / 12 + 1)))
  }

  /** How far the next February is. */
  function ToFebruary(month: int): (j: int)
    ensures 1 <= j <= 12 && (month + j) % 12 == 1
    ensures (month + j) / 12 == if month % 12 == 0 then month / 12 else month / 12 + 1
    ensures forall i :: 1 <= i < j ==> AddMonth(month, i) % 12 != 1
    ensures month % 12 != 1 ==> forall i :: j < i <= 11 ==> AddMonth(month, i) % 12 != 1
  {
    var m := month % 12;
    if m == 0 then 1 else 13 - m
  }

  function AddMonth(month: int, i: int): int {
    month + i
  }

  lemma FitsOutsideFebruary(c: Civil, j: int)
    requires c.date <= 29 && AddMonth(c.month, j) % 12 != 1
    ensures FitsAt(c, j)
  {
  }

  lemma FitsElevenIff(c: Civil)
    requires IsDate(c)
    ensures Fits(c, 11) <==> KeepsItsDay(c)
  {
    var f := ToFebruary(c.month);
    assert FitsAt(c, f) <==> c.date <= if IsLeap((c.month + f) / 12) then 29 else 28;
    if c.date <= 29 {
      forall j | 1 <= j <= 11 && j != f ensures FitsAt(c, j) { FitsOutsideFebruary(c, j); }
    }
    assert f == 12 <==> c.month % 12 == 1;
  }

  lemma AnniversaryDate(c: Civil)
    requires IsDate(c) && !KeepsItsDay(c)
    ensures Settled(c.month + 12, c.date).date >= 29
  {
    assert (c.month + 12) % 12 == c.month % 12;
  }

  lemma TwelveDatesIff(c: Civil)
    requires IsDate(c)
    ensures Dates(c, 1, 12) == Settled(c.month + 12, c.date) <==> KeepsItsDay(c)
  {
    MonthlyDates(c, 11);
    FitsElevenIff(c);
    if KeepsItsDay(c) {
      assert Dates(c, 1, 12) == Settled(c.month + 11 + 1, c.date);
    } else {
      AnniversaryDate(c);
      assert Dates(c, 1, 12).date <= 3;
    }
  }

  /** Twelve monthly renewals end where one yearly renewal does exactly for the dates that keep their
      day: up to the 28th, and the 29th when no short February lies between. */
  lemma TwelveMonthsAreAYearIff(t: int)
    ensures Renewed(t, Monthly, 12) == PeriodEnd(t, Yearly) <==> KeepsItsDay(DateOf(t))
  {
    hide DateOf, AddMonths, TimeInDay, KeepsItsDay, IsDate, Renewed, Dates, Settled;
    AddMonthsDate(t, 12);
    RenewedDates(t, Monthly, 12);
    TwelveDatesIff(DateOf(t));
    if KeepsItsDay(DateOf(t)) { SameDateSameTime(Renewed(t, Monthly, 12), PeriodEnd(t, Yearly)); }
  }

  lemma {:induction false} EarlyDates(c: Civil, k: int, n: nat)
    requires c.date <= 28
    ensures Dates(c, k, n) == Civil(c.month + n * k, c.date)
    decreases n
  {
    if n > 0 {
      EarlyDates(c, k, n - 1);
      assert n * k == (n - 1) * k + k;
    }
  }

  lemma {:induction false} DatesCompose(c: Civil, k: int, m: nat, n: nat)
    ensures Dates(c, k, m + n) == Dates(Dates(c, k, m), k, n)
    decreases n
  {
    hide Settled;
    if n == 0 {
      assert Dates(Dates(c, k, m), k, 0) == Dates(c, k, m);
    } else {
      DatesCompose(c, k, m, n - 1);
      var e := Dates(c, k, m + (n - 1));
      assert Dates(c, k, m + n) == Settled(e.month + k, e.date);
      assert Dates(Dates(c, k, m), k, n) == Settled(e.month + k, e.date);
    }
  }

  /** From 31 January 2023 twelve monthly renewals end on 3 February 2024, a yearly one on the 31st of
      January. */
  lemma MonthsFallBehind(t: int)
    requires DateOf(t) == Civil(12 * 2023 + 0, 31)
    ensures DateOf(Renewed(t, Monthly, 12)) == Civil(12 * 2024 + 1, 3)
    ensures DateOf(PeriodEnd(t, Yearly)) == Civil(12 * 2024 + 0, 31)
  {
    hide DateOf, Renewed, Dates;
    var c := DateOf(t);
    assert DaysInMonth(c.month + 1) == 28 && DaysInMonth(c.month + 12) == 31;
    RenewedDates(t, Monthly, 12);
    AddMonthsDate(t, 12);
    DatesCompose(c, 1, 1, 11);
    FirstDates(c);
    EarlyDates(Dates(c, 1, 1), 1, 11);
  }

  lemma FirstDates(c: Civil)
    ensures Dates(c, 1, 1) == Settled(c.month + 1, c.date)
  {
    hide Settled;
    assert Dates(c, 1, 0) == c;
  }

  /** From a day of the month up to the 28th, twelve monthly or four quarterly renewals equal one
      yearly renewal. */
  lemma CyclesAgree(t: int)
    requires DateOf(t).date <= 28
    ensures Renewed(t, Monthly, 12) == Renewed(t, Quarterly, 4) == PeriodEnd(t, Yearly)
  {
    hide DateOf, AddMonths, TimeInDay, Renewed, Dates;
    RenewedDates(t, Monthly, 12);
    RenewedDates(t, Quarterly, 4);
    EarlyDates(DateOf(t), 1, 12);
    EarlyDates(DateOf(t), 3, 4);
    AddMonthsDate(t, 12);
    SameDateSameTime(Renewed(t, Monthly, 12), PeriodEnd(t, Yearly));
    SameDateSameTime(Renewed(t, Quarterly, 4), PeriodEnd(t, Yearly));
  }

  // ---------- Where the day of the month ends up ----------

  /** Two Februaries in a row are not both long. */
  lemma ShortFebruaryWithin(c: Civil)
    requires IsDate(c) && Fits(c, 23)
    ensures c.date <= 28
  {
    var f := ToFebruary(c.month);
    var y := (c.month + f) / 12;
    assert FitsAt(c, f);
    assert c.month % 12 == 1 ==> f == 12;
    assert c.month % 12 != 1 ==> f <= 11 && FitsAt(c, f + 12);
    assert (c.month + f + 12) / 12 == y + 1 && (c.month + f + 12) % 12 == 1;
  }

  /** From any start the day of the month is constant from the 23rd monthly renewal on. */
  lemma DayOfMonthSettles(t: int, n: nat)
    requires n >= 23
    ensures DateOf(Renewed(t, Monthly, n)).date == DateOf(Renewed(t, Monthly, 23)).date <= 28
  {
    hide DateOf, AddMonths, TimeInDay, Fits, Renewed, Dates;
    AddMonthsDate(t, 0);
    RenewedDates(t, Monthly, n);
    RenewedDates(t, Monthly, 23);
    MonthlyDates(DateOf(t), 23);
    if Fits(DateOf(t), 23) { ShortFebruaryWithin(DateOf(t)); }
    MonthlyDatesFall(DateOf(t), 23, n);
  }

  lemma FromMarch2023(c: Civil)
    requires c == Civil(12 * 2023 + 2, 29)
    ensures Fits(c, 22)
    ensures Settled(c.month + 23, c.date) == Civil(12 * 2025 + 2, 1)
  {
    assert DaysInMonth(c.month + 11) == 29;
    forall j | 1 <= j <= 22 && j != 11 ensures FitsAt(c, j) { FitsOutsideFebruary(c, j); }
  }

  lemma FirstMisfit(c: Civil, n: nat)
    requires IsDate(c) && Fits(c, n)
    ensures Dates(c, 1, n) == Civil(c.month + n, c.date)
    ensures Dates(c, 1, n + 1) == Settled(c.month + n + 1, c.date)
  {
    MonthlyDates(c, n);
  }

  /** Not earlier in general: from 29 March 2023 a subscription still ends on a 29th after 22 monthly
      renewals, and on a 1st after 23. */
  lemma TwentyTwoDoNotSettle(t: int)
    requires DateOf(t) == Civil(12 * 2023 + 2, 29)
    ensures DateOf(Renewed(t, Monthly, 22)) == Civil(12 * 2025 + 0, 29)
    ensures DateOf(Renewed(t, Monthly, 23)) == Civil(12 * 2025 + 2, 1)
  {
    hide DateOf, Renewed, Dates, Fits, Settled;
    RenewedDates(t, Monthly, 22);
    RenewedDates(t, Monthly, 23);
    FromMarch2023(DateOf(t));
    FirstMisfit(DateOf(t), 22);
  }
}
