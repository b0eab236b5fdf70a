/** Invoice numbers: the next one is found by sorting the stored numbers of the month as text. */
module Invoices {
  import opened Wrappers
  import opened Text
  import opened Decimal

  /** `stamp` is the month of issue as it stands in the number, YYYYMM. */
  datatype Invoice = Invoice(number: string, stamp: string, subscriptionId: nat)

  function Stamp(year: nat, month: nat): (s: string)
    ensures '-' !in s
  {
    Print(year) + Padded(month + 1, 2)
  }

  function Series(prefix: string, stamp: string): string {
    prefix + "-" + stamp + "-"
  }

  function Low(prefix: string, stamp: string): string { Series(prefix, stamp) + "0001" }

  function High(prefix: string, stamp: string): string { Series(prefix, stamp) + "9999" }

  /** The `Between` clause: text comparison, both ends included. */
  predicate InRange(number: string, prefix: string, stamp: string) {
    Leq(Low(prefix, stamp), number) && Leq(number, High(prefix, stamp))
  }

  /** What `split('-')` leaves last. */
  function LastPart(s: string): (p: string)
    ensures '-' !in p
  {
    if s == "" || s[|s| - 1] == '-' then "" else LastPart(s[..|s| - 1]) + [s[|s| - 1]]
  }

  /** The greatest number in the range, in text order; None when there is none. */
  ghost predicate IsLatest(rows: seq<Invoice>, prefix: string, stamp: string, latest: Option<string>) {
    match latest
    case None => forall r :: r in rows ==> !InRange(r.number, prefix, stamp)
    case Some(s) =>
      && InRange(s, prefix, stamp)
      && (exists r :: r in rows && r.number == s)
      && forall r :: r in rows && InRange(r.number, prefix, stamp) ==> Leq(r.number, s)
  }

  /** The number after the latest; None is NaN. */
  function After(latest: Option<string>): Option<nat> {
    match latest
    case None => Some(1)
    case Some(s) =>
      match ParseInt(LastPart(s))
      case None => None
      case Some(n) => Some(n + 1)
  }

  function Number(prefix: string, stamp: string, n: nat): string {
    Series(prefix, stamp) + Padded(n, 4)
  }

  // ---------- Numbers of different months do not meet ----------

  lemma DashCut(a: string, b: string, y: string)
    requires '-' !in a && '-' !in b && a + "-" <= b + "-" + y
    ensures a == b
  {
    var s := b + "-" + y;
    assert s[|a|] == '-' && s[|b|] == '-';
    assert forall k :: 0 <= k < |b| ==> s[k] == b[k];
    assert forall k :: 0 <= k < |a| ==> s[k] == a[k];
    assert s[..|a|] == a && s[..|b|] == b;
  }

  /** A number of another month is outside the month's range. */
  lemma OtherMonthOutside(prefix: string, stamp: string, other: string, n: nat)
    requires '-' !in stamp && '-' !in other && stamp != other
    ensures !InRange(Number(prefix, other, n), prefix, stamp)
  {
    var s := Number(prefix, other, n);
    if InRange(s, prefix, stamp) {
      BetweenSharesPrefix(Series(prefix, stamp), "0001", s, "9999");
      var p := prefix + "-";
      var y := Padded(n, 4);
      assert Series(prefix, stamp) == p + (stamp + "-");
      assert s == p + (other + "-" + y);
      assert s[|p|..] == other + "-" + y;
      assert Series(prefix, stamp)[|p|..] == stamp + "-";
      assert stamp + "-" <= other + "-" + y;
      DashCut(stamp, other, y);
    }
  }

  /** A number of the month is inside, up to and including the first five-digit one. */
  lemma OwnMonthInside(prefix: string, stamp: string, n: nat)
    requires 1 <= n <= 10000
    ensures InRange(Number(prefix, stamp, n), prefix, stamp)
  {
    hide Leq, Padded;
    TenThousandSorts();
    LeqCommonPrefix(Series(prefix, stamp), "0001", Padded(n, 4));
    LeqCommonPrefix(Series(prefix, stamp), Padded(n, 4), "9999");
    if n <= 9999 {
      PaddedOrder(1, n);
      PaddedOrder(n, 9999);
    }
  }

  lemma {:induction false} LastPartOf(s: string, d: string)
    requires Digits(d)
    ensures LastPart(s + "-" + d) == d
  {
    var t := s + "-" + d;
    if d != "" {
      var e := d[..|d| - 1];
      assert t[..|t| - 1] == s + "-" + e;
      LastPartOf(s, e);
    }
  }

  lemma AfterNumber(prefix: string, stamp: string, n: nat)
    ensures After(Some(Number(prefix, stamp, n))) == Some(n + 1)
  {
    hide Padded, LastPart, ParseInt;
    var d := Padded(n, 4);
    assert Number(prefix, stamp, n) == (prefix + "-" + stamp) + "-" + d;
    LastPartOf(prefix + "-" + stamp, d);
    ParsePadded(n, 4);
  }

  // ---------- The numbers a month issues ----------

  /** How many of the first k invoices belong to the month. */
  function Count(rows: seq<Invoice>, stamp: string, k: nat): (n: nat)
    requires k <= |rows|
    ensures n <= k
  {
    if k == 0 then 0 else Count(rows, stamp, k - 1) + if rows[k - 1].stamp == stamp then 1 else 0
  }

  function Capped(n: nat): nat {
    if n < 10000 then n else 10000
  }

  /** Every invoice carries the number of its place within its month - capped at 10000. */
  ghost predicate InOrder(rows: seq<Invoice>, prefix: string) {
    forall i :: 0 <= i < |rows| ==>
      '-' !in rows[i].stamp &&
      rows[i].number == Number(prefix, rows[i].stamp, Capped(Place(rows, i)))
  }

  lemma {:induction false} CountGrows(rows: seq<Invoice>, stamp: string, i: nat, j: nat)
    requires i <= j <= |rows|
    ensures Count(rows, stamp, i) <= Count(rows, stamp, j)
    decreases j
  {
    if i < j { CountGrows(rows, stamp, i, j - 1); }
  }

  /** The place of invoice i within its month. */
  function Place(rows: seq<Invoice>, i: nat): (n: nat)
    requires i < |rows|
    ensures n >= 1
  {
    Count(rows, rows[i].stamp, i) + 1
  }

  /** Places within a month rise strictly and never pass the month's count. */
  lemma PlacesRise(rows: seq<Invoice>, i: nat, j: nat)
    requires i < j <= |rows|
    ensures Place(rows, i) <= Count(rows, rows[i].stamp, j)
    ensures j < |rows| && rows[j].stamp == rows[i].stamp ==> Place(rows, i) < Place(rows, j)
  {
    CountGrows(rows, rows[i].stamp, i + 1, j);
  }

  /** The invoice at which a month's count passes n. */
  lemma {:induction false} FindNth(rows: seq<Invoice>, stamp: string, n: nat, k: nat) returns (i: nat)
    requires k <= |rows| && n < Count(rows, stamp, k)
    ensures i < k && rows[i].stamp == stamp && Place(rows, i) == n + 1
    decreases k
  {
    if rows[k - 1].stamp == stamp && Count(rows, stamp, k - 1) == n {
      i := k - 1;
    } else {
      i := FindNth(rows, stamp, n, k - 1);
    }
  }

  function Least(a: nat, b: nat): nat {
    if a < b then a else b
  }

  /** No row of the month in range: the month has issued nothing. */
  lemma NoneIssued(rows: seq<Invoice>, prefix: string, stamp: string)
    requires InOrder(rows, prefix) && forall r :: r in rows ==> !InRange(r.number, prefix, stamp)
    ensures Count(rows, stamp, |rows|) == 0
  {
    hide Leq, Padded, InRange, Number, Count;
    assert forall i :: 0 <= i < |rows| ==> rows[i] in rows && !InRange(rows[i].number, prefix, stamp);
    if Count(rows, stamp, |rows|) > 0 {
      var j := FindNth(rows, stamp, 0, |rows|);
      OwnMonthInside(prefix, stamp, 1);
    }
  }

  /** A row in the month's range is an invoice of the month. */
  lemma InRangeIsOwn(rows: seq<Invoice>, prefix: string, stamp: string, i: nat)
    requires InOrder(rows, prefix) && '-' !in stamp && i < |rows| && InRange(rows[i].number, prefix, stamp)
    ensures rows[i].stamp == stamp && Place(rows, i) <= Count(rows, stamp, |rows|)
  {
    hide Leq, Padded, InRange, Number, Count, Capped;
    if rows[i].stamp != stamp { OtherMonthOutside(prefix, stamp, rows[i].stamp, Capped(Place(rows, i))); }
    PlacesRise(rows, i, |rows|);
  }

  /** The latest number of the month is min(count, 9999): the text order hides the five-digit one. */
  lemma LatestIs(rows: seq<Invoice>, prefix: string, stamp: string, latest: Option<string>)
    requires InOrder(rows, prefix) && '-' !in stamp && IsLatest(rows, prefix, stamp, latest)
    ensures var k := Count(rows, stamp, |rows|);
            latest == if k == 0 then None else Some(Number(prefix, stamp, Least(k, 9999)))
  {
    hide Leq, Padded, InRange, Number, Count, Place;
    var k := Count(rows, stamp, |rows|);
    if latest.None? {
      NoneIssued(rows, prefix, stamp);
    } else {
      var r :| r in rows && r.number == latest.value;
      var i :| 0 <= i < |rows| && rows[i] == r;
      InRangeIsOwn(rows, prefix, stamp, i);
      var m := Least(k, 9999);
      var j := FindNth(rows, stamp, m - 1, |rows|);
      OwnMonthInside(prefix, stamp, m);
      assert rows[j] in rows && rows[j].number == Number(prefix, stamp, m);
      NumbersCompare(prefix, stamp, m, Capped(Place(rows, i)));
    }
  }

  /** If number n is not before number m in text order, while m is the largest four-digit number not
      above n, the two are the same. */
  lemma NumbersCompare(prefix: string, stamp: string, m: nat, n: nat)
    requires 1 <= m <= 9999 && 1 <= n <= 10000 && (m < 9999 ==> n <= m)
    requires Leq(Number(prefix, stamp, m), Number(prefix, stamp, n))
    ensures n == m
  {
    hide Leq, Padded;
    LeqCommonPrefix(Series(prefix, stamp), Padded(m, 4), Padded(n, 4));
    if n <= 9999 {
      PaddedOrder(m, n);
    } else {
      TenThousandSorts();
      LeqAntisymmetric("10000", "9999");
      assert false;
    }
  }

  lemma NextNumber(rows: seq<Invoice>, prefix: string, stamp: string, latest: Option<string>)
    requires InOrder(rows, prefix) && '-' !in stamp && IsLatest(rows, prefix, stamp, latest)
    ensures After(latest) == Some(Capped(Count(rows, stamp, |rows|) + 1))
  {
    hide IsLatest, After, InOrder, Number, Count;
    LatestIs(rows, prefix, stamp, latest);
    AfterNumber(prefix, stamp, Least(Count(rows, stamp, |rows|), 9999));
    AfterNone();
  }

  /** The next invoice of a month gets the next number, until 10000 is reached and repeated. */
  lemma NextInOrder(rows: seq<Invoice>, prefix: string, stamp: string, latest: Option<string>, subscriptionId: nat)
    requires InOrder(rows, prefix) && '-' !in stamp && IsLatest(rows, prefix, stamp, latest)
    ensures var n := Capped(Count(rows, stamp, |rows|) + 1);
            After(latest) == Some(n) &&
            InOrder(rows + [Invoice(Number(prefix, stamp, n), stamp, subscriptionId)], prefix)
  {
    hide IsLatest, After, Number, Count, Capped;
    NextNumber(rows, prefix, stamp, latest);
    var n := Capped(Count(rows, stamp, |rows|) + 1);
    var more := rows + [Invoice(Number(prefix, stamp, n), stamp, subscriptionId)];
    forall i | 0 <= i < |more|
      ensures '-' !in more[i].stamp && more[i].number == Number(prefix, more[i].stamp, Capped(Place(more, i)))
    {
      CountPrefix(rows, more, more[i].stamp, i);
      if i < |rows| { assert Place(rows, i) == Place(more, i); }
    }
  }

  lemma AfterNone()
    ensures After(None) == Some(1)
  {
  }

  lemma {:induction false} CountPrefix(rows: seq<Invoice>, more: seq<Invoice>, stamp: string, i: nat)
    requires rows <= more && i <= |rows|
    ensures Count(more, stamp, i) == Count(rows, stamp, i)
    decreases i
  {
    if i > 0 { CountPrefix(rows, more, stamp, i - 1); }
  }

  lemma NumberInjective(prefix: string, a: string, m: nat, b: string, n: nat)
    requires '-' !in a && '-' !in b && Number(prefix, a, m) == Number(prefix, b, n)
    ensures a == b && m == n
  {
    hide Padded;
    var p := prefix + "-";
    assert Number(prefix, a, m)[|p|..] == a + "-" + Padded(m, 4);
    assert Number(prefix, b, n)[|p|..] == b + "-" + Padded(n, 4);
    assert a + "-" <= a + "-" + Padded(m, 4);
    DashCut(a, b, Padded(n, 4));
    assert Number(prefix, a, m)[|Series(prefix, a)|..] == Padded(m, 4);
    assert Number(prefix, b, n)[|Series(prefix, b)|..] == Padded(n, 4);
    ParsePadded(m, 4);
    ParsePadded(n, 4);
  }

  /** The invoices of a month have distinct numbers exactly as long as it has at most 10000. */
  lemma DistinctIff(rows: seq<Invoice>, prefix: string, stamp: string)
    requires InOrder(rows, prefix)
    ensures (forall i, j :: 0 <= i < j < |rows| && rows[i].stamp == rows[j].stamp == stamp ==>
               rows[i].number != rows[j].number)
            <==> Count(rows, stamp, |rows|) <= 10000
  {
    hide Number, Count, Place;
    if Count(rows, stamp, |rows|) > 10000 {
      var i := FindNth(rows, stamp, 9999, |rows|);
      var j := FindNth(rows, stamp, 10000, |rows|);
      if j < i { PlacesRise(rows, j, i); }
      assert rows[i].number == rows[j].number;
    } else {
      forall i, j | 0 <= i < j < |rows| && rows[i].stamp == rows[j].stamp == stamp
        ensures rows[i].number != rows[j].number
      {
        PlacesRise(rows, i, j);
        PlacesRise(rows, j, |rows|);
        if rows[i].number == rows[j].number { NumberInjective(prefix, stamp, Place(rows, i), stamp, Place(rows, j)); }
      }
    }
  }

  /** What one call of `Create` after another leaves, for these subscriptions and one month. */
  function Issued(rows: seq<Invoice>, prefix: string, stamp: string, ids: seq<nat>): seq<Invoice> {
    if ids == [] then rows
    else
      var k := |ids| - 1;
      var before := Issued(rows, prefix, stamp, ids[..k]);
      before + [Invoice(Number(prefix, stamp, Capped(Count(before, stamp, |before|) + 1)), stamp, ids[k])]
  }

  lemma IssuedNone(rows: seq<Invoice>, prefix: string, stamp: string)
    ensures Issued(rows, prefix, stamp, []) == rows
  {
  }

  lemma IssuedStep(rows: seq<Invoice>, prefix: string, stamp: string, ids: seq<nat>, id: nat)
    ensures var before := Issued(rows, prefix, stamp, ids);
            Issued(rows, prefix, stamp, ids + [id]) == before +
              [Invoice(Number(prefix, stamp, Capped(Count(before, stamp, |before|) + 1)), stamp, id)]
  {
    assert (ids + [id])[..|ids|] == ids;
  }

  /** Issuing for one more subscription is issuing for it on top of what is there. */
  lemma IssuedMore(rows: seq<Invoice>, prefix: string, stamp: string, ids: seq<nat>, id: nat)
    ensures Issued(Issued(rows, prefix, stamp, ids), prefix, stamp, [id]) == Issued(rows, prefix, stamp, ids + [id])
    ensures Issued(Issued(rows, prefix, stamp, ids), prefix, stamp, []) == Issued(rows, prefix, stamp, ids)
  {
    var before := Issued(rows, prefix, stamp, ids);
    IssuedStep(rows, prefix, stamp, ids, id);
    IssuedNone(before, prefix, stamp);
    IssuedStep(before, prefix, stamp, [], id);
    assert [] + [id] == [id];
  }

  lemma CountMore(rows: seq<Invoice>, stamp: string, invoice: Invoice)
    ensures var more := rows + [invoice];
            Count(more, stamp, |more|) == Count(rows, stamp, |rows|) + if invoice.stamp == stamp then 1 else 0
  {
    CountPrefix(rows, rows + [invoice], stamp, |rows|);
  }

  /** The invoices issued in a row stand at the end, one per subscription, and are numbered on from where
      the month was, up to 10000. */
  lemma {:induction false} IssuedRows(rows: seq<Invoice>, prefix: string, stamp: string, ids: seq<nat>)
    ensures var all, k := Issued(rows, prefix, stamp, ids), Count(rows, stamp, |rows|);
            && |all| == |rows| + |ids| && rows <= all
            && Count(all, stamp, |all|) == k + |ids|
            && forall i :: 0 <= i < |ids| ==>
                 all[|rows| + i] == Invoice(Number(prefix, stamp, Capped(k + i + 1)), stamp, ids[i])
    decreases |ids|
  {
    hide Number, Capped, Count;
    if ids != [] {
      var n := |ids| - 1;
      var before := Issued(rows, prefix, stamp, ids[..n]);
      IssuedRows(rows, prefix, stamp, ids[..n]);
      CountMore(before, stamp, Issued(rows, prefix, stamp, ids)[|before|]);
    }
  }

  /** In an empty month the invoices number 10000 and 10001 get the same number. */
  lemma NumberRepeats(rows: seq<Invoice>, prefix: string, stamp: string, ids: seq<nat>)
    requires Count(rows, stamp, |rows|) == 0 && |ids| > 10000
    ensures var all := Issued(rows, prefix, stamp, ids);
            |all| == |rows| + |ids| && all[|rows| + 9999].number == all[|rows| + 10000].number
  {
    hide Issued, Number, Count;
    IssuedRows(rows, prefix, stamp, ids);
    var all := Issued(rows, prefix, stamp, ids);
    assert Capped(9999 + 1) == Capped(10000 + 1) == 10000;
    assert all[|rows| + 9999] == Invoice(Number(prefix, stamp, Capped(0 + 9999 + 1)), stamp, ids[9999]);
    assert all[|rows| + 10000] == Invoice(Number(prefix, stamp, Capped(0 + 10000 + 1)), stamp, ids[10000]);
  }

  /** Invoices of different months never share a number. */
  lemma MonthsApart(rows: seq<Invoice>, prefix: string, i: nat, j: nat)
    requires InOrder(rows, prefix) && i < |rows| && j < |rows| && rows[i].stamp != rows[j].stamp
    ensures rows[i].number != rows[j].number
  {
    hide Number, Place;
    if rows[i].number == rows[j].number {
      NumberInjective(prefix, rows[i].stamp, Capped(Place(rows, i)), rows[j].stamp, Capped(Place(rows, j)));
    }
  }

  /** A stamp spells the year and, in two digits, the month as people count it. */
  lemma StampSpells(year: nat, month: nat)
    requires month < 12
    ensures var s := Stamp(year, month);
            && |s| > 2 && ParseInt(s[..|s| - 2]) == Some(year) && ParseInt(s[|s| - 2..]) == Some(month + 1)
  {
    PaddedPeel(month + 1, 2);
    OneDigit((month + 1) / 10);
    hide Padded, Print, ParseInt;
    var s := Stamp(year, month);
    assert s[|s| - 2..] == Padded(month + 1, 2) && s[..|s| - 2] == Print(year);
    ParsePadded(month + 1, 2);
    ParsePrint(year);
  }

  /** The seventh invoice of June 2023. */
  lemma StampOf2023()
    ensures Stamp(2023, 5) == "202306" && Number("INV", Stamp(2023, 5), 7) == "INV-202306-0007"
  {
    assert Print(2023) == "2023" by { assert Print(2) == "2" && Print(20) == "20" && Print(202) == "202"; }
    assert Padded(6, 2) == "06" && Padded(7, 4) == "0007" by {
      assert Print(6) == "6" && Print(7) == "7";
      assert Zeros(1) == "0" && Zeros(2) == "00" && Zeros(3) == "000";
    }
  }

  /** Two different months have different stamps. */
  lemma StampInjective(y: nat, m: nat, y': nat, m': nat)
    requires m < 12 && m' < 12 && Stamp(y, m) == Stamp(y', m')
    ensures y == y' && m == m'
  {
    PaddedPeel(m + 1, 2);
    PaddedPeel(m' + 1, 2);
    OneDigit((m + 1) / 10);
    OneDigit((m' + 1) / 10);
    hide Padded, Print;
    var s := Stamp(y, m);
    var a, b := Padded(m + 1, 2), Padded(m' + 1, 2);
    assert s[|s| - 2..] == a == b && s[..|s| - 2] == Print(y) == Print(y');
    ParsePadded(m + 1, 2);
    ParsePadded(m' + 1, 2);
    ValuePrint(y);
    ValuePrint(y');
  }

  // ---------- The service ----------

  class InvoicesService {
    var invoices: seq<Invoice>
    const prefix: string

    ghost predicate Valid()
      reads this
    {
      InOrder(invoices, prefix)
    }

    constructor (prefix: string)
      ensures Valid() && invoices == [] && this.prefix == prefix
    {
      this.prefix := prefix;
      invoices := [];
    }

    /** The latest invoice number of a month, as the database finds it. */
    method FindLatest(stamp: string) returns (latest: Option<string>)
      ensures IsLatest(invoices, prefix, stamp, latest)
    {
      latest := None;
      for i := 0 to |invoices|
        invariant IsLatest(invoices[..i], prefix, stamp, latest)
      {
        var number := invoices[i].number;
        assert invoices[..i + 1] == invoices[..i] + [invoices[i]];
        if InRange(number, prefix, stamp) {
          LeqTotal(number, number);
          if latest.None? {
            latest := Some(number);
          } else {
            LeqTotal(latest.value, number);
            if Leq(latest.value, number) {
              forall r | r in invoices[..i] && InRange(r.number, prefix, stamp) ensures Leq(r.number, number) {
                LeqTransitive(r.number, latest.value, number);
              }
              latest := Some(number);
            }
          }
        }
      }
      assert invoices[..|invoices|] == invoices;
    }

    /** Creates an invoice for a subscription in a month, 0 being January. */
    method Create(year: nat, month: nat, subscriptionId: nat)
      requires Valid() && month < 12
      modifies this
      ensures Valid()
      ensures var stamp := Stamp(year, month);
              var n := Capped(Count(old(invoices), stamp, |old(invoices)|) + 1);
              invoices == old(invoices) + [Invoice(Number(prefix, stamp, n), stamp, subscriptionId)]
    {
      hide IsLatest, InOrder, Count, Capped, After, Stamp, Number;
      var stamp := Stamp(year, month);
      var latestInvoice := FindLatest(stamp);
      var nextNumber := Some(1);
      if latestInvoice.Some? { nextNumber := After(latestInvoice); }
      AfterNone();
      NextInOrder(invoices, prefix, stamp, latestInvoice, subscriptionId);
      var invoiceNumber := Number(prefix, stamp, nextNumber.value);
      invoices := invoices + [Invoice(invoiceNumber, stamp, subscriptionId)];
    }
  }
}
