/** The daily renewal job, and what it guarantees over consecutive days. */
module Scheduler {
  import opened Calendar
  import opened Periods
  import opened Subscriptions
  import Invoices

  // ---------- One day ----------

  /** A subscription the job renews: expiring within a day, its plan still on file, and no call failing. */
  predicate Due(s: Subscription, plans: Plans, now: int) {
    Expires(s, now, 1) && s.planId in plans
  }

  function RenewDue(fleet: Fleet, plans: Plans, now: int, failing: set<Id>): Fleet {
    map id | id in fleet ::
      if Due(fleet[id], plans, now) && id !in failing
      then fleet[id].(endDate := PeriodEnd(fleet[id].endDate, plans[fleet[id].planId].cycle))
      else fleet[id]
  }

  function Renewing(fleet: Fleet, plans: Plans, now: int, failing: set<Id>): set<Id> {
    set id | id in fleet && Due(fleet[id], plans, now) && id !in failing
  }

  /** The fleet while the subscriptions in `rest` are still to be looked at. */
  function Partly(fleet: Fleet, plans: Plans, now: int, failing: set<Id>, rest: set<Id>): Fleet {
    map id | id in fleet :: if id in rest then fleet[id] else RenewDue(fleet, plans, now, failing)[id]
  }

  lemma PartlyStarts(fleet: Fleet, plans: Plans, now: int, failing: set<Id>, rest: set<Id>)
    requires rest == set id | id in fleet && Expires(fleet[id], now, 1)
    ensures Partly(fleet, plans, now, failing, rest) == fleet
    ensures Renewing(fleet, plans, now, failing) - rest == {}
  {
    hide PeriodEnd;
  }

  /** One turn of the loop, on the fleet and on the set of those renewed so far. */
  lemma PartlyStep(fleet: Fleet, plans: Plans, now: int, failing: set<Id>, rest: set<Id>, id: Id)
    requires id in rest && id in fleet && Expires(fleet[id], now, 1)
    ensures id in Partly(fleet, plans, now, failing, rest) && Partly(fleet, plans, now, failing, rest)[id] == fleet[id]
    ensures fleet[id].status == ACTIVE
    ensures id in Renewing(fleet, plans, now, failing) <==> id !in failing && fleet[id].planId in plans
    ensures var s := fleet[id];
            Partly(fleet, plans, now, failing, rest - {id}) ==
            if id !in failing && s.planId in plans
            then Partly(fleet, plans, now, failing, rest)[id :=
                   s.(endDate := PeriodEnd(s.endDate, plans[s.planId].cycle))]
            else Partly(fleet, plans, now, failing, rest)
  {
    hide PeriodEnd;
  }

  lemma PartlyEnds(fleet: Fleet, plans: Plans, now: int, failing: set<Id>)
    ensures Partly(fleet, plans, now, failing, {}) == RenewDue(fleet, plans, now, failing)
    ensures RenewDue(fleet, plans, now, failing).Keys == fleet.Keys
  {
    hide PeriodEnd;
  }

  /** Which subscriptions a stretch of the invoice list bills. */
  function Billed(invoices: seq<Invoices.Invoice>): (ids: seq<Id>)
    ensures |ids| == |invoices|
  {
    seq(|invoices|, i requires 0 <= i < |invoices| => invoices[i].subscriptionId)
  }

  /** Invoices issued in a row bill the subscriptions they were issued for. */
  lemma BilledIssued(before: seq<Invoices.Invoice>, prefix: string, stamp: string, ids: seq<Id>)
    ensures before <= Invoices.Issued(before, prefix, stamp, ids)
    ensures Billed(Invoices.Issued(before, prefix, stamp, ids)[|before|..]) == ids
  {
    hide Invoices.Issued, Invoices.Number, Invoices.Count;
    Invoices.IssuedRows(before, prefix, stamp, ids);
  }

  /** One turn of a billing loop over `all`, of which `rest` is still to come. */
  lemma Turn(billed: seq<Id>, all: set<Id>, rest: set<Id>, noInvoice: set<Id>, id: Id)
    requires multiset(billed) == multiset(all - rest - noInvoice) && id in rest
    ensures multiset(if id in all && id !in noInvoice then billed + [id] else billed)
            == multiset(all - (rest - {id}) - noInvoice)
  {
    var done := all - rest - noInvoice;
    assert all - (rest - {id}) - noInvoice == if id in all && id !in noInvoice then done + {id} else done;
    if id in all && id !in noInvoice { assert multiset(done + {id}) == multiset(done) + multiset{id}; }
  }

  /** The subscriptions the monthly job bills. */
  function BilledMonthly(fleet: Fleet, plans: Plans): set<Id> {
    set id | id in fleet && fleet[id].status == ACTIVE && !fleet[id].cancelAtPeriodEnd &&
             fleet[id].planId in plans && plans[fleet[id].planId].cycle == Monthly
  }

  lemma {:induction false} CivilAfterEpoch(day: int)
    requires day >= 0
    ensures CivilOf(day).month >= 12 * 1970
    decreases day
  {
    if day > 0 { CivilAfterEpoch(day - 1); }
  }

  lemma MonthNow(now: int)
    requires now >= 0
    ensures DateOf(now).month / 12 >= 0
  {
    CivilAfterEpoch(Day(now));
  }

  /** The stamp of the invoices issued at this time: year and month of its date. */
  function MonthStamp(now: int): string
    requires now >= 0
  {
    MonthNow(now);
    Invoices.Stamp(DateOf(now).month / 12, DateOf(now).month % 12)
  }

  /** On 15 June 2023 invoices are stamped 202306. */
  lemma StampOfJune()
    ensures MonthStamp(1686787200000) == "202306"
  {
    var now := 1686787200000;
    hide CivilOf, DateOf, Invoices.Stamp;
    KnownDates();
    Invoices.StampOf2023();
  }

  lemma AreExpiring(fleet: Fleet, now: int, ids: set<Id>)
    requires ids == set id | id in fleet && fleet[id].endDate < now + 1 * 86400000 &&
                             fleet[id].status == ACTIVE && !fleet[id].cancelAtPeriodEnd
    ensures ids == set id | id in fleet && Expires(fleet[id], now, 1)
  {
  }

  lemma AreMonthly(fleet: Fleet, plans: Plans, ids: set<Id>)
    requires ids == BilledMonthly(fleet, plans)
    ensures forall id :: id in ids <==>
              id in fleet && fleet[id].status == ACTIVE && !fleet[id].cancelAtPeriodEnd &&
              fleet[id].planId in plans && plans[fleet[id].planId].cycle == Monthly
  {
  }

  /** What one run does to each subscription. */
  lemma SpellOutRun(fleet: Fleet, plans: Plans, now: int, noRenewal: set<Id>, noInvoice: set<Id>, billed: seq<Id>)
    requires multiset(billed) == multiset(Renewing(fleet, plans, now, noRenewal) - noInvoice)
    ensures var after := RenewDue(fleet, plans, now, noRenewal);
            after.Keys == fleet.Keys &&
            forall id :: id in fleet ==>
              var s := fleet[id];
              if s.status == ACTIVE && !s.cancelAtPeriodEnd && s.endDate < now + 86400000 &&
                 s.planId in plans && id !in noRenewal
              then after[id] == s.(endDate := PeriodEnd(s.endDate, plans[s.planId].cycle)) &&
                   multiset(billed)[id] == (if id in noInvoice then 0 else 1)
              else after[id] == s && multiset(billed)[id] == 0
  {
    hide PeriodEnd;
  }

  class SchedulerService {
    const subscriptionsService: SubscriptionsService
    const invoicesService: Invoices.InvoicesService

    constructor (subscriptionsService: SubscriptionsService, invoicesService: Invoices.InvoicesService)
      ensures this.subscriptionsService == subscriptionsService && this.invoicesService == invoicesService
    {
      this.subscriptionsService := subscriptionsService;
      this.invoicesService := invoicesService;
    }

    /** The body of the loop; a failing call leaves the rest of the body undone. */
    method RenewAndInvoice(id: Id, now: int, renewalFails: bool, invoiceFails: bool) returns (renewed: bool)
      requires now >= 0 && invoicesService.Valid()
      requires id in subscriptionsService.subscriptions && subscriptionsService.subscriptions[id].status == ACTIVE
      modifies subscriptionsService`subscriptions, invoicesService
      ensures invoicesService.Valid()
      ensures renewed <==>
                !renewalFails && old(subscriptionsService.subscriptions)[id].planId in subscriptionsService.plans
      ensures subscriptionsService.subscriptions ==
                var s := old(subscriptionsService.subscriptions)[id];
                if renewed
                then old(subscriptionsService.subscriptions)[id :=
                       s.(endDate := PeriodEnd(s.endDate, subscriptionsService.plans[s.planId].cycle))]
                else old(subscriptionsService.subscriptions)
      ensures invoicesService.invoices ==
              Invoices.Issued(old(invoicesService.invoices), invoicesService.prefix, MonthStamp(now),
                              if renewed && !invoiceFails then [id] else [])
    {
      hide PeriodEnd, DateOf, Invoices.InOrder, Invoices.Number, Invoices.Stamp, Invoices.Count, Invoices.Capped;
      hide Invoices.Issued;
      Invoices.IssuedNone(invoicesService.invoices, invoicesService.prefix, MonthStamp(now));
      Invoices.IssuedStep(invoicesService.invoices, invoicesService.prefix, MonthStamp(now), [], id);
      assert [] + [id] == [id];
      renewed := false;
      if renewalFails { return; }
      var outcome := subscriptionsService.RenewSubscription(id);
      if outcome != Done { return; }
      renewed := true;
      if invoiceFails { return; }
      MonthNow(now);
      var month := DateOf(now).month;
      invoicesService.Create(month / 12, month % 12, id);
    }

    /** One midnight run. The calls for the subscriptions in the two sets fail: `noRenewal` when the
        renewal itself fails, `noInvoice` when only the invoice does; a failure touches nothing else. */
    method ProcessSubscriptionRenewals(now: int, noRenewal: set<Id>, noInvoice: set<Id>) returns (billed: seq<Id>)
      requires now >= 0 && invoicesService.Valid()
      modifies subscriptionsService`subscriptions, invoicesService
      ensures invoicesService.Valid()
      ensures subscriptionsService.subscriptions ==
                RenewDue(old(subscriptionsService.subscriptions), subscriptionsService.plans, now, noRenewal)
      ensures invoicesService.invoices ==
              Invoices.Issued(old(invoicesService.invoices), invoicesService.prefix, MonthStamp(now), billed)
      ensures multiset(billed) ==
              multiset(Renewing(old(subscriptionsService.subscriptions), subscriptionsService.plans, now, noRenewal)
                       - noInvoice)
      ensures subscriptionsService.subscriptions.Keys == old(subscriptionsService.subscriptions).Keys
      ensures forall id :: id in old(subscriptionsService.subscriptions) ==>
                var s, plans := old(subscriptionsService.subscriptions)[id], subscriptionsService.plans;
                if s.status == ACTIVE && !s.cancelAtPeriodEnd && s.endDate < now + 86400000 &&
                   s.planId in plans && id !in noRenewal
                then subscriptionsService.subscriptions[id] ==
                       s.(endDate := PeriodEnd(s.endDate, plans[s.planId].cycle)) &&
                     multiset(billed)[id] == (if id in noInvoice then 0 else 1)
                else subscriptionsService.subscriptions[id] == s && multiset(billed)[id] == 0
    {
      hide PeriodEnd, DateOf, Invoices.InOrder, Partly, Renewing, RenewDue, Expires, MonthStamp, Invoices.Issued;
      var expiring := subscriptionsService.FindExpiringSubscriptions(1, now);
      ghost var fleet, plans := subscriptionsService.subscriptions, subscriptionsService.plans;
      ghost var before, stamp := invoicesService.invoices, MonthStamp(now);
      ghost var all := Renewing(fleet, plans, now, noRenewal);
      AreExpiring(fleet, now, expiring);
      PartlyStarts(fleet, plans, now, noRenewal, expiring);
      assert all - expiring - noInvoice == {};
      billed := [];
      Invoices.IssuedNone(before, invoicesService.prefix, stamp);
      while expiring != {}
        invariant invoicesService.Valid()
        invariant forall id :: id in expiring ==> id in fleet && Expires(fleet[id], now, 1)
        invariant subscriptionsService.subscriptions == Partly(fleet, plans, now, noRenewal, expiring)
        invariant multiset(billed) == multiset(all - expiring - noInvoice)
        invariant invoicesService.invoices == Invoices.Issued(before, invoicesService.prefix, stamp, billed)
        decreases expiring
      {
        var id :| id in expiring;
        PartlyStep(fleet, plans, now, noRenewal, expiring, id);
        Turn(billed, all, expiring, noInvoice, id);
        var renewed := RenewAndInvoice(id, now, id in noRenewal, id in noInvoice);
        Invoices.IssuedMore(before, invoicesService.prefix, stamp, billed, id);
        if renewed && id !in noInvoice { billed := billed + [id]; }
        expiring := expiring - {id};
      }
      PartlyEnds(fleet, plans, now, noRenewal);
      assert all - {} - noInvoice == all - noInvoice;
      SpellOutRun(fleet, plans, now, noRenewal, noInvoice, billed);
    }

    /** The monthly job, in the order in which it bills: every active monthly subscription that is not to be
        cancelled gets one more invoice, unless the call for it fails. The invoices are those of as many
        calls of `Create`, so from the 10001st of a month on they repeat a number. */
    method GenerateMonthlyInvoices(now: int, noInvoice: set<Id>) returns (billed: seq<Id>)
      requires now >= 0 && invoicesService.Valid()
      modifies invoicesService
      ensures invoicesService.Valid()
      ensures forall id :: multiset(billed)[id] ==
                var fleet, plans := subscriptionsService.subscriptions, subscriptionsService.plans;
                if id in fleet && fleet[id].status == ACTIVE && !fleet[id].cancelAtPeriodEnd &&
                   fleet[id].planId in plans && plans[fleet[id].planId].cycle == Monthly && id !in noInvoice
                then 1 else 0
      ensures invoicesService.invoices ==
              Invoices.Issued(old(invoicesService.invoices), invoicesService.prefix, MonthStamp(now), billed)
      ensures var before, stamp := old(invoicesService.invoices), MonthStamp(now);
              Invoices.Count(before, stamp, |before|) == 0 && |billed| > 10000 ==>
                exists i, j :: 0 <= i < j < |invoicesService.invoices| &&
                  invoicesService.invoices[i].number == invoicesService.invoices[j].number
    {
      hide DateOf, Invoices.InOrder, Invoices.Number, Invoices.Stamp, Invoices.Count, Invoices.Capped;
      hide Invoices.Issued, BilledMonthly;
      MonthNow(now);
      var month := DateOf(now).month;
      ghost var before, stamp := invoicesService.invoices, MonthStamp(now);
      var monthly := BilledMonthly(subscriptionsService.subscriptions, subscriptionsService.plans);
      ghost var all := monthly;
      billed := [];
      assert all - monthly - noInvoice == {};
      Invoices.IssuedNone(before, invoicesService.prefix, stamp);
      while monthly != {}
        invariant invoicesService.Valid() && monthly <= all
        invariant multiset(billed) == multiset(all - monthly - noInvoice)
        invariant invoicesService.invoices == Invoices.Issued(before, invoicesService.prefix, stamp, billed)
        decreases monthly
      {
        var id :| id in monthly;
        Turn(billed, all, monthly, noInvoice, id);
        if id !in noInvoice {
          invoicesService.Create(month / 12, month % 12, id);
          Invoices.IssuedStep(before, invoicesService.prefix, stamp, billed, id);
          billed := billed + [id];
        }
        monthly := monthly - {id};
      }
      assert all - {} - noInvoice == all - noInvoice;
      AreMonthly(subscriptionsService.subscriptions, subscriptionsService.plans, all);
      if Invoices.Count(before, stamp, |before|) == 0 && |billed| > 10000 {
        Invoices.NumberRepeats(before, invoicesService.prefix, stamp, billed);
      }
    }

    /** Consecutive midnights, one run per outage record, the first at `now`. Every subscription is billed
        as often as `InvoicesIn` says; a renewable one ends up advanced by `RenewalsIn` periods, and has
        been billed for each of them exactly if no invoice call failed on a day of its renewal. The new
        invoices are those of one run after another, each in the month of its own day. */
    method RunDays(now: int, outages: seq<Outage>) returns (billed: seq<seq<Id>>)
      requires now >= 0 && invoicesService.Valid()
      modifies subscriptionsService`subscriptions, invoicesService
      ensures invoicesService.Valid()
      ensures subscriptionsService.subscriptions ==
                Days(old(subscriptionsService.subscriptions), subscriptionsService.plans, now, outages)
      ensures |billed| == |outages|
      ensures invoicesService.invoices ==
              IssuedDaily(old(invoicesService.invoices), invoicesService.prefix, now, billed)
      ensures var fleet, plans := old(subscriptionsService.subscriptions), subscriptionsService.plans;
              forall k :: 0 <= k < |outages| ==> BilledOnDay(fleet, plans, now, outages, k, billed[k])
      ensures old(invoicesService.invoices) <= invoicesService.invoices
      ensures var fleet, plans := old(subscriptionsService.subscriptions), subscriptionsService.plans;
              var bills := multiset(Billed(invoicesService.invoices[|old(invoicesService.invoices)|..]));
              forall id ::
                if id in fleet && Renewable(fleet[id], plans) then
                  BilledRight(fleet[id].endDate, plans[fleet[id].planId].cycle, now, id, outages, bills[id],
                              subscriptionsService.subscriptions)
                else bills[id] == 0
    {
      hide PeriodEnd, DateOf, Invoices.InOrder, Invoices.Issued, Billed, RenewDue, Renewing, BilledDaily, MonthStamp;
      hide IssuedDaily, Days, BilledRight;
      ghost var fleet, plans := subscriptionsService.subscriptions, subscriptionsService.plans;
      ghost var before := invoicesService.invoices;
      var n := 0;
      billed := [];
      assert outages[..0] == [];
      NothingBilled(fleet, plans, now, outages, before);
      DaysStart(fleet, plans, now, before, invoicesService.prefix);
      while n < |outages|
        invariant 0 <= n <= |outages| && invoicesService.Valid()
        invariant subscriptionsService.subscriptions == Days(fleet, plans, now, outages[..n])
        invariant |billed| == n && before <= invoicesService.invoices
        invariant invoicesService.invoices == IssuedDaily(before, invoicesService.prefix, now, billed)
        invariant forall k :: 0 <= k < n ==> BilledOnDay(fleet, plans, now, outages, k, billed[k])
        invariant BilledDaily(fleet, plans, now, outages, n, before, invoicesService.invoices)
      {
        ghost var was := invoicesService.invoices;
        LaterDay(now, n);
        var today :=
          ProcessSubscriptionRenewals(now + n * MS_PER_DAY, outages[n].noRenewal, outages[n].noInvoice);
        BilledIssued(was, invoicesService.prefix, MonthStamp(now + n * MS_PER_DAY), today);
        DailyStep(before, invoicesService.prefix, now, billed, today);
        billed := billed + [today];
        DayBills(fleet, plans, now, outages, n, before, was, invoicesService.invoices);
        DaysStep(fleet, plans, now, outages, n);
        n := n + 1;
      }
      assert outages[..n] == outages;
      forall id
        ensures var bills := multiset(Billed(invoicesService.invoices[|before|..]));
                if id in fleet && Renewable(fleet[id], plans) then
                  BilledRight(fleet[id].endDate, plans[fleet[id].planId].cycle, now, id, outages, bills[id],
                              subscriptionsService.subscriptions)
                else bills[id] == 0
      {
        DaysBilled(fleet, plans, now, outages, before, invoicesService.invoices, id);
      }
    }

    /** A lost invoice: on the day the subscription is due the invoice call fails, and the runs that follow
        within its new period add none for it to the list. */
    method RunDaysAfterFailure(now: int, id: Id, later: seq<Outage>)
      requires now >= 0 && invoicesService.Valid() && id in subscriptionsService.subscriptions
      requires Due(subscriptionsService.subscriptions[id], subscriptionsService.plans, now)
      requires var s := subscriptionsService.subscriptions[id];
               now + (|later| + 1) * MS_PER_DAY <= PeriodEnd(s.endDate, subscriptionsService.plans[s.planId].cycle)
      modifies subscriptionsService`subscriptions, invoicesService
      ensures old(invoicesService.invoices) <= invoicesService.invoices
      ensures forall i :: |old(invoicesService.invoices)| <= i < |invoicesService.invoices| ==>
                invoicesService.invoices[i].subscriptionId != id
      ensures var s := old(subscriptionsService.subscriptions)[id];
              id in subscriptionsService.subscriptions && subscriptionsService.subscriptions[id] ==
                s.(endDate := PeriodEnd(s.endDate, subscriptionsService.plans[s.planId].cycle))
    {
      hide PeriodEnd, Invoices.InOrder, BilledRight, Billed;
      ghost var fleet, plans := subscriptionsService.subscriptions, subscriptionsService.plans;
      ghost var before := invoicesService.invoices;
      var outages := [Outage({}, {id})] + later;
      var billed := RunDays(now, outages);
      LostFrom(fleet, plans, now, id, outages, before, invoicesService.invoices, subscriptionsService.subscriptions);
    }
  }

  // ---------- Many days ----------

  /** The calls that fail in one run. */
  datatype Outage = Outage(noRenewal: set<Id>, noInvoice: set<Id>)

  /** The fleet after one midnight run per outage record, the first at `now`. */
  function Days(fleet: Fleet, plans: Plans, now: int, outages: seq<Outage>): Fleet {
    if outages == [] then fleet
    else
      var n := |outages| - 1;
      RenewDue(Days(fleet, plans, now, outages[..n]), plans, now + n * MS_PER_DAY, outages[n].noRenewal)
  }

  /** Run number n, counted from 0, renews a subscription that ends at e. */
  predicate Renews(e: int, now: int, n: nat, id: Id, outage: Outage) {
    e < now + (n + 1) * MS_PER_DAY && id !in outage.noRenewal
  }

  /** The end date alone, for a subscription that stays active and is not to be cancelled. */
  function EndAfter(end: int, cycle: Cycle, now: int, id: Id, outages: seq<Outage>): int {
    if outages == [] then end
    else
      var n := |outages| - 1;
      var e := EndAfter(end, cycle, now, id, outages[..n]);
      if Renews(e, now, n, id, outages[n]) then PeriodEnd(e, cycle) else e
  }

  predicate RenewsOn(end: int, cycle: Cycle, now: int, id: Id, outages: seq<Outage>, n: nat)
    requires n < |outages|
  {
    Renews(EndAfter(end, cycle, now, id, outages[..n]), now, n, id, outages[n])
  }

  function RenewalsIn(end: int, cycle: Cycle, now: int, id: Id, outages: seq<Outage>, n: nat): nat
    requires n <= |outages|
  {
    if n == 0 then 0
    else
      RenewalsIn(end, cycle, now, id, outages, n - 1) +
      if RenewsOn(end, cycle, now, id, outages, n - 1) then 1 else 0
  }

  /** The renewals that are also invoiced. */
  function InvoicesIn(end: int, cycle: Cycle, now: int, id: Id, outages: seq<Outage>, n: nat): nat
    requires n <= |outages|
  {
    if n == 0 then 0
    else
      InvoicesIn(end, cycle, now, id, outages, n - 1) +
      if RenewsOn(end, cycle, now, id, outages, n - 1) && id !in outages[n - 1].noInvoice then 1 else 0
  }

  predicate Renewable(s: Subscription, plans: Plans) {
    s.status == ACTIVE && !s.cancelAtPeriodEnd && s.planId in plans
  }

  /** A subscription that ended at `end` has got `bills` invoices in the runs: one for each renewal on a
      day without a failing invoice call. It ends where its renewals take it, and all of them have been
      billed exactly if there was no other day. */
  ghost predicate BilledRight(end: int, cycle: Cycle, now: int, id: Id, outages: seq<Outage>,
                              bills: nat, fleet: Fleet)
  {
    var n := |outages|;
    var granted := RenewalsIn(end, cycle, now, id, outages, n);
    && id in fleet && fleet[id].endDate == Renewed(end, cycle, granted)
    && bills == InvoicesIn(end, cycle, now, id, outages, n)
    && bills <= granted
    && (bills == granted <==>
          forall k :: 0 <= k < n && RenewsOn(end, cycle, now, id, outages, k) ==> id !in outages[k].noInvoice)
  }

  /** The job treats every subscription by itself: a renewable one moves its end date alone, any other
      one - cancelled, cancelled at period end, without a plan - is never touched again. */
  lemma {:induction false} DaysPerSubscription(fleet: Fleet, plans: Plans, now: int, outages: seq<Outage>, id: Id)
    requires id in fleet
    ensures Days(fleet, plans, now, outages).Keys == fleet.Keys
    ensures Days(fleet, plans, now, outages)[id] ==
            if Renewable(fleet[id], plans)
            then fleet[id].(endDate := EndAfter(fleet[id].endDate, plans[fleet[id].planId].cycle, now, id, outages))
            else fleet[id]
    decreases |outages|
  {
    hide PeriodEnd;
    if outages != [] {
      var n := |outages| - 1;
      DaysPerSubscription(fleet, plans, now, outages[..n], id);
      DayBefore(now, n);
    }
  }

  lemma DayBefore(now: int, n: int)
    ensures now + n * MS_PER_DAY + 1 * MS_PER_DAY == now + (n + 1) * MS_PER_DAY
  {
  }

  /** The runs that renew a subscription are the ones in which the job bills it, unless its invoice
      fails. */
  lemma RenewingIsRenewsOn(fleet: Fleet, plans: Plans, now: int, outages: seq<Outage>, n: nat, id: Id)
    requires id in fleet && n < |outages|
    ensures id in Renewing(Days(fleet, plans, now, outages[..n]), plans, now + n * MS_PER_DAY, outages[n].noRenewal)
            <==> Renewable(fleet[id], plans) &&
                 RenewsOn(fleet[id].endDate, plans[fleet[id].planId].cycle, now, id, outages, n)
  {
    hide Days, EndAfter;
    DaysPerSubscription(fleet, plans, now, outages[..n], id);
    DayBefore(now, n);
  }

  lemma PeriodAtLeast(t: int, cycle: Cycle)
    ensures 28 * MS_PER_DAY <= PeriodEnd(t, cycle) - t <= 366 * MS_PER_DAY
  {
    PeriodBounds(t, cycle);
  }

  /** While behind, every run that is not disturbed gains at least 28 days. */
  lemma {:induction false} AheadOrGaining(end: int, cycle: Cycle, now: int, id: Id, outages: seq<Outage>)
    requires forall o :: o in outages ==> id !in o.noRenewal
    ensures var e := EndAfter(end, cycle, now, id, outages);
            e >= now + |outages| * MS_PER_DAY || e >= end + 28 * (|outages| * MS_PER_DAY)
    decreases |outages|
  {
    hide PeriodEnd;
    if outages != [] {
      var n := |outages| - 1;
      AheadOrGaining(end, cycle, now, id, outages[..n]);
      PeriodAtLeast(EndAfter(end, cycle, now, id, outages[..n]), cycle);
      DayBefore(now, n);
      DayBefore(0, n);
      assert outages[n] in outages;
    }
  }

  /** Daily renewals catch up and then never lapse: with lag = now + 1 day - endDate, after any number
      n >= lag / 27 days of runs that do not fail for it, a subscription's end date is at least the
      moment of the next run - at least tomorrow, seen from the last run. The fleet may be in any
      state, such as an outage leaves it in. */
  lemma CatchesUp(fleet: Fleet, plans: Plans, now: int, outages: seq<Outage>, id: Id)
    requires id in fleet && Renewable(fleet[id], plans)
    requires forall o :: o in outages ==> id !in o.noRenewal
    requires 27 * (|outages| * MS_PER_DAY) >= now + MS_PER_DAY - fleet[id].endDate
    ensures id in Days(fleet, plans, now, outages)
    ensures Days(fleet, plans, now, outages)[id].endDate >= now + |outages| * MS_PER_DAY
  {
    DaysPerSubscription(fleet, plans, now, outages, id);
    AheadOrGaining(fleet[id].endDate, plans[fleet[id].planId].cycle, now, id, outages);
  }

  /** Nor does the job run ahead: nothing is renewed more than a day before it ends, so no end date
      moves further than a day and a year past the last run. */
  lemma {:induction false} NeverFarAhead(end: int, cycle: Cycle, now: int, id: Id, outages: seq<Outage>)
    ensures EndAfter(end, cycle, now, id, outages) >= end
    ensures EndAfter(end, cycle, now, id, outages) > end ==>
              EndAfter(end, cycle, now, id, outages) < now + |outages| * MS_PER_DAY + 366 * MS_PER_DAY
    decreases |outages|
  {
    hide PeriodEnd;
    if outages != [] {
      var n := |outages| - 1;
      NeverFarAhead(end, cycle, now, id, outages[..n]);
      PeriodAtLeast(EndAfter(end, cycle, now, id, outages[..n]), cycle);
      DayBefore(now, n);
    }
  }

  /** What was granted: after n runs the end date is the old one advanced by exactly one period per
      renewal, whatever failed. */
  lemma {:induction false} GrantedIsRenewed(end: int, cycle: Cycle, now: int, id: Id, outages: seq<Outage>, n: nat)
    requires n <= |outages|
    ensures EndAfter(end, cycle, now, id, outages[..n]) ==
            Renewed(end, cycle, RenewalsIn(end, cycle, now, id, outages, n))
    decreases n
  {
    hide PeriodEnd;
    if n > 0 {
      GrantedIsRenewed(end, cycle, now, id, outages, n - 1);
      assert outages[..n][..n - 1] == outages[..n - 1];
    }
  }

  /** What was billed: never more periods than granted, and every one of them exactly if no invoice
      call failed on a day of renewal. A failed invoice is not made up for later. */
  lemma {:induction false} BilledIsGrantedIff(end: int, cycle: Cycle, now: int, id: Id, outages: seq<Outage>, n: nat)
    requires n <= |outages|
    ensures InvoicesIn(end, cycle, now, id, outages, n) <= RenewalsIn(end, cycle, now, id, outages, n)
    ensures InvoicesIn(end, cycle, now, id, outages, n) == RenewalsIn(end, cycle, now, id, outages, n)
            <==> forall k :: 0 <= k < n && RenewsOn(end, cycle, now, id, outages, k) ==> id !in outages[k].noInvoice
    decreases n
  {
    hide RenewsOn;
    if n > 0 { BilledIsGrantedIff(end, cycle, now, id, outages, n - 1); }
  }

  // ---------- The invoice list over many days ----------

  /** The invoices of one run after another, in the month of each run's day. */
  function IssuedDaily(rows: seq<Invoices.Invoice>, prefix: string, now: int, billed: seq<seq<Id>>):
      seq<Invoices.Invoice>
    requires now >= 0
  {
    if billed == [] then rows
    else
      var n := |billed| - 1;
      LaterDay(now, n);
      Invoices.Issued(IssuedDaily(rows, prefix, now, billed[..n]), prefix, MonthStamp(now + n * MS_PER_DAY), billed[n])
  }

  /** Run number k bills exactly the subscriptions it renews whose invoice calls do not fail, once each. */
  ghost predicate BilledOnDay(fleet: Fleet, plans: Plans, now: int, outages: seq<Outage>, k: nat, billed: seq<Id>)
    requires k < |outages|
  {
    multiset(billed) ==
    multiset(Renewing(Days(fleet, plans, now, outages[..k]), plans, now + k * MS_PER_DAY, outages[k].noRenewal)
             - outages[k].noInvoice)
  }

  lemma DaysStart(fleet: Fleet, plans: Plans, now: int, rows: seq<Invoices.Invoice>, prefix: string)
    requires now >= 0
    ensures Days(fleet, plans, now, []) == fleet && IssuedDaily(rows, prefix, now, []) == rows
  {
  }

  lemma DaysStep(fleet: Fleet, plans: Plans, now: int, outages: seq<Outage>, n: nat)
    requires n < |outages|
    ensures Days(fleet, plans, now, outages[..n + 1]) ==
            RenewDue(Days(fleet, plans, now, outages[..n]), plans, now + n * MS_PER_DAY, outages[n].noRenewal)
  {
    assert outages[..n + 1][..n] == outages[..n];
  }

  lemma DailyStep(rows: seq<Invoices.Invoice>, prefix: string, now: int, billed: seq<seq<Id>>, today: seq<Id>)
    requires now >= 0
    ensures now + |billed| * MS_PER_DAY >= 0
    ensures IssuedDaily(rows, prefix, now, billed + [today]) ==
            Invoices.Issued(IssuedDaily(rows, prefix, now, billed), prefix, MonthStamp(now + |billed| * MS_PER_DAY),
                            today)
  {
    hide Invoices.Issued, MonthStamp;
    LaterDay(now, |billed|);
    assert (billed + [today])[..|billed|] == billed;
  }

  /** How many invoices the first k runs have issued. */
  function IssuedBefore(billed: seq<seq<Id>>, k: nat): nat
    requires k <= |billed|
  {
    if k == 0 then 0 else IssuedBefore(billed, k - 1) + |billed[k - 1]|
  }

  lemma {:induction false} IssuedBeforePrefix(billed: seq<seq<Id>>, n: nat, k: nat)
    requires k <= n <= |billed|
    ensures IssuedBefore(billed[..n], k) == IssuedBefore(billed, k)
    decreases k
  {
    if k > 0 { IssuedBeforePrefix(billed, n, k - 1); }
  }

  /** The j-th invoice of run k stands behind those of the earlier runs, is for the subscription billed then,
      and carries the month of that run's day. */
  lemma {:induction false} DayOfInvoice(rows: seq<Invoices.Invoice>, prefix: string, now: int, billed: seq<seq<Id>>,
                                        k: nat, j: nat)
    requires now >= 0 && k < |billed| && j < |billed[k]|
    ensures now + k * MS_PER_DAY >= 0
    ensures var all, i := IssuedDaily(rows, prefix, now, billed), |rows| + IssuedBefore(billed, k) + j;
            && |all| == |rows| + IssuedBefore(billed, |billed|) && i < |all|
            && all[i].subscriptionId == billed[k][j] && all[i].stamp == MonthStamp(now + k * MS_PER_DAY)
    decreases |billed|
  {
    hide MonthStamp, Invoices.Issued, Invoices.Number, Invoices.Count;
    var n := |billed| - 1;
    var before := IssuedDaily(rows, prefix, now, billed[..n]);
    LaterDay(now, k);
    LaterDay(now, n);
    DailyLength(rows, prefix, now, billed[..n]);
    IssuedBeforePrefix(billed, n, n);
    IssuedBeforePrefix(billed, n, k);
    Invoices.IssuedRows(before, prefix, MonthStamp(now + n * MS_PER_DAY), billed[n]);
    if k < n { DayOfInvoice(rows, prefix, now, billed[..n], k, j); }
  }

  lemma {:induction false} DailyLength(rows: seq<Invoices.Invoice>, prefix: string, now: int, billed: seq<seq<Id>>)
    requires now >= 0
    ensures |IssuedDaily(rows, prefix, now, billed)| == |rows| + IssuedBefore(billed, |billed|)
    decreases |billed|
  {
    hide MonthStamp, Invoices.Issued, Invoices.Number, Invoices.Count;
    if billed != [] {
      var n := |billed| - 1;
      var before := IssuedDaily(rows, prefix, now, billed[..n]);
      LaterDay(now, n);
      DailyLength(rows, prefix, now, billed[..n]);
      IssuedBeforePrefix(billed, n, n);
      Invoices.IssuedRows(before, prefix, MonthStamp(now + n * MS_PER_DAY), billed[n]);
    }
  }

  /** How often the job has billed a subscription in the first n runs. */
  function BilledIn(fleet: Fleet, plans: Plans, now: int, outages: seq<Outage>, id: Id, n: nat): nat
    requires n <= |outages|
  {
    if id in fleet && Renewable(fleet[id], plans)
    then InvoicesIn(fleet[id].endDate, plans[fleet[id].planId].cycle, now, id, outages, n)
    else 0
  }

  ghost predicate BilledDaily(fleet: Fleet, plans: Plans, now: int, outages: seq<Outage>, n: nat,
                              before: seq<Invoices.Invoice>, invoices: seq<Invoices.Invoice>)
    requires n <= |outages|
  {
    && before <= invoices
    && forall id :: multiset(Billed(invoices[|before|..]))[id] == BilledIn(fleet, plans, now, outages, id, n)
  }

  lemma NothingBilled(fleet: Fleet, plans: Plans, now: int, outages: seq<Outage>, before: seq<Invoices.Invoice>)
    ensures BilledDaily(fleet, plans, now, outages, 0, before, before)
  {
    assert Billed(before[|before|..]) == [];
  }

  lemma LaterDay(now: int, n: nat)
    requires now >= 0
    ensures now + n * MS_PER_DAY >= 0
  {
  }

  /** One more run bills the subscriptions it renews, unless their invoices fail. */
  lemma DayBills(fleet: Fleet, plans: Plans, now: int, outages: seq<Outage>, n: nat,
                 before: seq<Invoices.Invoice>, was: seq<Invoices.Invoice>, invoices: seq<Invoices.Invoice>)
    requires n < |outages| && BilledDaily(fleet, plans, now, outages, n, before, was) && was <= invoices
    requires multiset(Billed(invoices[|was|..])) ==
             multiset(Renewing(Days(fleet, plans, now, outages[..n]), plans, now + n * MS_PER_DAY, outages[n].noRenewal)
                      - outages[n].noInvoice)
    ensures BilledDaily(fleet, plans, now, outages, n + 1, before, invoices)
  {
    hide Renewing, BilledIn, Days;
    assert Billed(invoices[|before|..]) == Billed(was[|before|..]) + Billed(invoices[|was|..]);
    var all := Renewing(Days(fleet, plans, now, outages[..n]), plans, now + n * MS_PER_DAY, outages[n].noRenewal);
    forall id ensures multiset(Billed(invoices[|before|..]))[id] == BilledIn(fleet, plans, now, outages, id, n + 1) {
      hide Billed;
      assert multiset(Billed(was[|before|..]))[id] == BilledIn(fleet, plans, now, outages, id, n);
      BilledInStep(fleet, plans, now, outages, n, id);
      assert multiset(all - outages[n].noInvoice)[id] == if id in all && id !in outages[n].noInvoice then 1 else 0;
    }
  }

  lemma BilledInStep(fleet: Fleet, plans: Plans, now: int, outages: seq<Outage>, n: nat, id: Id)
    requires n < |outages|
    ensures var all :=
              Renewing(Days(fleet, plans, now, outages[..n]), plans, now + n * MS_PER_DAY, outages[n].noRenewal);
            BilledIn(fleet, plans, now, outages, id, n + 1) ==
            BilledIn(fleet, plans, now, outages, id, n) + if id in all && id !in outages[n].noInvoice then 1 else 0
  {
    hide Renewing, RenewsOn, Renewable, Days;
    DaysKeys(fleet, plans, now, outages[..n]);
    if id in fleet {
      RenewingIsRenewsOn(fleet, plans, now, outages, n, id);
    } else {
      RenewingInFleet(Days(fleet, plans, now, outages[..n]), plans, now + n * MS_PER_DAY, outages[n].noRenewal, id);
    }
  }

  lemma RenewingInFleet(fleet: Fleet, plans: Plans, now: int, failing: set<Id>, id: Id)
    ensures id in Renewing(fleet, plans, now, failing) ==> id in fleet
  {
  }

  lemma {:induction false} DaysKeys(fleet: Fleet, plans: Plans, now: int, outages: seq<Outage>)
    ensures Days(fleet, plans, now, outages).Keys == fleet.Keys
    decreases |outages|
  {
    hide PeriodEnd;
    if outages != [] { DaysKeys(fleet, plans, now, outages[..|outages| - 1]); }
  }

  lemma DaysBilled(fleet: Fleet, plans: Plans, now: int, outages: seq<Outage>,
                   before: seq<Invoices.Invoice>, invoices: seq<Invoices.Invoice>, id: Id)
    requires BilledDaily(fleet, plans, now, outages, |outages|, before, invoices) && before <= invoices
    ensures var bills := multiset(Billed(invoices[|before|..]));
            if id in fleet && Renewable(fleet[id], plans) then
              BilledRight(fleet[id].endDate, plans[fleet[id].planId].cycle, now, id, outages, bills[id],
                          Days(fleet, plans, now, outages))
            else bills[id] == 0
  {
    var n := |outages|;
    hide Days, RenewsOn, EndAfter, Billed;
    assert multiset(Billed(invoices[|before|..]))[id] == BilledIn(fleet, plans, now, outages, id, n);
    if id in fleet && Renewable(fleet[id], plans) {
      var end, cycle := fleet[id].endDate, plans[fleet[id].planId].cycle;
      assert outages[..n] == outages;
      DaysPerSubscription(fleet, plans, now, outages, id);
      GrantedIsRenewed(end, cycle, now, id, outages, n);
      BilledIsGrantedIff(end, cycle, now, id, outages, n);
    }
  }

  /** A run whose invoice call fails, and then any number of undisturbed ones before the period ends: one
      renewal, no invoice. */
  lemma {:induction false} FailedInvoiceIsLost(end: int, cycle: Cycle, now: int, id: Id, outages: seq<Outage>, n: nat)
    requires 1 <= n <= |outages| && outages[0] == Outage({}, {id}) && end < now + MS_PER_DAY
    requires now + |outages| * MS_PER_DAY <= PeriodEnd(end, cycle)
    ensures EndAfter(end, cycle, now, id, outages[..n]) == PeriodEnd(end, cycle)
    ensures RenewalsIn(end, cycle, now, id, outages, n) == 1 && InvoicesIn(end, cycle, now, id, outages, n) == 0
    decreases n
  {
    hide PeriodEnd;
    var m := n - 1;
    assert outages[..n][..m] == outages[..m];
    if m == 0 {
      assert outages[..0] == [] && RenewsOn(end, cycle, now, id, outages, 0);
      assert RenewalsIn(end, cycle, now, id, outages, 0) == 0 && InvoicesIn(end, cycle, now, id, outages, 0) == 0;
    } else {
      FailedInvoiceIsLost(end, cycle, now, id, outages, m);
      DaysGrow(n, |outages|);
      assert !RenewsOn(end, cycle, now, id, outages, m);
    }
  }

  lemma DaysGrow(m: nat, n: nat)
    requires m <= n
    ensures m * MS_PER_DAY <= n * MS_PER_DAY
  {
  }

  lemma LostFrom(fleet: Fleet, plans: Plans, now: int, id: Id, outages: seq<Outage>,
                 before: seq<Invoices.Invoice>, invoices: seq<Invoices.Invoice>, after: Fleet)
    requires id in fleet && Due(fleet[id], plans, now) && |outages| > 0 && outages[0] == Outage({}, {id})
    requires now + |outages| * MS_PER_DAY <= PeriodEnd(fleet[id].endDate, plans[fleet[id].planId].cycle)
    requires before <= invoices && after == Days(fleet, plans, now, outages)
    requires BilledRight(fleet[id].endDate, plans[fleet[id].planId].cycle, now, id, outages,
                         multiset(Billed(invoices[|before|..]))[id], after)
    ensures forall i :: |before| <= i < |invoices| ==> invoices[i].subscriptionId != id
    ensures id in after && after[id] ==
              fleet[id].(endDate := PeriodEnd(fleet[id].endDate, plans[fleet[id].planId].cycle))
  {
    hide PeriodEnd, Days, EndAfter, RenewalsIn, InvoicesIn, RenewsOn;
    var n, s := |outages|, fleet[id];
    FailedInvoiceIsLost(s.endDate, plans[s.planId].cycle, now, id, outages, n);
    assert outages[..n] == outages;
    DaysPerSubscription(fleet, plans, now, outages, id);
    var new' := invoices[|before|..];
    assert id !in Billed(new');
    forall i | |before| <= i < |invoices| ensures invoices[i].subscriptionId != id {
      assert Billed(new')[i - |before|] == invoices[i].subscriptionId;
    }
  }

  /** A subscription cancelled at period end is never renewed, nor does the job ever end it: whatever the
      day, it is still active, with the end date it had. */
  lemma {:induction false} CancelledStaysActive(fleet: Fleet, plans: Plans, now: int, outages: seq<Outage>, id: Id)
    requires id in fleet && fleet[id].status == ACTIVE && fleet[id].cancelAtPeriodEnd
    ensures id in Days(fleet, plans, now, outages) && Days(fleet, plans, now, outages)[id] == fleet[id]
  {
    DaysPerSubscription(fleet, plans, now, outages, id);
  }
}
