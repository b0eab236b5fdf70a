/** Subscriptions: creation, cancellation, the expiry query and renewal. */
module Subscriptions {
  import opened Wrappers
  import opened Calendar
  import opened Periods

  type Id = nat

  datatype Status = ACTIVE | TRIAL | PAST_DUE | CANCELED | EXPIRED

  datatype Plan = Plan(cycle: Cycle, isActive: bool)

  datatype Subscription =
    Subscription(planId: Id, startDate: int, endDate: int, status: Status, cancelAtPeriodEnd: bool)

  type Plans = map<Id, Plan>
  type Fleet = map<Id, Subscription>

  datatype Outcome = Done | NotFound | BadRequest

  /** The expiry query: active, not to be cancelled at period end, and ending within the days given. */
  predicate Expires(s: Subscription, now: int, days: int) {
    s.endDate < now + days * MS_PER_DAY && s.status == ACTIVE && !s.cancelAtPeriodEnd
  }

  class SubscriptionsService {
    var subscriptions: Fleet
    var plans: Plans

    constructor (plans: Plans)
      ensures subscriptions == map[] && this.plans == plans
    {
      subscriptions := map[];
      this.plans := plans;
    }

    /** The switch over the billing cycle, on a `Date` of its own. */
    method Advance(time: int, cycle: Cycle) returns (end: int)
      ensures end == PeriodEnd(time, cycle)
    {
      hide WithMonth, DateOf;
      var date := new JsDate(time);
      MonthSplit(DateOf(time).month);
      match cycle {
        case Monthly => date.SetMonth(date.GetMonth() + 1);
        case Quarterly => date.SetMonth(date.GetMonth() + 3);
        case Yearly => date.SetFullYear(date.GetFullYear() + 1);
      }
      end := date.time;
    }

    /** A new subscription, ending one period after its start; `id` is the uuid the database makes. */
    method Create(id: Id, planId: Id, startDate: Option<int>, status: Option<Status>, now: int)
      returns (r: Outcome)
      requires id !in subscriptions
      modifies this`subscriptions
      ensures r == if planId !in plans then NotFound else if !plans[planId].isActive then BadRequest else Done
      ensures r != Done ==> subscriptions == old(subscriptions)
      ensures r == Done ==>
                var start := if startDate.Some? then startDate.value else now;
                subscriptions == old(subscriptions)[id :=
                  Subscription(planId, start, PeriodEnd(start, plans[planId].cycle),
                               if status.Some? then status.value else ACTIVE, false)]
    {
      if planId !in plans { return NotFound; }
      if !plans[planId].isActive { return BadRequest; }
      var start := if startDate.Some? then startDate.value else now;
      var end := Advance(start, plans[planId].cycle);
      subscriptions := subscriptions[id :=
        Subscription(planId, start, end, if status.Some? then status.value else ACTIVE, false)];
      r := Done;
    }

    method Cancel(id: Id, cancelAtPeriodEnd: bool) returns (r: Outcome)
      modifies this`subscriptions
      ensures r == if id !in old(subscriptions) then NotFound
                   else if old(subscriptions)[id].status == CANCELED then BadRequest else Done
      ensures r != Done ==> subscriptions == old(subscriptions)
      ensures r == Done ==>
                subscriptions == old(subscriptions)[id :=
                  if cancelAtPeriodEnd then old(subscriptions)[id].(cancelAtPeriodEnd := true)
                  else old(subscriptions)[id].(status := CANCELED)]
    {
      if id !in subscriptions { return NotFound; }
      var subscription := subscriptions[id];
      if subscription.status == CANCELED { return BadRequest; }
      if cancelAtPeriodEnd {
        subscription := subscription.(cancelAtPeriodEnd := true);
      } else {
        subscription := subscription.(status := CANCELED);
      }
      subscriptions := subscriptions[id := subscription];
      r := Done;
    }

    method FindExpiringSubscriptions(daysFromNow: int, now: int) returns (ids: set<Id>)
      ensures ids == set id | id in subscriptions && subscriptions[id].endDate < now + daysFromNow * 86400000 &&
                              subscriptions[id].status == ACTIVE && !subscriptions[id].cancelAtPeriodEnd
      ensures ids == set id | id in subscriptions && Expires(subscriptions[id], now, daysFromNow)
    {
      var futureDate := new JsDate(now);
      futureDate.SetDate(futureDate.GetDate() + daysFromNow);
      ids := set id | id in subscriptions && subscriptions[id].endDate < futureDate.time
                      && subscriptions[id].status == ACTIVE && !subscriptions[id].cancelAtPeriodEnd;
    }

    method RenewSubscription(id: Id) returns (r: Outcome)
      modifies this`subscriptions
      ensures r == if id !in old(subscriptions) then NotFound
                   else if old(subscriptions)[id].status != ACTIVE then BadRequest
                   else if old(subscriptions)[id].planId !in plans then NotFound else Done
      ensures r != Done ==> subscriptions == old(subscriptions)
      ensures r == Done ==>
                var s := old(subscriptions)[id];
                subscriptions == old(subscriptions)[id := s.(endDate := PeriodEnd(s.endDate, plans[s.planId].cycle))]
    {
      if id !in subscriptions { return NotFound; }
      var subscription := subscriptions[id];
      if subscription.status != ACTIVE { return BadRequest; }
      if subscription.planId !in plans { return NotFound; }
      var newEndDate := Advance(subscription.endDate, plans[subscription.planId].cycle);
      subscription := subscription.(endDate := newEndDate);
      subscriptions := subscriptions[id := subscription];
      r := Done;
    }
  }

  lemma MonthSplit(month: int)
    ensures month == 12 * (month / 12) + month % 12
    ensures 12 * (month / 12 + 1) + month % 12 == month + 12
  {
  }
}
