/** The fixed-window rate limiter: one counter and one reset time per tenant and endpoint key. */
module RateLimit {
  import opened Wrappers

  datatype RateLimitState = RateLimitState(count: int, resetAt: int)

  type Key = string
  type Limits = map<Key, RateLimitState>
  type Tenants = map<string, Limits>

  // ---------- One request ----------

  /** The counter of one tenant and key after a request at `now`. */
  function Counted(s: Option<RateLimitState>, windowMs: int, now: int): RateLimitState {
    match s
    case Some(RateLimitState(count, resetAt)) =>
      if resetAt < now then RateLimitState(1, now + windowMs) else RateLimitState(count + 1, resetAt)
    case None => RateLimitState(1, now + windowMs)
  }

  function Lookup(m: Tenants, tenant: string, key: Key): Option<RateLimitState> {
    if tenant in m && key in m[tenant] then Some(m[tenant][key]) else None
  }

  /** `getResetTimeInSeconds`: the whole seconds, rounded up, a rejected caller is told to wait. */
  function SecondsToWait(s: RateLimitState, now: int): int {
    if s.resetAt <= now then 0 else (s.resetAt - now + 999) / 1000
  }

  // ---------- Traces ----------

  datatype Request = Request(tenant: string, key: Key, limit: int, windowMs: int, now: int)

  function Step(m: Tenants, q: Request): Tenants {
    var limits := if q.tenant in m then m[q.tenant] else map[];
    m[q.tenant := limits[q.key := Counted(Lookup(m, q.tenant, q.key), q.windowMs, q.now)]]
  }

  function Run(qs: seq<Request>): Tenants {
    if qs == [] then map[] else Step(Run(qs[..|qs| - 1]), qs[|qs| - 1])
  }

  /** Request number i of the trace passes the guard. */
  predicate Admitted(qs: seq<Request>, i: nat)
    requires i < |qs|
  {
    Counted(Lookup(Run(qs[..i]), qs[i].tenant, qs[i].key), qs[i].windowMs, qs[i].now).count <= qs[i].limit
  }

  predicate ClockRises(qs: seq<Request>) {
    forall i, j :: 0 <= i < j < |qs| ==> qs[i].now <= qs[j].now
  }

  /** A tenant and key, with the limit and window its route is configured with. */
  datatype Route = Route(tenant: string, key: Key, limit: int, windowMs: int)

  predicate On(q: Request, r: Route) {
    q.tenant == r.tenant && q.key == r.key
  }

  predicate Configured(qs: seq<Request>, r: Route) {
    forall i :: 0 <= i < |qs| && On(qs[i], r) ==> qs[i].limit == r.limit && qs[i].windowMs == r.windowMs
  }

  /** How many of the first n requests were requests on the route, admitted at a time in [a, b]. */
  function AdmittedBetween(qs: seq<Request>, r: Route, a: int, b: int, n: nat): nat
    requires n <= |qs|
  {
    if n == 0 then 0
    else AdmittedBetween(qs, r, a, b, n - 1) +
         if On(qs[n - 1], r) && a <= qs[n - 1].now <= b && Admitted(qs, n - 1) then 1 else 0
  }

  function Counter(qs: seq<Request>, r: Route, n: nat): Option<RateLimitState>
    requires n <= |qs|
  {
    Lookup(Run(qs[..n]), r.tenant, r.key)
  }

  /** The counter of a route only moves on that route's own requests. */
  lemma CounterStep(qs: seq<Request>, r: Route, n: nat)
    requires n < |qs|
    ensures Counter(qs, r, n + 1) ==
            if On(qs[n], r) then Some(Counted(Counter(qs, r, n), qs[n].windowMs, qs[n].now)) else Counter(qs, r, n)
  {
    assert qs[..n + 1][..n] == qs[..n];
    assert qs[..n + 1][n] == qs[n];
  }

  function Min(a: int, b: int): int {
    if a < b then a else b
  }

  /** The counter knows its window: it has admitted min(count, limit) requests since the window
      opened, the opening request among them. */
  lemma {:induction false} WindowCount(qs: seq<Request>, r: Route, b: int, n: nat)
    requires ClockRises(qs) && Configured(qs, r) && r.limit >= 0 && r.windowMs >= 0 && n <= |qs|
    requires forall i :: 0 <= i < n ==> qs[i].now <= b
    ensures Counter(qs, r, n).None? ==> forall i :: 0 <= i < n ==> !On(qs[i], r)
    ensures Counter(qs, r, n).Some? ==>
              var RateLimitState(count, resetAt) := Counter(qs, r, n).value;
              count >= 1 && AdmittedBetween(qs, r, resetAt - r.windowMs, b, n) == Min(count, r.limit)
              && n > 0 && resetAt - r.windowMs <= qs[n - 1].now
    decreases n
  {
    if n > 0 {
      WindowCount(qs, r, b, n - 1);
      CounterStep(qs, r, n - 1);
      var q := qs[n - 1];
      if On(q, r) && (Counter(qs, r, n - 1).None? || Counter(qs, r, n - 1).value.resetAt < q.now) {
        NothingYet(qs, r, q.now, b, n - 1);
      }
    }
  }

  /** When a window opens at `now`, nothing of the route has been admitted at `now` or later yet. */
  lemma {:induction false} NothingYet(qs: seq<Request>, r: Route, now: int, b: int, n: nat)
    requires n < |qs| && ClockRises(qs) && Configured(qs, r) && r.windowMs >= 0 && now == qs[n].now
    requires Counter(qs, r, n).None? || Counter(qs, r, n).value.resetAt < now
    ensures AdmittedBetween(qs, r, now, b, n) == 0
  {
    if AdmittedBetween(qs, r, now, b, n) > 0 {
      var i := SomeAdmitted(qs, r, now, b, n);
      CounterCovers(qs, r, i, n);
    }
  }

  lemma {:induction false} SomeAdmitted(qs: seq<Request>, r: Route, a: int, b: int, n: nat) returns (i: nat)
    requires n <= |qs| && AdmittedBetween(qs, r, a, b, n) > 0
    ensures i < n && On(qs[i], r) && a <= qs[i].now <= b && Admitted(qs, i)
    decreases n
  {
    if On(qs[n - 1], r) && a <= qs[n - 1].now <= b && Admitted(qs, n - 1) {
      i := n - 1;
    } else {
      i := SomeAdmitted(qs, r, a, b, n - 1);
    }
  }

  /** After a request of the route the counter's window covers the time of that request. */
  lemma {:induction false} CounterCovers(qs: seq<Request>, r: Route, i: nat, n: nat)
    requires i < n <= |qs| && ClockRises(qs) && Configured(qs, r) && r.windowMs >= 0 && On(qs[i], r)
    ensures Counter(qs, r, n).Some? && Counter(qs, r, n).value.resetAt >= qs[i].now
    decreases n
  {
    CounterStep(qs, r, n - 1);
    if i < n - 1 { CounterCovers(qs, r, i, n - 1); }
  }

  // ---------- The two-sided guarantee ----------

  /** A rejection is earned: at least `limit` requests of the route were admitted in the window
      length before it. */
  lemma RejectionIsEarned(qs: seq<Request>, r: Route, n: nat)
    requires ClockRises(qs) && Configured(qs, r) && r.limit >= 0 && r.windowMs >= 0
    requires n < |qs| && On(qs[n], r) && !Admitted(qs, n)
    ensures AdmittedBetween(qs, r, qs[n].now - r.windowMs, qs[n].now, n) >= r.limit
  {
    var now := qs[n].now;
    WindowCount(qs, r, now, n);
    if Counter(qs, r, n).Some? && Counter(qs, r, n).value.resetAt >= now {
      Wider(qs, r, now - r.windowMs, Counter(qs, r, n).value.resetAt - r.windowMs, now, n);
    }
  }

  lemma {:induction false} Wider(qs: seq<Request>, r: Route, a: int, a': int, b: int, n: nat)
    requires n <= |qs| && a <= a'
    ensures AdmittedBetween(qs, r, a, b, n) >= AdmittedBetween(qs, r, a', b, n)
    decreases n
  {
    if n > 0 { Wider(qs, r, a, a', b, n - 1); }
  }

  /** The most requests of a route that are ever admitted in an interval of the window's length: two
      windows' worth but one, unless the window is a single instant. */
  function Most(r: Route): int {
    if r.windowMs == 0 then r.limit else 2 * r.limit - 1
  }

  /** What the counter reveals about an interval [a, a + windowMs] while it is being filled: a window
      opened before it has spent one admission outside, and a second one at most opens inside. */
  ghost predicate Filling(qs: seq<Request>, r: Route, a: int, n: nat)
    requires n <= |qs|
  {
    var k := AdmittedBetween(qs, r, a, a + r.windowMs, n);
    match Counter(qs, r, n)
    case None => k == 0
    case Some(RateLimitState(count, resetAt)) =>
      && count >= 1
      && (resetAt - r.windowMs < a ==> k <= Min(count, r.limit) - 1)
      && (r.windowMs == 0 && resetAt < a ==> k == 0)
      && (a <= resetAt - r.windowMs ==> k <= Most(r) - r.limit + Min(count, r.limit))
  }

  lemma {:induction false} IntervalFills(qs: seq<Request>, r: Route, a: int, n: nat)
    requires ClockRises(qs) && Configured(qs, r) && r.limit >= 1 && r.windowMs >= 0 && n <= |qs|
    ensures AdmittedBetween(qs, r, a, a + r.windowMs, n) <= Most(r)
    ensures n > 0 && qs[n - 1].now < a ==> AdmittedBetween(qs, r, a, a + r.windowMs, n) == 0
    ensures n > 0 && qs[n - 1].now <= a + r.windowMs ==> Filling(qs, r, a, n)
    decreases n
  {
    if n > 0 {
      IntervalFills(qs, r, a, n - 1);
      CounterStep(qs, r, n - 1);
    }
  }

  /** In no interval of length windowMs are more than 2 * limit - 1 requests of a route admitted, and no
      more than limit if that length is zero. */
  lemma BurstBound(qs: seq<Request>, r: Route, a: int)
    requires ClockRises(qs) && Configured(qs, r) && r.limit >= 1 && r.windowMs >= 0
    ensures AdmittedBetween(qs, r, a, a + r.windowMs, |qs|) <= Most(r)
  {
    IntervalFills(qs, r, a, |qs|);
  }

  /** The trace that comes closest: one request at 0, limit - 1 at the end of its window, and limit
      as soon as the next window can open. */
  function BurstTime(r: Route, i: int): int {
    if i == 0 then 0 else if i < r.limit then r.windowMs else r.windowMs + 1
  }

  /** The interval to look at: it leaves out the first request, unless all are at one instant. */
  function BurstStart(r: Route): int {
    if r.windowMs == 0 then 0 else 1
  }

  function Burst(r: Route): seq<Request>
    requires r.limit >= 1
  {
    seq(2 * r.limit, i => Request(r.tenant, r.key, r.limit, r.windowMs, BurstTime(r, i)))
  }

  lemma {:induction false} BurstCounter(r: Route, n: nat)
    requires r.limit >= 1 && r.windowMs >= 0 && n <= 2 * r.limit
    ensures Counter(Burst(r), r, n) ==
            if n == 0 then None
            else if n <= r.limit then Some(RateLimitState(n, r.windowMs))
            else Some(RateLimitState(n - r.limit, 2 * r.windowMs + 1))
    decreases n
  {
    if n > 0 {
      BurstCounter(r, n - 1);
      CounterStep(Burst(r), r, n - 1);
    }
  }

  lemma AdmittedByCounter(qs: seq<Request>, r: Route, i: nat)
    requires i < |qs| && On(qs[i], r)
    ensures Admitted(qs, i) <==> Counted(Counter(qs, r, i), qs[i].windowMs, qs[i].now).count <= qs[i].limit
  {
  }

  lemma {:induction false} BurstAdmitted(r: Route, n: nat)
    requires r.limit >= 1 && r.windowMs >= 0 && n <= 2 * r.limit
    ensures AdmittedBetween(Burst(r), r, BurstStart(r), BurstStart(r) + r.windowMs, n) ==
            if r.windowMs == 0 then Min(n, r.limit) else if n == 0 then 0 else n - 1
    decreases n
  {
    hide Admitted, Counter, Counted;
    if n > 0 {
      BurstAdmitted(r, n - 1);
      BurstAdmits(r, n - 1);
    }
  }

  /** Of the burst all are admitted: the first window is just filled, and so is the second. */
  lemma BurstAdmits(r: Route, i: nat)
    requires r.limit >= 1 && r.windowMs >= 0 && i < 2 * r.limit
    ensures |Burst(r)| == 2 * r.limit && On(Burst(r)[i], r) && Burst(r)[i].now == BurstTime(r, i)
    ensures Admitted(Burst(r), i)
  {
    BurstCounter(r, i);
    AdmittedByCounter(Burst(r), r, i);
    hide Admitted, Counter;
  }

  /** The bound is attained for every limit and every window. */
  lemma BurstBoundIsTight(r: Route)
    requires r.limit >= 1 && r.windowMs >= 0
    ensures ClockRises(Burst(r)) && Configured(Burst(r), r)
    ensures AdmittedBetween(Burst(r), r, BurstStart(r), BurstStart(r) + r.windowMs, |Burst(r)|) == Most(r)
  {
    BurstAdmitted(r, 2 * r.limit);
  }

  /** How many requests of the route come from number n on and before number m. */
  function OnRouteBetween(qs: seq<Request>, r: Route, n: nat, m: nat): nat
    requires n <= m <= |qs|
    decreases m
  {
    if m == n then 0 else OnRouteBetween(qs, r, n, m - 1) + if On(qs[m - 1], r) then 1 else 0
  }

  lemma {:induction false} CountsSince(qs: seq<Request>, r: Route, n: nat, m: nat)
    requires n < m <= |qs| && On(qs[n], r)
    requires Counter(qs, r, n).Some? ==> Counter(qs, r, n).value.resetAt < qs[n].now
    ensures Counter(qs, r, m).Some? && Counter(qs, r, m).value.count <= OnRouteBetween(qs, r, n, m)
    decreases m
  {
    CounterStep(qs, r, m - 1);
    if m > n + 1 {
      CountsSince(qs, r, n, m - 1);
      assert OnRouteBetween(qs, r, n, m - 1) >= 1 by { FirstCounts(qs, r, n, m - 1); }
    } else {
      assert OnRouteBetween(qs, r, n, n) == 0;
    }
  }

  lemma {:induction false} FirstCounts(qs: seq<Request>, r: Route, n: nat, m: nat)
    requires n < m <= |qs| && On(qs[n], r)
    ensures OnRouteBetween(qs, r, n, m) >= 1
    decreases m
  {
    if m > n + 1 { FirstCounts(qs, r, n, m - 1); }
  }

  /** Every request counts, admitted or not: within a window the counter is the number of the route's
      requests since the one that opened it. */
  lemma {:induction false} CountsEach(qs: seq<Request>, r: Route, n: nat, m: nat)
    requires n < m <= |qs| && On(qs[n], r) && Configured(qs, r)
    requires Counter(qs, r, n).Some? ==> Counter(qs, r, n).value.resetAt < qs[n].now
    requires forall i :: n < i < m && On(qs[i], r) ==> qs[i].now <= qs[n].now + r.windowMs
    ensures Counter(qs, r, m) == Some(RateLimitState(OnRouteBetween(qs, r, n, m), qs[n].now + r.windowMs))
    decreases m
  {
    CounterStep(qs, r, m - 1);
    if m > n + 1 { CountsEach(qs, r, n, m - 1); } else { assert OnRouteBetween(qs, r, n, n) == 0; }
  }

  /** A new window offers the full limit: from the first request after the reset time on, the next `limit`
      requests of the route are all admitted, whenever they come. */
  lemma ResetReopens(qs: seq<Request>, r: Route, n: nat, m: nat)
    requires Configured(qs, r) && n <= m < |qs| && On(qs[n], r) && On(qs[m], r)
    requires Counter(qs, r, n).Some? ==> Counter(qs, r, n).value.resetAt < qs[n].now
    requires OnRouteBetween(qs, r, n, m) < r.limit
    ensures Admitted(qs, m)
  {
    AdmittedByCounter(qs, r, m);
    if n < m { CountsSince(qs, r, n, m); }
  }

  lemma {:induction false} CounterIdle(qs: seq<Request>, r: Route, n: nat, m: nat)
    requires n <= m <= |qs| && forall i :: n <= i < m ==> !On(qs[i], r)
    ensures Counter(qs, r, m) == Counter(qs, r, n)
    decreases m
  {
    if n < m {
      CounterIdle(qs, r, n, m - 1);
      CounterStep(qs, r, m - 1);
    }
  }

  /** Request n is rejected and told to wait; request m is the route's next one, made exactly when
      that wait is over. The wait always reaches the reset time, but the retry is admitted if and
      only if rounding up to whole seconds added something to it. */
  lemma AdvisedRetry(qs: seq<Request>, r: Route, n: nat, m: nat)
    requires Configured(qs, r) && r.limit >= 1
    requires n < m < |qs| && On(qs[n], r) && On(qs[m], r) && !Admitted(qs, n)
    requires forall i :: n < i < m ==> !On(qs[i], r)
    requires Counter(qs, r, n + 1).Some? ==>
               qs[m].now == qs[n].now + 1000 * SecondsToWait(Counter(qs, r, n + 1).value, qs[n].now)
    ensures Counter(qs, r, n + 1).Some?
    ensures var resetAt := Counter(qs, r, n + 1).value.resetAt;
            qs[m].now >= resetAt && (Admitted(qs, m) <==> (resetAt - qs[n].now) % 1000 != 0)
  {
    CounterStep(qs, r, n);
    CounterIdle(qs, r, n + 1, m);
  }

  /** One request a second: the second request at 0 is told to wait a second, and rejected again then. */
  lemma RetryRejected(tenant: string, key: Key)
    ensures var q := Request(tenant, key, 1, 1000, 0);
            var qs := [q, q, q.(now := 1000)];
            var r := Route(tenant, key, 1, 1000);
            Configured(qs, r) && Admitted(qs, 0) && !Admitted(qs, 1) && !Admitted(qs, 2) &&
            Counter(qs, r, 2).Some? && SecondsToWait(Counter(qs, r, 2).value, 0) == 1
  {
    var q := Request(tenant, key, 1, 1000, 0);
    var qs := [q, q, q.(now := 1000)];
    var r := Route(tenant, key, 1, 1000);
    assert qs[..0] == [];
    CounterStep(qs, r, 0);
    CounterStep(qs, r, 1);
    AdmittedByCounter(qs, r, 0);
    AdmittedByCounter(qs, r, 1);
    AdmittedByCounter(qs, r, 2);
  }

  // ---------- Isolation ----------

  function OnRoute(qs: seq<Request>, r: Route): seq<Request> {
    if qs == [] then []
    else OnRoute(qs[..|qs| - 1], r) + if On(qs[|qs| - 1], r) then [qs[|qs| - 1]] else []
  }

  /** Deleting every request of other tenants and keys from a trace leaves the route's counter, and
      the outcome of the route's next request, as they were. */
  lemma {:induction false} OthersDoNotMatter(qs: seq<Request>, r: Route, next: Request)
    requires On(next, r)
    ensures Counter(OnRoute(qs, r), r, |OnRoute(qs, r)|) == Counter(qs, r, |qs|)
    ensures Admitted(qs + [next], |qs|) <==> Admitted(OnRoute(qs, r) + [next], |OnRoute(qs, r)|)
    decreases |qs|
  {
    var mine := OnRoute(qs, r);
    assert qs[..|qs|] == qs && mine[..|mine|] == mine;
    if qs != [] {
      var n := |qs| - 1;
      OthersDoNotMatter(qs[..n], r, next);
      assert qs[..n][..n] == qs[..n];
      CounterStep(qs, r, n);
      var before := OnRoute(qs[..n], r);
      assert before[..|before|] == before;
      if On(qs[n], r) {
        CounterStep(mine, r, |before|);
        assert mine[..|before|] == before;
      }
    }
    assert (qs + [next])[..|qs|] == qs && (mine + [next])[..|mine|] == mine;
  }

  // ---------- The guard ----------

  class RateLimitGuard {
    var limitByTenant: Tenants

    constructor ()
      ensures limitByTenant == map[]
    {
      limitByTenant := map[];
    }

    /** True when the limit is exceeded. */
    method CheckAndUpdateRateLimit(tenantId: string, key: Key, limit: int, windowMs: int, now: int)
      returns (exceeded: bool)
      modifies this
      ensures limitByTenant == Step(old(limitByTenant), Request(tenantId, key, limit, windowMs, now))
      ensures exceeded <==> Counted(Lookup(old(limitByTenant), tenantId, key), windowMs, now).count > limit
    {
      if tenantId !in limitByTenant {
        limitByTenant := limitByTenant[tenantId := map[]];
      }
      var tenantLimits := limitByTenant[tenantId];
      if key !in tenantLimits || tenantLimits[key].resetAt < now {
        tenantLimits := tenantLimits[key := RateLimitState(0, now + windowMs)];
      }
      var state := tenantLimits[key];
      state := state.(count := state.count + 1);
      tenantLimits := tenantLimits[key := state];
      limitByTenant := limitByTenant[tenantId := tenantLimits];
      ghost var limits := if tenantId in old(limitByTenant) then old(limitByTenant)[tenantId] else map[];
      assert tenantLimits == limits[key := state];
      exceeded := state.count > limit;
    }

    method GetResetTimeInSeconds(tenantId: string, key: Key, now: int) returns (seconds: int)
      ensures Lookup(limitByTenant, tenantId, key).None? ==> seconds == 0
      ensures Lookup(limitByTenant, tenantId, key).Some? ==>
                var resetAt := Lookup(limitByTenant, tenantId, key).value.resetAt;
                seconds >= 0 && now + 1000 * seconds >= resetAt &&
                (seconds > 0 ==> now + 1000 * (seconds - 1) < resetAt)
      ensures Lookup(limitByTenant, tenantId, key).Some? ==>
                seconds == SecondsToWait(Lookup(limitByTenant, tenantId, key).value, now)
    {
      if tenantId !in limitByTenant || key !in limitByTenant[tenantId] { return 0; }
      var state := limitByTenant[tenantId][key];
      var ceiling := (state.resetAt - now + 999) / 1000;
      seconds := if ceiling > 0 then ceiling else 0;
    }
  }
}
