/** The circuit breaker. `fire` awaits its call, so any number of calls can be in flight at once; the
    protocol is split at that await into begin, succeed and fail steps, interleaved with resets. */
module CircuitBreaker {
  import opened Wrappers

  datatype CircuitState = CLOSED | OPEN | HALF_OPEN

  datatype Config = Config(failureThreshold: int, resetTimeout: int)

  datatype Breaker = Breaker(state: CircuitState, failureCount: int, nextAttempt: int)

  // ---------- Steps ----------

  function Initial(now: int): Breaker {
    Breaker(CLOSED, 0, now)
  }

  /** The first half of `fire`: does a call arriving now get through? */
  predicate Admits(b: Breaker, now: int) {
    b.state == OPEN ==> now > b.nextAttempt
  }

  function Begun(b: Breaker, now: int): Breaker {
    if b.state == OPEN && now > b.nextAttempt then b.(state := HALF_OPEN) else b
  }

  function Succeeded(b: Breaker): Breaker {
    b.(failureCount := 0, state := CLOSED)
  }

  function Failed(c: Config, b: Breaker, now: int): Breaker {
    var n := b.failureCount + 1;
    if n >= c.failureThreshold then Breaker(OPEN, n, now + c.resetTimeout) else b.(failureCount := n)
  }

  // ---------- Runs under every interleaving ----------

  datatype Event =
    | Begin(call: nat, now: int)
    | Succeed(call: nat, now: int)
    | Fail(call: nat, now: int)
    | Reset(now: int)

  datatype World = World(breaker: Breaker, inFlight: set<nat>, clock: int)

  /** Time does not run backwards; only calls in flight complete. */
  predicate Enabled(w: World, e: Event) {
    e.now >= w.clock &&
    match e
    case Begin(call, _) => call !in w.inFlight
    case Succeed(call, _) => call in w.inFlight
    case Fail(call, _) => call in w.inFlight
    case Reset(_) => true
  }

  function Next(c: Config, w: World, e: Event): World {
    var b := w.breaker;
    match e
    case Begin(call, now) =>
      World(Begun(b, now), if Admits(b, now) then w.inFlight + {call} else w.inFlight, now)
    case Succeed(call, now) => World(Succeeded(b), w.inFlight - {call}, now)
    case Fail(call, now) => World(Failed(c, b, now), w.inFlight - {call}, now)
    case Reset(now) => World(Succeeded(b), w.inFlight, now)
  }

  function Run(c: Config, start: int, es: seq<Event>): World {
    if es == [] then World(Initial(start), {}, start)
    else Next(c, Run(c, start, es[..|es| - 1]), es[|es| - 1])
  }

  predicate Possible(c: Config, start: int, es: seq<Event>) {
    forall i :: 0 <= i < |es| ==> Enabled(Run(c, start, es[..i]), es[i])
  }

  /** The failures completed since the last success or reset, read off the history alone. */
  function FailuresSince(es: seq<Event>): nat {
    if es == [] then 0
    else var before, e := es[..|es| - 1], es[|es| - 1];
      match e
      case Begin(_, _) => FailuresSince(before)
      case Fail(_, _) => FailuresSince(before) + 1
      case _ => 0
  }

  /** The time of the last failure. */
  function LastFail(es: seq<Event>): Option<int> {
    if es == [] then None
    else if es[|es| - 1].Fail? then Some(es[|es| - 1].now)
    else LastFail(es[..|es| - 1])
  }

  /** Since the last completion or reset, a call has arrived after the last failure's timeout. */
  function Probed(c: Config, es: seq<Event>): bool {
    es != [] &&
    var before, e := es[..|es| - 1], es[|es| - 1];
    e.Begin? && (Probed(c, before) || (LastFail(before).Some? && e.now > LastFail(before).value + c.resetTimeout))
  }

  lemma PossiblePrefix(c: Config, start: int, es: seq<Event>, n: nat)
    requires Possible(c, start, es) && n <= |es|
    ensures Possible(c, start, es[..n])
  {
    forall i | 0 <= i < n ensures Enabled(Run(c, start, es[..n][..i]), es[..n][i]) {
      assert es[..n][..i] == es[..i];
    }
  }

  /** What every reachable state satisfies: the counter counts the failures since the last success
      or reset; an open breaker waits for the last failure's timeout; a half-open one has tripped,
      and a call that will decide its fate is still in flight. */
  lemma {:induction false} Reachable(c: Config, start: int, es: seq<Event>)
    requires Possible(c, start, es)
    ensures var w := Run(c, start, es);
      && w.breaker.failureCount == FailuresSince(es)
      && (w.breaker.state == OPEN ==>
            LastFail(es).Some? && w.breaker.nextAttempt == LastFail(es).value + c.resetTimeout)
      && (w.breaker.state != CLOSED ==> w.breaker.failureCount >= c.failureThreshold)
      && (w.breaker.state == HALF_OPEN ==> w.inFlight != {})
  {
    if es != [] {
      var n := |es| - 1;
      PossiblePrefix(c, start, es, n);
      Reachable(c, start, es[..n]);
      if es[n].Begin? && Admits(Run(c, start, es[..n]).breaker, es[n].now) {
        assert es[n].call in Run(c, start, es).inFlight;
      }
    }
  }

  /** How many failures trip the breaker: even with a threshold of zero or below it takes one. */
  function Trips(c: Config): int {
    if c.failureThreshold < 1 then 1 else c.failureThreshold
  }

  /** The state is a function of the history, whatever is in flight: closed until enough failures trip it,
      then half-open once a call has arrived after the last failure's timeout, and open before. */
  lemma {:induction false} StateFromHistory(c: Config, start: int, es: seq<Event>)
    requires Possible(c, start, es)
    ensures Run(c, start, es).breaker.state ==
            if FailuresSince(es) < Trips(c) then CLOSED
            else if Probed(c, es) then HALF_OPEN
            else OPEN
  {
    Reachable(c, start, es);
    if es != [] {
      var n := |es| - 1;
      PossiblePrefix(c, start, es, n);
      StateFromHistory(c, start, es[..n]);
      Reachable(c, start, es[..n]);
    }
  }

  /** Who gets in, read off the history: a call that begins is in flight exactly if too few failures have
      completed since the last success or reset to trip the breaker, or a call has been let through since
      it tripped, or the last failure's timeout has passed. */
  lemma WhoGetsIn(c: Config, start: int, es: seq<Event>, call: nat, now: int)
    requires Possible(c, start, es) && Enabled(Run(c, start, es), Begin(call, now))
    ensures Possible(c, start, es + [Begin(call, now)])
    ensures call in Run(c, start, es + [Begin(call, now)]).inFlight
            <==> (FailuresSince(es) < Trips(c) || Probed(c, es) ||
                  (LastFail(es).Some? && now > LastFail(es).value + c.resetTimeout))
  {
    hide Possible, Run;
    RunAppend(c, start, es, Begin(call, now));
    Reachable(c, start, es);
    StateFromHistory(c, start, es);
    if FailuresSince(es) > 0 { FailureHappened(es); }
  }

  /** A failure counted is a failure that happened, and a probe comes after one. */
  lemma {:induction false} FailureHappened(es: seq<Event>)
    requires FailuresSince(es) > 0
    ensures LastFail(es).Some?
  {
    if !es[|es| - 1].Fail? { FailureHappened(es[..|es| - 1]); }
  }

  /** Under every interleaving the breaker is CLOSED exactly while fewer failures than the threshold
      have completed since the last success or reset - if and only if the threshold is positive. */
  lemma ClosedIffBelowThreshold(c: Config)
    ensures (forall start: int, es: seq<Event> :: Possible(c, start, es) ==>
               (Run(c, start, es).breaker.state == CLOSED <==> FailuresSince(es) < c.failureThreshold))
            <==> c.failureThreshold >= 1
  {
    if c.failureThreshold >= 1 {
      forall start: int, es: seq<Event> | Possible(c, start, es)
        ensures Run(c, start, es).breaker.state == CLOSED <==> FailuresSince(es) < c.failureThreshold
      {
        StateFromHistory(c, start, es);
      }
    } else {
      assert Possible(c, 0, []);
      assert Run(c, 0, []).breaker.state == CLOSED && FailuresSince([]) == 0;
    }
  }

  /** No completed call leaves the breaker half-open. */
  lemma CompletionSettles(c: Config, start: int, es: seq<Event>)
    requires Possible(c, start, es) && es != []
    requires es[|es| - 1].Succeed? || es[|es| - 1].Fail?
    ensures Run(c, start, es).breaker.state != HALF_OPEN
  {
    PossiblePrefix(c, start, es, |es| - 1);
    Reachable(c, start, es[..|es| - 1]);
  }

  /** While the breaker is open, a call gets through exactly when the reset timeout has passed since
      the last failure - whichever call that failure belonged to. */
  lemma OpenAdmitsIff(c: Config, start: int, es: seq<Event>, now: int)
    requires Possible(c, start, es) && Run(c, start, es).breaker.state == OPEN
    ensures LastFail(es).Some?
    ensures Admits(Run(c, start, es).breaker, now) <==> now > LastFail(es).value + c.resetTimeout
  {
    Reachable(c, start, es);
  }

  lemma RunStep(c: Config, start: int, es: seq<Event>, j: nat)
    requires Possible(c, start, es) && j < |es|
    ensures Run(c, start, es[..j + 1]) == Next(c, Run(c, start, es[..j]), es[j])
    ensures Enabled(Run(c, start, es[..j]), es[j])
  {
    assert es[..j + 1][..j] == es[..j];
  }

  lemma {:induction false} ClockRises(c: Config, start: int, es: seq<Event>, i: nat, j: nat)
    requires Possible(c, start, es) && i < j <= |es|
    ensures es[i].now <= Run(c, start, es[..j]).clock
    decreases j
  {
    hide Run;
    RunStep(c, start, es, j - 1);
    if i < j - 1 { ClockRises(c, start, es, i, j - 1); }
  }

  /** Between a failure that leaves the breaker open and the next success or reset, either it is
      still open for at least the failure's timeout, or that timeout has passed. */
  lemma {:induction false} StaysOpen(c: Config, start: int, es: seq<Event>, i: nat, j: nat)
    requires Possible(c, start, es) && i < j <= |es| && es[i].Fail?
    requires Run(c, start, es[..i + 1]).breaker.state == OPEN
    requires forall k :: i < k < j ==> es[k].Begin? || es[k].Fail?
    ensures var w := Run(c, start, es[..j]);
      || w.clock > es[i].now + c.resetTimeout
      || (w.breaker.state == OPEN && w.breaker.nextAttempt >= es[i].now + c.resetTimeout)
    decreases j
  {
    hide Run;
    RunStep(c, start, es, j - 1);
    PossiblePrefix(c, start, es, j - 1);
    Reachable(c, start, es[..j - 1]);
    if j > i + 1 {
      StaysOpen(c, start, es, i, j - 1);
      ClockRises(c, start, es, i, j - 1);
    }
  }

  /** After a failure at time t that leaves the breaker open, no call begins at or before
      t + resetTimeout unless a success or a reset intervenes. */
  lemma OpenKeepsCallsOut(c: Config, start: int, es: seq<Event>, i: nat, j: nat)
    requires Possible(c, start, es) && i < j < |es| && es[i].Fail?
    requires Run(c, start, es[..i + 1]).breaker.state == OPEN
    requires forall k :: i < k < j ==> es[k].Begin? || es[k].Fail?
    requires es[j].Begin? && es[j].now <= es[i].now + c.resetTimeout
    ensures Run(c, start, es[..j + 1]) == Run(c, start, es[..j]).(clock := es[j].now)
  {
    hide Run;
    StaysOpen(c, start, es, i, j);
    RunStep(c, start, es, j);
  }

  /** A half-open breaker admits every call: there is no single probe. */
  lemma HalfOpenAdmitsAll(c: Config, start: int, es: seq<Event>, calls: nat, now: int)
    requires Possible(c, start, es) && Run(c, start, es).breaker.state == HALF_OPEN
    requires Run(c, start, es).clock <= now && forall k :: k in Run(c, start, es).inFlight ==> k < calls
    ensures var more := es + [Begin(calls, now), Begin(calls + 1, now)];
            Possible(c, start, more) && Run(c, start, more).breaker.state == HALF_OPEN &&
            Run(c, start, more).inFlight == Run(c, start, es).inFlight + {calls, calls + 1}
  {
    var a, b := Begin(calls, now), Begin(calls + 1, now);
    hide Run, Possible;
    RunAppend(c, start, es, a);
    RunAppend(c, start, es + [a], b);
    assert es + [a] + [b] == es + [a, b];
  }

  /** Half open is reached, and lets everyone in: with a threshold of one, three calls are in flight at a
      service that has just failed. */
  lemma ThreeProbes()
    ensures var c := Config(1, 100);
            var es := [Begin(0, 0), Fail(0, 1), Begin(1, 102)];
            Possible(c, 0, es) && Run(c, 0, es) == World(Breaker(HALF_OPEN, 1, 101), {1}, 102) &&
            Possible(c, 0, es + [Begin(2, 102), Begin(3, 102)]) &&
            Run(c, 0, es + [Begin(2, 102), Begin(3, 102)]) == World(Breaker(HALF_OPEN, 1, 101), {1, 2, 3}, 102)
  {
    var c := Config(1, 100);
    var es := [Begin(0, 0), Fail(0, 1), Begin(1, 102)];
    var more := es + [Begin(2, 102), Begin(3, 102)];
    assert es == [] + [es[0]] + [es[1]] + [es[2]] && more == es + [more[3]] + [more[4]];
    RunAppend(c, 0, [], es[0]);
    RunAppend(c, 0, [] + [es[0]], es[1]);
    RunAppend(c, 0, [] + [es[0]] + [es[1]], es[2]);
    RunAppend(c, 0, es, more[3]);
    RunAppend(c, 0, es + [more[3]], more[4]);
  }

  lemma RunAppend(c: Config, start: int, es: seq<Event>, e: Event)
    requires Possible(c, start, es) && Enabled(Run(c, start, es), e)
    ensures Possible(c, start, es + [e]) && Run(c, start, es + [e]) == Next(c, Run(c, start, es), e)
  {
    var more := es + [e];
    assert more[..|es|] == es;
    forall i | 0 <= i < |more| ensures Enabled(Run(c, start, more[..i]), more[i]) {
      assert i < |es| ==> more[..i] == es[..i];
    }
  }

  // ---------- One call at a time ----------

  datatype Call = Call(begin: int, end: int, ok: bool)

  /** The whole of `fire`, when nothing else happens during the await. */
  function Fired(c: Config, b: Breaker, call: Call): Breaker {
    if !Admits(b, call.begin) then b
    else if call.ok then Succeeded(Begun(b, call.begin))
    else Failed(c, Begun(b, call.begin), call.end)
  }

  function FireAll(c: Config, b: Breaker, calls: seq<Call>): Breaker {
    if calls == [] then b else Fired(c, FireAll(c, b, calls[..|calls| - 1]), calls[|calls| - 1])
  }

  /** How many of the calls reached the service. */
  function Reached(c: Config, b: Breaker, calls: seq<Call>): nat {
    if calls == [] then 0
    else
      var before := calls[..|calls| - 1];
      Reached(c, b, before) + if Admits(FireAll(c, b, before), calls[|calls| - 1].begin) then 1 else 0
  }

  predicate OneAtATime(start: int, calls: seq<Call>) {
    && (forall i :: 0 <= i < |calls| ==> start <= calls[i].begin <= calls[i].end)
    && (forall i, j :: 0 <= i < j < |calls| ==> calls[i].end <= calls[j].begin)
  }

  /** The same calls as events: each begins and, if it is admitted, completes before the next. */
  function Events(c: Config, start: int, calls: seq<Call>): seq<Event> {
    if calls == [] then []
    else
      var i, call := |calls| - 1, calls[|calls| - 1];
      Events(c, start, calls[..i]) + CallEvents(FireAll(c, Initial(start), calls[..i]), i, call)
  }

  /** How many calls have run to their end. */
  function Completions(es: seq<Event>): nat {
    if es == [] then 0
    else Completions(es[..|es| - 1]) + if es[|es| - 1].Succeed? || es[|es| - 1].Fail? then 1 else 0
  }

  lemma CompletionsAppend(es: seq<Event>, e: Event)
    ensures Completions(es + [e]) == Completions(es) + if e.Succeed? || e.Fail? then 1 else 0
  {
    assert (es + [e])[..|es|] == es;
  }

  /** One whole call, as events on top of a run that has nothing in flight. */
  function CallEvents(b: Breaker, i: nat, call: Call): seq<Event> {
    if !Admits(b, call.begin) then [Begin(i, call.begin)]
    else [Begin(i, call.begin), if call.ok then Succeed(i, call.end) else Fail(i, call.end)]
  }

  lemma CallIsRun(c: Config, start: int, es: seq<Event>, i: nat, call: Call)
    requires Possible(c, start, es) && Run(c, start, es).inFlight == {}
    requires Run(c, start, es).clock <= call.begin <= call.end
    ensures var b := Run(c, start, es).breaker;
            var more := es + CallEvents(b, i, call);
            && Possible(c, start, more) && Run(c, start, more).breaker == Fired(c, b, call)
            && Run(c, start, more).inFlight == {} && Run(c, start, more).clock <= call.end
            && Completions(more) == Completions(es) + if Admits(b, call.begin) then 1 else 0
  {
    hide Possible, Run, Completions;
    var first := Begin(i, call.begin);
    RunAppend(c, start, es, first);
    CompletionsAppend(es, first);
    if Admits(Run(c, start, es).breaker, call.begin) {
      var last := if call.ok then Succeed(i, call.end) else Fail(i, call.end);
      RunAppend(c, start, es + [first], last);
      CompletionsAppend(es + [first], last);
      assert es + [first, last] == es + [first] + [last];
    }
  }

  /** One call at a time is one of the runs: the breaker ends the same, nothing is left in flight, and
      the calls that completed are the ones that reached the service. */
  lemma {:induction false} SequentialIsRun(c: Config, start: int, calls: seq<Call>)
    requires OneAtATime(start, calls)
    ensures var es := Events(c, start, calls);
            var w := Run(c, start, es);
            && Possible(c, start, es)
            && w.breaker == FireAll(c, Initial(start), calls) && w.inFlight == {}
            && w.clock <= (if calls == [] then start else calls[|calls| - 1].end)
            && Completions(es) == Reached(c, Initial(start), calls)
  {
    if calls != [] {
      var i := |calls| - 1;
      var call, es := calls[i], Events(c, start, calls[..i]);
      assert OneAtATime(start, calls[..i]);
      SequentialIsRun(c, start, calls[..i]);
      assert Run(c, start, es).clock <= call.begin <= call.end;
      hide Possible, Run, Completions, OneAtATime, Fired, CallEvents, Admits;
      CallIsRun(c, start, es, i, call);
    } else {
      assert Events(c, start, calls) == [];
    }
  }

  lemma {:induction false} SequentialSettles(c: Config, start: int, calls: seq<Call>)
    ensures var b := FireAll(c, Initial(start), calls);
            b.state != HALF_OPEN && (b.state == OPEN ==> b.failureCount >= c.failureThreshold)
  {
    if calls != [] { SequentialSettles(c, start, calls[..|calls| - 1]); }
  }

  /** The time `probes` probes of a failing service take at least. */
  function Patience(c: Config, probes: int): int {
    probes * (c.resetTimeout + 1)
  }

  lemma PatienceGrows(c: Config, probes: int)
    ensures Patience(c, 0) == 0
    ensures Patience(c, probes + 1) == Patience(c, probes) + c.resetTimeout + 1
  {
    Distributes(probes, c.resetTimeout + 1);
  }

  /** Against a service that always fails: every probe past the threshold has cost a full timeout. */
  lemma {:induction false} FailingProgress(c: Config, start: int, calls: seq<Call>)
    requires c.failureThreshold >= 1 && c.resetTimeout >= 0
    requires OneAtATime(start, calls) && forall k :: k in calls ==> !k.ok
    ensures var b := FireAll(c, Initial(start), calls);
            var n := Reached(c, Initial(start), calls);
            var probes := n - c.failureThreshold;
      && b.failureCount == n
      && (n < c.failureThreshold ==> b.state == CLOSED)
      && (n >= c.failureThreshold ==>
            b.state == OPEN && b.nextAttempt >= start + Patience(c, probes) + c.resetTimeout)
      && (n > c.failureThreshold ==>
            exists i :: 0 <= i < |calls| && calls[i].begin >= start + Patience(c, probes))
  {
    hide Patience;
    PatienceGrows(c, 0);
    if calls != [] {
      var m := |calls| - 1;
      var before := calls[..m];
      FailingProgress(c, start, before);
      var b, n := FireAll(c, Initial(start), before), Reached(c, Initial(start), before);
      var probes := n - c.failureThreshold;
      PatienceGrows(c, probes);
      if Admits(b, calls[m].begin) {
        if n >= c.failureThreshold { assert calls[m].begin >= start + Patience(c, probes + 1); }
      } else if n > c.failureThreshold {
        var i :| 0 <= i < |before| && before[i].begin >= start + Patience(c, probes);
        assert calls[i] == before[i];
      }
    }
  }

  lemma ProductGrows(a: int, b: int, d: int)
    requires a <= b && d >= 0
    ensures a * d <= b * d
  {
  }

  lemma QuotientBound(a: int, d: int, n: int)
    requires d > 0 && a * d <= n
    ensures a <= n / d
  {
    var q, r := n / d, n % d;
    assert n == q * d + r && r < d;
    if a > q {
      ProductGrows(q + 1, a, d);
      Distributes(q, d);
    }
  }

  lemma Distributes(q: int, d: int)
    ensures (q + 1) * d == q * d + d
  {
  }

  /** One call at a time against an always-failing service: by time T at most
      threshold + (T - start) / (resetTimeout + 1) calls reach it. */
  lemma FailingServiceIsSpared(c: Config, start: int, calls: seq<Call>, T: int)
    requires c.failureThreshold >= 1 && c.resetTimeout >= 0 && T >= start
    requires OneAtATime(start, calls)
    requires forall k :: k in calls ==> !k.ok && k.begin <= T
    ensures Reached(c, Initial(start), calls) <= c.failureThreshold + (T - start) / (c.resetTimeout + 1)
  {
    FailingProgress(c, start, calls);
    hide Reached, FireAll;
    var probes := Reached(c, Initial(start), calls) - c.failureThreshold;
    QuotientBound(0, c.resetTimeout + 1, T - start);
    if probes > 0 {
      var i :| 0 <= i < |calls| && calls[i].begin >= start + Patience(c, probes);
      assert calls[i] in calls && probes * (c.resetTimeout + 1) <= T - start;
      QuotientBound(probes, c.resetTimeout + 1, T - start);
    }
  }

  // ---------- The service's own breaker ----------

  /** `options.x || default`: absent and zero both give the default. */
  function Or(option: Option<int>, default: int): int {
    if option.Some? && option.value != 0 then option.value else default
  }

  function ServiceConfig(threshold: Option<int>, timeout: Option<int>): Config {
    Config(Or(threshold, 5), Or(timeout, 30000))
  }

  /** Five failures and thirty seconds, unless the service is configured otherwise; zero counts as not
      configured. */
  lemma ServiceDefaults(threshold: Option<int>, timeout: Option<int>)
    ensures threshold.None? || threshold.value == 0 ==> ServiceConfig(threshold, timeout).failureThreshold == 5
    ensures timeout.None? || timeout.value == 0 ==> ServiceConfig(threshold, timeout).resetTimeout == 30000
    ensures threshold.Some? && threshold.value != 0 ==>
              ServiceConfig(threshold, timeout).failureThreshold == threshold.value
    ensures timeout.Some? && timeout.value != 0 ==> ServiceConfig(threshold, timeout).resetTimeout == timeout.value
  {
  }

  /** With the defaults, a service that always fails is reached by at most five calls and one more for every
      30001 milliseconds. */
  lemma DefaultsSpare(start: int, calls: seq<Call>, T: int)
    requires T >= start && OneAtATime(start, calls) && forall k :: k in calls ==> !k.ok && k.begin <= T
    ensures Reached(ServiceConfig(None, None), Initial(start), calls) <= 5 + (T - start) / 30001
  {
    FailingServiceIsSpared(ServiceConfig(None, None), start, calls, T);
  }

  /** The producer's breaker works as intended unless the configured threshold is negative. */
  lemma ServiceBreakerSound(threshold: Option<int>, timeout: Option<int>)
    ensures (forall start: int, es: seq<Event> :: Possible(ServiceConfig(threshold, timeout), start, es) ==>
               (Run(ServiceConfig(threshold, timeout), start, es).breaker.state == CLOSED
                <==> FailuresSince(es) < ServiceConfig(threshold, timeout).failureThreshold))
            <==> !(threshold.Some? && threshold.value < 0)
  {
    ClosedIffBelowThreshold(ServiceConfig(threshold, timeout));
  }

  // ---------- The class ----------

  class CircuitBreaker {
    var state: CircuitState
    var failureCount: int
    var nextAttempt: int
    const config: Config

    function Value(): Breaker
      reads this
    {
      Breaker(state, failureCount, nextAttempt)
    }

    constructor (config: Config, now: int)
      ensures this.config == config && Value() == Initial(now)
    {
      this.config := config;
      state, failureCount, nextAttempt := CLOSED, 0, now;
    }

    /** `fire` up to the await; false is the "Circuit breaker is open" error. */
    method BeginCall(now: int) returns (admitted: bool)
      modifies this
      ensures admitted <==> Admits(old(Value()), now)
      ensures admitted <==> old(state) != OPEN || now > old(nextAttempt)
      ensures Value() == Begun(old(Value()), now)
    {
      if state == OPEN {
        if now > nextAttempt {
          state := HALF_OPEN;
        } else {
          return false;
        }
      }
      admitted := true;
    }

    method Success()
      modifies this
      ensures Value() == Succeeded(old(Value()))
    {
      failureCount := 0;
      if state != CLOSED { state := CLOSED; }
    }

    method Failure(now: int)
      modifies this
      ensures Value() == Failed(config, old(Value()), now)
    {
      failureCount := failureCount + 1;
      if failureCount >= config.failureThreshold {
        state := OPEN;
        nextAttempt := now + config.resetTimeout;
      }
    }

    method ResetCircuit()
      modifies this
      ensures Value() == Succeeded(old(Value()))
    {
      failureCount := 0;
      state := CLOSED;
    }

    /** `fire` with nothing interleaved; the result says whether the call reached the service. */
    method Fire(call: Call) returns (reached: bool)
      modifies this
      ensures reached <==> Admits(old(Value()), call.begin)
      ensures Value() == Fired(config, old(Value()), call)
    {
      reached := BeginCall(call.begin);
      if reached {
        if call.ok { Success(); } else { Failure(call.end); }
      }
    }
  }
}
