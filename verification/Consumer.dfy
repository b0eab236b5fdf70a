/** The Kafka consumer loop: parse, handle with exponential backoff, and hand what fails to the
    dead letter queue. */
module Consumer {

  /** What a message carries: nothing, text that parses as JSON, or text that does not. */
  datatype Payload = Empty | Json | Garbage

  datatype Message = Message(key: string, payload: Payload)

  /** A message as it is met: whether the handler throws on its k-th run (k from 0), and whether the
      producer accepts a message for the dead letter topic at that moment. */
  datatype Delivery = Delivery(message: Message, throws: nat -> bool, producerUp: bool)

  const MAX_RETRIES: nat := 3

  function Pow2(k: nat): nat {
    if k == 0 then 1 else 2 * Pow2(k - 1)
  }

  /** The pause before retry k, in milliseconds. */
  function Pause(k: nat): nat {
    Pow2(k) * 100
  }

  /** The pauses before the first k retries. */
  function Backoff(k: nat): nat {
    if k == 0 then 0 else Backoff(k - 1) + Pause(k)
  }

  /** The handler's first n + 1 runs from run i on: the first that does not throw, or n + 1. */
  function FirstSuccess(throws: nat -> bool, n: nat, i: nat): (f: nat)
    requires i <= n + 1
    ensures i <= f <= n + 1
    ensures forall k :: i <= k < f ==> throws(k)
    ensures f <= n ==> !throws(f)
    decreases n + 1 - i
  {
    if i == n + 1 || !throws(i) then i else FirstSuccess(throws, n, i + 1)
  }

  /** The fate of a message: handled exactly when it parses and one of its runs succeeds. */
  predicate Handled(d: Delivery, n: nat) {
    d.message.payload != Garbage && exists k: nat :: k <= n && !d.throws(k)
  }

  lemma FateKnown(d: Delivery, n: nat)
    ensures d.message.payload == Garbage ==> !Handled(d, n)
    ensures forall k: nat :: k <= n && d.message.payload != Garbage && !d.throws(k) ==> Handled(d, n)
    ensures (forall k: nat :: k <= n ==> d.throws(k)) ==> !Handled(d, n)
  {
  }

  /** A message that is not handled reaches the dead letter topic only when the queue is enabled, the
      producer is up - and the message can be parsed again to be wrapped. */
  predicate Published(d: Delivery, dlqEnabled: bool) {
    dlqEnabled && d.message.payload != Garbage && d.producerUp
  }

  /** Where a message ends up. */
  datatype Fate = InHandler | InDlq | Nowhere

  function FateOf(d: Delivery, n: nat, dlqEnabled: bool): Fate {
    if Handled(d, n) then InHandler else if Published(d, dlqEnabled) then InDlq else Nowhere
  }

  // ---------- Backoff ----------

  lemma {:induction false} BackoffClosed(k: nat)
    ensures Backoff(k) == 100 * (Pow2(k + 1) - 2)
  {
    if k > 0 { BackoffClosed(k - 1); }
  }

  lemma {:induction false} BackoffRises(j: nat, k: nat)
    requires j <= k
    ensures Backoff(j) <= Backoff(k)
    ensures j < k ==> Backoff(j) < Backoff(k)
    decreases k
  {
    PowPositive(k);
    if j < k { BackoffRises(j, k - 1); }
  }

  lemma {:induction false} PowPositive(k: nat)
    ensures Pow2(k) >= 1
  {
    if k > 0 { PowPositive(k - 1); }
  }

  function Min(a: nat, b: nat): nat {
    if a < b then a else b
  }

  /** The time slept for a message that parses, with n retries. */
  function Slept(throws: nat -> bool, n: nat): nat {
    Backoff(Min(FirstSuccess(throws, n, 0), n))
  }

  /** Total backoff is at most 100 * (2^(n+1) - 2) ms, and that exactly when the first n runs all
      throw - whether or not the last one does. */
  lemma BackoffBound(throws: nat -> bool, n: nat)
    ensures Slept(throws, n) <= 100 * (Pow2(n + 1) - 2)
    ensures Slept(throws, n) == 100 * (Pow2(n + 1) - 2) <==> forall k :: 0 <= k < n ==> throws(k)
  {
    var f := FirstSuccess(throws, n, 0);
    BackoffClosed(n);
    BackoffRises(Min(f, n), n);
    if f < n { assert !throws(f); }
  }

  /** With the service's three retries the pauses are 200, 400 and 800 ms, as long as the runs throw: 1400 ms
      at most, and that much exactly if the first three do. */
  lemma ThreeRetries(throws: nat -> bool)
    ensures Pause(1) == 200 && Pause(2) == 400 && Pause(3) == 800
    ensures Slept(throws, MAX_RETRIES) <= 1400
    ensures Slept(throws, MAX_RETRIES) == 1400 <==> throws(0) && throws(1) && throws(2)
  {
    BackoffBound(throws, 3);
    assert Pow2(1) == 2 && Pow2(2) == 4 && Pow2(3) == 8 && Pow2(4) == 16;
  }

  // ---------- Streams ----------

  function Messages(ds: seq<Delivery>): seq<Message> {
    seq(|ds|, i requires 0 <= i < |ds| => ds[i].message)
  }

  /** The messages of a stream with one of the given fates, in order. */
  function Select(ds: seq<Delivery>, n: nat, dlqEnabled: bool, fates: set<Fate>): seq<Message> {
    if ds == [] then []
    else
      var d := ds[|ds| - 1];
      Select(ds[..|ds| - 1], n, dlqEnabled, fates) + if FateOf(d, n, dlqEnabled) in fates then [d.message] else []
  }

  /** The handler runs of a stream, and the time slept over it. */
  function RunsIn(ds: seq<Delivery>, n: nat): nat {
    if ds == [] then 0
    else
      var d := ds[|ds| - 1];
      RunsIn(ds[..|ds| - 1], n) +
      if d.message.payload == Garbage then 0 else Min(FirstSuccess(d.throws, n, 0), n) + 1
  }

  function SleptIn(ds: seq<Delivery>, n: nat): nat {
    if ds == [] then 0
    else
      var d := ds[|ds| - 1];
      SleptIn(ds[..|ds| - 1], n) + if d.message.payload == Garbage then 0 else Slept(d.throws, n)
  }

  /** A message gets somewhere: it parses, and either a run of its handler succeeds or the dead letter
      queue is there to take it. */
  predicate Arrives(d: Delivery, n: nat, dlqEnabled: bool) {
    && d.message.payload != Garbage
    && ((exists k: nat :: k <= n && !d.throws(k)) || (dlqEnabled && d.producerUp))
  }

  lemma SelectStep(ds: seq<Delivery>, i: nat, n: nat, dlqEnabled: bool, fates: set<Fate>)
    requires i < |ds|
    ensures Select(ds[..i + 1], n, dlqEnabled, fates) ==
            Select(ds[..i], n, dlqEnabled, fates) +
            if FateOf(ds[i], n, dlqEnabled) in fates then [ds[i].message] else []
    ensures Messages(ds[..i + 1]) == Messages(ds[..i]) + [ds[i].message]
  {
    assert ds[..i + 1][..i] == ds[..i];
  }

  lemma OneMore<T>(a: seq<T>, b: seq<T>, c: seq<T>, all: seq<T>, x: T, fate: Fate)
    requires multiset(a) + multiset(b) + multiset(c) == multiset(all)
    ensures multiset(a + if fate in {InHandler} then [x] else []) + multiset(b + if fate in {InDlq} then [x] else [])
            + multiset(c + if fate in {Nowhere} then [x] else []) == multiset(all + [x])
  {
  }

  /** Every message of the stream has exactly one fate. */
  lemma {:induction false} FatesSplit(ds: seq<Delivery>, n: nat, dlqEnabled: bool)
    ensures multiset(Select(ds, n, dlqEnabled, {InHandler})) + multiset(Select(ds, n, dlqEnabled, {InDlq}))
            + multiset(Select(ds, n, dlqEnabled, {Nowhere})) == multiset(Messages(ds))
  {
    if ds != [] {
      var m := |ds| - 1;
      FatesSplit(ds[..m], n, dlqEnabled);
      hide Select, FateOf, Messages;
      SelectStep(ds, m, n, dlqEnabled, {InHandler});
      SelectStep(ds, m, n, dlqEnabled, {InDlq});
      SelectStep(ds, m, n, dlqEnabled, {Nowhere});
      assert ds[..m + 1] == ds;
      OneMore(Select(ds[..m], n, dlqEnabled, {InHandler}), Select(ds[..m], n, dlqEnabled, {InDlq}),
              Select(ds[..m], n, dlqEnabled, {Nowhere}), Messages(ds[..m]), ds[m].message,
              FateOf(ds[m], n, dlqEnabled));
    }
  }

  lemma FateNowhere(d: Delivery, n: nat, dlqEnabled: bool)
    ensures FateOf(d, n, dlqEnabled) == Nowhere <==> !Arrives(d, n, dlqEnabled)
  {
  }

  lemma {:induction false} NowhereIff(ds: seq<Delivery>, n: nat, dlqEnabled: bool)
    ensures Select(ds, n, dlqEnabled, {Nowhere}) == [] <==> forall i :: 0 <= i < |ds| ==> Arrives(ds[i], n, dlqEnabled)
  {
    hide Arrives, FateOf;
    if ds != [] {
      var m := |ds| - 1;
      NowhereIff(ds[..m], n, dlqEnabled);
      FateNowhere(ds[m], n, dlqEnabled);
      assert forall i :: 0 <= i < m ==> ds[..m][i] == ds[i];
    }
  }

  /** One more message: what it adds to the runs and to the time slept, and the most it can add. */
  lemma CostStep(ds: seq<Delivery>, i: nat, n: nat)
    requires i < |ds|
    ensures var d := ds[i];
            if d.message.payload == Garbage
            then RunsIn(ds[..i + 1], n) == RunsIn(ds[..i], n) && SleptIn(ds[..i + 1], n) == SleptIn(ds[..i], n)
            else RunsIn(ds[..i + 1], n) == RunsIn(ds[..i], n) + Min(FirstSuccess(d.throws, n, 0), n) + 1 &&
                 SleptIn(ds[..i + 1], n) == SleptIn(ds[..i], n) + Slept(d.throws, n)
  {
    assert ds[..i + 1][..i] == ds[..i];
  }

  /** A stream costs at most n + 1 runs and the full backoff for each message. */
  lemma {:induction false} CostBound(ds: seq<Delivery>, n: nat)
    ensures RunsIn(ds, n) <= |ds| * (n + 1)
    ensures SleptIn(ds, n) <= |ds| * (100 * (Pow2(n + 1) - 2))
  {
    hide Pow2, Slept;
    if ds == [] {
      assert 0 * (100 * (Pow2(n + 1) - 2)) == 0;
    } else {
      var m := |ds| - 1;
      CostBound(ds[..m], n);
      BackoffBound(ds[m].throws, n);
      OneTimesMore(m, n + 1);
      OneTimesMore(m, 100 * (Pow2(n + 1) - 2));
    }
  }

  lemma OneTimesMore(i: nat, k: int)
    ensures (i + 1) * k == i * k + k
  {
  }

  /** Of three parts that make up a whole, the third is empty exactly if the other two make it up. */
  lemma ThirdIsEmpty<T>(a: seq<T>, b: seq<T>, c: seq<T>, all: seq<T>)
    requires multiset(a) + multiset(b) + multiset(c) == multiset(all)
    ensures c == [] <==> multiset(a) + multiset(b) == multiset(all)
  {
    assert |multiset(a) + multiset(b) + multiset(c)| == |multiset(a) + multiset(b)| + |c|;
  }

  // ---------- The service ----------

  class KafkaConsumer {
    var dlqEnabled: bool

    /** What has happened so far: messages handled, calls of `sendToDlq`, messages in the dead letter
        topic, messages that are in neither, handler runs and milliseconds slept. */
    var handled: seq<Message>
    var givenUp: seq<Message>
    var dlqTopic: seq<Message>
    ghost var lost: seq<Message>
    var runs: nat
    var slept: nat

    constructor ()
      ensures dlqEnabled && handled == givenUp == dlqTopic == lost == [] && runs == slept == 0
    {
      dlqEnabled := true;
      handled, givenUp, dlqTopic, lost := [], [], [], [];
      runs, slept := 0, 0;
    }

    /** Wraps the message and publishes it; whatever goes wrong in here is only logged. */
    method SendToDlq(d: Delivery)
      modifies this`givenUp, this`dlqTopic, this`lost
      ensures givenUp == old(givenUp) + [d.message]
      ensures dlqTopic == old(dlqTopic) + if Published(d, dlqEnabled) then [d.message] else []
      ensures lost == old(lost) + if Published(d, dlqEnabled) then [] else [d.message]
    {
      givenUp := givenUp + [d.message];
      if !dlqEnabled {
        lost := lost + [d.message];
        return;
      }
      match d.message.payload {
        case Garbage =>
          lost := lost + [d.message];   // parsing it again throws again
        case _ =>
          if d.producerUp {
            dlqTopic := dlqTopic + [d.message];
          } else {
            lost := lost + [d.message];
          }
      }
    }

    method EachMessage(d: Delivery, maxRetries: nat)
      modifies this`handled, this`givenUp, this`dlqTopic, this`lost, this`runs, this`slept
      ensures Handled(d, maxRetries) ==>
                handled == old(handled) + [d.message] && givenUp == old(givenUp) &&
                dlqTopic == old(dlqTopic) && lost == old(lost)
      ensures !Handled(d, maxRetries) ==>
                handled == old(handled) && givenUp == old(givenUp) + [d.message] &&
                dlqTopic == old(dlqTopic) + (if Published(d, dlqEnabled) then [d.message] else []) &&
                lost == old(lost) + (if Published(d, dlqEnabled) then [] else [d.message])
      ensures d.message.payload == Garbage ==> runs == old(runs) && slept == old(slept)
      ensures d.message.payload != Garbage ==>
                runs == old(runs) + Min(FirstSuccess(d.throws, maxRetries, 0), maxRetries) + 1 &&
                slept == old(slept) + Slept(d.throws, maxRetries)
      ensures runs <= old(runs) + maxRetries + 1
    {
      hide Pow2, Pause, Published, Handled;
      FateKnown(d, maxRetries);
      if d.message.payload == Garbage {
        SendToDlq(d);
        return;
      }
      var retryCount := 0;
      while true
        invariant retryCount <= maxRetries
        invariant forall k :: 0 <= k < retryCount ==> d.throws(k)
        invariant FirstSuccess(d.throws, maxRetries, 0) == FirstSuccess(d.throws, maxRetries, retryCount)
        invariant runs == old(runs) + retryCount && slept == old(slept) + Backoff(retryCount)
        invariant handled == old(handled) && givenUp == old(givenUp)
        invariant dlqTopic == old(dlqTopic) && lost == old(lost)
        decreases maxRetries - retryCount
      {
        runs := runs + 1;
        if !d.throws(retryCount) {
          handled := handled + [d.message];
          break;
        }
        retryCount := retryCount + 1;
        if retryCount > maxRetries {
          SendToDlq(d);
          break;
        }
        slept := slept + Pause(retryCount);
      }
    }

    /** A whole stream. Every message ends up in exactly one place: the handler, the dead letter topic, or
        nowhere, in stream order. And none ends up nowhere if and only if each of them parses and has a
        run that succeeds or a dead letter queue that takes it. */
    method Consume(ds: seq<Delivery>, maxRetries: nat)
      modifies this`handled, this`givenUp, this`dlqTopic, this`lost, this`runs, this`slept
      ensures handled == old(handled) + Select(ds, maxRetries, dlqEnabled, {InHandler})
      ensures givenUp == old(givenUp) + Select(ds, maxRetries, dlqEnabled, {InDlq, Nowhere})
      ensures dlqTopic == old(dlqTopic) + Select(ds, maxRetries, dlqEnabled, {InDlq})
      ensures lost == old(lost) + Select(ds, maxRetries, dlqEnabled, {Nowhere})
      ensures multiset(handled[|old(handled)|..]) + multiset(dlqTopic[|old(dlqTopic)|..])
              + multiset(lost[|old(lost)|..]) == multiset(Messages(ds))
      ensures multiset(handled[|old(handled)|..]) + multiset(dlqTopic[|old(dlqTopic)|..]) == multiset(Messages(ds))
              <==> forall i :: 0 <= i < |ds| ==> Arrives(ds[i], maxRetries, dlqEnabled)
      ensures runs == old(runs) + RunsIn(ds, maxRetries) <= old(runs) + |ds| * (maxRetries + 1)
      ensures slept == old(slept) + SleptIn(ds, maxRetries) <= old(slept) + |ds| * (100 * (Pow2(maxRetries + 1) - 2))
    {
      hide Handled, Published, FirstSuccess, Slept, Pow2, Select, RunsIn, SleptIn, Arrives, Messages;
      NoneYet(maxRetries, dlqEnabled);
      assert ds[..0] == [];
      for i := 0 to |ds|
        invariant handled == old(handled) + Select(ds[..i], maxRetries, dlqEnabled, {InHandler})
        invariant givenUp == old(givenUp) + Select(ds[..i], maxRetries, dlqEnabled, {InDlq, Nowhere})
        invariant dlqTopic == old(dlqTopic) + Select(ds[..i], maxRetries, dlqEnabled, {InDlq})
        invariant lost == old(lost) + Select(ds[..i], maxRetries, dlqEnabled, {Nowhere})
        invariant runs == old(runs) + RunsIn(ds[..i], maxRetries)
        invariant slept == old(slept) + SleptIn(ds[..i], maxRetries)
      {
        SelectStep(ds, i, maxRetries, dlqEnabled, {InHandler});
        SelectStep(ds, i, maxRetries, dlqEnabled, {InDlq, Nowhere});
        SelectStep(ds, i, maxRetries, dlqEnabled, {InDlq});
        SelectStep(ds, i, maxRetries, dlqEnabled, {Nowhere});
        CostStep(ds, i, maxRetries);
        EachMessage(ds[i], maxRetries);
      }
      assert ds[..|ds|] == ds;
      CostBound(ds, maxRetries);
      FatesSplit(ds, maxRetries, dlqEnabled);
      NowhereIff(ds, maxRetries, dlqEnabled);
      assert handled[|old(handled)|..] == Select(ds, maxRetries, dlqEnabled, {InHandler});
      assert dlqTopic[|old(dlqTopic)|..] == Select(ds, maxRetries, dlqEnabled, {InDlq});
      assert lost[|old(lost)|..] == Select(ds, maxRetries, dlqEnabled, {Nowhere});
      ThirdIsEmpty(handled[|old(handled)|..], dlqTopic[|old(dlqTopic)|..], lost[|old(lost)|..], Messages(ds));
    }
  }

  lemma NoneYet(n: nat, dlqEnabled: bool)
    ensures forall fates: set<Fate> :: Select([], n, dlqEnabled, fates) == []
    ensures RunsIn([], n) == 0 && SleptIn([], n) == 0
  {
  }
}
