/** The offline outbox: queued requests, replayed pass by pass until delivered or given up. */
module Outbox {

  type Id = nat

  /** What happened to one `fetch`: a 2xx answer, or anything else (an error status or an exception,
      which the code treats alike). */
  datatype Outcome = Ok | NotOk

  datatype Item = Item(body: string, attempts: int)

  const MAX_ATTEMPTS := 5

  // ---------- One pass over the queue, seen as a whole ----------

  /** The items queued when a pass starts that it keeps: not delivered, and not sent too often. */
  function Survivors(box: map<Id, Item>, delivered: set<Id>): map<Id, Item> {
    map id | id in box && id !in delivered && box[id].attempts + 1 <= MAX_ATTEMPTS ::
      box[id].(attempts := box[id].attempts + 1)
  }

  /** A pass during which `delivered` of the snapshot get through and `arrivals` are queued. */
  datatype Pass = Pass(delivered: set<Id>, arrivals: map<Id, Item>)

  predicate Possible(box: map<Id, Item>, p: Pass) {
    && p.delivered <= box.Keys && p.arrivals.Keys !! box.Keys
    && forall id :: id in p.arrivals ==> p.arrivals[id].attempts == 0
  }

  function After(box: map<Id, Item>, p: Pass): map<Id, Item> {
    Survivors(box, p.delivered) + p.arrivals
  }

  predicate InRange(box: map<Id, Item>) {
    forall id :: id in box ==> 0 <= box[id].attempts <= MAX_ATTEMPTS
  }

  // ---------- Every pass makes progress ----------

  /** The sends the queued items may still cost. */
  ghost function Budget(box: map<Id, Item>): int
    decreases box.Keys
  {
    if box == map[] then 0
    else var id :| id in box; MAX_ATTEMPTS + 1 - box[id].attempts + Budget(box - {id})
  }

  /** The budget does not depend on the order in which the items are counted. */
  lemma {:induction false} BudgetWithout(box: map<Id, Item>, id: Id)
    requires id in box
    ensures Budget(box) == MAX_ATTEMPTS + 1 - box[id].attempts + Budget(box - {id})
    decreases box.Keys
  {
    var k :| k in box && Budget(box) == MAX_ATTEMPTS + 1 - box[k].attempts + Budget(box - {k});
    if k != id {
      BudgetWithout(box - {k}, id);
      BudgetWithout(box - {id}, k);
      assert box - {k} - {id} == box - {id} - {k};
    }
  }

  /** A pass lowers the budget of its snapshot by at least one per item, whatever the outcomes. */
  lemma {:induction false} PassSpendsBudget(box: map<Id, Item>, delivered: set<Id>)
    requires InRange(box)
    ensures Budget(Survivors(box, delivered)) <= Budget(box) - |box|
    decreases box.Keys
  {
    if box == map[] {
      assert Survivors(box, delivered) == map[];
    } else {
      var id :| id in box;
      var rest := box - {id};
      PassSpendsBudget(rest, delivered);
      BudgetWithout(box, id);
      SizeWithout(box, id);
      SurvivorsWithout(box, delivered, id);
      if id in Survivors(box, delivered) { BudgetWithout(Survivors(box, delivered), id); }
    }
  }

  lemma SurvivorsWithout(box: map<Id, Item>, delivered: set<Id>, id: Id)
    requires id in box
    ensures Survivors(box - {id}, delivered) ==
            if id in Survivors(box, delivered) then Survivors(box, delivered) - {id} else Survivors(box, delivered)
  {
  }

  lemma SizeWithout(box: map<Id, Item>, id: Id)
    requires id in box
    ensures |box - {id}| == |box| - 1
  {
    assert (box - {id}).Keys == box.Keys - {id};
    assert |(box - {id}).Keys| == |box.Keys| - 1;
    assert |box - {id}| == |(box - {id}).Keys| && |box| == |box.Keys|;
  }

  function AfterAll(box: map<Id, Item>, ps: seq<Pass>): map<Id, Item> {
    if ps == [] then box else After(AfterAll(box, ps[..|ps| - 1]), ps[|ps| - 1])
  }

  /** Keys are never reused: no arrival takes the key of an item of `box`, even one already gone. */
  predicate FreshKeys(box: map<Id, Item>, ps: seq<Pass>) {
    forall i :: 0 <= i < |ps| ==> ps[i].arrivals.Keys !! box.Keys
  }

  /** After n passes an item of the starting queue that is still there has n more attempts. */
  lemma {:induction false} AttemptsCount(box: map<Id, Item>, ps: seq<Pass>, id: Id)
    requires InRange(box) && FreshKeys(box, ps) && id in box
    ensures id in AfterAll(box, ps) ==> AfterAll(box, ps)[id] == box[id].(attempts := box[id].attempts + |ps|)
    ensures id in AfterAll(box, ps) ==> box[id].attempts + |ps| <= 5
  {
    if ps != [] {
      var n := |ps| - 1;
      assert FreshKeys(box, ps[..n]);
      AttemptsCount(box, ps[..n], id);
      assert id !in ps[n].arrivals by { assert ps[n].arrivals.Keys !! box.Keys; }
    }
  }

  /** Everything queued now is gone after six passes, whatever the outcomes and the arrivals. */
  lemma SixPassesSuffice(box: map<Id, Item>, ps: seq<Pass>, id: Id)
    requires InRange(box) && FreshKeys(box, ps) && id in box && |ps| >= 6
    ensures id !in AfterAll(box, ps)
  {
    AttemptsCount(box, ps, id);
  }

  /** Five do not: an item queued afresh whose sends all fail is still there. */
  lemma {:induction false} FewerPassesKeepFailing(box: map<Id, Item>, ps: seq<Pass>, id: Id)
    requires InRange(box) && FreshKeys(box, ps) && id in box
    requires box[id].attempts + |ps| <= 5 && forall i :: 0 <= i < |ps| ==> id !in ps[i].delivered
    ensures id in AfterAll(box, ps)
  {
    if ps != [] {
      var n := |ps| - 1;
      assert FreshKeys(box, ps[..n]);
      FewerPassesKeepFailing(box, ps[..n], id);
      AttemptsCount(box, ps[..n], id);
    }
  }

  // ---------- The history of every request ----------

  datatype Status = Queued | Delivered | Dropped

  /** A request, how often it has been sent, and what became of it. */
  datatype Record = Record(body: string, sends: nat, status: Status)

  type Log = map<Id, Record>

  /** The record agrees with the store: a queued item counts its sends, a delivered request was
      sent at most six times, a dropped one exactly six times. */
  predicate Agrees(r: Record, id: Id, outbox: map<Id, Item>) {
    match r.status
    case Queued => id in outbox && outbox[id] == Item(r.body, r.sends) && r.sends <= MAX_ATTEMPTS
    case Delivered => id !in outbox && 1 <= r.sends <= MAX_ATTEMPTS + 1
    case Dropped => id !in outbox && r.sends == MAX_ATTEMPTS + 1
  }

  /** One more send of a queued request. */
  function Sent(r: Record, outcome: Outcome): Record {
    Record(r.body, r.sends + 1,
           if outcome.Ok? then Delivered else if r.sends + 1 > MAX_ATTEMPTS then Dropped else Queued)
  }

  /** What goes on while one item is being sent: its outcome, and the requests queued meanwhile. */
  datatype Turn = Turn(outcome: Outcome, added: seq<string>)

  ghost predicate Agreed(log: Log, outbox: map<Id, Item>) {
    && (forall id :: id in log ==> Agrees(log[id], id, outbox))
    && (forall id :: id in outbox ==> id in log)
  }

  /** When exactly the queued requests have been sent once more, the store went through one pass. */
  lemma PassOf(box: map<Id, Item>, was: Log, outbox: map<Id, Item>, log: Log, p: Pass)
    requires Agreed(was, box) && Agreed(log, outbox) && p.delivered <= box.Keys
    requires forall id :: id in box ==>
               id in log && log[id] == Sent(was[id], if id in p.delivered then Ok else NotOk)
    requires forall id :: id in was && id !in box ==> id in log && log[id] == was[id]
    requires forall id :: id in outbox && id !in was ==> log[id].sends == 0
    requires p.arrivals == map id | id in outbox && id !in was :: outbox[id]
    ensures Possible(box, p) && outbox == After(box, p)
  {
    forall id | id in box
      ensures id in outbox <==> id in Survivors(box, p.delivered)
      ensures id in outbox ==> outbox[id] == Survivors(box, p.delivered)[id]
    {
      assert Agrees(was[id], id, box) && Agrees(log[id], id, outbox);
    }
    forall id | id in p.arrivals ensures p.arrivals[id].attempts == 0 { assert Agrees(log[id], id, outbox); }
    forall id | id in was && id !in box ensures id !in outbox {
      assert Agrees(was[id], id, box) && Agrees(log[id], id, outbox);
    }
    assert outbox.Keys == After(box, p).Keys;
  }

  /** The first k requests of the snapshot have been sent once more, and no other. */
  ghost predicate Progress(was: Log, log: Log, snapshot: seq<Id>, turns: seq<Turn>, k: nat)
    requires |turns| == |snapshot|
  {
    && (forall id :: id in was ==> id in log)
    && (forall i :: 0 <= i < |snapshot| ==>
          snapshot[i] in was &&
          log[snapshot[i]] == if i < k then Sent(was[snapshot[i]], turns[i].outcome) else was[snapshot[i]])
    && (forall id :: id in was && id !in snapshot ==> log[id] == was[id])
  }

  lemma ProgressStep(was: Log, log: Log, log': Log, snapshot: seq<Id>, turns: seq<Turn>, k: nat)
    requires |turns| == |snapshot| && k < |snapshot| && Progress(was, log, snapshot, turns, k)
    requires forall i, j :: 0 <= i < j < |snapshot| ==> snapshot[i] != snapshot[j]
    requires forall id :: id in log ==>
               id in log' && log'[id] == if id == snapshot[k] then Sent(log[id], turns[k].outcome) else log[id]
    ensures Progress(was, log', snapshot, turns, k + 1)
  {
    forall i | 0 <= i < |snapshot|
      ensures log'[snapshot[i]] ==
              if i < k + 1 then Sent(was[snapshot[i]], turns[i].outcome) else was[snapshot[i]]
    {
      assert i != k ==> snapshot[i] != snapshot[k];
    }
  }

  // ---------- The store ----------

  class OfflineStorage {
    var outbox: map<Id, Item>
    var nextKey: Id
    ghost var log: Log

    ghost predicate Valid()
      reads this
    {
      && (forall id: Id :: id in log <==> id < nextKey)
      && Agreed(log, outbox)
    }

    constructor ()
      ensures Valid() && outbox == map[] && nextKey == 0
    {
      outbox, nextKey, log := map[], 0, map[];
    }

    method AddToOutbox(request: string) returns (id: Id)
      requires Valid()
      modifies this
      ensures Valid()
      ensures id == old(nextKey) && nextKey == id + 1 && id !in old(outbox)
      ensures outbox == old(outbox)[id := Item(request, 0)]
      ensures log == old(log)[id := Record(request, 0, Queued)]
    {
      id := nextKey;
      outbox := outbox[id := Item(request, 0)];
      nextKey := nextKey + 1;
      log := log[id := Record(request, 0, Queued)];
    }

    /** The body of the loop for one item of the snapshot. */
    method ProcessItem(id: Id, outcome: Outcome)
      requires Valid() && id in outbox
      modifies this
      ensures Valid() && nextKey == old(nextKey)
      ensures log == old(log)[id := Sent(old(log)[id], outcome)]
      ensures outbox == if log[id].status == Queued
                        then old(outbox)[id := old(outbox)[id].(attempts := old(outbox)[id].attempts + 1)]
                        else old(outbox) - {id}
      ensures log[id].status ==
              if outcome.Ok? then Delivered else if old(outbox)[id].attempts < 5 then Queued else Dropped
    {
      var item := outbox[id];
      log := log[id := Sent(log[id], outcome)];
      if outcome.Ok? {
        outbox := outbox - {id};
      } else {
        item := item.(attempts := item.attempts + 1);
        if item.attempts > MAX_ATTEMPTS {
          outbox := outbox - {id};
        } else {
          outbox := outbox[id := item];
        }
      }
    }

    /** Requests queued while another one is being sent. */
    method AddMeanwhile(requests: seq<string>)
      requires Valid()
      modifies this
      ensures Valid() && nextKey == old(nextKey) + |requests|
      ensures forall id :: id in old(log) ==> id in log && log[id] == old(log)[id]
      ensures forall id :: id in old(log) ==> (id in outbox <==> id in old(outbox))
      ensures forall id :: id in old(outbox) ==> outbox[id] == old(outbox)[id]
      ensures forall id :: id in outbox && id !in old(log) ==> log[id].sends == 0
    {
      for a := 0 to |requests|
        invariant Valid() && nextKey == old(nextKey) + a
        invariant forall id :: id in old(log) ==> id in log && log[id] == old(log)[id]
        invariant forall id :: id in old(log) ==> (id in outbox <==> id in old(outbox))
        invariant forall id :: id in old(outbox) ==> outbox[id] == old(outbox)[id]
        invariant forall id :: id in outbox && id !in old(log) ==> log[id].sends == 0
      {
        var key := AddToOutbox(requests[a]);
      }
    }

    /** One turn of the loop: the item is sent and settled, while further requests may be queued. */
    method ProcessTurn(id: Id, turn: Turn)
      requires Valid() && id in outbox
      modifies this
      ensures Valid() && nextKey >= old(nextKey)
      ensures forall k :: k in old(log) ==>
                k in log && log[k] == if k == id then Sent(old(log)[k], turn.outcome) else old(log)[k]
      ensures forall k :: k in outbox && k !in old(log) ==> log[k].sends == 0
      ensures forall k :: k in old(outbox) && k != id ==> k in outbox
    {
      AddMeanwhile(turn.added);
      ProcessItem(id, turn.outcome);
    }

    /** The loop: every item of the snapshot is sent exactly once and no other request is touched. */
    method SendAll(snapshot: seq<Id>, turns: seq<Turn>)
      requires Valid() && |turns| == |snapshot|
      requires forall i, j :: 0 <= i < j < |snapshot| ==> snapshot[i] != snapshot[j]
      requires forall i :: 0 <= i < |snapshot| ==> snapshot[i] in outbox
      modifies this
      ensures Valid() && nextKey >= old(nextKey)
      ensures Progress(old(log), log, snapshot, turns, |snapshot|)
      ensures forall id :: id in outbox && id !in old(log) ==> log[id].sends == 0
    {
      ghost var was := log;
      for k := 0 to |snapshot|
        invariant Valid() && nextKey >= old(nextKey)
        invariant Progress(was, log, snapshot, turns, k)
        invariant forall i :: k <= i < |snapshot| ==> snapshot[i] in outbox
        invariant forall id :: id in outbox && id !in was ==> log[id].sends == 0
      {
        ghost var before := log;
        ProcessTurn(snapshot[k], turns[k]);
        ProgressStep(was, before, log, snapshot, turns, k);
      }
    }

    /** One pass over the items queued when it starts, in key order, while further requests may be
        queued during each send. */
    method ProcessOutbox(snapshot: seq<Id>, turns: seq<Turn>) returns (ghost p: Pass)
      requires Valid() && |turns| == |snapshot|
      requires forall i, j :: 0 <= i < j < |snapshot| ==> snapshot[i] < snapshot[j]
      requires forall id :: id in snapshot <==> id in outbox
      modifies this
      ensures Valid() && nextKey >= old(nextKey)
      ensures forall i :: 0 <= i < |snapshot| ==>
                && (snapshot[i] in p.delivered <==> turns[i].outcome.Ok?)
                && snapshot[i] in log && log[snapshot[i]] == Sent(old(log)[snapshot[i]], turns[i].outcome)
      ensures Possible(old(outbox), p) && p.arrivals.Keys !! old(log).Keys
      ensures outbox == After(old(outbox), p)
      ensures forall id :: id in old(log) && id !in old(outbox) ==> id in log && log[id] == old(log)[id]
    {
      ghost var was, box := log, outbox;
      p := Pass(set i | 0 <= i < |snapshot| && turns[i].outcome.Ok? :: snapshot[i], map[]);
      DeliveredIndex(snapshot, turns, p.delivered);
      SendAll(snapshot, turns);
      p := p.(arrivals := map id | id in outbox && id !in was :: outbox[id]);
      PassOf(box, was, outbox, log, p);
    }
  }

  lemma DeliveredIndex(snapshot: seq<Id>, turns: seq<Turn>, ok: set<Id>)
    requires |turns| == |snapshot|
    requires forall i, j :: 0 <= i < j < |snapshot| ==> snapshot[i] < snapshot[j]
    requires ok == set i | 0 <= i < |snapshot| && turns[i].outcome.Ok? :: snapshot[i]
    ensures forall i :: 0 <= i < |snapshot| ==> (snapshot[i] in ok <==> turns[i].outcome.Ok?)
  {
  }

  // ---------- Conservation ----------

  function With(log: Log, status: Status): set<Id> {
    set id | id in log && log[id].status == status
  }

  /** Every request ever added is in exactly one place: added = delivered + dropped + queued. None was
      sent more than six times, and only after six sends was one dropped. */
  lemma Conservation(s: OfflineStorage)
    requires s.Valid()
    ensures s.outbox.Keys == With(s.log, Queued)
    ensures s.nextKey == |With(s.log, Delivered)| + |With(s.log, Dropped)| + |s.outbox|
    ensures forall id :: id in s.log ==> s.log[id].sends <= 6
    ensures forall id :: id in With(s.log, Dropped) ==> s.log[id].sends == 6
  {
    forall id | id in s.log ensures s.log[id].sends <= 6 { assert Agrees(s.log[id], id, s.outbox); }
    forall id | id in With(s.log, Dropped) ensures s.log[id].sends == 6 {
      assert Agrees(s.log[id], id, s.outbox);
    }
    var a, b, c := With(s.log, Delivered), With(s.log, Dropped), With(s.log, Queued);
    Range(s.log.Keys, s.nextKey);
    assert s.outbox.Keys == c by {
      forall id | id in s.outbox ensures id in c { assert Agrees(s.log[id], id, s.outbox); }
      forall id | id in c ensures id in s.outbox { assert Agrees(s.log[id], id, s.outbox); }
    }
    assert s.log.Keys == (a + b) + c;
    assert |a + b| == |a| + |b|;
    assert |(a + b) + c| == |a + b| + |c|;
    assert |s.outbox| == |s.outbox.Keys|;
  }

  lemma {:induction false} Range(ids: set<Id>, n: nat)
    requires forall id: Id :: id in ids <==> id < n
    ensures |ids| == n
    decreases n
  {
    if n == 0 {
      assert ids == {};
    } else {
      Range(ids - {n - 1}, n - 1);
    }
  }
}
