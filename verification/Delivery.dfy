/** Reply delivery in providers/telegram/endpoint.py: the outbox, the in-flight table, retries and recovery.

    Send tasks are settled by the environment (`Settle`).  The ghost fields record what became of every accepted reply,
    so that conservation can be stated. */
module Delivery {
  import opened Wrappers

  datatype Item = Item(id: string, text: string, attempts: nat)

  datatype Outcome = Unfinished | Succeeded | TransientFailure(reason: string) | PermanentFailure(reason: string) | Cancelled

  datatype Event =
    | Delivered(id: string)
    | Failed(id: string, reason: string, permanent: bool, attempts: nat)

  /** What `_schedule_ordered_send` returned for an item. */
  datatype Flight = Flight(item: Item, task: nat)

  // Seconds between two reports of the same transient failure of a reply.
  const REPORT_INTERVAL := 60.0

  function Ids(items: seq<Item>): seq<string> {
    seq(|items|, i requires 0 <= i < |items| => items[i].id)
  }

  lemma IdsAppend(items: seq<Item>, x: Item)
    ensures multiset(Ids(items + [x])) == multiset(Ids(items)) + multiset{x.id}
  {
    assert Ids(items + [x]) == Ids(items) + [x.id];
  }

  lemma IdsSplit(items: seq<Item>)
    requires items != []
    ensures multiset(Ids(items)) == multiset{items[0].id} + multiset(Ids(items[1..]))
  {
    assert Ids(items) == [items[0].id] + Ids(items[1..]);
  }

  function Retry(x: Item): Item {
    x.(attempts := x.attempts + 1)
  }

  // ----- where replies are -----

  /** The queue as a value, with a record of what became of finished replies and of the events emitted so far. */
  datatype Ledger = Ledger(
    outbox: seq<Item>, pending: map<string, Flight>, sent: set<string>, failed: set<string>, events: seq<Event>)

  function One(here: bool): nat {
    if here then 1 else 0
  }

  /** The number of places a reply is in; `held` are items in a local variable. */
  ghost function Places(l: Ledger, held: seq<Item>, id: string): nat {
    multiset(Ids(l.outbox))[id] + One(id in l.pending) + One(id in l.sent) + One(id in l.failed) + multiset(Ids(held))[id]
  }

  /** Every accepted reply is in exactly one place: outbox, in flight, sent or permanently failed; no other id is
      anywhere. */
  ghost predicate Conserved(l: Ledger, held: seq<Item>, accepted: set<string>) {
    && (forall id {:trigger Places(l, held, id)} :: Places(l, held, id) == One(id in accepted))
    && (forall id :: id in l.pending ==> l.pending[id].item.id == id)
  }

  ghost predicate EventOk(l: Ledger, i: nat)
    requires i < |l.events|
  {
    match l.events[i]
    case Delivered(id) => id in l.sent
    case Failed(id, _, permanent, _) => permanent ==> id in l.failed
  }

  ghost predicate DeliveredApart(l: Ledger, i: nat, j: nat)
    requires i < |l.events| && j < |l.events|
  {
    l.events[i].Delivered? && l.events[j].Delivered? ==> l.events[i].id != l.events[j].id
  }

  /** A reply is reported delivered at most once and only when it was sent, and permanently failed only when it is. */
  ghost predicate Reported(l: Ledger) {
    && (forall i: nat {:trigger EventOk(l, i)} :: i < |l.events| ==> EventOk(l, i))
    && (forall i: nat, j: nat {:trigger DeliveredApart(l, i, j)} :: i < j < |l.events| ==> DeliveredApart(l, i, j))
  }

  ghost predicate Sound(l: Ledger, held: seq<Item>, accepted: set<string>) {
    Conserved(l, held, accepted) && Reported(l)
  }

  lemma OnlyHere(l: Ledger, held: seq<Item>, accepted: set<string>, id: string)
    requires Conserved(l, held, accepted)
    ensures id in l.pending ==> id !in l.sent && id !in l.failed
    ensures id in Ids(held) ==> id !in l.pending && id !in l.sent && id !in l.failed
  {
    assert Places(l, held, id) == One(id in accepted);
    assert id in Ids(held) ==> multiset(Ids(held))[id] >= 1;
  }

  // Events that say nothing new about `sent` and `failed`.
  lemma ReportedMore(l: Ledger, m: Ledger, emitted: seq<Event>)
    requires Reported(l) && l.sent <= m.sent && l.failed <= m.failed && m.events == l.events + emitted
    requires forall i :: 0 <= i < |emitted| ==> emitted[i].Failed? && (emitted[i].permanent ==> emitted[i].id in m.failed)
    ensures Reported(m)
  {
    forall i: nat | i < |m.events| ensures EventOk(m, i) {
      assert i < |l.events| ==> EventOk(l, i);
    }
    forall i: nat, j: nat | i < j < |m.events| ensures DeliveredApart(m, i, j) {
      assert j < |l.events| ==> DeliveredApart(l, i, j);
    }
  }

  // The in-flight entry of `id` is gone.
  function Landed(l: Ledger, id: string): Ledger {
    l.(pending := l.pending - {id})
  }

  function Requeued(l: Ledger, id: string, item: Item, emitted: seq<Event>): Ledger {
    Landed(l, id).(outbox := l.outbox + [item], events := l.events + emitted)
  }

  function MarkedSent(l: Ledger, id: string, emitted: seq<Event>): Ledger {
    Landed(l, id).(sent := l.sent + {id}, events := l.events + emitted)
  }

  function MarkedFailed(l: Ledger, id: string, emitted: seq<Event>): Ledger {
    Landed(l, id).(failed := l.failed + {id}, events := l.events + emitted)
  }

  lemma RequeueKeeps(l: Ledger, held: seq<Item>, accepted: set<string>, id: string, item: Item, emitted: seq<Event>)
    requires Sound(l, held, accepted) && id in l.pending && item.id == id
    requires forall i :: 0 <= i < |emitted| ==> emitted[i].Failed? && !emitted[i].permanent
    ensures Sound(Requeued(l, id, item, emitted), held, accepted)
  {
    var m := Requeued(l, id, item, emitted);
    IdsAppend(l.outbox, item);
    forall k ensures Places(m, held, k) == One(k in accepted) {
      assert Places(l, held, k) == One(k in accepted);
    }
    ReportedMore(l, m, emitted);
  }

  lemma SentKeeps(l: Ledger, held: seq<Item>, accepted: set<string>, id: string, emitted: seq<Event>)
    requires Sound(l, held, accepted) && id in l.pending && (emitted == [] || emitted == [Delivered(id)])
    ensures Sound(MarkedSent(l, id, emitted), held, accepted)
  {
    var m := MarkedSent(l, id, emitted);
    OnlyHere(l, held, accepted, id);
    forall k ensures Places(m, held, k) == One(k in accepted) {
      assert Places(l, held, k) == One(k in accepted);
    }
    forall i: nat | i < |m.events| ensures EventOk(m, i) {
      assert i < |l.events| ==> EventOk(l, i);
    }
    forall i: nat, j: nat | i < j < |m.events| ensures DeliveredApart(m, i, j) {
      assert EventOk(l, i);
      assert j < |l.events| ==> DeliveredApart(l, i, j);
    }
  }

  lemma FailedKeeps(l: Ledger, held: seq<Item>, accepted: set<string>, id: string, emitted: seq<Event>)
    requires Sound(l, held, accepted) && id in l.pending
    requires forall i :: 0 <= i < |emitted| ==> emitted[i].Failed? && emitted[i].id == id
    ensures Sound(MarkedFailed(l, id, emitted), held, accepted)
  {
    var m := MarkedFailed(l, id, emitted);
    OnlyHere(l, held, accepted, id);
    forall k ensures Places(m, held, k) == One(k in accepted) {
      assert Places(l, held, k) == One(k in accepted);
    }
    ReportedMore(l, m, emitted);
  }

  function Launched(l: Ledger, item: Item, task: nat): Ledger {
    l.(pending := l.pending[item.id := Flight(item, task)])
  }

  function Returned(l: Ledger, item: Item, emitted: seq<Event>): Ledger {
    l.(outbox := l.outbox + [item], events := l.events + emitted)
  }

  // An item held in a variable goes into flight, or back to the outbox.
  lemma LaunchKeeps(l: Ledger, held: seq<Item>, accepted: set<string>, task: nat)
    requires held != [] && Sound(l, held, accepted)
    ensures held[0].id !in l.pending
    ensures Sound(Launched(l, held[0], task), held[1..], accepted)
  {
    var m, id := Launched(l, held[0], task), held[0].id;
    IdsSplit(held);
    assert Ids(held)[0] == id;
    OnlyHere(l, held, accepted, id);
    forall k ensures Places(m, held[1..], k) == One(k in accepted) {
      assert Places(l, held, k) == One(k in accepted);
    }
    ReportedMore(l, m, []);
  }

  lemma ReturnKeeps(l: Ledger, held: seq<Item>, accepted: set<string>, item: Item, emitted: seq<Event>)
    requires held != [] && Sound(l, held, accepted) && item.id == held[0].id
    requires forall i :: 0 <= i < |emitted| ==> emitted[i].Failed? && !emitted[i].permanent
    ensures Sound(Returned(l, item, emitted), held[1..], accepted)
  {
    var m := Returned(l, item, emitted);
    IdsSplit(held);
    IdsAppend(l.outbox, item);
    forall k ensures Places(m, held[1..], k) == One(k in accepted) {
      assert Places(l, held, k) == One(k in accepted);
    }
    ReportedMore(l, m, emitted);
  }

  lemma TakeKeeps(l: Ledger, accepted: set<string>)
    requires Sound(l, [], accepted)
    ensures Sound(l.(outbox := []), l.outbox, accepted)
  {
    forall k ensures Places(l.(outbox := []), l.outbox, k) == One(k in accepted) {
      assert Places(l, [], k) == One(k in accepted);
    }
    ReportedMore(l, l.(outbox := []), []);
  }

  lemma AcceptKeeps(l: Ledger, accepted: set<string>, item: Item)
    requires Sound(l, [], accepted) && item.id !in accepted
    ensures Sound(Returned(l, item, []), [], accepted + {item.id})
  {
    var m := Returned(l, item, []);
    IdsAppend(l.outbox, item);
    forall k ensures Places(m, [], k) == One(k in accepted + {item.id}) {
      assert Places(l, [], k) == One(k in accepted);
    }
    ReportedMore(l, m, []);
  }

  /** A reply under an id that was used before would be in two places. */
  lemma AcceptKeepsIff(l: Ledger, accepted: set<string>, item: Item)
    requires Sound(l, [], accepted)
    ensures Sound(Returned(l, item, []), [], accepted + {item.id}) <==> item.id !in accepted
  {
    if item.id !in accepted {
      AcceptKeeps(l, accepted, item);
    } else {
      var m := Returned(l, item, []);
      IdsAppend(l.outbox, item);
      assert Places(l, [], item.id) == 1;
      assert Places(m, [], item.id) == 2;
    }
  }

  /** The new state of the failure reports. */
  function Report(
      reported: map<string, (string, real)>, id: string, reason: string, permanent: bool, now: real): map<string, (string, real)>
  {
    if permanent then reported - {id}
    else if Repeats(reported, id, reason, now) then reported
    else reported[id := (reason, now)]
  }

  predicate Repeats(reported: map<string, (string, real)>, id: string, reason: string, now: real) {
    id in reported && reported[id].0 == reason && now - reported[id].1 < REPORT_INTERVAL
  }

  function FailureEvents(
      reported: map<string, (string, real)>, item: Item, reason: string, permanent: bool, now: real): seq<Event>
  {
    if !permanent && Repeats(reported, item.id, reason, now) then []
    else [Failed(item.id, reason, permanent, item.attempts + 1)]
  }

  /** What collecting a finished task does to the ledger. */
  function Collected(l: Ledger, id: string, outcome: Outcome, reported: map<string, (string, real)>, now: real): Ledger
    requires id in l.pending
  {
    var item := l.pending[id].item;
    match outcome
    case Succeeded => MarkedSent(l, id, [Delivered(id)])
    case PermanentFailure(reason) => MarkedFailed(l, id, FailureEvents(reported, item, reason, true, now))
    case TransientFailure(reason) => Requeued(l, id, Retry(item), FailureEvents(reported, item, reason, false, now))
    case Cancelled => Requeued(l, id, item, [])
    case Unfinished => l
  }

  lemma CollectKeeps(
      l: Ledger, held: seq<Item>, accepted: set<string>, id: string, outcome: Outcome, reported: map<string, (string, real)>, now: real)
    requires Sound(l, held, accepted) && id in l.pending
    ensures Sound(Collected(l, id, outcome, reported, now), held, accepted)
  {
    var item := l.pending[id].item;
    match outcome
    case Succeeded => SentKeeps(l, held, accepted, id, [Delivered(id)]);
    case PermanentFailure(reason) => FailedKeeps(l, held, accepted, id, FailureEvents(reported, item, reason, true, now));
    case TransientFailure(reason) =>
      RequeueKeeps(l, held, accepted, id, Retry(item), FailureEvents(reported, item, reason, false, now));
    case Cancelled => RequeueKeeps(l, held, accepted, id, item, []);
    case Unfinished =>
  }

  // ----- the queue -----

  class ReplyQueue {
    var outbox: seq<Item>
    var pending: map<string, Flight>
    var tasks: seq<Outcome>
    var reported: map<string, (string, real)>

    ghost var accepted: set<string>
    ghost var sent: set<string>
    ghost var failed: set<string>
    ghost var events: seq<Event>

    ghost function View(): Ledger
      reads this
    {
      Ledger(outbox, pending, sent, failed, events)
    }

    ghost predicate TasksKnown()
      reads this
    {
      forall id :: id in pending ==> pending[id].task < |tasks|
    }

    ghost predicate Valid()
      reads this
    {
      Sound(View(), [], accepted) && TasksKnown()
    }

    constructor ()
      ensures Valid() && accepted == {} && outbox == [] && pending == map[]
    {
      outbox, pending, tasks, reported := [], map[], [], map[];
      accepted, sent, failed, events := {}, {}, {}, [];
    }

    /** A reply is queued under the id the caller gives, unless nothing was left of it to send.  Every reply stays in
        exactly one place if and only if that id was not used before. */
    method QueueReply(id: string, prepared: Option<string>)
      requires Valid()
      modifies this`outbox, this`accepted
      ensures prepared.None? ==> outbox == old(outbox) && accepted == old(accepted) && Valid()
      ensures prepared.Some? ==> outbox == old(outbox) + [Item(id, prepared.value, 0)] && accepted == old(accepted) + {id}
      ensures prepared.Some? ==> (Valid() <==> id !in old(accepted))
    {
      if prepared.None? {
        return;
      }
      var item := Item(id, prepared.value, 0);
      AcceptKeepsIff(View(), accepted, item);
      outbox := outbox + [item];
      accepted := accepted + {id};
      assert View() == Returned(old(View()), item, []);
    }

    /** The environment finishes a send task. */
    method Settle(task: nat, outcome: Outcome)
      requires Valid() && task < |tasks| && tasks[task] == Unfinished
      modifies this`tasks
      ensures Valid() && tasks == old(tasks)[task := outcome]
    {
      tasks := tasks[task := outcome];
    }

    /** Report a failure, but a transient one not again for the same reason within the interval. */
    method FailureEventOnce(item: Item, reason: string, permanent: bool, now: real) returns (emitted: seq<Event>)
      modifies this`reported
      ensures emitted == FailureEvents(old(reported), item, reason, permanent, now)
      ensures reported == Report(old(reported), item.id, reason, permanent, now)
      // Nothing is emitted exactly for a transient failure that was reported for the same reason less than a minute ago.
      ensures emitted == [] <==>
              !permanent && item.id in old(reported) && old(reported)[item.id].0 == reason && now - old(reported)[item.id].1 < 60.0
      ensures emitted != [] ==> emitted == [Failed(item.id, reason, permanent, item.attempts + 1)]
      ensures permanent ==> reported == old(reported) - {item.id}
      ensures !permanent ==> reported == if emitted == [] then old(reported) else old(reported)[item.id := (reason, now)]
    {
      if permanent {
        reported := reported - {item.id};
      } else {
        if item.id in reported && reported[item.id].0 == reason && now - reported[item.id].1 < REPORT_INTERVAL {
          return [];
        }
        reported := reported[item.id := (reason, now)];
      }
      return [Failed(item.id, reason, permanent, item.attempts + 1)];
    }

    /** Take the result of one finished task: sent, failed for good, or back to the outbox. */
    method CollectOne(id: string, now: real) returns (emitted: seq<Event>)
      requires id in pending && pending[id].task < |tasks|
      modifies this`outbox, this`pending, this`reported, this`sent, this`failed, this`events
      ensures View() == Collected(old(View()), id, tasks[old(pending)[id].task], old(reported), now)
      ensures events == old(events) + emitted
      ensures var x, outcome := old(pending)[id].item, tasks[old(pending)[id].task];
        && pending == (if outcome.Unfinished? then old(pending) else old(pending) - {id})
        && outbox == old(outbox) + (if outcome.TransientFailure? then [Item(x.id, x.text, x.attempts + 1)]
                                    else if outcome.Cancelled? then [Item(x.id, x.text, x.attempts)] else [])
        && sent == old(sent) + (if outcome.Succeeded? then {id} else {})
        && failed == old(failed) + (if outcome.PermanentFailure? then {id} else {})
        && (outcome.Succeeded? ==> emitted == [Delivered(id)] && id !in reported)
        && (outcome.PermanentFailure? ==> emitted == [Failed(x.id, outcome.reason, true, x.attempts + 1)])
        && (outcome.Cancelled? || outcome.Unfinished? ==> emitted == [])
    {
      emitted := [];
      var item, outcome := pending[id].item, tasks[pending[id].task];
      if outcome == Unfinished {
        return;
      }
      pending := pending - {id};
      match outcome
      case Succeeded =>
        reported := reported - {id};
        emitted := [Delivered(id)];
        sent, events := sent + {id}, events + emitted;
      case PermanentFailure(reason) =>
        emitted := FailureEventOnce(item, reason, true, now);
        failed, events := failed + {id}, events + emitted;
      case TransientFailure(reason) =>
        outbox := outbox + [Retry(item)];
        emitted := FailureEventOnce(item, reason, false, now);
        events := events + emitted;
      case Cancelled =>
        outbox := outbox + [item];
    }

    /** One round of the collecting loop, with what it leaves to do. */
    method CollectNext(id: string, now: real, ghost held: seq<Item>, ghost start: Ledger, ghost todo: set<string>)
      returns (emitted: seq<Event>)
      requires Sound(View(), held, accepted) && TasksKnown() && id in pending && id !in todo
      requires SettledAll(start, View(), tasks, todo + {id}) && Conserved(start, held, accepted)
      modifies this`outbox, this`pending, this`reported, this`sent, this`failed, this`events
      ensures Sound(View(), held, accepted) && TasksKnown() && SettledAll(start, View(), tasks, todo)
      ensures events == old(events) + emitted
    {
      CollectKeeps(View(), held, accepted, id, tasks[pending[id].task], reported, now);
      SettleOne(start, View(), tasks, todo, id, reported, now);
      emitted := CollectOne(id, now);
    }

    /** Collect every finished task, in some order. */
    method Collect(now: real, ghost held: seq<Item>) returns (emitted: seq<Event>)
      requires Sound(View(), held, accepted) && TasksKnown()
      modifies this`outbox, this`pending, this`reported, this`sent, this`failed, this`events
      ensures Sound(View(), held, accepted) && TasksKnown()
      ensures events == old(events) + emitted
      ensures SettledAll(old(View()), View(), tasks, {})
    {
      emitted := [];
      var todo := pending.Keys;
      while todo != {}
        invariant Sound(View(), held, accepted) && TasksKnown()
        invariant events == old(events) + emitted
        invariant SettledAll(old(View()), View(), tasks, todo) && todo <= old(pending).Keys
        decreases todo
      {
        var id :| id in todo;
        assert old(pending)[id].task < |tasks| && id in pending;
        assert (todo - {id}) + {id} == todo;
        todo := todo - {id};
        var more := CollectNext(id, now, held, old(View()), todo);
        emitted := emitted + more;
      }
    }

    /** `flush_outbox`: collect results, then send what was queued before. */
    method FlushOutbox(unavailable: Option<string>, loopRunning: bool, now: real) returns (emitted: seq<Event>)
      requires Valid()
      modifies this
      ensures Valid() && accepted == old(accepted) && events == old(events) + emitted
      ensures old(tasks) <= tasks
      // What was in flight is settled; what was queued is now in flight, or back in the outbox.
      ensures forall id :: id in old(pending) ==> WentTo(View(), old(pending)[id].item, old(tasks)[old(pending)[id].task])
      ensures forall i :: 0 <= i < |old(outbox)| ==> Sent(View(), old(outbox)[i], unavailable, loopRunning)
    {
      var items := outbox;
      TakeKeeps(View(), accepted);
      outbox := [];
      emitted := Collect(now, items);
      ghost var collected := View();
      var more := SendItems(items, unavailable, loopRunning, now);
      emitted := emitted + more;
      WentGrew(old(View()), collected, View(), old(tasks));
    }

    method SendItems(items: seq<Item>, unavailable: Option<string>, loopRunning: bool, now: real) returns (emitted: seq<Event>)
      requires Sound(View(), items, accepted) && TasksKnown()
      modifies this`outbox, this`pending, this`tasks, this`reported, this`events
      ensures Sound(View(), [], accepted) && TasksKnown()
      ensures events == old(events) + emitted && old(tasks) <= tasks
      ensures Grew(old(View()), View())
      ensures forall i :: 0 <= i < |items| ==> Sent(View(), items[i], unavailable, loopRunning)
    {
      emitted := [];
      for i := 0 to |items|
        invariant Sound(View(), items[i..], accepted) && TasksKnown()
        invariant events == old(events) + emitted && old(tasks) <= tasks
        invariant Grew(old(View()), View())
        invariant forall j :: 0 <= j < i ==> Sent(View(), items[j], unavailable, loopRunning)
      {
        assert items[i..][0] == items[i] && items[i..][1..] == items[i + 1..];
        var more := SendOne(items[i], unavailable, loopRunning, now, items[i..]);
        emitted := emitted + more;
      }
    }

    // One item of the flush.
    method SendOne(item: Item, unavailable: Option<string>, loopRunning: bool, now: real, ghost held: seq<Item>)
      returns (emitted: seq<Event>)
      requires held != [] && held[0] == item && Sound(View(), held, accepted) && TasksKnown()
      modifies this`outbox, this`pending, this`tasks, this`reported, this`events
      ensures Sound(View(), held[1..], accepted) && TasksKnown()
      ensures events == old(events) + emitted && old(tasks) <= tasks
      ensures Grew(old(View()), View()) && Sent(View(), item, unavailable, loopRunning)
      // A send is silent; what cannot be sent is reported with its next attempt, unless it was for the same reason just before.
      ensures unavailable.None? && loopRunning ==> emitted == []
      ensures emitted != [] ==>
        emitted == [Failed(item.id, if unavailable.Some? then unavailable.value else NOT_RUNNING, false, item.attempts + 1)]
    {
      emitted := [];
      if unavailable.Some? {
        ReturnKeeps(View(), held, accepted, Retry(item), FailureEvents(reported, item, unavailable.value, false, now));
        outbox := outbox + [Retry(item)];
        emitted := FailureEventOnce(item, unavailable.value, false, now);
        events := events + emitted;
        assert View() == Returned(old(View()), Retry(item), emitted);
        assert outbox[|old(outbox)|] == Retry(item);
      } else if !loopRunning {
        ReturnKeeps(View(), held, accepted, item, FailureEvents(reported, item, NOT_RUNNING, false, now));
        outbox := outbox + [item];
        emitted := FailureEventOnce(item, NOT_RUNNING, false, now);
        events := events + emitted;
        assert View() == Returned(old(View()), item, emitted);
        assert outbox[|old(outbox)|] == item;
      } else {
        LaunchKeeps(View(), held, accepted, |tasks|);
        pending := pending[item.id := Flight(item, |tasks|)];
        tasks := tasks + [Unfinished];
        assert View() == Launched(old(View()), item, |old(tasks)|);
      }
    }

    /** `_recover_pending_deliveries_async` at shutdown: every unfinished task in flight is cancelled and awaited, which
        leaves the tasks as `after` says; what was not sent goes back to the outbox, permanent failures included. */
    method Recover(after: seq<Outcome>)
      requires Valid() && |after| == |tasks|
      requires forall t :: 0 <= t < |tasks| && tasks[t] != Unfinished ==> after[t] == tasks[t]
      requires forall id :: id in pending ==> after[pending[id].task] != Unfinished
      modifies this
      ensures Valid() && accepted == old(accepted) && pending == map[] && failed == old(failed) && events == old(events)
      ensures old(outbox) <= outbox && old(sent) <= sent
      ensures forall id :: id in old(pending) ==> Recovered(View(), old(pending)[id].item, after[old(pending)[id].task])
    {
      tasks := after;
      ghost var start := View();
      var todo := pending.Keys;
      while todo != {}
        invariant Valid() && accepted == old(accepted) && tasks == after
        invariant RecoveredAll(start, View(), after, todo)
        decreases todo
      {
        var id :| id in todo;
        RecoveredOne(start, View(), after, todo, id);
        todo := todo - {id};
        RecoverOne(id);
      }
      assert pending == map[];
    }

    method RecoverOne(id: string)
      requires Valid() && id in pending
      modifies this`outbox, this`pending, this`sent
      ensures Valid() && View() == TakenBack(old(View()), id, tasks[old(pending)[id].task])
    {
      var item := pending[id].item;
      if tasks[pending[id].task] != Succeeded {
        RequeueKeeps(View(), [], accepted, id, Retry(item), []);
        outbox := outbox + [Retry(item)];
        pending := pending - {id};
        assert View() == Requeued(old(View()), id, Retry(item), []);
      } else {
        SentKeeps(View(), [], accepted, id, []);
        sent := sent + {id};
        pending := pending - {id};
        assert View() == MarkedSent(old(View()), id, []);
      }
    }
  }

  /** What recovery does with one item in flight. */
  function TakenBack(l: Ledger, id: string, outcome: Outcome): Ledger
    requires id in l.pending
  {
    if outcome == Succeeded then MarkedSent(l, id, []) else Requeued(l, id, Retry(l.pending[id].item), [])
  }

  // The recovery so far: `todo` is still in flight.
  ghost predicate RecoveredAll(before: Ledger, now: Ledger, after: seq<Outcome>, todo: set<string>) {
    && before.outbox <= now.outbox && before.sent <= now.sent && now.failed == before.failed && now.events == before.events
    && now.pending.Keys == todo
    && (forall id :: id in now.pending ==> id in before.pending && now.pending[id] == before.pending[id])
    && (forall id :: id in before.pending && id !in todo && before.pending[id].task < |after| ==>
          Recovered(now, before.pending[id].item, after[before.pending[id].task]))
  }

  lemma RecoveredOne(start: Ledger, l: Ledger, after: seq<Outcome>, todo: set<string>, id: string)
    requires RecoveredAll(start, l, after, todo) && id in todo && l.pending[id].task < |after|
    requires forall k :: k in start.pending ==> start.pending[k].item.id == k
    ensures RecoveredAll(start, TakenBack(l, id, after[l.pending[id].task]), after, todo - {id})
  {
    var now, x := TakenBack(l, id, after[l.pending[id].task]), l.pending[id].item;
    assert l.outbox <= now.outbox;
    forall k | k in start.pending && k !in todo - {id} && start.pending[k].task < |after|
      ensures Recovered(now, start.pending[k].item, after[start.pending[k].task])
    {
      if k == id {
        assert after[l.pending[id].task] != Succeeded ==> now.outbox[|l.outbox|] == Retry(x);
      } else {
        assert Recovered(l, start.pending[k].item, after[start.pending[k].task]);
      }
    }
  }

  /** Where recovery leaves an item that was in flight. */
  ghost predicate Recovered(l: Ledger, x: Item, outcome: Outcome) {
    if outcome == Succeeded then x.id in l.sent else Item(x.id, x.text, x.attempts + 1) in l.outbox
  }

  const NOT_RUNNING := "telegram event loop not running"

  /** Nothing is taken away. */
  ghost predicate Grew(before: Ledger, after: Ledger) {
    && before.outbox <= after.outbox && before.events <= after.events
    && before.sent == after.sent && before.failed == after.failed
    && (forall id :: id in before.pending ==> id in after.pending && after.pending[id] == before.pending[id])
  }

  /** Where the flush puts a queued item. */
  ghost predicate Sent(l: Ledger, x: Item, unavailable: Option<string>, loopRunning: bool) {
    if unavailable.Some? then Item(x.id, x.text, x.attempts + 1) in l.outbox
    else if !loopRunning then Item(x.id, x.text, x.attempts) in l.outbox
    else x.id in l.pending && l.pending[x.id].item == Item(x.id, x.text, x.attempts)
  }

  lemma WentGrew(start: Ledger, collected: Ledger, after: Ledger, tasks: seq<Outcome>)
    requires Grew(collected, after)
    requires forall id :: id in start.pending ==> start.pending[id].task < |tasks|
    requires forall id :: id in start.pending ==> WentTo(collected, start.pending[id].item, tasks[start.pending[id].task])
    ensures forall id :: id in start.pending ==> WentTo(after, start.pending[id].item, tasks[start.pending[id].task])
  {
    forall id | id in start.pending ensures WentTo(after, start.pending[id].item, tasks[start.pending[id].task]) {
      assert WentTo(collected, start.pending[id].item, tasks[start.pending[id].task]);
    }
  }

  /** Where an item in flight goes once its task is done. */
  ghost predicate WentTo(l: Ledger, x: Item, outcome: Outcome) {
    match outcome
    case Unfinished => x.id in l.pending && l.pending[x.id].item == x
    case Succeeded => x.id in l.sent && Delivered(x.id) in l.events
    case PermanentFailure(reason) => x.id in l.failed && Failed(x.id, reason, true, x.attempts + 1) in l.events
    case TransientFailure(_) => Item(x.id, x.text, x.attempts + 1) in l.outbox
    case Cancelled => Item(x.id, x.text, x.attempts) in l.outbox
  }

  /** The collection so far: `todo` is still to be looked at. */
  ghost predicate SettledAll(before: Ledger, now: Ledger, tasks: seq<Outcome>, todo: set<string>) {
    && before.outbox <= now.outbox && before.sent <= now.sent && before.failed <= now.failed && before.events <= now.events
    && (forall id :: id in now.pending ==> id in before.pending && now.pending[id] == before.pending[id])
    && (forall id :: id in before.pending && before.pending[id].task < |tasks| ==>
          if id in todo then id in now.pending else WentTo(now, before.pending[id].item, tasks[before.pending[id].task]))
  }

  lemma SettleOne(
      start: Ledger, before: Ledger, tasks: seq<Outcome>, todo: set<string>, id: string,
      reported: map<string, (string, real)>, now: real)
    requires id !in todo && id in before.pending && before.pending[id].task < |tasks|
    requires forall k :: k in start.pending ==> start.pending[k].item.id == k
    requires SettledAll(start, before, tasks, todo + {id})
    ensures SettledAll(start, Collected(before, id, tasks[before.pending[id].task], reported, now), tasks, todo)
  {
    var after := Collected(before, id, tasks[before.pending[id].task], reported, now);
    assert before.outbox <= after.outbox && before.events <= after.events;
    forall k | k in start.pending && start.pending[k].task < |tasks|
      ensures if k in todo then k in after.pending else WentTo(after, start.pending[k].item, tasks[start.pending[k].task])
    {
      if k == id {
        var x := before.pending[id].item;
        match tasks[before.pending[id].task]
        case Succeeded => assert after.events[|before.events|] == Delivered(id);
        case PermanentFailure(reason) => assert after.events[|before.events|] == Failed(x.id, reason, true, x.attempts + 1);
        case TransientFailure(_) => assert after.outbox[|before.outbox|] == Retry(x);
        case Cancelled => assert after.outbox[|before.outbox|] == x;
        case _ =>
      } else if k !in todo {
        assert WentTo(before, start.pending[k].item, tasks[start.pending[k].task]);
      }
    }
  }
}
