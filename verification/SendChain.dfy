/** The ordered send chains of `_schedule_ordered_send` in providers/telegram/endpoint.py.

    Each scheduled send is a task that first awaits the task scheduled before it in the same conversation.  The labels
    are everything the event loop, the Bot API and a canceller may do; a label that is not enabled does nothing, so
    every sequence of labels is a run. */
module SendChain {
  import opened Wrappers

  datatype Status = Created | Waiting | Running | Succeeded | Failed | Cancelled

  /** `started` records that the send operation itself began. */
  datatype Task = Task(key: string, previous: Option<nat>, status: Status, started: bool)

  datatype State = State(tasks: seq<Task>, chains: map<string, nat>)

  datatype Label =
    | Schedule(key: string)          // a new send is queued behind the conversation's last one
    | CancelUnstarted(t: nat)        // cancelled before its first step: no code of the task ever runs
    | Enter(t: nat)                  // first step: start the operation, or await the previous task
    | Wake(t: nat)                   // the awaited task is done
    | Interrupt(t: nat)              // cancelled while awaiting a task that is done by now
    | Finish(t: nat, outcome: Status)

  const Start := State([], map[])

  predicate Done(s: Status) {
    s == Succeeded || s == Failed || s == Cancelled
  }

  predicate Enabled(st: State, l: Label) {
    match l
    case Schedule(_) => true
    case CancelUnstarted(t) => t < |st.tasks| && st.tasks[t].status == Created
    case Enter(t) => t < |st.tasks| && st.tasks[t].status == Created
    case Wake(t) => t < |st.tasks| && st.tasks[t].status == Waiting && PreviousDone(st, t)
    case Interrupt(t) => t < |st.tasks| && st.tasks[t].status == Waiting && PreviousDone(st, t)
    case Finish(t, outcome) => t < |st.tasks| && st.tasks[t].status == Running && Done(outcome)
  }

  predicate PreviousDone(st: State, t: nat)
    requires t < |st.tasks|
  {
    var p := st.tasks[t].previous;
    p.Some? && p.value < |st.tasks| && Done(st.tasks[p.value].status)
  }

  /** The `finally` clause: a task that is still the last of its conversation takes its entry out. */
  function Pop(chains: map<string, nat>, key: string, t: nat): map<string, nat> {
    if key in chains && chains[key] == t then chains - {key} else chains
  }

  function Settle(st: State, t: nat, status: Status, started: bool): State
    requires t < |st.tasks|
  {
    State(st.tasks[t := st.tasks[t].(status := status, started := started)], Pop(st.chains, st.tasks[t].key, t))
  }

  function Step(st: State, l: Label): State {
    if !Enabled(st, l) then st else
      match l
      case Schedule(key) =>
        var previous := if key in st.chains then Some(st.chains[key]) else None;
        State(st.tasks + [Task(key, previous, Created, false)], st.chains[key := |st.tasks|])
      case CancelUnstarted(t) => st.(tasks := st.tasks[t := st.tasks[t].(status := Cancelled)])
      case Enter(t) =>
        if st.tasks[t].previous.None?
        then st.(tasks := st.tasks[t := st.tasks[t].(status := Running, started := true)])
        else st.(tasks := st.tasks[t := st.tasks[t].(status := Waiting)])
      case Wake(t) =>
        (match st.tasks[st.tasks[t].previous.value].status
         case Succeeded => st.(tasks := st.tasks[t := st.tasks[t].(status := Running, started := true)])
         case Cancelled => Settle(st, t, Cancelled, false)
         case _ => Settle(st, t, Failed, false))
      case Interrupt(t) => Settle(st, t, Cancelled, false)
      case Finish(t, outcome) => Settle(st, t, outcome, true)
  }

  function Run(labels: seq<Label>): State {
    if labels == [] then Start else Step(Run(labels[..|labels|-1]), labels[|labels|-1])
  }

  // ----- what every run keeps -----

  predicate TaskInv(st: State, t: nat)
    requires t < |st.tasks|
  {
    var x := st.tasks[t];
    && (x.status == Running || x.status == Succeeded ==> x.started)
    && (x.status == Created || x.status == Waiting ==> !x.started)
    && (x.previous.Some? ==>
          && x.previous.value < t && st.tasks[x.previous.value].key == x.key
          && (x.started ==> st.tasks[x.previous.value].status == Succeeded))
  }

  // The task `x` awaits is the one scheduled just before it in its conversation.
  ghost predicate Adjacent(st: State, t: nat)
    requires t < |st.tasks|
  {
    var x := st.tasks[t];
    x.previous.Some? ==> forall u :: x.previous.value < u < t ==> st.tasks[u].key != x.key
  }

  // A conversation's entry is its last task.
  ghost predicate LastOf(st: State, k: string)
    requires k in st.chains
  {
    && st.chains[k] < |st.tasks| && st.tasks[st.chains[k]].key == k
    && forall u :: st.chains[k] < u < |st.tasks| ==> st.tasks[u].key != k
  }

  ghost predicate Inv(st: State) {
    && (forall t :: 0 <= t < |st.tasks| ==> TaskInv(st, t) && Adjacent(st, t))
    && (forall k :: k in st.chains ==> LastOf(st, k))
  }

  // An unfinished task moves on, and perhaps leaves the table.
  lemma MoveKeeps(st: State, t: nat, x: Task, chains: map<string, nat>)
    requires Inv(st) && t < |st.tasks| && !Done(st.tasks[t].status)
    requires x.key == st.tasks[t].key && x.previous == st.tasks[t].previous
    requires x.status == Running || x.status == Succeeded ==> x.started
    requires x.status == Created || x.status == Waiting ==> !x.started
    requires x.started && x.previous.Some? ==> x.previous.value < t && st.tasks[x.previous.value].status == Succeeded
    requires forall k :: k in chains ==> k in st.chains && chains[k] == st.chains[k]
    ensures Inv(State(st.tasks[t := x], chains))
  {
    var nst := State(st.tasks[t := x], chains);
    forall u | 0 <= u < |nst.tasks| ensures TaskInv(nst, u) && Adjacent(nst, u) {
      assert TaskInv(st, u) && Adjacent(st, u);
    }
    forall k | k in chains ensures LastOf(nst, k) {
      assert LastOf(st, k);
    }
  }

  lemma ScheduleKeeps(st: State, key: string)
    requires Inv(st)
    ensures Inv(Step(st, Schedule(key)))
  {
    var nst := Step(st, Schedule(key));
    forall u | 0 <= u < |nst.tasks| ensures TaskInv(nst, u) && Adjacent(nst, u) {
      if u < |st.tasks| {
        assert TaskInv(st, u) && Adjacent(st, u);
      } else if key in st.chains {
        assert LastOf(st, key);
      }
    }
    forall k | k in nst.chains ensures LastOf(nst, k) {
      assert k != key ==> LastOf(st, k);
    }
  }

  lemma StepKeeps(st: State, l: Label)
    requires Inv(st)
    ensures Inv(Step(st, l))
  {
    if Enabled(st, l) {
      if l.Schedule? {
        ScheduleKeeps(st, l.key);
      } else {
        assert TaskInv(st, l.t);
        MoveKeeps(st, l.t, Step(st, l).tasks[l.t], Step(st, l).chains);
      }
    }
  }

  lemma {:induction false} RunKeeps(labels: seq<Label>)
    ensures Inv(Run(labels))
  {
    if labels != [] {
      RunKeeps(labels[..|labels|-1]);
      StepKeeps(Run(labels[..|labels|-1]), labels[|labels|-1]);
    }
  }

  /** The tasks `t` waits for, directly or not, oldest first, and `t` itself. */
  function Chain(st: State, t: nat): seq<nat>
    requires Inv(st) && t < |st.tasks|
    decreases t
  {
    assert TaskInv(st, t);
    if st.tasks[t].previous.None? then [t] else Chain(st, st.tasks[t].previous.value) + [t]
  }

  /** Within one chain the operations that started form a prefix, in scheduling order: when an operation has started,
      everything before it in the chain has succeeded. */
  lemma {:induction false} StartedAfterSuccess(st: State, t: nat, i: nat)
    requires Inv(st) && t < |st.tasks| && st.tasks[t].started
    requires i < |Chain(st, t)| - 1
    ensures var c := Chain(st, t);
      c[i] < c[i + 1] < |st.tasks| && st.tasks[c[i]].status == Succeeded && st.tasks[c[i]].started
      && st.tasks[c[i]].key == st.tasks[t].key && st.tasks[c[i + 1]].previous == Some(c[i])
    decreases t
  {
    assert TaskInv(st, t);
    var p := st.tasks[t].previous.value;
    assert TaskInv(st, p);
    if i < |Chain(st, p)| - 1 {
      StartedAfterSuccess(st, p, i);
    }
  }

  // ----- one conversation at a time -----

  /** A send starts only after every send scheduled earlier in its conversation is over. */
  ghost predicate InTurn(st: State) {
    forall t, u :: 0 <= u < t < |st.tasks| && st.tasks[u].key == st.tasks[t].key && st.tasks[t].started ==> Done(st.tasks[u].status)
  }

  predicate EarlierDone(st: State, t: nat)
    requires t < |st.tasks|
  {
    forall u :: 0 <= u < t && st.tasks[u].key == st.tasks[t].key ==> Done(st.tasks[u].status)
  }

  /** A task may be cancelled before its first step when every send scheduled before it in its conversation is over. */
  predicate Harmless(st: State, l: Label) {
    l.CancelUnstarted? && Enabled(st, l) ==> EarlierDone(st, l.t)
  }

  predicate Careful(labels: seq<Label>) {
    labels == [] || (Careful(labels[..|labels|-1]) && Harmless(Run(labels[..|labels|-1]), labels[|labels|-1]))
  }

  /** No task is cancelled before its first step. */
  predicate Clean(labels: seq<Label>) {
    forall l :: l in labels ==> !l.CancelUnstarted?
  }

  // What `t` may rely on about the sends scheduled before it in its conversation.
  ghost predicate Ordered(st: State, t: nat)
    requires t < |st.tasks|
  {
    var x := st.tasks[t];
    x.started || Done(x.status) || x.previous.None? ==>
      forall u :: 0 <= u < t && st.tasks[u].key == x.key ==> Done(st.tasks[u].status)
  }

  ghost predicate Quiet(st: State, k: string) {
    forall u :: 0 <= u < |st.tasks| && st.tasks[u].key == k ==> Done(st.tasks[u].status)
  }

  ghost predicate OneAtATime(st: State) {
    && (forall t :: 0 <= t < |st.tasks| ==> Ordered(st, t))
    && (forall k :: k !in st.chains ==> Quiet(st, k))
  }

  lemma OrderedSchedule(st: State, key: string)
    requires Inv(st) && OneAtATime(st)
    ensures OneAtATime(Step(st, Schedule(key)))
  {
    var nst := Step(st, Schedule(key));
    forall t | 0 <= t < |nst.tasks| ensures Ordered(nst, t) {
      if t < |st.tasks| {
        assert Ordered(st, t);
      } else if key !in st.chains {
        assert Quiet(st, key);
      }
    }
    forall k | k !in nst.chains ensures Quiet(nst, k) {
      assert Quiet(st, k);
    }
  }

  // A task whose predecessor is done has only finished sends before it.
  lemma BeforeDone(st: State, t: nat)
    requires Inv(st) && OneAtATime(st) && t < |st.tasks|
    requires st.tasks[t].previous.None? || PreviousDone(st, t)
    ensures forall u :: 0 <= u < t && st.tasks[u].key == st.tasks[t].key ==> Done(st.tasks[u].status)
  {
    assert Ordered(st, t);
    if st.tasks[t].previous.Some? {
      var p := st.tasks[t].previous.value;
      assert TaskInv(st, t) && Adjacent(st, t) && Ordered(st, p);
      forall u | 0 <= u < t && st.tasks[u].key == st.tasks[t].key ensures Done(st.tasks[u].status) {
        assert !(p < u < t);
      }
    }
  }

  lemma OrderedMove(st: State, l: Label)
    requires Inv(st) && OneAtATime(st) && Enabled(st, l) && !l.Schedule? && Harmless(st, l)
    ensures OneAtATime(Step(st, l))
  {
    var nst, t := Step(st, l), l.t;
    assert TaskInv(st, t) && Ordered(st, t);
    if l.CancelUnstarted? {
      assert EarlierDone(st, t);
    } else if l.Wake? || l.Interrupt? || st.tasks[t].previous.None? {
      BeforeDone(st, t);
    }
    assert nst.tasks == st.tasks[t := nst.tasks[t]];
    forall u | 0 <= u < |nst.tasks| ensures Ordered(nst, u) {
      assert Ordered(st, u);
    }
    forall k | k !in nst.chains ensures Quiet(nst, k) {
      if k in st.chains {
        assert LastOf(st, k) && st.chains[k] == t && Done(nst.tasks[t].status);
        assert Ordered(nst, t);
      } else {
        assert Quiet(st, k);
      }
    }
  }

  lemma {:induction false} CarefulRun(labels: seq<Label>)
    requires Careful(labels)
    ensures OneAtATime(Run(labels))
  {
    if labels != [] {
      var front, l := labels[..|labels|-1], labels[|labels|-1];
      CarefulRun(front);
      RunKeeps(front);
      if Enabled(Run(front), l) {
        if l.Schedule? {
          OrderedSchedule(Run(front), l.key);
        } else {
          OrderedMove(Run(front), l);
        }
      }
    }
  }

  /** As long as a task is cancelled before its first step only when the sends before it are over, every send waits its
      turn, so no two sends of a conversation ever overlap. */
  lemma SendsInTurn(labels: seq<Label>)
    requires Careful(labels)
    ensures InTurn(Run(labels))
  {
    CarefulRun(labels);
    var st := Run(labels);
    forall t, u | 0 <= u < t < |st.tasks| && st.tasks[u].key == st.tasks[t].key && st.tasks[t].started ensures Done(st.tasks[u].status) {
      assert Ordered(st, t);
    }
  }

  // ----- every other cancellation can go wrong -----

  /** Where the labels lead from a state. */
  function After(st: State, labels: seq<Label>): State
    decreases |labels|
  {
    if labels == [] then st else After(Step(st, labels[0]), labels[1..])
  }

  lemma {:induction false} RunOn(front: seq<Label>, rest: seq<Label>)
    ensures Run(front + rest) == After(Run(front), rest)
    decreases |rest|
  {
    if rest == [] {
      assert front + rest == front;
    } else {
      assert front + rest == (front + [rest[0]]) + rest[1..];
      assert (front + [rest[0]])[..|front|] == front;
      RunOn(front + [rest[0]], rest[1..]);
    }
  }

  /** The send `d` of a conversation is cancelled while the earlier send `u` is not over, and everything behind `d` awaits
      it, directly or not. */
  ghost predicate Doomed(st: State, key: string, u: nat, d: nat) {
    && Unfinished(st, key, u) && u < d < |st.tasks| && st.tasks[d].key == key && st.tasks[d].status == Cancelled
    && key in st.chains && d < st.chains[key] < |st.tasks|
    && (forall v :: d < v < |st.tasks| && st.tasks[v].key == key ==> Behind(st, v))
  }

  predicate Unfinished(st: State, key: string, u: nat) {
    u < |st.tasks| && st.tasks[u].key == key && !Done(st.tasks[u].status)
  }

  predicate Behind(st: State, v: nat)
    requires v < |st.tasks|
  {
    (st.tasks[v].status == Created || st.tasks[v].status == Waiting) && st.tasks[v].previous.Some?
  }

  // The send right behind `d`, found by going back from a later one.
  lemma {:induction false} NextBehind(st: State, key: string, u: nat, d: nat, v: nat) returns (next: nat)
    requires Inv(st) && Doomed(st, key, u, d) && d < v < |st.tasks| && st.tasks[v].key == key
    ensures d < next <= v && st.tasks[next].key == key && st.tasks[next].previous == Some(d) && Behind(st, next)
    decreases v
  {
    assert Behind(st, v) && TaskInv(st, v) && Adjacent(st, v);
    var p := st.tasks[v].previous.value;
    assert !(p < d < v);
    if p == d {
      next := v;
    } else {
      next := NextBehind(st, key, u, d, p);
    }
  }

  // Entering and waking the next one cancels it along.
  function CancelAlong(st: State, v: nat): seq<Label>
    requires v < |st.tasks|
  {
    if st.tasks[v].status == Created then [Enter(v), Wake(v)] else [Wake(v)]
  }

  lemma CancelledAlong(st: State, key: string, u: nat, d: nat, v: nat)
    requires Inv(st) && Doomed(st, key, u, d) && d < v < |st.tasks| && st.tasks[v].key == key
    requires st.tasks[v].previous == Some(d) && Behind(st, v)
    ensures After(st, CancelAlong(st, v)) ==
      State(st.tasks[v := st.tasks[v].(status := Cancelled, started := false)], Pop(st.chains, key, v))
  {
    var labels := CancelAlong(st, v);
    if st.tasks[v].status == Created {
      var mid := Step(st, Enter(v));
      assert mid == st.(tasks := st.tasks[v := st.tasks[v].(status := Waiting)]);
      assert labels[1..] == [Wake(v)] && labels[1..][1..] == [];
      assert After(st, labels) == After(mid, [Wake(v)]) == After(Step(mid, Wake(v)), []);
      assert Step(mid, Wake(v)).tasks == st.tasks[v := st.tasks[v].(status := Cancelled, started := false)];
    } else {
      assert labels[1..] == [];
      assert After(st, labels) == After(Step(st, Wake(v)), []);
    }
  }

  lemma {:induction false} AfterJoined(st: State, first: seq<Label>, second: seq<Label>)
    ensures After(st, first + second) == After(After(st, first), second)
    decreases |first|
  {
    if first == [] {
      assert first + second == second;
    } else {
      assert (first + second)[1..] == first[1..] + second;
      AfterJoined(Step(st, first[0]), first[1..], second);
    }
  }

  lemma {:induction false} AfterKeeps(st: State, labels: seq<Label>)
    requires Inv(st)
    ensures Inv(After(st, labels))
    decreases |labels|
  {
    if labels != [] {
      StepKeeps(st, labels[0]);
      AfterKeeps(Step(st, labels[0]), labels[1..]);
    }
  }

  // Everything behind `d` is cancelled along, one by one, and the last one takes the entry out.
  lemma {:induction false} EntryGoes(st: State, key: string, u: nat, d: nat) returns (rest: seq<Label>)
    requires Inv(st) && Doomed(st, key, u, d)
    ensures Clean(rest) && key !in After(st, rest).chains && Unfinished(After(st, rest), key, u)
    decreases st.chains[key] - d
  {
    var last := st.chains[key];
    assert LastOf(st, key);
    var v := NextBehind(st, key, u, d, last);
    rest := CancelAlong(st, v);
    CancelledAlong(st, key, u, d, v);
    AfterKeeps(st, rest);
    var nst := After(st, rest);
    if v < last {
      forall w | v < w < |nst.tasks| && nst.tasks[w].key == key ensures Behind(nst, w) {
        assert Behind(st, w);
      }
      var more := EntryGoes(nst, key, u, v);
      AfterJoined(st, rest, more);
      rest := rest + more;
    }
  }

  // Without an entry the next send starts at once.
  lemma StartsAtOnce(st: State, key: string, u: nat)
    requires Unfinished(st, key, u) && key !in st.chains
    ensures !InTurn(After(st, [Schedule(key), Enter(|st.tasks|)]))
  {
    var n := |st.tasks|;
    var labels := [Schedule(key), Enter(n)];
    var mid := Step(st, labels[0]);
    assert mid.tasks == st.tasks + [Task(key, None, Created, false)];
    assert labels[1..] == [Enter(n)] && labels[1..][1..] == [];
    var end := Step(mid, Enter(n));
    assert After(st, labels) == After(mid, [Enter(n)]) == After(end, []);
    assert end.tasks[u] == st.tasks[u] && end.tasks[n].started && end.tasks[n].key == key;
  }

  // A send behind an unfinished one has not begun.
  lemma StillBehind(st: State, t: nat, u: nat, v: nat)
    requires Inv(st) && OneAtATime(st) && u < t <= v < |st.tasks|
    requires st.tasks[t].status == Created && Unfinished(st, st.tasks[t].key, u) && st.tasks[v].key == st.tasks[t].key
    ensures Behind(st, v)
  {
    assert Ordered(st, v) && TaskInv(st, v);
  }

  lemma HarmfulDooms(st: State, t: nat, u: nat)
    requires Inv(st) && OneAtATime(st) && Enabled(st, CancelUnstarted(t)) && u < t && Unfinished(st, st.tasks[t].key, u)
    ensures var key := st.tasks[t].key;
      Doomed(Step(Step(st, CancelUnstarted(t)), Schedule(key)), key, u, t)
  {
    var key := st.tasks[t].key;
    assert key !in st.chains ==> Quiet(st, key);
    assert LastOf(st, key);
    var s1 := Step(st, CancelUnstarted(t));
    var s2 := Step(s1, Schedule(key));
    assert s2.tasks == st.tasks[t := st.tasks[t].(status := Cancelled)] + [Task(key, Some(st.chains[key]), Created, false)];
    forall v | t < v < |s2.tasks| && s2.tasks[v].key == key ensures Behind(s2, v) {
      if v < |st.tasks| {
        StillBehind(st, t, u, v);
        assert s2.tasks[v] == st.tasks[v];
      }
    }
  }

  /** A task cancelled before its first step while an earlier send of its conversation is not over: some continuation,
      without another such cancellation, lets a later send start out of turn. */
  lemma HarmfulOvertakes(st: State, t: nat) returns (rest: seq<Label>)
    requires Inv(st) && OneAtATime(st) && !Harmless(st, CancelUnstarted(t))
    ensures Clean(rest) && !InTurn(After(Step(st, CancelUnstarted(t)), rest))
  {
    var key := st.tasks[t].key;
    var u :| 0 <= u < t && st.tasks[u].key == key && !Done(st.tasks[u].status);
    HarmfulDooms(st, t, u);
    var s1 := Step(st, CancelUnstarted(t));
    StepKeeps(st, CancelUnstarted(t));
    StepKeeps(s1, Schedule(key));
    var more := DoomedOvertakes(Step(s1, Schedule(key)), key, u, t);
    rest := [Schedule(key)] + more;
    assert rest[1..] == more;
  }

  lemma DoomedOvertakes(st: State, key: string, u: nat, d: nat) returns (rest: seq<Label>)
    requires Inv(st) && Doomed(st, key, u, d)
    ensures Clean(rest) && !InTurn(After(st, rest))
  {
    var more := EntryGoes(st, key, u, d);
    var gone := After(st, more);
    StartsAtOnce(gone, key, u);
    var last := [Schedule(key), Enter(|gone.tasks|)];
    AfterJoined(st, more, last);
    rest := more + last;
  }

  lemma {:induction false} CarefulAppend(front: seq<Label>, rest: seq<Label>)
    requires Careful(front) && Clean(rest)
    ensures Careful(front + rest)
    decreases |rest|
  {
    if rest == [] {
      assert front + rest == front;
    } else {
      var shorter := rest[..|rest|-1];
      assert rest[|rest|-1] in rest && forall l :: l in shorter ==> l in rest;
      CarefulAppend(front, shorter);
      assert (front + rest)[..|front + rest|-1] == front + shorter;
    }
  }

  lemma {:induction false} CarefulPrefix(labels: seq<Label>, n: nat)
    requires Careful(labels) && n <= |labels|
    ensures Careful(labels[..n])
    decreases |labels|
  {
    if n < |labels| {
      CarefulPrefix(labels[..|labels|-1], n);
      assert labels[..|labels|-1][..n] == labels[..n];
    } else {
      assert labels[..n] == labels;
    }
  }

  /** At every moment of the run, and however it might have gone on from there without another task cancelled before its
      first step, sends are in turn. */
  ghost predicate KeepsTurns(labels: seq<Label>) {
    forall n, rest :: 0 <= n <= |labels| && Clean(rest) ==> InTurn(Run(labels[..n] + rest))
  }

  // The first cancellation that is not harmless.
  lemma {:induction false} FirstHarmful(labels: seq<Label>) returns (n: nat)
    requires !Careful(labels)
    ensures n < |labels| && Careful(labels[..n]) && !Harmless(Run(labels[..n]), labels[n])
    decreases |labels|
  {
    var front := labels[..|labels|-1];
    if Careful(front) {
      n := |labels| - 1;
    } else {
      n := FirstHarmful(front);
      assert front[..n] == labels[..n];
    }
  }

  /** The sends of a conversation keep their turns if and only if no task is cancelled before its first step while an
      earlier send of its conversation is not over. */
  lemma TurnsKeptIff(labels: seq<Label>)
    ensures KeepsTurns(labels) <==> Careful(labels)
  {
    if Careful(labels) {
      forall n, rest | 0 <= n <= |labels| && Clean(rest) ensures InTurn(Run(labels[..n] + rest)) {
        CarefulPrefix(labels, n);
        CarefulAppend(labels[..n], rest);
        SendsInTurn(labels[..n] + rest);
      }
    } else {
      var n := FirstHarmful(labels);
      var front := labels[..n];
      RunKeeps(front);
      CarefulRun(front);
      var rest := HarmfulOvertakes(Run(front), labels[n].t);
      assert labels[..n + 1] == front + [labels[n]];
      assert labels[..n + 1][..n] == front;
      RunOn(labels[..n + 1], rest);
      assert !InTurn(Run(labels[..n + 1] + rest));
    }
  }

  // ----- what leaves the table -----

  /** The tasks of a run that were cancelled before their first step. */
  function NeverEntered(labels: seq<Label>): set<nat> {
    if labels == [] then {} else
      var front, l := labels[..|labels|-1], labels[|labels|-1];
      NeverEntered(front) + if l.CancelUnstarted? && Enabled(Run(front), l) then {l.t} else {}
  }

  /** No later send of its conversation was scheduled. */
  ghost predicate Latest(st: State, t: nat)
    requires t < |st.tasks|
  {
    forall u :: t < u < |st.tasks| ==> st.tasks[u].key != st.tasks[t].key
  }

  ghost predicate Stands(st: State, t: nat)
    requires t < |st.tasks|
  {
    st.tasks[t].key in st.chains && st.chains[st.tasks[t].key] == t
  }

  // The entry of a latest task, exactly as long as it should stand.
  ghost predicate EntryRight(st: State, stuck: set<nat>, t: nat)
    requires t < |st.tasks|
  {
    Latest(st, t) ==> (Stands(st, t) <==> !Done(st.tasks[t].status) || t in stuck)
  }

  ghost predicate TableRight(st: State, stuck: set<nat>) {
    && (forall t :: t in stuck ==> t < |st.tasks| && st.tasks[t].status == Cancelled)
    && (forall t :: 0 <= t < |st.tasks| ==> EntryRight(st, stuck, t))
  }

  lemma TableStep(st: State, stuck: set<nat>, l: Label)
    requires Inv(st) && TableRight(st, stuck) && Enabled(st, l)
    ensures TableRight(Step(st, l), stuck + if l.CancelUnstarted? then {l.t} else {})
  {
    if l.Schedule? {
      assert stuck + {} == stuck;
      TableSchedules(st, stuck, l.key);
    } else {
      TableMoves(st, stuck, l);
    }
  }

  lemma TableSchedules(st: State, stuck: set<nat>, key: string)
    requires Inv(st) && TableRight(st, stuck)
    ensures TableRight(Step(st, Schedule(key)), stuck)
  {
    var nst := Step(st, Schedule(key));
    forall t | 0 <= t < |nst.tasks| ensures EntryRight(nst, stuck, t) {
      if t < |st.tasks| {
        assert EntryRight(st, stuck, t);
        assert nst.tasks[t] == st.tasks[t];
        if Latest(nst, t) {
          assert nst.tasks[|st.tasks|].key == key;
          assert forall u :: t < u < |st.tasks| ==> nst.tasks[u].key == st.tasks[u].key;
        }
      }
    }
  }

  lemma TableMoves(st: State, stuck: set<nat>, l: Label)
    requires Inv(st) && TableRight(st, stuck) && Enabled(st, l) && !l.Schedule?
    ensures TableRight(Step(st, l), stuck + if l.CancelUnstarted? then {l.t} else {})
  {
    var nst := Step(st, l);
    var more := stuck + if l.CancelUnstarted? then {l.t} else {};
    assert nst.tasks == st.tasks[l.t := nst.tasks[l.t]] && nst.tasks[l.t].key == st.tasks[l.t].key;
    forall t | 0 <= t < |nst.tasks| ensures EntryRight(nst, more, t) {
      assert EntryRight(st, stuck, t);
      assert Latest(nst, t) ==> Latest(st, t) by {
        assert forall u :: 0 <= u < |st.tasks| ==> nst.tasks[u].key == st.tasks[u].key;
      }
    }
  }

  lemma {:induction false} TableRuns(labels: seq<Label>)
    ensures TableRight(Run(labels), NeverEntered(labels))
  {
    if labels != [] {
      var front, l := labels[..|labels|-1], labels[|labels|-1];
      TableRuns(front);
      RunKeeps(front);
      if Enabled(Run(front), l) {
        TableStep(Run(front), NeverEntered(front), l);
      } else {
        assert NeverEntered(labels) == NeverEntered(front);
      }
    }
  }

  /** What the table holds after a run: the latest send of a conversation, exactly as long as it has not ended, in success,
      failure or cancellation alike.  Only a task cancelled before its first step stays although it is over. */
  lemma TableHolds(labels: seq<Label>, key: string)
    ensures var st := Run(labels);
      && (key in st.chains ==>
            var t := st.chains[key];
            t < |st.tasks| && st.tasks[t].key == key && Latest(st, t) && (!Done(st.tasks[t].status) || t in NeverEntered(labels)))
      && (forall t :: 0 <= t < |st.tasks| && st.tasks[t].key == key && Latest(st, t) && (!Done(st.tasks[t].status) || t in NeverEntered(labels)) ==>
            key in st.chains && st.chains[key] == t)
  {
    var st := Run(labels);
    TableRuns(labels);
    RunKeeps(labels);
    if key in st.chains {
      assert LastOf(st, key);
      assert EntryRight(st, NeverEntered(labels), st.chains[key]);
    }
    forall t | 0 <= t < |st.tasks| && st.tasks[t].key == key && Latest(st, t) && (!Done(st.tasks[t].status) || t in NeverEntered(labels))
      ensures key in st.chains && st.chains[key] == t
    {
      assert EntryRight(st, NeverEntered(labels), t);
    }
  }

  /** The next send of a conversation starts at its first step, if and only if the send before it has ended and was not
      cancelled before its first step: no failure wedges a conversation. */
  lemma NextStartsIff(labels: seq<Label>, key: string)
    ensures var st := Run(labels);
      var n := |st.tasks|;
      var next := Run(labels + [Schedule(key), Enter(n)]);
      && n < |next.tasks| && next.tasks[n].key == key
      && (next.tasks[n].started && next.tasks[n].status == Running <==>
          forall t :: 0 <= t < n && st.tasks[t].key == key && Latest(st, t) ==> Done(st.tasks[t].status) && t !in NeverEntered(labels))
  {
    var st := Run(labels);
    var n := |st.tasks|;
    var mid := Step(st, Schedule(key));
    assert labels + [Schedule(key), Enter(n)] == (labels + [Schedule(key)]) + [Enter(n)];
    assert (labels + [Schedule(key)])[..|labels|] == labels;
    assert ((labels + [Schedule(key)]) + [Enter(n)])[..|labels| + 1] == labels + [Schedule(key)];
    assert Run(labels + [Schedule(key)]) == mid;
    assert Run(labels + [Schedule(key), Enter(n)]) == Step(mid, Enter(n));
    TableHolds(labels, key);
  }

  // ----- what becomes of a send that never starts -----

  /** The tasks of a run that somebody cancelled before their operation began. */
  function CancelledWaiting(labels: seq<Label>): set<nat> {
    if labels == [] then {} else
      var front, l := labels[..|labels|-1], labels[|labels|-1];
      CancelledWaiting(front) + if (l.CancelUnstarted? || l.Interrupt?) && Enabled(Run(front), l) then {l.t} else {}
  }

  // A send that ended without starting ended as the one it awaited, unless it was cancelled itself.
  ghost predicate FateShared(st: State, hit: set<nat>, t: nat)
    requires t < |st.tasks|
  {
    var x := st.tasks[t];
    && (t in hit ==> x.status == Cancelled)
    && (Done(x.status) && !x.started && t !in hit ==>
          x.previous.Some? && x.previous.value < t && st.tasks[x.previous.value].status == x.status && x.status != Succeeded)
  }

  lemma FateStep(st: State, hit: set<nat>, l: Label)
    requires Inv(st) && Enabled(st, l) && (forall t :: t in hit ==> t < |st.tasks|)
    requires forall t :: 0 <= t < |st.tasks| ==> FateShared(st, hit, t)
    ensures var more := hit + if l.CancelUnstarted? || l.Interrupt? then {l.t} else {};
      forall t :: 0 <= t < |Step(st, l).tasks| ==> FateShared(Step(st, l), more, t)
  {
    var nst := Step(st, l);
    var more := hit + if l.CancelUnstarted? || l.Interrupt? then {l.t} else {};
    forall t | 0 <= t < |nst.tasks| ensures FateShared(nst, more, t) {
      if t < |st.tasks| {
        assert FateShared(st, hit, t) && TaskInv(st, t);
      }
    }
  }

  lemma {:induction false} FateRuns(labels: seq<Label>)
    ensures forall t :: t in CancelledWaiting(labels) ==> t < |Run(labels).tasks|
    ensures forall t :: 0 <= t < |Run(labels).tasks| ==> FateShared(Run(labels), CancelledWaiting(labels), t)
  {
    if labels != [] {
      var front, l := labels[..|labels|-1], labels[|labels|-1];
      FateRuns(front);
      RunKeeps(front);
      if Enabled(Run(front), l) {
        FateStep(Run(front), CancelledWaiting(front), l);
        assert CancelledWaiting(labels) == CancelledWaiting(front) + if l.CancelUnstarted? || l.Interrupt? then {l.t} else {};
      } else {
        assert CancelledWaiting(labels) == CancelledWaiting(front);
      }
    }
  }

  /** A send that ended without ever starting failed because the send before it failed, or was cancelled along with it,
      unless it was cancelled itself. */
  lemma UnstartedShareFate(labels: seq<Label>, t: nat)
    requires t < |Run(labels).tasks| && t !in CancelledWaiting(labels)
    requires Done(Run(labels).tasks[t].status) && !Run(labels).tasks[t].started
    ensures var st := Run(labels);
      && st.tasks[t].previous.Some? && st.tasks[t].previous.value < t
      && st.tasks[st.tasks[t].previous.value].key == st.tasks[t].key
      && st.tasks[t].status == st.tasks[st.tasks[t].previous.value].status && st.tasks[t].status != Succeeded
  {
    FateRuns(labels);
    RunKeeps(labels);
    assert FateShared(Run(labels), CancelledWaiting(labels), t) && TaskInv(Run(labels), t);
  }

  function Overlap(key: string): seq<Label> {
    [Schedule(key), Enter(0), Schedule(key), CancelUnstarted(1), Schedule(key), Enter(2), Wake(2), Schedule(key), Enter(3)]
  }

  /** The smallest such run.  A task cancelled before its first step stays in the table although it is done; the next
      send is cancelled along with it and takes the entry out; the one after that starts while the first still runs. */
  lemma CancelledUnstartedOverlaps(key: string)
    ensures var st := Run(Overlap(key));
      |st.tasks| == 4 && st.tasks[0].status == Running && st.tasks[3].status == Running
      && st.tasks[0].key == st.tasks[3].key && st.tasks[2].status == Cancelled && !InTurn(st)
  {
    SecondHalf(key);
    LastTwo(key);
    assert Overlap(key)[..9] == Overlap(key);
  }

  function Stuck(key: string): seq<Task> {
    [Task(key, None, Running, true), Task(key, Some(0), Cancelled, false), Task(key, Some(1), Cancelled, false)]
  }

  lemma LastTwo(key: string)
    requires Run(Overlap(key)[..7]) == State(Stuck(key), map[])
    ensures Run(Overlap(key)[..9]) == State(Stuck(key) + [Task(key, None, Running, true)], map[key := 3])
  {
    RunSnoc(Overlap(key), 7);
    RunSnoc(Overlap(key), 8);
    var s8 := Step(State(Stuck(key), map[]), Schedule(key));
    assert s8 == State(Stuck(key) + [Task(key, None, Created, false)], map[key := 3]);
    assert Step(s8, Enter(3)).tasks == Stuck(key) + [Task(key, None, Running, true)];
  }

  lemma ThirdTask(key: string)
    ensures var s4 := State(Stuck(key)[..2], map[key := 1]);
      Step(Step(Step(s4, Schedule(key)), Enter(2)), Wake(2)) == State(Stuck(key), map[])
  {
    var two := Stuck(key)[..2];
    var s5 := Step(State(two, map[key := 1]), Schedule(key));
    assert s5 == State(two + [Task(key, Some(1), Created, false)], map[key := 2]);
    var s6 := Step(s5, Enter(2));
    assert s6 == State(two + [Task(key, Some(1), Waiting, false)], map[key := 2]);
    assert Step(s6, Wake(2)) == State(two + [Task(key, Some(1), Cancelled, false)], map[]);
    assert two + [Task(key, Some(1), Cancelled, false)] == Stuck(key);
  }

  lemma SecondHalf(key: string)
    ensures Run(Overlap(key)[..7]) == State(Stuck(key), map[])
  {
    FirstHalf(key);
    assert Run(Overlap(key)[..4]) == State(Stuck(key)[..2], map[key := 1]);
    RunSnoc(Overlap(key), 4);
    RunSnoc(Overlap(key), 5);
    RunSnoc(Overlap(key), 6);
    ThirdTask(key);
  }

  lemma RunSnoc(labels: seq<Label>, n: nat)
    requires n < |labels|
    ensures Run(labels[..n + 1]) == Step(Run(labels[..n]), labels[n])
  {
    assert labels[..n + 1][..n] == labels[..n];
  }

  lemma FirstTask(key: string)
    ensures Run(Overlap(key)[..2]) == State([Task(key, None, Running, true)], map[key := 0])
  {
    RunSnoc(Overlap(key), 0);
    RunSnoc(Overlap(key), 1);
    var s1 := Step(Start, Schedule(key));
    assert s1 == State([Task(key, None, Created, false)], map[key := 0]);
    assert Step(s1, Enter(0)).tasks == [Task(key, None, Running, true)];
  }

  lemma SecondTask(key: string)
    ensures var s2 := State([Task(key, None, Running, true)], map[key := 0]);
      Step(Step(s2, Schedule(key)), CancelUnstarted(1))
      == State([Task(key, None, Running, true), Task(key, Some(0), Cancelled, false)], map[key := 1])
  {
    var s3 := Step(State([Task(key, None, Running, true)], map[key := 0]), Schedule(key));
    assert s3 == State([Task(key, None, Running, true), Task(key, Some(0), Created, false)], map[key := 1]);
  }

  lemma FirstHalf(key: string)
    ensures Run(Overlap(key)[..4]) == State([Task(key, None, Running, true), Task(key, Some(0), Cancelled, false)], map[key := 1])
  {
    FirstTask(key);
    RunSnoc(Overlap(key), 2);
    RunSnoc(Overlap(key), 3);
    SecondTask(key);
  }
}
