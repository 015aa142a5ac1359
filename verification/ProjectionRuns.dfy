/** Late callbacks, spent tokens and progress in the projection protocol. */
module ProjectionRuns {
  import opened Wrappers
  import opened Explorer
  import opened Projection
  import opened ProjectionSafety

  // The last transition of a non-empty run.
  lemma LastStep(b: Bounds, st: State, path: seq<Action>) returns (front: seq<Action>, mid: State, a: Action)
    requires path != [] && Run(Model(b), st, path)
    ensures front == path[..|path|-1] && a == path[|path|-1] && Run(Model(b), st, front)
    ensures mid == Exec(Model(b), st, front) && a in Actions(mid, b)
    ensures Exec(Model(b), st, path) == Apply(mid, a, b)
  {
    front, a := path[..|path|-1], path[|path|-1];
    mid := Exec(Model(b), st, front);
  }

  lemma {:induction false} RunKeepsFrom(b: Bounds, st: State, path: seq<Action>)
    requires Inv(b, st) && Run(Model(b), st, path)
    ensures Inv(b, Exec(Model(b), st, path))
  {
    if path != [] {
      RunKeepsFrom(b, st, path[..|path|-1]);
      StepKeeps(b, Exec(Model(b), st, path[..|path|-1]), path[|path|-1]);
    }
  }

  // ----- late callbacks -----

  /** The token `k` is not the one its slot streams under, and never can be again. */
  ghost predicate Stale(st: State, k: Key) {
    && k.scope < |st.slots|
    && k.attempt <= st.slots[k.scope].attempt
    && !(st.slots[k.scope].phase == Streaming && KeyOf(k.scope, st.slots[k.scope]) == k)
  }

  lemma LocalStale(b: Bounds, s: nat, x: Slot, a: Action, k: Key)
    requires s < b.scopes && SlotInv(b, s, x) && a in SlotActions(s, x, b)
    requires k.attempt <= x.attempt && !(x.phase == Streaming && KeyOf(s, x) == k)
    ensures !a.Deliver? && k.attempt <= Local(x, a, b).attempt
    ensures !(Local(x, a, b).phase == Streaming && KeyOf(s, Local(x, a, b)) == k)
  {
    LocalKeeps(s, x, a, b);
  }

  lemma StaleStep(b: Bounds, st: State, a: Action, k: Key)
    requires Inv(b, st) && a in Actions(st, b) && Stale(st, k)
    ensures Stale(Apply(st, a, b), k)
  {
    var s, x := OwnerActs(b, st, a);
    if a.Deliver? {
      assert Apply(st, a, b).slots == st.slots[s := Delivered(x, a.k)];
    } else {
      assert Apply(st, a, b).slots == st.slots[s := Local(x, a, b)];
      if s == k.scope {
        LocalStale(b, s, x, a, k);
      }
    }
  }

  lemma StaleInert(b: Bounds, st: State, k: Key)
    requires Stale(st, k)
    ensures Apply(st, Deliver(k), b).slots == st.slots
  {}

  lemma {:induction false} StaleForever(b: Bounds, st: State, path: seq<Action>, k: Key)
    requires Inv(b, st) && Run(Model(b), st, path) && Stale(st, k)
    ensures Stale(Exec(Model(b), st, path), k)
  {
    if path != [] {
      var front, mid, a := LastStep(b, st, path);
      StaleForever(b, st, front, k);
      RunKeepsFrom(b, st, front);
      StaleStep(b, mid, a, k);
    }
  }

  /** A callback that is late once is inert for ever: whatever happens next, delivering it changes no slot. */
  lemma LateCallbackInert(b: Bounds, st: State, path: seq<Action>, k: Key)
    requires Inv(b, st) && Run(Model(b), st, path) && Stale(st, k)
    ensures Apply(Exec(Model(b), st, path), Deliver(k), b).slots == Exec(Model(b), st, path).slots
  {
    StaleForever(b, st, path, k);
    StaleInert(b, Exec(Model(b), st, path), k);
  }

  /** Cancelling the stream, restarting the worker or delivering the token itself makes a token stale. */
  lemma BecomesStale(b: Bounds, st: State, a: Action, k: Key)
    requires Inv(b, st) && a in Actions(st, b) && k in st.mail
    requires a == CancelStream(k.scope) || a == Restart(k.scope) || a == Close(k.scope) || a == Deliver(k)
    ensures Stale(Apply(st, a, b), k)
  {
    var s, x := OwnerActs(b, st, a);
    assert KeyIn(b, k) && k.attempt <= x.attempt;
    if a.Deliver? {
      assert Apply(st, a, b).slots == st.slots[s := Delivered(x, k)];
    } else {
      LocalKeeps(s, x, a, b);
      assert Apply(st, a, b).slots == st.slots[s := Local(x, a, b)];
      assert Local(x, a, b).phase != Streaming by { NotStreaming(b, s, x, a); }
    }
  }

  lemma NotStreaming(b: Bounds, s: nat, x: Slot, a: Action)
    requires a in SlotActions(s, x, b) && (a.CancelStream? || a.Restart? || a.Close?)
    ensures Local(x, a, b).phase != Streaming
  {}

  /** Delivering a token touches at most the phase of the slot it belongs to, and only while that slot streams under
      exactly this token. */
  lemma DeliverTouches(b: Bounds, st: State, k: Key)
    requires Inv(b, st) && k in st.mail
    ensures var nst := Apply(st, Deliver(k), b);
      && nst.mail == st.mail - {k} && |nst.slots| == |st.slots|
      && (forall s :: 0 <= s < |st.slots| && s != k.scope ==> nst.slots[s] == st.slots[s])
      && (nst.slots != st.slots <==> st.slots[k.scope].phase == Streaming && KeyOf(k.scope, st.slots[k.scope]) == k)
      && (nst.slots != st.slots ==> exists p :: nst.slots[k.scope] == st.slots[k.scope].(phase := p))
  {
    var x, nst := st.slots[k.scope], Apply(st, Deliver(k), b);
    assert nst.slots[k.scope] == Delivered(x, k);
    assert Delivered(x, k) == x.(phase := Delivered(x, k).phase);
    if nst.slots == st.slots {
      assert nst.slots[k.scope] == x;
    }
    if x.phase != Streaming || KeyOf(k.scope, x) != k {
      assert nst.slots == st.slots;
    }
  }

  // ----- every token is delivered at most once -----

  ghost predicate Spent(st: State, k: Key) {
    k.scope < |st.slots| && k !in st.mail && k.attempt <= st.slots[k.scope].attempt
  }

  lemma SpentByDelivery(b: Bounds, st: State, k: Key, other: Key)
    requires Inv(b, st) && other in st.mail && other.scope < |st.slots|
    requires Spent(st, k) || (k == other && k.attempt <= st.slots[k.scope].attempt)
    ensures Spent(Apply(st, Deliver(other), b), k)
  {
    assert Delivered(st.slots[other.scope], other).attempt == st.slots[other.scope].attempt;
  }

  lemma SpentByLocal(b: Bounds, st: State, s: nat, x: Slot, a: Action, k: Key)
    requires s < |st.slots| && x == st.slots[s] && s < b.scopes && SlotInv(b, s, x) && a in SlotActions(s, x, b)
    requires Spent(st, k)
    ensures Spent(Apply(st, a, b), k)
  {
    LocalKeeps(s, x, a, b);
    assert a.Begin? ==> k.scope != s || KeyOf(s, Local(x, a, b)).attempt > k.attempt;
  }

  lemma SpentNow(b: Bounds, st: State, a: Action)
    requires Inv(b, st) && a in Actions(st, b) && a.Deliver?
    ensures Spent(Apply(st, a, b), a.k)
  {
    var s, x := OwnerActs(b, st, a);
    SpentByDelivery(b, st, a.k, a.k);
  }

  lemma SpentStep(b: Bounds, st: State, a: Action, k: Key)
    requires Inv(b, st) && a in Actions(st, b) && Spent(st, k)
    ensures Spent(Apply(st, a, b), k)
  {
    var s, x := OwnerActs(b, st, a);
    if a.Deliver? {
      SpentByDelivery(b, st, k, a.k);
    } else {
      SpentByLocal(b, st, s, x, a, k);
    }
  }

  lemma {:induction false} SpentAfter(b: Bounds, st: State, path: seq<Action>, i: nat, k: Key)
    requires Inv(b, st) && Run(Model(b), st, path)
    requires i < |path| && path[i] == Deliver(k)
    ensures Spent(Exec(Model(b), st, path), k)
  {
    var front, mid, a := LastStep(b, st, path);
    RunKeepsFrom(b, st, front);
    if i == |path| - 1 {
      SpentNow(b, mid, a);
    } else {
      SpentAfter(b, st, front, i, k);
      SpentStep(b, mid, a, k);
    }
  }

  lemma {:induction false} RunPrefix(b: Bounds, path: seq<Action>, n: nat)
    requires Run(Model(b), Initial(b), path) && n <= |path|
    ensures Run(Model(b), Initial(b), path[..n])
    decreases |path|
  {
    if n < |path| {
      RunPrefix(b, path[..|path|-1], n);
      assert path[..|path|-1][..n] == path[..n];
    } else {
      assert path[..n] == path;
    }
  }

  /** In a run from the initial state no token is delivered twice, so none takes effect twice. */
  lemma DeliveredOnce(b: Bounds, path: seq<Action>, i: nat, j: nat, k: Key)
    requires WellBounded(b) && Run(Model(b), Initial(b), path)
    requires i < j < |path| && path[i] == Deliver(k)
    ensures path[j] != Deliver(k)
  {
    var front, mid := StepAt(b, path, j);
    RunKeeps(b, []);
    SpentAfter(b, Initial(b), front, i, k);
    RunKeeps(b, front);
    NotAgain(b, mid, path[j], k);
  }

  lemma StepAt(b: Bounds, path: seq<Action>, j: nat) returns (front: seq<Action>, mid: State)
    requires Run(Model(b), Initial(b), path) && j < |path|
    ensures front == path[..j] && Run(Model(b), Initial(b), front)
    ensures mid == Exec(Model(b), Initial(b), front) && path[j] in Actions(mid, b)
  {
    front := path[..j];
    mid := Exec(Model(b), Initial(b), front);
    RunPrefix(b, path, j);
    RunPrefix(b, path, j + 1);
    assert path[..j + 1][..j] == front;
  }

  lemma NotAgain(b: Bounds, st: State, a: Action, k: Key)
    requires Inv(b, st) && a in Actions(st, b) && Spent(st, k)
    ensures a != Deliver(k)
  {
    var s, x := OwnerActs(b, st, a);
  }

  // ----- progress -----

  /** `path` brings slot `s` back to `Idle` and leaves every other slot and the mail alone. */
  ghost predicate BringsBack(b: Bounds, st: State, s: nat, path: seq<Action>) {
    && s < |st.slots| && Run(Model(b), st, path)
    && var end := Exec(Model(b), st, path);
       && |end.slots| == |st.slots| && end.slots[s].phase == Idle && end.mail == st.mail
       && forall t :: 0 <= t < |st.slots| && t != s ==> end.slots[t] == st.slots[t]
  }

  lemma OneStep(b: Bounds, st: State, a: Action)
    requires a in Actions(st, b)
    ensures Run(Model(b), st, [a]) && Exec(Model(b), st, [a]) == Apply(st, a, b)
  {
    ExtendRun(Model(b), st, [], a);
    assert [] + [a] == [a];
  }

  lemma OthersAlone(b: Bounds, st: State, a: Action, t: nat)
    requires !a.Deliver? && !a.Begin? && t < |st.slots| && t != a.s
    ensures var nst := Apply(st, a, b);
      |nst.slots| == |st.slots| && nst.slots[t] == st.slots[t] && nst.mail == st.mail
  {}

  lemma Prepend(b: Bounds, st: State, s: nat, a: Action, path: seq<Action>)
    requires s < |st.slots| && a in Actions(st, b) && !a.Deliver? && !a.Begin? && a.s == s
    requires BringsBack(b, Apply(st, a, b), s, path)
    ensures BringsBack(b, st, s, [a] + path)
  {
    var mid := Apply(st, a, b);
    OneStep(b, st, a);
    JoinRuns(Model(b), st, [a], path);
    var end := Exec(Model(b), mid, path);
    assert |mid.slots| == |st.slots| && mid.mail == st.mail;
    forall t | 0 <= t < |st.slots| && t != s ensures end.slots[t] == st.slots[t] {
      OthersAlone(b, st, a, t);
    }
  }

  // The tool transitions still to be taken before every call has its result.
  function ToolWork(x: Slot): nat {
    |x.work.calls - x.work.started| + |x.work.calls - x.work.results|
  }

  // A transition of a slot towards its commit: finish a started call, or start one.
  lemma ToolStep(b: Bounds, s: nat, x: Slot) returns (a: Action)
    requires s < b.scopes && SlotInv(b, s, x) && x.phase == Tools && Aligned(x)
    ensures a in SlotActions(s, x, b) && !a.Deliver? && !a.Begin? && a.s == s
    ensures SlotInv(b, s, Local(x, a, b)) && Aligned(Local(x, a, b)) && Local(x, a, b).attempt == x.attempt
    ensures Local(x, a, b).phase == Tools || Local(x, a, b).phase == Committable
    ensures Local(x, a, b).work.calls == x.work.calls
    ensures ToolWork(Local(x, a, b)) < ToolWork(x)
  {
    var w := x.work;
    if w.started != w.results {
      var c :| c in w.started && c !in w.results;
      a := FinishTool(s, c);
    } else {
      var c :| c in w.calls && c !in w.started;
      a := StartTool(s, c);
    }
    LessWork(s, x, a, b);
    ToolsKeep(s, x, a, b);
  }

  lemma LessWork(s: nat, x: Slot, a: Action, b: Bounds)
    requires x.phase == Tools && x.work.results <= x.work.started <= x.work.calls
    requires (a.FinishTool? && a.c in x.work.started && a.c !in x.work.results)
      || (a.StartTool? && a.c in x.work.calls && a.c !in x.work.started)
    requires a.s == s
    ensures a in ToolActions(s, x) && Local(x, a, b).work.calls == x.work.calls
    ensures ToolWork(Local(x, a, b)) < ToolWork(x)
  {
    if a.FinishTool? {
      OneFewer(x.work.calls, x.work.results, a.c);
    } else {
      OneFewer(x.work.calls, x.work.started, a.c);
    }
  }

  lemma OneFewer(all: set<string>, some: set<string>, c: string)
    requires c in all && c !in some
    ensures |all - (some + {c})| == |all - some| - 1
  {
    assert all - (some + {c}) == all - some - {c};
  }

  // A transition that is not a callback or a fresh draft acts on its own slot only.
  lemma OwnSlotOnly(b: Bounds, st: State, s: nat, a: Action)
    requires Inv(b, st) && s < |st.slots| && a in SlotActions(s, st.slots[s], b)
    requires !a.Deliver? && !a.Begin? && a.s == s
    ensures a in Actions(st, b) && Apply(st, a, b) == State(st.slots[s := Local(st.slots[s], a, b)], st.mail)
  {}

  lemma BackInOne(b: Bounds, st: State, s: nat, a: Action)
    requires Inv(b, st) && s < |st.slots| && a in SlotActions(s, st.slots[s], b)
    requires a == CancelStream(s) || (a == Commit(s) && st.slots[s].work.token.Some?)
    ensures BringsBack(b, st, s, [a])
  {
    OwnSlotOnly(b, st, s, a);
    OneStep(b, st, a);
    EndsIdle(st.slots[s], a, b);
  }

  lemma EndsIdle(x: Slot, a: Action, b: Bounds)
    requires a.CancelStream? || (a.Commit? && x.work.token.Some?)
    ensures Local(x, a, b).phase == Idle
  {}

  lemma {:induction false} BackFromTools(b: Bounds, st: State, s: nat) returns (path: seq<Action>)
    requires Inv(b, st) && s < |st.slots| && Aligned(st.slots[s])
    requires st.slots[s].phase == Tools || st.slots[s].phase == Committable
    ensures BringsBack(b, st, s, path)
    ensures |path| <= ToolWork(st.slots[s]) + 1
    decreases ToolWork(st.slots[s])
  {
    var x := st.slots[s];
    if x.phase == Committable {
      assert Commit(s) in SlotActions(s, x, b);
      BackInOne(b, st, s, Commit(s));
      path := [Commit(s)];
    } else {
      var a := ToolStep(b, s, x);
      OwnSlotOnly(b, st, s, a);
      StepKeeps(b, st, a);
      var rest := BackFromTools(b, Apply(st, a, b), s);
      Prepend(b, st, s, a, rest);
      path := [a] + rest;
    }
  }

  /** From every reachable state a drafting slot whose native calls are aligned can be brought back to `Idle`, by at
      most two transitions a call and one more, without touching anything else. */
  lemma DraftReturnsToIdle(b: Bounds, st: State, s: nat)
    requires Inv(b, st) && s < |st.slots| && Drafting(st.slots[s]) && Aligned(st.slots[s])
    ensures exists path :: BringsBack(b, st, s, path) && |path| <= 2 * |st.slots[s].work.calls| + 1
  {
    var x := st.slots[s];
    if x.phase == Streaming {
      assert CancelStream(s) in SlotActions(s, x, b);
      BackInOne(b, st, s, CancelStream(s));
    } else {
      var path := BackFromTools(b, st, s);
      SubsetSize(x.work.calls - x.work.started, x.work.calls);
      SubsetSize(x.work.calls - x.work.results, x.work.calls);
    }
  }

  // ----- what the repair defect costs -----

  /** A draft whose native calls went stale in a repair. */
  predicate Wedged(x: Slot) {
    (x.phase == Tools || x.phase == Committable) && x.work.calls < x.work.nativeCalls
  }

  lemma WedgedLocal(b: Bounds, s: nat, x: Slot, a: Action)
    requires b.buggy && SlotInv(b, s, x) && Wedged(x) && a in SlotActions(s, x, b)
    ensures !a.Deliver? && Wedged(Local(x, a, b))
  {}

  lemma WedgedStep(b: Bounds, st: State, s: nat, a: Action)
    requires b.buggy && Inv(b, st) && s < |st.slots| && Wedged(st.slots[s]) && a in Actions(st, b)
    ensures s < |Apply(st, a, b).slots| && Wedged(Apply(st, a, b).slots[s])
  {
    var t, x := OwnerActs(b, st, a);
    if a.Deliver? {
      assert Apply(st, a, b).slots == st.slots[t := Delivered(x, a.k)];
    } else {
      assert Apply(st, a, b).slots == st.slots[t := Local(x, a, b)];
      if s == t {
        WedgedLocal(b, s, x, a);
      }
    }
  }

  /** The defective repair wedges the slot: it never leaves its draft again, whatever else happens. */
  lemma {:induction false} WedgedForever(b: Bounds, st: State, s: nat, path: seq<Action>)
    requires b.buggy && Inv(b, st) && s < |st.slots| && Wedged(st.slots[s])
    requires Run(Model(b), st, path)
    ensures s < |Exec(Model(b), st, path).slots| && Wedged(Exec(Model(b), st, path).slots[s])
  {
    if path != [] {
      var front, mid, a := LastStep(b, st, path);
      WedgedForever(b, st, s, front);
      RunKeepsFrom(b, st, front);
      WedgedStep(b, mid, s, a);
    }
  }

  /** Repair wedges exactly when the defect is on: with it, the repaired draft is wedged; without it, it is aligned. */
  lemma RepairWedges(b: Bounds, s: nat, x: Slot)
    requires SlotInv(b, s, x) && Aligned(x) && Repair(s) in SlotActions(s, x, b)
    ensures if b.buggy then Wedged(Local(x, Repair(s), b)) else Aligned(Local(x, Repair(s), b))
  {
    RepairPhase(s, x, Repair(s), b);
  }
}
