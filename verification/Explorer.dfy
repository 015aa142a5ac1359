/** Explicit-state exploration of a labelled transition system.

    `Explore` is the breadth-first search of docs/llm_projection_refactor/formal/explore_model.py and
    `ExploreDepthFirst` the depth-first search of spec/execution/lifecycle_admission_model.py.  Both are
    stated over any system; `Projection` and `Admission` supply the two concrete ones.  The order in which
    the successors of a state are tried is left open, so every result holds for every order. */
module Explorer {
  import opened Wrappers

  datatype System<!S, !A> = System(
    init: S,
    actions: S -> set<A>,
    apply: (S, A) -> S,
    violation: S -> Option<string>)

  /** The state that the labels `path` lead to from `s`. */
  function Exec<S, A>(sys: System<S, A>, s: S, path: seq<A>): S {
    if path == [] then s else sys.apply(Exec(sys, s, path[..|path|-1]), path[|path|-1])
  }

  /** Every label of `path` is offered by the state it is taken in. */
  ghost predicate Run<S, A>(sys: System<S, A>, s: S, path: seq<A>) {
    path == [] ||
    (Run(sys, s, path[..|path|-1]) && path[|path|-1] in sys.actions(Exec(sys, s, path[..|path|-1])))
  }

  ghost predicate Leads<S, A(!new)>(sys: System<S, A>, s: S, t: S) {
    exists path: seq<A> :: Run(sys, s, path) && Exec(sys, s, path) == t
  }

  ghost predicate Reachable<S, A(!new)>(sys: System<S, A>, s: S) {
    Leads(sys, sys.init, s)
  }

  lemma ExtendRun<S, A>(sys: System<S, A>, s: S, path: seq<A>, a: A)
    requires Run(sys, s, path) && a in sys.actions(Exec(sys, s, path))
    ensures Run(sys, s, path + [a])
    ensures Exec(sys, s, path + [a]) == sys.apply(Exec(sys, s, path), a)
  {
    assert (path + [a])[..|path|] == path;
  }

  lemma {:induction false} JoinRuns<S, A>(sys: System<S, A>, s: S, p: seq<A>, q: seq<A>)
    requires Run(sys, s, p) && Run(sys, Exec(sys, s, p), q)
    ensures Run(sys, s, p + q) && Exec(sys, s, p + q) == Exec(sys, Exec(sys, s, p), q)
    decreases |q|
  {
    if q == [] {
      assert p + q == p;
    } else {
      var front := q[..|q|-1];
      JoinRuns(sys, s, p, front);
      ExtendRun(sys, s, p + front, q[|q|-1]);
      assert p + q == (p + front) + [q[|q|-1]];
    }
  }

  /** A property of the initial state that every step keeps holds after every run. */
  lemma {:induction false} InvariantHolds<S(!new), A(!new)>(sys: System<S, A>, s: S, inv: S -> bool, path: seq<A>)
    requires inv(s)
    requires forall x, a :: inv(x) && a in sys.actions(x) ==> inv(sys.apply(x, a))
    requires Run(sys, s, path)
    ensures inv(Exec(sys, s, path))
  {
    if path != [] {
      InvariantHolds(sys, s, inv, path[..|path|-1]);
    }
  }

  // ----- breadth-first search -----

  datatype Label<A> = Init | Step(action: A)

  function Labels<A>(path: seq<A>): seq<Label<A>> {
    [Init] + seq(|path|, i requires 0 <= i < |path| => Step(path[i]))
  }

  datatype Outcome<A> =
    | Counterexample(broken: string, states: nat, transitions: nat, trace: seq<Label<A>>)
    | StateLimit(states: nat, transitions: nat)
    | Exhausted(states: nat, transitions: nat)

  /** A run from the initial state that ends in a violation of `broken`. */
  ghost predicate Violates<S, A>(sys: System<S, A>, path: seq<A>, broken: string) {
    Run(sys, sys.init, path) && sys.violation(Exec(sys, sys.init, path)) == Some(broken)
  }

  /** The number of transitions that leave the states of `states`. */
  ghost function Degree<S, A>(sys: System<S, A>, states: set<S>): nat {
    if states == {} then 0 else
      var s :| s in states;
      |sys.actions(s)| + Degree(sys, states - {s})
  }

  lemma {:induction false} DegreeAdd<S, A>(sys: System<S, A>, states: set<S>, x: S)
    requires x !in states
    ensures Degree(sys, states + {x}) == Degree(sys, states) + |sys.actions(x)|
  {
    var all := states + {x};
    var s :| s in all && Degree(sys, all) == |sys.actions(s)| + Degree(sys, all - {s});
    if s == x {
      assert all - {s} == states;
    } else {
      DegreeAdd(sys, states - {s}, x);
      assert all - {s} == (states - {s}) + {x};
      DegreeAdd(sys, states - {s}, s);
      assert (states - {s}) + {s} == states;
    }
  }

  // `paths[s]` is the run recorded for a discovered state `s`, read off its parent link.
  ghost predicate Recorded<S, A>(sys: System<S, A>, parents: map<S, Option<(S, A)>>, paths: map<S, seq<A>>, s: S)
    requires s in parents && s in paths
  {
    && Run(sys, sys.init, paths[s])
    && Exec(sys, sys.init, paths[s]) == s
    && match parents[s]
       case None => paths[s] == []
       case Some((p, a)) => p in paths && paths[s] == paths[p] + [a]
  }

  ghost predicate Discovered<S, A>(sys: System<S, A>, parents: map<S, Option<(S, A)>>, paths: map<S, seq<A>>) {
    && parents.Keys == paths.Keys
    && sys.init in paths
    && paths[sys.init] == []
    && forall s {:trigger Recorded(sys, parents, paths, s)} :: s in paths ==> s in parents && Recorded(sys, parents, paths, s)
  }

  // The transition `a` of `s` was taken: its target is discovered, safe and not too deep.
  ghost predicate Taken<S, A>(sys: System<S, A>, paths: map<S, seq<A>>, s: S, a: A)
    requires s in paths
  {
    var ns := sys.apply(s, a);
    ns in paths && |paths[ns]| <= |paths[s]| + 1 && sys.violation(ns) == None
  }

  ghost predicate Done<S, A(!new)>(sys: System<S, A>, paths: map<S, seq<A>>, done: set<S>)
    requires done <= paths.Keys
  {
    forall s, a :: s in done && a in sys.actions(s) ==> Taken(sys, paths, s, a)
  }

  // The queue holds the discovered but unprocessed states, level by level.
  ghost predicate Layered<S, A>(paths: map<S, seq<A>>, queue: seq<S>, depth: nat) {
    && (forall i :: 0 <= i < |queue| ==> queue[i] in paths && depth <= |paths[queue[i]]| <= depth + 1)
    && (forall i, j :: 0 <= i < j < |queue| ==> |paths[queue[i]]| <= |paths[queue[j]]|)
    && (forall i, j :: 0 <= i < j < |queue| ==> queue[i] != queue[j])
  }

  /** Runs no longer than the level being processed stay inside the discovered states, at their own depth. */
  lemma {:induction false} ShallowRunsDiscovered<S(!new), A(!new)>(
      sys: System<S, A>, parents: map<S, Option<(S, A)>>, paths: map<S, seq<A>>, done: set<S>, depth: nat, path: seq<A>)
    requires Discovered(sys, parents, paths) && done <= paths.Keys && Done(sys, paths, done)
    requires forall s :: s in paths && |paths[s]| < depth ==> s in done
    requires Run(sys, sys.init, path) && |path| <= depth
    ensures Exec(sys, sys.init, path) in paths
    ensures |paths[Exec(sys, sys.init, path)]| <= |path|
    ensures path != [] ==> sys.violation(Exec(sys, sys.init, path)) == None
  {
    if path != [] {
      var front := path[..|path|-1];
      ShallowRunsDiscovered(sys, parents, paths, done, depth, front);
      assert Taken(sys, paths, Exec(sys, sys.init, front), path[|path|-1]);
    }
  }

  /** Once the queue is empty every run stays inside the discovered states. */
  lemma {:induction false} ClosedDiscovery<S(!new), A(!new)>(sys: System<S, A>, paths: map<S, seq<A>>, path: seq<A>)
    requires sys.init in paths && Done(sys, paths, paths.Keys)
    requires Run(sys, sys.init, path)
    ensures Exec(sys, sys.init, path) in paths
    ensures path != [] ==> sys.violation(Exec(sys, sys.init, path)) == None
  {
    if path != [] {
      ClosedDiscovery(sys, paths, path[..|path|-1]);
      assert Taken(sys, paths, Exec(sys, sys.init, path[..|path|-1]), path[|path|-1]);
    }
  }

  ghost predicate AllReachable<S(!new), A(!new)>(sys: System<S, A>, states: set<S>) {
    forall s :: s in states ==> Reachable(sys, s)
  }

  /** No non-empty run shorter than `n` ends in a violation. */
  ghost predicate NoFasterViolation<S, A(!new)>(sys: System<S, A>, n: nat) {
    forall path: seq<A> :: Run(sys, sys.init, path) && 0 < |path| < n ==> sys.violation(Exec(sys, sys.init, path)) == None
  }

  function Cap(limit: int): nat {
    if limit < 1 then 1 else limit
  }

  lemma LabelsSnoc<A>(path: seq<A>, a: A)
    ensures Labels(path + [a]) == Labels(path) + [Step(a)]
  {}

  /** Walk the parent links from `st` back to the initial state. */
  method Trace<S(==), A>(sys: System<S, A>, parents: map<S, Option<(S, A)>>, st: S, a: A, ghost paths: map<S, seq<A>>)
    returns (trace: seq<Label<A>>)
    requires Discovered(sys, parents, paths) && st in paths
    ensures trace == Labels(paths[st] + [a])
  {
    trace := [Step(a)];
    var cur := Some(st);
    LabelsSnoc(paths[st], a);
    while cur.Some?
      invariant cur.Some? ==> cur.value in paths && Labels(paths[st] + [a]) == Labels(paths[cur.value]) + trace
      invariant cur.None? ==> trace == Labels(paths[st] + [a])
      decreases if cur.Some? then 1 + |paths[cur.value]| else 0
    {
      assert Recorded(sys, parents, paths, cur.value);
      match parents[cur.value]
      case None =>
        trace := [Init] + trace;
        cur := None;
      case Some((parent, action)) =>
        LabelsSnoc(paths[parent], action);
        trace := [Step(action)] + trace;
        cur := Some(parent);
    }
  }

  /** A transition that reaches a new state extends the discovered runs by one. */
  lemma RecordState<S(!new), A(!new)>(
      sys: System<S, A>, parents: map<S, Option<(S, A)>>, paths: map<S, seq<A>>, queue: seq<S>, done: set<S>, st: S, a: A)
    returns (parents': map<S, Option<(S, A)>>, paths': map<S, seq<A>>)
    requires Discovered(sys, parents, paths) && st in paths && a in sys.actions(st)
    requires Layered(paths, queue, |paths[st]|)
    requires done <= paths.Keys && Done(sys, paths, done)
    requires sys.apply(st, a) !in paths && sys.violation(sys.apply(st, a)) == None
    ensures parents' == parents[sys.apply(st, a) := Some((st, a))]
    ensures paths' == paths[sys.apply(st, a) := paths[st] + [a]]
    ensures Discovered(sys, parents', paths') && Taken(sys, paths', st, a)
    ensures Layered(paths', queue + [sys.apply(st, a)], |paths[st]|)
    ensures Done(sys, paths', done)
    ensures forall b :: b in sys.actions(st) && Taken(sys, paths, st, b) ==> Taken(sys, paths', st, b)
  {
    var ns := sys.apply(st, a);
    parents' := parents[ns := Some((st, a))];
    paths' := paths[ns := paths[st] + [a]];
    RecordRun(sys, parents, paths, st, a);
    forall s, b | s in done && b in sys.actions(s) ensures Taken(sys, paths', s, b) {
      assert Taken(sys, paths, s, b);
    }
  }

  // The run to the new state goes through `st`.
  lemma RecordRun<S(!new), A(!new)>(sys: System<S, A>, parents: map<S, Option<(S, A)>>, paths: map<S, seq<A>>, st: S, a: A)
    requires Discovered(sys, parents, paths) && st in paths && a in sys.actions(st) && sys.apply(st, a) !in paths
    ensures Discovered(sys, parents[sys.apply(st, a) := Some((st, a))], paths[sys.apply(st, a) := paths[st] + [a]])
  {
    var ns := sys.apply(st, a);
    assert Recorded(sys, parents, paths, st);
    ExtendRun(sys, sys.init, paths[st], a);
    var parents', paths' := parents[ns := Some((st, a))], paths[ns := paths[st] + [a]];
    forall s | s in paths' ensures s in parents' && Recorded(sys, parents', paths', s) {
      assert s in paths ==> Recorded(sys, parents, paths, s);
    }
  }

  lemma DiscoveredReachable<S(!new), A(!new)>(sys: System<S, A>, parents: map<S, Option<(S, A)>>, paths: map<S, seq<A>>)
    requires Discovered(sys, parents, paths)
    ensures AllReachable(sys, parents.Keys)
  {
    forall s | s in paths ensures Reachable(sys, s) {
      assert Recorded(sys, parents, paths, s);
    }
  }

  lemma ExhaustedReach<S(!new), A(!new)>(sys: System<S, A>, parents: map<S, Option<(S, A)>>, paths: map<S, seq<A>>)
    requires Discovered(sys, parents, paths) && Done(sys, paths, paths.Keys)
    ensures forall s :: Reachable(sys, s) <==> s in parents.Keys
    ensures forall n: nat :: NoFasterViolation(sys, n)
  {
    DiscoveredReachable(sys, parents, paths);
    forall path: seq<A> | Run(sys, sys.init, path)
      ensures Exec(sys, sys.init, path) in paths
      ensures path != [] ==> sys.violation(Exec(sys, sys.init, path)) == None
    {
      ClosedDiscovery(sys, paths, path);
    }
  }

  lemma FirstViolation<S(!new), A(!new)>(
      sys: System<S, A>, parents: map<S, Option<(S, A)>>, paths: map<S, seq<A>>, done: set<S>, depth: nat)
    requires Discovered(sys, parents, paths) && done <= paths.Keys && Done(sys, paths, done)
    requires forall s :: s in paths && |paths[s]| < depth ==> s in done
    ensures NoFasterViolation(sys, depth + 1)
  {
    forall path: seq<A> | Run(sys, sys.init, path) && 0 < |path| < depth + 1
      ensures sys.violation(Exec(sys, sys.init, path)) == None
    {
      ShallowRunsDiscovered(sys, parents, paths, done, depth, path);
    }
  }

  // The search between two states: `done` are processed, the queue holds the other discovered ones.
  ghost predicate Searching<S(!new), A(!new)>(
      sys: System<S, A>, parents: map<S, Option<(S, A)>>, paths: map<S, seq<A>>, done: set<S>, queue: seq<S>, depth: nat)
  {
    && Discovered(sys, parents, paths)
    && Layered(paths, queue, depth)
    && done <= paths.Keys && Done(sys, paths, done)
    && (forall s :: s in paths <==> s in done || s in queue)
    && (forall s :: s in queue ==> s !in done)
    && (forall s :: s in paths ==> |paths[s]| <= depth + 1 && (|paths[s]| < depth ==> s in done))
  }

  // The search inside the loop over the transitions of `st`, those in `todo` still to be taken.
  ghost predicate Expanding<S(!new), A(!new)>(
      sys: System<S, A>, parents: map<S, Option<(S, A)>>, paths: map<S, seq<A>>, done: set<S>, queue: seq<S>, st: S, todo: set<A>)
  {
    && st in paths && st !in done && st !in queue
    && Discovered(sys, parents, paths)
    && Layered(paths, queue, |paths[st]|)
    && done <= paths.Keys && Done(sys, paths, done)
    && (forall a :: a in sys.actions(st) - todo ==> Taken(sys, paths, st, a))
    && (forall s :: s in paths <==> s in done || s == st || s in queue)
    && (forall s :: s in queue ==> s !in done)
    && (forall s :: s in paths ==> |paths[s]| <= |paths[st]| + 1 && (|paths[s]| < |paths[st]| ==> s in done))
  }

  // What it means to stop with `outcome` when `reach` are the discovered states.
  ghost predicate Justified<S(!new), A(!new)>(sys: System<S, A>, limit: int, outcome: Outcome<A>, reach: set<S>) {
    && AllReachable(sys, reach) && outcome.states == |reach| <= Cap(limit)
    && match outcome
       case Exhausted(_, transitions) =>
         && (forall s :: Reachable(sys, s) <==> s in reach)
         && transitions == Degree(sys, reach)
         && (forall n: nat :: NoFasterViolation(sys, n))
       case Counterexample(broken, _, transitions, trace) =>
         exists path: seq<A> ::
           path != [] && trace == Labels(path) && Violates(sys, path, broken) && NoFasterViolation(sys, |path|)
           && StoppedIn(sys, reach, Exec(sys, sys.init, path[..|path|-1]), transitions)
       case StateLimit(_, transitions) =>
         && |reach| == Cap(limit) && (exists s :: s !in reach && Reachable(sys, s))
         && exists st, a :: StoppedIn(sys, reach, st, transitions) && a in sys.actions(st) && sys.apply(st, a) !in reach
  }

  /** The search stopped at a transition of `st`: counted are all transitions of some states whose successors are all
      known, and at least one, but not more than all, of `st`. */
  ghost predicate StoppedIn<S(!new), A(!new)>(sys: System<S, A>, reach: set<S>, st: S, transitions: nat) {
    st in reach && exists done: set<S> :: CountedIn(sys, reach, done, st, transitions)
  }

  ghost predicate CountedIn<S(!new), A(!new)>(sys: System<S, A>, reach: set<S>, done: set<S>, st: S, transitions: nat) {
    && done <= reach && st !in done
    && (forall s, a :: s in done && a in sys.actions(s) ==> sys.apply(s, a) in reach)
    && Degree(sys, done) < transitions <= Degree(sys, done) + |sys.actions(st)|
  }

  /** Take every transition of `st`, recording the states that are new.  Stops early at a violation or at the limit. */
  method Expand<S(==, !new), A(==, !new)>(
      sys: System<S, A>, limit: int, st: S, parents0: map<S, Option<(S, A)>>, queue0: seq<S>, edges0: nat,
      ghost paths0: map<S, seq<A>>, ghost done: set<S>)
    returns (stop: Option<Outcome<A>>, parents: map<S, Option<(S, A)>>, queue: seq<S>, edges: nat,
             ghost paths: map<S, seq<A>>)
    requires Expanding(sys, parents0, paths0, done, queue0, st, sys.actions(st))
    requires |parents0| <= Cap(limit) && edges0 == Degree(sys, done)
    ensures stop.Some? ==> Justified(sys, limit, stop.value, parents.Keys) && !stop.value.Exhausted?
    ensures stop.None? ==>
      && Expanding(sys, parents, paths, done, queue, st, {}) && paths[st] == paths0[st]
      && edges == edges0 + |sys.actions(st)|
      && |parents0| <= |parents| <= Cap(limit)
      && (|parents| == |parents0| ==> queue == queue0)
  {
    stop, parents, queue, edges, paths := None, parents0, queue0, edges0, paths0;
    var todo := sys.actions(st);
    while todo != {}
      invariant Expanding(sys, parents, paths, done, queue, st, todo) && paths[st] == paths0[st]
      invariant todo <= sys.actions(st) && edges0 <= edges && edges + |todo| == edges0 + |sys.actions(st)|
      invariant |parents0| <= |parents| <= Cap(limit)
      invariant |parents| == |parents0| ==> queue == queue0
      decreases todo
    {
      var a :| a in todo;
      todo := todo - {a};
      edges := edges + 1;
      assert Recorded(sys, parents, paths, st);
      var ns := sys.apply(st, a);
      var failure := sys.violation(ns);
      if failure.Some? {
        var trace := Trace(sys, parents, st, a, paths);
        StopAtViolation(sys, limit, parents, paths, done, queue, st, a, edges, trace);
        stop := Some(Counterexample(failure.value, |parents|, edges, trace));
        return;
      }
      if ns !in parents {
        if |parents| >= limit {
          StopAtLimit(sys, limit, parents, paths, done, queue, st, a, edges);
          stop := Some(StateLimit(|parents|, edges));
          return;
        }
        paths := Discover(sys, parents, paths, done, queue, st, todo, a);
        parents, queue := parents[ns := Some((st, a))], queue + [ns];
      }
    }
  }

  lemma StopAtViolation<S(!new), A(!new)>(
      sys: System<S, A>, limit: int, parents: map<S, Option<(S, A)>>, paths: map<S, seq<A>>, done: set<S>, queue: seq<S>, st: S,
      a: A, edges: nat, trace: seq<Label<A>>)
    requires st in paths && done <= paths.Keys && Discovered(sys, parents, paths) && Done(sys, paths, done)
    requires forall s :: s in paths && |paths[s]| < |paths[st]| ==> s in done
    requires |parents| <= Cap(limit) && a in sys.actions(st) && sys.violation(sys.apply(st, a)).Some?
    requires trace == Labels(paths[st] + [a])
    requires st !in done && Degree(sys, done) < edges <= Degree(sys, done) + |sys.actions(st)|
    ensures Justified(sys, limit, Counterexample(sys.violation(sys.apply(st, a)).value, |parents|, edges, trace), parents.Keys)
  {
    assert Recorded(sys, parents, paths, st);
    ExtendRun(sys, sys.init, paths[st], a);
    assert Violates(sys, paths[st] + [a], sys.violation(sys.apply(st, a)).value);
    FirstViolation(sys, parents, paths, done, |paths[st]|);
    DiscoveredReachable(sys, parents, paths);
    DoneCounted(sys, parents, paths, done, st, edges);
    assert (paths[st] + [a])[..|paths[st]|] == paths[st];
  }

  lemma DoneCounted<S(!new), A(!new)>(
      sys: System<S, A>, parents: map<S, Option<(S, A)>>, paths: map<S, seq<A>>, done: set<S>, st: S, edges: nat)
    requires st in paths && done <= paths.Keys && parents.Keys == paths.Keys && Done(sys, paths, done)
    requires st !in done && Degree(sys, done) < edges <= Degree(sys, done) + |sys.actions(st)|
    ensures StoppedIn(sys, parents.Keys, st, edges)
  {
    forall s, a | s in done && a in sys.actions(s) ensures sys.apply(s, a) in parents.Keys {
      assert Taken(sys, paths, s, a);
    }
    assert CountedIn(sys, parents.Keys, done, st, edges);
  }

  lemma StopAtLimit<S(!new), A(!new)>(
      sys: System<S, A>, limit: int, parents: map<S, Option<(S, A)>>, paths: map<S, seq<A>>, done: set<S>, queue: seq<S>, st: S,
      a: A, edges: nat)
    requires st in paths && Discovered(sys, parents, paths) && a in sys.actions(st)
    requires done <= paths.Keys && Done(sys, paths, done)
    requires st !in done && Degree(sys, done) < edges <= Degree(sys, done) + |sys.actions(st)|
    requires sys.apply(st, a) !in parents && limit <= |parents| <= Cap(limit)
    ensures Justified<S, A>(sys, limit, StateLimit(|parents|, edges), parents.Keys)
  {
    DiscoveredReachable(sys, parents, paths);
    assert Recorded(sys, parents, paths, st);
    ExtendRun(sys, sys.init, paths[st], a);
    assert Reachable(sys, sys.apply(st, a));
    DoneCounted(sys, parents, paths, done, st, edges);
  }

  // The target of `a` is new.
  lemma Discover<S(!new), A(!new)>(
      sys: System<S, A>, parents: map<S, Option<(S, A)>>, paths: map<S, seq<A>>, done: set<S>, queue: seq<S>, st: S,
      todo: set<A>, a: A)
    returns (paths': map<S, seq<A>>)
    requires Expanding(sys, parents, paths, done, queue, st, todo + {a}) && a in sys.actions(st)
    requires sys.apply(st, a) !in parents && sys.violation(sys.apply(st, a)) == None
    ensures var ns := sys.apply(st, a);
      && st in paths' && paths'[st] == paths[st]
      && Expanding(sys, parents[ns := Some((st, a))], paths', done, queue + [ns], st, todo)
  {
    ghost var parents';
    parents', paths' := RecordState(sys, parents, paths, queue, done, st, a);
  }

  lemma PopState<S(!new), A(!new)>(
      sys: System<S, A>, parents: map<S, Option<(S, A)>>, paths: map<S, seq<A>>, done: set<S>, queue: seq<S>, depth: nat)
    requires Searching(sys, parents, paths, done, queue, depth) && queue != []
    ensures Expanding(sys, parents, paths, done, queue[1..], queue[0], sys.actions(queue[0]))
  {
    assert queue == [queue[0]] + queue[1..];
    PopLayered(paths, queue, depth);
  }

  lemma PopLayered<S(!new), A(!new)>(paths: map<S, seq<A>>, queue: seq<S>, depth: nat)
    requires Layered(paths, queue, depth) && queue != []
    requires forall s :: s in paths ==> |paths[s]| <= depth + 1
    ensures queue[0] in paths && queue[0] !in queue[1..] && Layered(paths, queue[1..], |paths[queue[0]]|)
    ensures depth <= |paths[queue[0]]|
    ensures forall s :: s in queue ==> s in paths && |paths[queue[0]]| <= |paths[s]|
  {
    assert forall i :: 0 <= i < |queue| - 1 ==> queue[1..][i] == queue[i + 1];
  }

  lemma FinishState<S(!new), A(!new)>(
      sys: System<S, A>, parents: map<S, Option<(S, A)>>, paths: map<S, seq<A>>, done: set<S>, queue: seq<S>, st: S)
    requires Expanding(sys, parents, paths, done, queue, st, {})
    ensures Searching(sys, parents, paths, done + {st}, queue, |paths[st]|)
  {}

  lemma StopAtEnd<S(!new), A(!new)>(
      sys: System<S, A>, limit: int, parents: map<S, Option<(S, A)>>, paths: map<S, seq<A>>, done: set<S>, depth: nat)
    requires Searching(sys, parents, paths, done, [], depth) && |parents| <= Cap(limit)
    ensures Justified(sys, limit, Exhausted(|parents|, Degree(sys, done)), parents.Keys)
  {
    assert done == paths.Keys;
    ExhaustedReach(sys, parents, paths);
    DiscoveredReachable(sys, parents, paths);
  }

  /** A reported violation comes with its run. */
  lemma ReportedRun<S(!new), A(!new)>(sys: System<S, A>, limit: int, outcome: Outcome<A>, reach: set<S>)
    requires Justified(sys, limit, outcome, reach) && outcome.Counterexample?
    ensures exists path: seq<A> :: path != [] && outcome.trace == Labels(path)
              && Violates(sys, path, outcome.broken) && NoFasterViolation(sys, |path|)
  {}

  /** The limit is reported only when there is one state more to reach. */
  lemma OneMoreState<S(!new), A(!new)>(sys: System<S, A>, limit: int, outcome: Outcome<A>, reach: set<S>) returns (more: set<S>)
    requires Justified(sys, limit, outcome, reach) && outcome.StateLimit?
    ensures AllReachable(sys, more) && |more| == Cap(limit) + 1
  {
    var extra :| extra !in reach && Reachable(sys, extra);
    more := reach + {extra};
  }

  /** The breadth-first search.  The states it justifies its outcome by are the keys of the `parents` table.
      The initial state itself is never passed to `violation`: only successors are. */
  method Explore<S(==, !new), A(==, !new)>(sys: System<S, A>, limit: int)
    returns (outcome: Outcome<A>)
    ensures exists reach: set<S> :: Justified(sys, limit, outcome, reach)
  {
    var parents: map<S, Option<(S, A)>> := map[sys.init := None];
    var queue := [sys.init];
    var edges: nat := 0;
    ghost var paths: map<S, seq<A>> := map[sys.init := []];
    ghost var done: set<S> := {};
    ghost var depth: nat := 0;
    while queue != []
      invariant Searching(sys, parents, paths, done, queue, depth)
      invariant edges == Degree(sys, done)
      invariant |parents| <= Cap(limit)
      decreases Cap(limit) - |parents|, |queue|
    {
      var st := queue[0];
      PopState(sys, parents, paths, done, queue, depth);
      var stop;
      stop, parents, queue, edges, paths := Expand(sys, limit, st, parents, queue[1..], edges, paths, done);
      if stop.Some? {
        assert Justified(sys, limit, stop.value, parents.Keys);
        return stop.value;
      }
      DegreeAdd(sys, done, st);
      FinishState(sys, parents, paths, done, queue, st);
      depth, done := |paths[st]|, done + {st};
    }
    StopAtEnd(sys, limit, parents, paths, done, depth);
    outcome := Exhausted(|parents|, edges);
  }

  // ----- depth-first search -----

  ghost predicate ClosedUnder<S(!new), A(!new)>(sys: System<S, A>, states: set<S>, inside: set<S>) {
    forall s, a :: s in states && a in sys.actions(s) ==> sys.apply(s, a) in inside
  }

  ghost predicate Safe<S(!new), A>(sys: System<S, A>, states: set<S>) {
    forall s :: s in states ==> sys.violation(s) == None
  }

  // The stack holds discovered states, each with a run that leads to it.
  ghost predicate Stacked<S, A>(sys: System<S, A>, seen: set<S>, pending: seq<(S, seq<A>)>) {
    forall i :: 0 <= i < |pending| ==>
      && pending[i].0 in seen
      && Run(sys, sys.init, pending[i].1) && Exec(sys, sys.init, pending[i].1) == pending[i].0
  }

  ghost predicate OnStack<S, A>(pending: seq<(S, seq<A>)>, s: S) {
    exists i :: 0 <= i < |pending| && pending[i].0 == s
  }

  lemma {:induction false} RunsStayInside<S(!new), A(!new)>(sys: System<S, A>, states: set<S>, path: seq<A>)
    requires sys.init in states && ClosedUnder(sys, states, states)
    requires Run(sys, sys.init, path)
    ensures Exec(sys, sys.init, path) in states
  {
    if path != [] {
      RunsStayInside(sys, states, path[..|path|-1]);
    }
  }

  lemma SubsetSize<S>(a: set<S>, b: set<S>)
    requires a <= b
    ensures |a| <= |b|
  {
    assert b == a + (b - a);
  }

  // The stack after a push still holds what it held.
  lemma Pushed<S, A>(held: seq<(S, seq<A>)>, top: (S, seq<A>))
    ensures OnStack(held + [top], top.0)
    ensures forall s :: OnStack(held, s) ==> OnStack(held + [top], s)
  {
    var pending := held + [top];
    assert pending[|held|] == top;
    forall s | OnStack(held, s) ensures OnStack(pending, s) {
      var i :| 0 <= i < |held| && held[i].0 == s;
      assert pending[i].0 == s;
    }
  }

  /** Push the successors of `state` that are not known yet. */
  method PushSuccessors<S(==, !new), A(==, !new)>(
      sys: System<S, A>, state: S, path: seq<A>, seen0: set<S>, pending0: seq<(S, seq<A>)>, ghost universe: set<S>)
    returns (seen: set<S>, pending: seq<(S, seq<A>)>)
    requires Run(sys, sys.init, path) && Exec(sys, sys.init, path) == state
    requires state in universe && seen0 <= universe && ClosedUnder(sys, universe, universe)
    requires AllReachable(sys, seen0) && Stacked(sys, seen0, pending0)
    ensures seen0 <= seen <= universe && AllReachable(sys, seen)
    ensures |seen0| <= |seen| && |seen| + |pending0| == |seen0| + |pending|
    ensures Stacked(sys, seen, pending)
    ensures forall a :: a in sys.actions(state) ==> sys.apply(state, a) in seen
    ensures forall s :: s in seen && s !in seen0 ==> OnStack(pending, s)
    ensures forall s :: OnStack(pending0, s) ==> OnStack(pending, s)
  {
    seen, pending := seen0, pending0;
    var todo := sys.actions(state);
    while todo != {}
      invariant todo <= sys.actions(state)
      invariant seen0 <= seen <= universe && AllReachable(sys, seen)
      invariant |seen0| <= |seen| && |seen| + |pending0| == |seen0| + |pending|
      invariant Stacked(sys, seen, pending)
      invariant forall a :: a in sys.actions(state) - todo ==> sys.apply(state, a) in seen
      invariant forall s :: s in seen && s !in seen0 ==> OnStack(pending, s)
      invariant forall s :: OnStack(pending0, s) ==> OnStack(pending, s)
      decreases todo
    {
      var a :| a in todo;
      todo := todo - {a};
      var successor := sys.apply(state, a);
      if successor !in seen {
        ExtendRun(sys, sys.init, path, a);
        assert Reachable(sys, successor);
        Pushed(pending, (successor, path + [a]));
        seen := seen + {successor};
        pending := pending + [(successor, path + [a])];
      }
    }
  }

  // The search between two states: `done` are processed, the stack holds the other discovered ones.
  ghost predicate Descending<S(!new), A(!new)>(
      sys: System<S, A>, seen: set<S>, pending: seq<(S, seq<A>)>, done: set<S>, universe: set<S>)
  {
    && sys.init in seen && seen <= universe && AllReachable(sys, seen)
    && Stacked(sys, seen, pending)
    && done <= seen && ClosedUnder(sys, done, seen) && Safe(sys, done)
    && forall s :: s in seen ==> s in done || OnStack(pending, s)
  }

  lemma StartDescent<S(!new), A(!new)>(sys: System<S, A>, universe: set<S>)
    requires sys.init in universe
    ensures Descending(sys, {sys.init}, [(sys.init, [])], {}, universe)
  {
    assert Run(sys, sys.init, []) && Exec(sys, sys.init, []) == sys.init;
    var empty: seq<(S, seq<A>)> := [];
    assert [(sys.init, [])] == empty + [(sys.init, [])];
    Pushed(empty, (sys.init, []));
  }

  lemma FinishDescent<S(!new), A(!new)>(sys: System<S, A>, seen: set<S>, done: set<S>, universe: set<S>)
    requires Descending(sys, seen, [], done, universe)
    ensures (forall s :: Reachable(sys, s) <==> s in seen) && Safe(sys, seen)
  {
    assert forall s :: !OnStack<S, A>([], s);
    forall path: seq<A> | Run(sys, sys.init, path) ensures Exec(sys, sys.init, path) in seen {
      RunsStayInside(sys, seen, path);
    }
  }

  /** The depth-first search.  `universe` is any finite set of states closed under the transitions; it makes the
      search finite and is not computed. */
  method ExploreDepthFirst<S(==, !new), A(==, !new)>(sys: System<S, A>, ghost universe: set<S>)
    returns (seen: set<S>, trace: Option<seq<A>>)
    requires sys.init in universe && ClosedUnder(sys, universe, universe)
    ensures AllReachable(sys, seen)
    ensures trace.None? ==> (forall s :: Reachable(sys, s) <==> s in seen) && Safe(sys, seen)
    ensures trace.Some? ==> Run(sys, sys.init, trace.value) && sys.violation(Exec(sys, sys.init, trace.value)).Some?
  {
    seen := {sys.init};
    var pending: seq<(S, seq<A>)> := [(sys.init, [])];
    ghost var done: set<S> := {};
    StartDescent(sys, universe);
    SubsetSize(seen, universe);
    while pending != []
      invariant Descending(sys, seen, pending, done, universe) && |seen| <= |universe|
      decreases |universe| - |seen|, |pending|
    {
      var (state, path) := pending[|pending|-1];
      assert pending == pending[..|pending|-1] + [(state, path)];
      if sys.violation(state).Some? {
        return seen, Some(path);
      }
      ghost var before, held := seen, pending;
      seen, pending := PushSuccessors(sys, state, path, seen, pending[..|pending|-1], universe);
      SubsetSize(seen, universe);
      assert forall s :: s in before ==> s in done + {state} || OnStack(held[..|held|-1], s);
      done := done + {state};
    }
    FinishDescent(sys, seen, done, universe);
    trace := None;
  }
}
