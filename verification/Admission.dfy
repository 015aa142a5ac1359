/** The admission and lifetime model of spec/execution/lifecycle_admission_model.py, with any bound on the number of
    cancellations in place of the source's 2. */
module Admission {
  import opened Wrappers
  import opened Explorer

  datatype Phase = Queued | Draining | Acquired | Abandoned | Running | Done

  datatype State = State(phase: Phase, writerHeld: bool, lease: bool, cancellations: nat, dispatched: bool)

  datatype Action = ReleaseWriter | CancelWaiter | WorkerAcquires | DrainAndRelease | Dispatch | FinishAndRelease

  const Start := State(Queued, true, false, 0, false)

  predicate Enabled(s: State, a: Action, bound: nat) {
    match a
    case ReleaseWriter => s.writerHeld
    case CancelWaiter => (s.phase == Queued || s.phase == Draining || s.phase == Acquired) && s.cancellations < bound
    case WorkerAcquires =>
      !s.writerHeld && !s.lease && (s.phase == Queued || s.phase == Draining || s.phase == Abandoned)
    case DrainAndRelease => s.phase == Draining && s.lease
    case Dispatch => s.phase == Acquired
    case FinishAndRelease => s.phase == Running
  }

  function Next(s: State, a: Action, broken: bool): State {
    match a
    case ReleaseWriter => s.(writerHeld := false)
    case CancelWaiter =>
      s.(phase := if broken && s.phase == Draining then Abandoned else Draining, cancellations := s.cancellations + 1)
    case WorkerAcquires => s.(lease := true, phase := if s.phase == Queued then Acquired else s.phase)
    case DrainAndRelease => s.(phase := Done, lease := false)
    case Dispatch => s.(phase := Running, dispatched := true)
    case FinishAndRelease => s.(phase := Done, lease := false)
  }

  const AllActions := {ReleaseWriter, CancelWaiter, WorkerAcquires, DrainAndRelease, Dispatch, FinishAndRelease}

  function Violation(s: State): Option<string> {
    if (s.phase == Done || s.phase == Abandoned) && s.lease then Some("lease outlives its owner")
    else if s.dispatched && s.cancellations > 0 then Some("cancelled waiter dispatched")
    else if s.phase == Running && !s.lease then Some("running without a lease")
    else None
  }

  /** Which of the three violations a state shows; a state may show several, the first is named. */
  lemma ViolationMeans(s: State)
    ensures Violation(s) == None <==>
            && !(s.lease && s.phase in {Done, Abandoned}) && !(s.cancellations >= 1 && s.dispatched) && (s.phase == Running ==> s.lease)
    ensures Violation(s) == Some("lease outlives its owner") <==> s.lease && s.phase in {Done, Abandoned}
    ensures Violation(s) == Some("running without a lease") ==> s.phase == Running && !s.lease
    ensures Violation(s) == Some("cancelled waiter dispatched") ==> s.dispatched && s.cancellations >= 1
  {}

  /** When each transition is offered. */
  lemma OfferedIff(s: State, bound: nat)
    ensures Enabled(s, ReleaseWriter, bound) <==> s.writerHeld
    ensures Enabled(s, CancelWaiter, bound) <==> s.cancellations < bound && s.phase !in {Abandoned, Running, Done}
    ensures Enabled(s, WorkerAcquires, bound) <==> !(s.writerHeld || s.lease) && s.phase !in {Acquired, Running, Done}
    ensures Enabled(s, DrainAndRelease, bound) <==> s.lease && s.phase == Draining
    ensures Enabled(s, Dispatch, bound) <==> s.phase == Acquired
    ensures Enabled(s, FinishAndRelease, bound) <==> s.phase == Running
  {}

  /** Which transition changes what. */
  lemma WhoChanges(s: State, a: Action, broken: bool)
    ensures var t := Next(s, a, broken);
      && (t.writerHeld <==> s.writerHeld && a != ReleaseWriter)
      && (t.lease <==> a == WorkerAcquires || (s.lease && a != DrainAndRelease && a != FinishAndRelease))
      && t.cancellations == s.cancellations + (if a == CancelWaiter then 1 else 0)
      && (t.dispatched <==> s.dispatched || a == Dispatch)
      && t.phase == match a
         case ReleaseWriter => s.phase
         case CancelWaiter => if s.phase == Draining && broken then Abandoned else Draining
         case WorkerAcquires => if s.phase == Queued then Acquired else s.phase
         case Dispatch => Running
         case _ => Done
  {}

  function Model(bound: nat, broken: bool): System<State, Action> {
    System(Start, s => set a | a in AllActions && Enabled(s, a, bound), (s, a) => Next(s, a, broken), s => Violation(s))
  }

  lemma EveryAction(a: Action)
    ensures a in AllActions
  {
    match a { case ReleaseWriter => case CancelWaiter => case WorkerAcquires => case DrainAndRelease =>
              case Dispatch => case FinishAndRelease => }
  }

  // ----- the unbroken model: exactly these states are reachable -----

  predicate Admitted(s: State, bound: nat) {
    match s.phase
    case Queued => !s.lease && s.cancellations == 0 && !s.dispatched
    case Acquired => s.lease && !s.writerHeld && s.cancellations == 0 && !s.dispatched
    case Running => s.lease && !s.writerHeld && s.cancellations == 0 && s.dispatched
    case Draining => 1 <= s.cancellations <= bound && !s.dispatched && (s.lease ==> !s.writerHeld)
    case Done => !s.lease && !s.writerHeld && s.cancellations <= bound && (s.dispatched <==> s.cancellations == 0)
    case Abandoned => false
  }

  lemma {:induction false} RunAdmitted(bound: nat, path: seq<Action>)
    requires Run(Model(bound, false), Start, path)
    ensures Admitted(Exec(Model(bound, false), Start, path), bound)
  {
    if path != [] {
      RunAdmitted(bound, path[..|path|-1]);
    }
  }

  // One more transition of a run.
  lemma Extend(bound: nat, broken: bool, path: seq<Action>, s: State, a: Action) returns (longer: seq<Action>)
    requires Run(Model(bound, broken), Start, path) && Exec(Model(bound, broken), Start, path) == s
    requires Enabled(s, a, bound)
    ensures longer == path + [a] && Run(Model(bound, broken), Start, longer)
    ensures Exec(Model(bound, broken), Start, longer) == Next(s, a, broken)
  {
    EveryAction(a);
    ExtendRun(Model(bound, broken), Start, path, a);
    longer := path + [a];
  }

  // `c` cancellations while the writer is still held.
  lemma {:induction false} Cancelled(bound: nat, c: nat) returns (path: seq<Action>)
    requires 1 <= c <= bound
    ensures Run(Model(bound, false), Start, path)
    ensures Exec(Model(bound, false), Start, path) == State(Draining, true, false, c, false)
  {
    var before: State;
    if c == 1 {
      path, before := [], Start;
    } else {
      path := Cancelled(bound, c - 1);
      before := State(Draining, true, false, c - 1, false);
    }
    path := Extend(bound, false, path, before, CancelWaiter);
  }

  // A run to every admitted state: cancel, release the writer, acquire, then go on as far as the phase says.
  lemma AdmittedReached(s: State, bound: nat) returns (path: seq<Action>)
    requires Admitted(s, bound)
    ensures Run(Model(bound, false), Start, path) && Exec(Model(bound, false), Start, path) == s
  {
    var at := Start;
    path := [];
    if s.cancellations > 0 {
      path := Cancelled(bound, s.cancellations);
      at := State(Draining, true, false, s.cancellations, false);
    }
    if s != at {
      path := Extend(bound, false, path, at, ReleaseWriter);
      at := Next(at, ReleaseWriter, false);
    }
    if s != at {
      path := Extend(bound, false, path, at, WorkerAcquires);
      path := AcquiredReached(s, bound, path, Next(at, WorkerAcquires, false));
    }
  }

  // The rest of the way, once the worker has acquired.
  lemma AcquiredReached(s: State, bound: nat, acquired: seq<Action>, at: State) returns (path: seq<Action>)
    requires Admitted(s, bound) && Run(Model(bound, false), Start, acquired) && Exec(Model(bound, false), Start, acquired) == at
    requires s.cancellations == at.cancellations && !at.writerHeld && at.lease && !at.dispatched
    requires at.phase == (if at.cancellations > 0 then Draining else Acquired)
    requires !s.writerHeld && s.phase != Queued && (s.phase == Draining ==> s.lease)
    ensures Run(Model(bound, false), Start, path) && Exec(Model(bound, false), Start, path) == s
  {
    path := acquired;
    if s != at {
      var a := if s.cancellations > 0 then DrainAndRelease else Dispatch;
      path := Extend(bound, false, path, at, a);
      if s != Next(at, a, false) {
        path := Extend(bound, false, path, Next(at, a, false), FinishAndRelease);
      }
    }
  }

  /** The reachable states of the unbroken model are exactly the admitted ones, and none of them is a violation: no
      lease is held when done, no cancelled waiter is dispatched and nothing runs without a lease. */
  lemma UnbrokenReachable(bound: nat, s: State)
    ensures Reachable(Model(bound, false), s) <==> Admitted(s, bound)
    ensures Reachable(Model(bound, false), s) ==> Violation(s) == None
  {
    if Reachable(Model(bound, false), s) {
      var path: seq<Action> :| Run(Model(bound, false), Start, path) && Exec(Model(bound, false), Start, path) == s;
      RunAdmitted(bound, path);
    }
    if Admitted(s, bound) {
      var path := AdmittedReached(s, bound);
    }
  }

  // ----- termination -----

  function Rank(s: State, bound: nat): int {
    (if s.writerHeld then 1 else 0) + (bound - s.cancellations) +
    match s.phase
    case Queued => 3
    case Acquired => 2
    case Draining => if s.lease then 1 else 2
    case Running => 1
    case Abandoned => if s.lease then 0 else 1
    case Done => 0
  }

  lemma {:induction false} RankBound(bound: nat, broken: bool, path: seq<Action>)
    requires Run(Model(bound, broken), Start, path)
    ensures var s := Exec(Model(bound, broken), Start, path);
      s.cancellations <= bound && Rank(s, bound) + |path| <= bound + 4
      && (s.phase == Queued ==> !s.lease)
  {
    if path != [] {
      RankBound(bound, broken, path[..|path|-1]);
    }
  }

  /** Every run ends after at most `bound + 4` transitions, broken or not; an unbroken run is stuck only in `Done` with
      the writer released. */
  lemma RunsEnd(bound: nat, broken: bool, path: seq<Action>)
    requires Run(Model(bound, broken), Start, path)
    ensures |path| <= bound + 4
    ensures !broken ==>
      var s := Exec(Model(bound, broken), Start, path);
      ((forall a :: !Enabled(s, a, bound)) <==> s.phase == Done && !s.writerHeld)
  {
    RankBound(bound, broken, path);
    if !broken {
      RunAdmitted(bound, path);
      var s := Exec(Model(bound, broken), Start, path);
      if forall a :: !Enabled(s, a, bound) {
        assert !Enabled(s, ReleaseWriter, bound) && !Enabled(s, WorkerAcquires, bound) && !Enabled(s, DrainAndRelease, bound)
            && !Enabled(s, Dispatch, bound) && !Enabled(s, FinishAndRelease, bound);
      }
    }
  }

  // ----- the broken variant -----

  const BrokenRun: seq<Action> := [CancelWaiter, CancelWaiter, ReleaseWriter, WorkerAcquires]

  /** With two cancellations allowed, the broken variant leaks a lease to an abandoned waiter. */
  lemma BrokenLeaks(bound: nat)
    requires bound >= 2
    ensures Run(Model(bound, true), Start, BrokenRun)
    ensures Violation(Exec(Model(bound, true), Start, BrokenRun)) == Some("lease outlives its owner")
  {
    var s1 := Next(Start, CancelWaiter, true);
    var s2 := Next(s1, CancelWaiter, true);
    var s3 := Next(s2, ReleaseWriter, true);
    var first := Extend(bound, true, [], Start, CancelWaiter);
    var second := Extend(bound, true, first, s1, CancelWaiter);
    var third := Extend(bound, true, second, s2, ReleaseWriter);
    var fourth := Extend(bound, true, third, s3, WorkerAcquires);
    assert fourth == BrokenRun;
  }

  // One cancellation cannot tell the two variants apart.
  lemma {:induction false} FewCancellations(bound: nat, path: seq<Action>)
    requires bound < 2 && Run(Model(bound, true), Start, path)
    ensures Run(Model(bound, false), Start, path)
    ensures Exec(Model(bound, true), Start, path) == Exec(Model(bound, false), Start, path)
  {
    if path != [] {
      FewCancellations(bound, path[..|path|-1]);
      RunAdmitted(bound, path[..|path|-1]);
    }
  }

  /** The broken variant is safe exactly when fewer than two cancellations are allowed. */
  lemma BrokenSafeIff(bound: nat)
    ensures bound < 2 <==> forall s :: Reachable(Model(bound, true), s) ==> Violation(s) == None
  {
    if bound < 2 {
      forall s | Reachable(Model(bound, true), s) ensures Violation(s) == None {
        var path: seq<Action> :| Run(Model(bound, true), Start, path) && Exec(Model(bound, true), Start, path) == s;
        FewCancellations(bound, path);
        RunAdmitted(bound, path);
      }
    } else {
      BrokenLeaks(bound);
      assert Reachable(Model(bound, true), Exec(Model(bound, true), Start, BrokenRun));
    }
  }

  // ----- the search -----

  ghost function Universe(bound: nat): set<State> {
    set p, w, l, c: nat, d | p in {Queued, Draining, Acquired, Abandoned, Running, Done} && 0 <= c <= bound && w in {true, false}
      && l in {true, false} && d in {true, false} :: State(p, w, l, c, d)
  }

  lemma InUniverse(s: State, bound: nat)
    requires s.cancellations <= bound
    ensures s in Universe(bound)
  {
    match s.phase { case Queued => case Draining => case Acquired => case Abandoned => case Running => case Done => }
    assert s == State(s.phase, s.writerHeld, s.lease, s.cancellations, s.dispatched);
  }

  /** The depth-first search of the source: it returns no trace exactly when the model is safe, and then `seen` is the
      whole reachable set. */
  method ExploreAdmission(bound: nat, broken: bool) returns (seen: set<State>, trace: Option<seq<Action>>)
    ensures trace.None? <==> !broken || bound < 2
    ensures trace.None? ==> forall s :: s in seen <==> Reachable(Model(bound, broken), s)
    ensures !broken ==> forall s :: s in seen <==> Admitted(s, bound)
    ensures trace.Some? ==>
      && |trace.value| <= bound + 4 && Run(Model(bound, broken), Start, trace.value)
      && Violation(Exec(Model(bound, broken), Start, trace.value)).Some?
  {
    forall s | s in Universe(bound) ensures s.cancellations <= bound {}
    InUniverse(Start, bound);
    forall s, a | s in Universe(bound) && a in Model(bound, broken).actions(s)
      ensures Next(s, a, broken) in Universe(bound)
    {
      InUniverse(Next(s, a, broken), bound);
    }
    seen, trace := ExploreDepthFirst(Model(bound, broken), Universe(bound));
    BrokenSafeIff(bound);
    forall s ensures !broken ==> (Reachable(Model(bound, false), s) <==> Admitted(s, bound))
             ensures !broken && Reachable(Model(bound, false), s) ==> Violation(s) == None {
      UnbrokenReachable(bound, s);
    }
    if trace.Some? {
      RunsEnd(bound, broken, trace.value);
      assert Reachable(Model(bound, broken), Exec(Model(bound, broken), Start, trace.value));
    }
  }
}
