/** Safety of the projection protocol for every number of scopes and all bounds. */
module ProjectionSafety {
  import opened Wrappers
  import opened Explorer
  import opened Projection

  // ----- the inductive invariant -----

  predicate KeyIn(b: Bounds, k: Key) {
    && 0 <= k.scope < b.scopes && 0 <= k.generation <= b.generations && 0 <= k.fence <= b.fences
    && 1 <= k.attempt <= b.attempts
  }

  predicate BlockIn(b: Bounds, s: nat, limit: int, block: Block) {
    && KeyIn(b, block.token) && block.token.scope == s && block.token.attempt < limit
    && block.calls == block.results && block.calls <= CallNames(b)
  }

  predicate NativeIn(b: Bounds, s: nat, x: Slot, block: Block, native: Option<Native>) {
    native.Some? ==>
      && KeyIn(b, native.value.token) && native.value.token.scope == s
      && native.value.token.generation == x.generation && native.value.token.endpoint == x.endpoint
      && native.value.calls == block.calls
  }

  // Attempts of committed blocks increase strictly and stay below a live draft's attempt.
  predicate HistoryInv(b: Bounds, s: nat, x: Slot) {
    && |x.history| <= b.blocks && |x.native| == |x.history|
    && (forall i :: 0 <= i < |x.history| ==>
          BlockIn(b, s, if Drafting(x) then x.attempt else x.attempt + 1, x.history[i]))
    && (forall i :: 0 <= i < |x.history| ==> NativeIn(b, s, x, x.history[i], x.native[i]))
    && (forall i, j :: 0 <= i < j < |x.history| ==> x.history[i].token.attempt < x.history[j].token.attempt)
    && x.cache <= Project(s, x) && x.sent <= Project(s, x)
  }

  predicate WorkInv(b: Bounds, s: nat, x: Slot) {
    var w := x.work;
    && w.results <= w.started <= w.calls <= CallNames(b)
    && w.nativeCalls <= CallNames(b)
    && (if Drafting(x) then
          && w.token == Some(KeyOf(s, x)) && |x.history| < b.blocks && x.attempt >= 1
          && (x.phase == Streaming ==> w.started == {})
          && (x.phase == Tools ==> w.results != w.calls)
          && (x.phase == Committable ==> w.results == w.calls)
        else w == EmptyWork)
  }

  predicate SlotInv(b: Bounds, s: nat, x: Slot) {
    && 0 <= x.generation <= b.generations && 0 <= x.fence <= b.fences && 0 <= x.attempt <= b.attempts
    && HistoryInv(b, s, x) && WorkInv(b, s, x)
  }

  ghost predicate Inv(b: Bounds, st: State) {
    && |st.slots| == (if b.scopes < 0 then 0 else b.scopes)
    && (forall s :: 0 <= s < |st.slots| ==> SlotInv(b, s, st.slots[s]))
    && (forall k :: k in st.mail ==> KeyIn(b, k) && k.attempt <= st.slots[k.scope].attempt)
  }

  // The provider-native calls of a draft are its calls.
  predicate Aligned(x: Slot) {
    Drafting(x) ==> x.work.nativeCalls == x.work.calls
  }

  ghost predicate AllAligned(st: State) {
    forall s :: 0 <= s < |st.slots| ==> Aligned(st.slots[s])
  }

  // ----- the invariant implies the checks -----

  lemma SlotChecked(s: nat, x: Slot, b: Bounds)
    requires SlotInv(b, s, x)
    ensures CheckSlot(s, x, b) == if Aligned(x) then None else Some("DraftAligned")
  {
    forall i | 0 <= i < |x.history| ensures !Misaligned(s, x, x.history[i], x.native[i]) {
      assert NativeIn(b, s, x, x.history[i], x.native[i]);
    }
    forall i | 0 <= i < |x.history| ensures x.history[i].calls == x.history[i].results {
      assert BlockIn(b, s, if Drafting(x) then x.attempt else x.attempt + 1, x.history[i]);
    }
  }

  lemma {:induction false} OneFinding(findings: seq<Option<string>>, broken: string)
    requires forall s :: 0 <= s < |findings| ==> findings[s] in {None, Some(broken)}
    ensures FirstBroken(findings) ==
      if forall s :: 0 <= s < |findings| ==> findings[s] == None then None else Some(broken)
  {
    if findings != [] {
      OneFinding(findings[1..], broken);
      assert forall s :: 1 <= s < |findings| ==> findings[s] == findings[1..][s - 1];
    }
  }

  lemma Checked(st: State, b: Bounds)
    requires Inv(b, st)
    ensures Check(st, b) == if AllAligned(st) then None else Some("DraftAligned")
  {
    var findings := seq(|st.slots|, s requires 0 <= s < |st.slots| => CheckSlot(s, st.slots[s], b));
    forall s | 0 <= s < |st.slots| ensures findings[s] == if Aligned(st.slots[s]) then None else Some("DraftAligned") {
      SlotChecked(s, st.slots[s], b);
    }
    OneFinding(findings, "DraftAligned");
  }

  // ----- the invariant is inductive -----

  // A slot that keeps its lineage and history keeps the history part of the invariant.
  lemma SameHistory(b: Bounds, s: nat, x: Slot, y: Slot)
    requires HistoryInv(b, s, x)
    requires y.history == x.history && y.native == x.native && y.generation == x.generation && y.endpoint == x.endpoint
    requires (if Drafting(x) then x.attempt else x.attempt + 1) <= (if Drafting(y) then y.attempt else y.attempt + 1)
    requires y.cache == x.cache || y.cache == [] || y.cache == Project(s, x)
    requires y.sent == x.sent || y.sent == x.cache
    ensures HistoryInv(b, s, y)
  {
    assert Project(s, y) == Project(s, x);
    forall i | 0 <= i < |y.history|
      ensures BlockIn(b, s, if Drafting(y) then y.attempt else y.attempt + 1, y.history[i])
      ensures NativeIn(b, s, y, y.history[i], y.native[i])
    {
      assert BlockIn(b, s, if Drafting(x) then x.attempt else x.attempt + 1, x.history[i]);
      assert NativeIn(b, s, x, x.history[i], x.native[i]);
    }
  }

  // Dropping the native forms, the cache and the sent prefix is always sound.
  lemma BlankHistory(b: Bounds, s: nat, x: Slot, y: Slot)
    requires HistoryInv(b, s, x) && !Drafting(x) && !Drafting(y)
    requires y.history == x.history && y.native == Blank(|x.history|) && y.attempt == x.attempt
    requires y.cache == [] && y.sent == []
    ensures HistoryInv(b, s, y)
  {
    forall i | 0 <= i < |y.history| ensures BlockIn(b, s, y.attempt + 1, y.history[i]) {
      assert BlockIn(b, s, x.attempt + 1, x.history[i]);
    }
  }

  lemma IdleKeeps(s: nat, x: Slot, a: Action, b: Bounds)
    requires s < b.scopes && SlotInv(b, s, x) && x.phase == Idle && a in IdleActions(s, x, b)
    ensures !a.Deliver? && a.s == s && SlotInv(b, s, Local(x, a, b))
    ensures x.attempt <= Local(x, a, b).attempt && Aligned(Local(x, a, b))
  {
    var nx := Local(x, a, b);
    match a
    case Sync(_) => SameHistory(b, s, x, nx);
    case Begin(_, _) => BeginKeeps(s, x, a, b);
    case Switch(_) => BlankHistory(b, s, x, nx);
    case Compact(_) =>
    case Evict(_) => SameHistory(b, s, x, nx);
    case Restart(_) => SameHistory(b, s, x, nx);
    case Close(_) => BlankHistory(b, s, x, nx);
    case _ => assert false;
  }

  lemma BeginKeeps(s: nat, x: Slot, a: Action, b: Bounds)
    requires s < b.scopes && SlotInv(b, s, x) && x.phase == Idle && a in IdleActions(s, x, b) && a.Begin?
    ensures a.s == s && SlotInv(b, s, Local(x, a, b)) && Local(x, a, b).attempt == x.attempt + 1 && Aligned(Local(x, a, b))
  {
    assert x.attempt < b.attempts && |x.history| < b.blocks && a.cs <= CallNames(b);
    SameHistory(b, s, x, Local(x, a, b));
  }

  lemma ToolsKeep(s: nat, x: Slot, a: Action, b: Bounds)
    requires s < b.scopes && SlotInv(b, s, x) && x.phase == Tools && a in ToolActions(s, x)
    ensures !a.Deliver? && a.s == s && SlotInv(b, s, Local(x, a, b))
    ensures x.attempt == Local(x, a, b).attempt
    ensures Aligned(x) && !(b.buggy && a.Repair?) ==> Aligned(Local(x, a, b))
  {
    SameHistory(b, s, x, Local(x, a, b));
  }

  // A slot that appends one more block keeps the prefixes of its projection.
  lemma LongerProjection(s: nat, x: Slot, y: Slot, block: Block, native: Option<Native>)
    requires |x.native| == |x.history| && y.generation == x.generation && y.endpoint == x.endpoint
    requires y.history == x.history + [block] && y.native == x.native + [native]
    ensures Project(s, x) <= Project(s, y)
  {}

  lemma LongerHistory(b: Bounds, s: nat, x: Slot, y: Slot, block: Block, native: Option<Native>)
    requires HistoryInv(b, s, x) && Drafting(x) && !Drafting(y) && |x.history| < b.blocks
    requires y.history == x.history + [block] && y.native == x.native + [native]
    requires y.generation == x.generation && y.endpoint == x.endpoint && y.attempt == x.attempt
    requires y.cache == x.cache && y.sent == x.sent
    requires BlockIn(b, s, y.attempt + 1, block) && NativeIn(b, s, y, block, native) && block.token.attempt == x.attempt
    ensures HistoryInv(b, s, y)
  {
    LongerProjection(s, x, y, block, native);
    var n := |x.history|;
    forall i | 0 <= i < |y.history|
      ensures BlockIn(b, s, y.attempt + 1, y.history[i])
      ensures NativeIn(b, s, y, y.history[i], y.native[i])
      ensures i < n ==> y.history[i].token.attempt < y.attempt
    {
      if i < n {
        assert y.history[i] == x.history[i] && y.native[i] == x.native[i];
        assert BlockIn(b, s, x.attempt, x.history[i]);
        assert NativeIn(b, s, x, x.history[i], x.native[i]);
      }
    }
  }

  lemma CommitKeeps(s: nat, x: Slot, b: Bounds)
    requires s < b.scopes && SlotInv(b, s, x) && x.phase == Committable && x.work.nativeCalls == x.work.calls
    ensures SlotInv(b, s, Local(x, Commit(s), b)) && Local(x, Commit(s), b).attempt == x.attempt
  {
    var w := x.work;
    LongerHistory(b, s, x, Local(x, Commit(s), b), Block(w.token.value, w.calls, w.results), Some(Native(w.token.value, w.nativeCalls)));
  }

  lemma LocalKeeps(s: nat, x: Slot, a: Action, b: Bounds)
    requires s < b.scopes && SlotInv(b, s, x) && a in SlotActions(s, x, b)
    ensures !a.Deliver? && a.s == s && SlotInv(b, s, Local(x, a, b))
    ensures x.attempt <= Local(x, a, b).attempt
    ensures Aligned(x) && !(b.buggy && a.Repair?) ==> Aligned(Local(x, a, b))
  {
    match x.phase
    case Idle => IdleKeeps(s, x, a, b);
    case Streaming => SameHistory(b, s, x, Local(x, a, b));
    case Tools => ToolsKeep(s, x, a, b);
    case Committable => CommitKeeps(s, x, b);
    case Retired =>
  }

  lemma DeliverKeeps(x: Slot, k: Key, b: Bounds)
    requires SlotInv(b, k.scope, x)
    ensures SlotInv(b, k.scope, Delivered(x, k)) && Delivered(x, k).attempt == x.attempt
    ensures Aligned(x) ==> Aligned(Delivered(x, k))
  {
    SameHistory(b, k.scope, x, Delivered(x, k));
  }

  lemma PutKeeps(b: Bounds, st: State, s: nat, nx: Slot, mail: set<Key>)
    requires Inv(b, st) && s < |st.slots| && SlotInv(b, s, nx) && st.slots[s].attempt <= nx.attempt
    requires forall k :: k in mail ==> k in st.mail || (k == KeyOf(s, nx) && 1 <= nx.attempt)
    ensures Inv(b, State(st.slots[s := nx], mail))
    ensures AllAligned(st) && Aligned(nx) ==> AllAligned(State(st.slots[s := nx], mail))
  {}

  // The slot a transition belongs to, and what it may do there.
  lemma OwnerActs(b: Bounds, st: State, a: Action) returns (s: nat, x: Slot)
    requires Inv(b, st) && a in Actions(st, b)
    ensures s == Owner(a) < |st.slots| && x == st.slots[s] && SlotInv(b, s, x) && s < b.scopes
    ensures if a.Deliver? then a.k in st.mail else a in SlotActions(s, x, b)
  {
    if a.Deliver? {
      s := a.k.scope;
      if !(a.k in st.mail) {
        var t :| 0 <= t < |st.slots| && a in SlotActions(t, st.slots[t], b);
        LocalKeeps(t, st.slots[t], a, b);
      }
    } else {
      s :| 0 <= s < |st.slots| && a in SlotActions(s, st.slots[s], b);
      LocalKeeps(s, st.slots[s], a, b);
    }
    x := st.slots[s];
  }

  /** Every transition keeps the invariant, with or without the repair defect. */
  lemma StepKeeps(b: Bounds, st: State, a: Action)
    requires Inv(b, st) && a in Actions(st, b)
    ensures Inv(b, Apply(st, a, b))
    ensures AllAligned(st) && !(b.buggy && a.Repair?) ==> AllAligned(Apply(st, a, b))
  {
    var s, x := OwnerActs(b, st, a);
    if a.Deliver? {
      DeliverKeeps(x, a.k, b);
      PutKeeps(b, st, s, Delivered(x, a.k), st.mail - {a.k});
    } else {
      LocalKeeps(s, x, a, b);
      var nx := Local(x, a, b);
      PutKeeps(b, st, s, nx, if a.Begin? then st.mail + {KeyOf(s, nx)} else st.mail);
    }
  }

  // ----- whole runs -----

  predicate WellBounded(b: Bounds) {
    b.scopes <= 0 || (b.generations >= 0 && b.fences >= 0 && b.attempts >= 0 && b.blocks >= 0)
  }

  /** The bounds under which the model passes every check: the repair defect must be off or out of reach. */
  predicate Sound(b: Bounds) {
    WellBounded(b) && !(b.buggy && b.scopes >= 1 && b.calls != [] && b.attempts >= 1 && b.blocks >= 1)
  }

  lemma {:induction false} RunKeeps(b: Bounds, path: seq<Action>)
    requires WellBounded(b) && Run(Model(b), Initial(b), path)
    ensures Inv(b, Exec(Model(b), Initial(b), path))
    ensures Sound(b) ==> AllAligned(Exec(Model(b), Initial(b), path))
  {
    if path != [] {
      var front, a := path[..|path|-1], path[|path|-1];
      RunKeeps(b, front);
      var st := Exec(Model(b), Initial(b), front);
      StepKeeps(b, st, a);
      if Sound(b) && b.buggy && a.Repair? {
        RepairInReach(b, st, a);
      }
    }
  }

  // Which phase a repair needs.
  lemma RepairPhase(s: nat, x: Slot, a: Action, b: Bounds)
    requires a in SlotActions(s, x, b) && a.Repair?
    ensures x.phase == Tools && x.work.calls != x.work.started
  {}

  // A repair needs a draft that still has calls to start.
  lemma RepairInReach(b: Bounds, st: State, a: Action)
    requires Inv(b, st) && a in Actions(st, b) && a.Repair?
    ensures b.scopes >= 1 && b.calls != [] && b.attempts >= 1 && b.blocks >= 1
  {
    var s, x := OwnerActs(b, st, a);
    RepairPhase(s, x, a, b);
    assert x.work.calls != {};
    var c :| c in x.work.calls;
    assert c in CallNames(b);
  }

  /** Under sound bounds every reachable state passes all six checks; under any sensible bounds `DraftAligned` is
      the only check that can fail. */
  lemma ReachableSafe(b: Bounds, path: seq<Action>)
    requires WellBounded(b) && Run(Model(b), Initial(b), path)
    ensures Sound(b) ==> Check(Exec(Model(b), Initial(b), path), b) == None
    ensures Check(Exec(Model(b), Initial(b), path), b) in {None, Some("DraftAligned")}
  {
    RunKeeps(b, path);
    Checked(Exec(Model(b), Initial(b), path), b);
  }

  // ----- unsound bounds have a violating run -----

  function StaleReplay(b: Bounds): seq<Action>
    requires b.calls != []
  {
    [Begin(0, {b.calls[0]}), Deliver(Key(0, 0, 0, A, 1)), Repair(0)]
  }

  lemma RunOne(b: Bounds, path: seq<Action>, a: Action)
    requires Run(Model(b), Initial(b), path) && a in Actions(Exec(Model(b), Initial(b), path), b)
    ensures Run(Model(b), Initial(b), path + [a])
    ensures Exec(Model(b), Initial(b), path + [a]) == Apply(Exec(Model(b), Initial(b), path), a, b)
  {
    ExtendRun(Model(b), Initial(b), path, a);
  }

  // The first two transitions of the run: a draft with one call is delivered before the call starts.
  lemma DraftDelivered(b: Bounds, c: string)
    requires b.scopes >= 1 && b.attempts >= 1 && b.blocks >= 1 && c in b.calls
    ensures var path := [Begin(0, {c}), Deliver(Key(0, 0, 0, A, 1))];
      && Run(Model(b), Initial(b), path)
      && var st := Exec(Model(b), Initial(b), path);
         && |st.slots| >= 1 && st.slots[0].phase == Tools && st.slots[0].work == Work({c}, {}, {}, {c}, Some(Key(0, 0, 0, A, 1)))
  {
    var begin, deliver := Begin(0, {c}), Deliver(Key(0, 0, 0, A, 1));
    FreshBegin(b, c);
    BegunDelivers(b, c);
    RunOne(b, [], begin);
    assert [] + [begin] == [begin];
    RunOne(b, [begin], deliver);
    assert [begin] + [deliver] == [begin, deliver];
  }

  lemma BegunDelivers(b: Bounds, c: string)
    requires b.scopes >= 1
    ensures var st1, deliver := Apply(Initial(b), Begin(0, {c}), b), Deliver(Key(0, 0, 0, A, 1));
      && deliver in Actions(st1, b)
      && var st := Apply(st1, deliver, b);
         && |st.slots| >= 1 && st.slots[0].phase == Tools && st.slots[0].work == Work({c}, {}, {}, {c}, Some(Key(0, 0, 0, A, 1)))
  {
    var st1, deliver := Apply(Initial(b), Begin(0, {c}), b), Deliver(Key(0, 0, 0, A, 1));
    assert deliver.k in st1.mail;
    assert c in st1.slots[0].work.calls;
  }

  /** The defective repair: three transitions break `DraftAligned`. */
  lemma MutantViolates(b: Bounds)
    requires WellBounded(b) && !Sound(b)
    ensures Violates(Model(b), StaleReplay(b), "DraftAligned")
  {
    var c := b.calls[0];
    var path := [Begin(0, {c}), Deliver(Key(0, 0, 0, A, 1))];
    DraftDelivered(b, c);
    var st := Exec(Model(b), Initial(b), path);
    DraftRepair(b, st, c);
    RunOne(b, path, Repair(0));
    assert path + [Repair(0)] == StaleReplay(b);
    RepairMisaligns(b, st, c);
    RunKeeps(b, StaleReplay(b));
    Checked(Apply(st, Repair(0), b), b);
  }

  lemma RepairMisaligns(b: Bounds, st: State, c: string)
    requires b.buggy && |st.slots| >= 1 && st.slots[0].phase == Tools
    requires c in st.slots[0].work.nativeCalls && c !in st.slots[0].work.started
    ensures |Apply(st, Repair(0), b).slots| >= 1 && !Aligned(Apply(st, Repair(0), b).slots[0])
  {
    var x := Apply(st, Repair(0), b).slots[0];
    assert c in x.work.nativeCalls && c !in x.work.calls;
  }

  lemma FreshBegin(b: Bounds, c: string)
    requires b.scopes >= 1 && b.attempts >= 1 && b.blocks >= 1 && c in b.calls
    ensures Begin(0, {c}) in Actions(Initial(b), b)
  {
    var x := Initial(b).slots[0];
    assert Project(0, x) == [] && c in CallNames(b);
    assert {c} <= CallNames(b);
    assert Begin(0, {c}) in IdleActions(0, x, b);
    assert Begin(0, {c}) in SlotActions(0, x, b);
  }

  lemma DraftRepair(b: Bounds, st: State, c: string)
    requires |st.slots| >= 1 && st.slots[0].phase == Tools
    requires c in st.slots[0].work.calls && c !in st.slots[0].work.started
    ensures Repair(0) in Actions(st, b)
  {
    assert Repair(0) in ToolActions(0, st.slots[0]);
    assert Repair(0) in SlotActions(0, st.slots[0], b);
  }

  /** Negative bounds make the initial state itself ill-typed; its first successor is reported. */
  lemma NegativeBoundsViolate(b: Bounds)
    requires !WellBounded(b)
    ensures Violates(Model(b), [Close(0)], "TypeOK")
  {
    assert Close(0) in SlotActions(0, Initial(b).slots[0], b);
    RunOne(b, [], Close(0));
    assert [] + [Close(0)] == [Close(0)];
  }

  // How far one transition can take a slot towards a misaligned draft.
  lemma LocalEarly(s: nat, x: Slot, a: Action, b: Bounds)
    requires s < b.scopes && SlotInv(b, s, x) && a in SlotActions(s, x, b)
    ensures !a.Deliver?
    ensures Drafting(Local(x, a, b)) && !Drafting(x) ==> Local(x, a, b).phase == Streaming
    ensures Local(x, a, b).phase == Tools || Local(x, a, b).phase == Committable ==> x.phase == Tools
    ensures !Aligned(Local(x, a, b)) ==> !Aligned(x) || x.phase == Tools
  {
    LocalKeeps(s, x, a, b);
    if a.Repair? {
      RepairPhase(s, x, a, b);
    }
  }

  // How many transitions a slot needs at least to get where it is.
  ghost predicate TakesAtLeast(st: State, n: nat) {
    forall s :: 0 <= s < |st.slots| ==>
      var x := st.slots[s];
      (Drafting(x) ==> n >= 1) && (x.phase == Tools || x.phase == Committable ==> n >= 2) && (!Aligned(x) ==> n >= 3)
  }

  lemma EarlyStep(b: Bounds, st: State, a: Action, n: nat)
    requires Inv(b, st) && a in Actions(st, b) && TakesAtLeast(st, n)
    ensures TakesAtLeast(Apply(st, a, b), n + 1)
  {
    var s, x := OwnerActs(b, st, a);
    if a.Deliver? {
      assert Apply(st, a, b).slots == st.slots[s := Delivered(x, a.k)];
      DeliverKeeps(x, a.k, b);
    } else {
      assert Apply(st, a, b).slots == st.slots[s := Local(x, a, b)];
      LocalEarly(s, x, a, b);
    }
  }

  lemma {:induction false} EarlySteps(b: Bounds, path: seq<Action>)
    requires WellBounded(b) && Run(Model(b), Initial(b), path)
    ensures TakesAtLeast(Exec(Model(b), Initial(b), path), |path|)
  {
    if path != [] {
      var front := path[..|path|-1];
      EarlySteps(b, front);
      RunKeeps(b, front);
      EarlyStep(b, Exec(Model(b), Initial(b), front), path[|path|-1], |front|);
    }
  }

  /** The model is safe after every run if and only if the bounds are sound. */
  lemma SafeIffSound(b: Bounds)
    ensures Sound(b) <==> forall n: nat :: NoFasterViolation(Model(b), n)
  {
    if Sound(b) {
      forall path: seq<Action> | Run(Model(b), Initial(b), path)
        ensures Check(Exec(Model(b), Initial(b), path), b) == None
      {
        ReachableSafe(b, path);
      }
    } else if WellBounded(b) {
      MutantViolates(b);
      assert !NoFasterViolation(Model(b), 4);
    } else {
      NegativeBoundsViolate(b);
      assert !NoFasterViolation(Model(b), 2);
    }
  }
}
