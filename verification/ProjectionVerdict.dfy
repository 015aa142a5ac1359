/** The verdict of the explorer on the projection protocol, for every bound and every limit. */
module ProjectionVerdict {
  import opened Wrappers
  import opened Explorer
  import opened Projection
  import opened ProjectionSafety

  // ----- the reachable states are finitely many -----

  ghost function SeqsUpTo<T>(elements: set<T>, n: nat): set<seq<T>> {
    if n == 0 then {[]} else
      {[]} + (set q, x | q in SeqsUpTo(elements, n - 1) && x in elements :: q + [x])
  }

  lemma {:induction false} InSeqsUpTo<T>(elements: set<T>, n: nat, q: seq<T>)
    requires |q| <= n && forall i :: 0 <= i < |q| ==> q[i] in elements
    ensures q in SeqsUpTo(elements, n)
  {
    if q != [] {
      InSeqsUpTo(elements, n - 1, q[..|q|-1]);
      assert q == q[..|q|-1] + [q[|q|-1]];
    }
  }

  ghost function Upto(n: int): (r: set<nat>)
    ensures forall i: nat :: i in r <==> i <= n
    decreases n + 1
  {
    if n < 0 then {} else Upto(n - 1) + {n}
  }

  ghost function Endpoints(): set<Endpoint> {
    {A, B}
  }

  ghost function Phases(): set<Phase> {
    {Idle, Streaming, Tools, Committable, Retired}
  }

  lemma Enumerated(e: Endpoint, p: Phase)
    ensures e in Endpoints() && p in Phases()
  {
    match e { case A => case B => }
    match p { case Idle => case Streaming => case Tools => case Committable => case Retired => }
  }

  ghost function Keys(b: Bounds): set<Key> {
    set s, g, f, e, a | s in Upto(b.scopes - 1) && g in Upto(b.generations) && f in Upto(b.fences) && e in Endpoints() && a in Upto(b.attempts)
      :: Key(s, g, f, e, a)
  }

  ghost function CallSets(b: Bounds): set<set<string>> {
    set cs: set<string> | cs <= CallNames(b)
  }

  ghost function Blocks(b: Bounds): set<Block> {
    set k, cs, rs | k in Keys(b) && cs in CallSets(b) && rs in CallSets(b) :: Block(k, cs, rs)
  }

  ghost function Natives(b: Bounds): set<Option<Native>> {
    {None} + set k, cs | k in Keys(b) && cs in CallSets(b) :: Some(Native(k, cs))
  }

  ghost function Projections(b: Bounds): set<Projected> {
    set s, g, e, h, n | s in Upto(b.scopes - 1) && g in Upto(b.generations) && e in Endpoints() && h in Blocks(b) && n in Natives(b)
      :: Projected(s, g, e, h, n)
  }

  ghost function Tokens(b: Bounds): set<Option<Key>> {
    {None} + set k | k in Keys(b) :: Some(k)
  }

  ghost function Works(b: Bounds): set<Work> {
    set c, s, r, n, t | c in CallSets(b) && s in CallSets(b) && r in CallSets(b) && n in CallSets(b) && t in Tokens(b)
      :: Work(c, s, r, n, t)
  }

  // Slots are built up group by group: lineage, history, prefixes, work.
  ghost function Lineages(b: Bounds): set<Slot> {
    set g, f, e, a, p | g in Upto(b.generations) && f in Upto(b.fences) && e in Endpoints() && a in Upto(b.attempts) && p in Phases()
      :: Slot(g, f, e, a, p, [], [], [], [], EmptyWork)
  }

  ghost function WithHistory(b: Bounds): set<Slot>
    requires b.blocks >= 0
  {
    set x, h, n | x in Lineages(b) && h in SeqsUpTo(Blocks(b), b.blocks) && n in SeqsUpTo(Natives(b), b.blocks)
      :: x.(history := h, native := n)
  }

  ghost function WithPrefixes(b: Bounds): set<Slot>
    requires b.blocks >= 0
  {
    set x, c, s | x in WithHistory(b) && c in SeqsUpTo(Projections(b), b.blocks) && s in SeqsUpTo(Projections(b), b.blocks)
      :: x.(cache := c, sent := s)
  }

  ghost function Slots(b: Bounds): set<Slot>
    requires b.blocks >= 0
  {
    set x, w | x in WithPrefixes(b) && w in Works(b) :: x.(work := w)
  }

  /** A finite set that holds every state the invariant allows. */
  ghost function Universe(b: Bounds): set<State> {
    if b.scopes <= 0 || b.blocks < 0 then {State([], {})} else
      set slots, mail | slots in SeqsUpTo(Slots(b), b.scopes) && mail <= Keys(b) :: State(slots, mail)
  }

  lemma KeyInKeys(b: Bounds, k: Key)
    requires KeyIn(b, k)
    ensures k in Keys(b)
  {
    Enumerated(k.endpoint, Idle);
    assert k.scope in Upto(b.scopes - 1) && k.generation in Upto(b.generations) && k.fence in Upto(b.fences);
    assert k.attempt in Upto(b.attempts);
    assert k == Key(k.scope, k.generation, k.fence, k.endpoint, k.attempt);
  }

  lemma HistoryElements(b: Bounds, s: nat, x: Slot, i: nat)
    requires SlotInv(b, s, x) && i < |x.history|
    ensures x.history[i] in Blocks(b) && x.native[i] in Natives(b)
  {
    var block, native := x.history[i], x.native[i];
    assert BlockIn(b, s, if Drafting(x) then x.attempt else x.attempt + 1, block);
    assert NativeIn(b, s, x, block, native);
    KeyInKeys(b, block.token);
    assert block == Block(block.token, block.calls, block.results);
    if native.Some? {
      KeyInKeys(b, native.value.token);
      assert native == Some(Native(native.value.token, native.value.calls));
    }
  }

  lemma PrefixElements(b: Bounds, s: nat, x: Slot, p: seq<Projected>)
    requires s < b.scopes && SlotInv(b, s, x) && p <= Project(s, x)
    ensures p in SeqsUpTo(Projections(b), b.blocks)
  {
    forall i | 0 <= i < |p| ensures p[i] in Projections(b) {
      assert p[i] == Project(s, x)[i] == Projected(s, x.generation, x.endpoint, x.history[i], x.native[i]);
      HistoryElements(b, s, x, i);
      Enumerated(x.endpoint, x.phase);
      assert s in Upto(b.scopes - 1) && x.generation in Upto(b.generations) && x.endpoint in Endpoints();
    }
    InSeqsUpTo(Projections(b), b.blocks, p);
  }

  lemma WorkElement(b: Bounds, s: nat, x: Slot)
    requires s < b.scopes && SlotInv(b, s, x)
    ensures x.work in Works(b)
  {
    var w := x.work;
    if Drafting(x) {
      KeyInKeys(b, KeyOf(s, x));
    }
    assert w == Work(w.calls, w.started, w.results, w.nativeCalls, w.token);
  }

  lemma HistoryInUniverse(b: Bounds, s: nat, x: Slot)
    requires s < b.scopes && SlotInv(b, s, x)
    ensures x.history in SeqsUpTo(Blocks(b), b.blocks) && x.native in SeqsUpTo(Natives(b), b.blocks)
  {
    forall i | 0 <= i < |x.history| ensures x.history[i] in Blocks(b) && x.native[i] in Natives(b) {
      HistoryElements(b, s, x, i);
    }
    InSeqsUpTo(Blocks(b), b.blocks, x.history);
    InSeqsUpTo(Natives(b), b.blocks, x.native);
  }

  lemma SlotInSlots(b: Bounds, s: nat, x: Slot)
    requires s < b.scopes && SlotInv(b, s, x)
    ensures x in Slots(b)
  {
    HistoryInUniverse(b, s, x);
    PrefixElements(b, s, x, x.cache);
    PrefixElements(b, s, x, x.sent);
    WorkElement(b, s, x);
    AssembleSlot(b, x);
  }

  lemma AssembleSlot(b: Bounds, x: Slot)
    requires b.blocks >= 0
    requires 0 <= x.generation <= b.generations && 0 <= x.fence <= b.fences && 0 <= x.attempt <= b.attempts
    requires x.history in SeqsUpTo(Blocks(b), b.blocks) && x.native in SeqsUpTo(Natives(b), b.blocks)
    requires x.cache in SeqsUpTo(Projections(b), b.blocks) && x.sent in SeqsUpTo(Projections(b), b.blocks)
    requires x.work in Works(b)
    ensures x in Slots(b)
  {
    var lineage := Slot(x.generation, x.fence, x.endpoint, x.attempt, x.phase, [], [], [], [], EmptyWork);
    assert lineage in Lineages(b) by {
      Enumerated(x.endpoint, x.phase);
      assert x.generation in Upto(b.generations) && x.fence in Upto(b.fences) && x.attempt in Upto(b.attempts);
    }
    var history := lineage.(history := x.history, native := x.native);
    assert history in WithHistory(b);
    AssembleRest(b, x, history);
  }

  lemma AssembleRest(b: Bounds, x: Slot, history: Slot)
    requires b.blocks >= 0 && history in WithHistory(b) && x == history.(cache := x.cache, sent := x.sent, work := x.work)
    requires x.cache in SeqsUpTo(Projections(b), b.blocks) && x.sent in SeqsUpTo(Projections(b), b.blocks)
    requires x.work in Works(b)
    ensures x in Slots(b)
  {
    var prefixes := history.(cache := x.cache, sent := x.sent);
    assert prefixes in WithPrefixes(b);
    assert x == prefixes.(work := x.work);
  }

  lemma ReachableInUniverse(b: Bounds, st: State)
    requires WellBounded(b) && Inv(b, st)
    ensures st in Universe(b)
  {
    forall k | k in st.mail ensures k in Keys(b) {
      KeyInKeys(b, k);
    }
    if b.scopes > 0 {
      forall s | 0 <= s < |st.slots| ensures st.slots[s] in Slots(b) {
        SlotInSlots(b, s, st.slots[s]);
      }
      InSeqsUpTo(Slots(b), b.scopes, st.slots);
      assert st == State(st.slots, st.mail);
    } else {
      assert st.mail == {};
    }
  }

  /** Exploring the projection protocol.  Under sound bounds the search can only exhaust the model; under unsound ones
      it can only report a violation, and the defective repair is always reported as `DraftAligned` after three
      transitions.  The state limit cannot interfere once it is large enough. */
  method ExploreProjection(b: Bounds, limit: int) returns (outcome: Outcome<Action>)
    ensures outcome.Counterexample? ==> !Sound(b)
    ensures outcome.Exhausted? ==> Sound(b)
    ensures outcome.Counterexample? && WellBounded(b) ==> outcome.broken == "DraftAligned" && |outcome.trace| == 4
    ensures WellBounded(b) && outcome.StateLimit? ==> limit < |Universe(b)|
  {
    outcome := Explore(Model(b), limit);
    ghost var reach: set<State> :| Justified(Model(b), limit, outcome, reach);
    match outcome
    case Exhausted(_, _) => ExhaustedVerdict(b, limit, outcome, reach);
    case Counterexample(_, _, _, _) => CounterexampleVerdict(b, limit, outcome, reach);
    case StateLimit(_, _) => LimitVerdict(b, limit, outcome, reach);
  }

  lemma ExhaustedVerdict(b: Bounds, limit: int, outcome: Outcome<Action>, reach: set<State>)
    requires Justified(Model(b), limit, outcome, reach) && outcome.Exhausted?
    ensures Sound(b)
  {
    Verdict(b, outcome);
  }

  lemma CounterexampleVerdict(b: Bounds, limit: int, outcome: Outcome<Action>, reach: set<State>)
    requires Justified(Model(b), limit, outcome, reach) && outcome.Counterexample?
    ensures !Sound(b) && (WellBounded(b) ==> outcome.broken == "DraftAligned" && |outcome.trace| == 4)
  {
    ReportedRun(Model(b), limit, outcome, reach);
    Verdict(b, outcome);
    if WellBounded(b) {
      ReportedMutant(b, outcome);
    }
  }

  lemma LimitVerdict(b: Bounds, limit: int, outcome: Outcome<Action>, reach: set<State>)
    requires Justified(Model(b), limit, outcome, reach) && outcome.StateLimit?
    ensures WellBounded(b) ==> limit < |Universe(b)|
  {
    if WellBounded(b) {
      var more := OneMoreState(Model(b), limit, outcome, reach);
      ReachBound(b, more);
    }
  }

  lemma Verdict(b: Bounds, outcome: Outcome<Action>)
    requires outcome.Counterexample? ==> exists path: seq<Action> ::
               path != [] && Violates(Model(b), path, outcome.broken)
    requires outcome.Exhausted? ==> forall n: nat :: NoFasterViolation(Model(b), n)
    ensures outcome.Counterexample? ==> !Sound(b)
    ensures outcome.Exhausted? ==> Sound(b)
  {
    SafeIffSound(b);
    if outcome.Counterexample? && Sound(b) {
      var path: seq<Action> :| path != [] && Violates(Model(b), path, outcome.broken);
      assert NoFasterViolation(Model(b), |path| + 1);
      assert false;
    }
  }

  lemma ReachBound(b: Bounds, states: set<State>)
    requires WellBounded(b) && AllReachable(Model(b), states)
    ensures |states| <= |Universe(b)|
  {
    forall st | st in states ensures st in Universe(b) {
      var path :| Run(Model(b), Initial(b), path) && Exec(Model(b), Initial(b), path) == st;
      RunKeeps(b, path);
      ReachableInUniverse(b, st);
    }
    SubsetSize(states, Universe(b));
  }

  lemma ReportedMutant(b: Bounds, outcome: Outcome<Action>)
    requires WellBounded(b) && outcome.Counterexample?
    requires exists path: seq<Action> :: path != [] && outcome.trace == Labels(path)
               && Violates(Model(b), path, outcome.broken) && NoFasterViolation(Model(b), |path|)
    ensures outcome.broken == "DraftAligned" && |outcome.trace| == 4
  {
    var path: seq<Action> :| path != [] && outcome.trace == Labels(path)
               && Violates(Model(b), path, outcome.broken) && NoFasterViolation(Model(b), |path|);
    ReachableSafe(b, path);
    EarlySteps(b, path);
    RunKeeps(b, path);
    Checked(Exec(Model(b), Initial(b), path), b);
    assert |path| >= 3;
    if |path| > 3 {
      if Sound(b) {
        assert false;
      }
      MutantViolates(b);
    }
  }
}
