/** The LLM projection protocol of docs/llm_projection_refactor/formal/explore_model.py.

    A slot belongs to one scope.  It drafts one assistant message at a time, with tool calls, commits the draft to
    its history together with the provider-native form, and keeps a cache that must be a prefix of the projected
    history.  `mail` holds the callbacks still under way; they may arrive arbitrarily late. */
module Projection {
  import opened Wrappers
  import opened Explorer

  datatype Endpoint = A | B
  datatype Phase = Idle | Streaming | Tools | Committable | Retired

  datatype Key = Key(scope: nat, generation: int, fence: int, endpoint: Endpoint, attempt: int)
  datatype Block = Block(token: Key, calls: set<string>, results: set<string>)
  datatype Native = Native(token: Key, calls: set<string>)
  datatype Projected = Projected(scope: nat, generation: int, endpoint: Endpoint, block: Block, native: Option<Native>)

  datatype Work = Work(
    calls: set<string>, started: set<string>, results: set<string>, nativeCalls: set<string>, token: Option<Key>)

  datatype Slot = Slot(
    generation: int, fence: int, endpoint: Endpoint, attempt: int, phase: Phase,
    history: seq<Block>, native: seq<Option<Native>>, cache: seq<Projected>, sent: seq<Projected>, work: Work)

  datatype State = State(slots: seq<Slot>, mail: set<Key>)

  datatype Bounds = Bounds(
    scopes: int, calls: seq<string>, generations: int, fences: int, attempts: int, blocks: int, buggy: bool)

  datatype Action =
    | Sync(s: nat) | Begin(s: nat, cs: set<string>) | Switch(s: nat) | Compact(s: nat) | Evict(s: nat)
    | Restart(s: nat) | Close(s: nat) | CancelStream(s: nat) | StartTool(s: nat, c: string)
    | FinishTool(s: nat, c: string) | Repair(s: nat) | Commit(s: nat) | Deliver(k: Key)

  const EmptyWork := Work({}, {}, {}, {}, None)
  const EmptySlot := Slot(0, 0, A, 0, Idle, [], [], [], [], EmptyWork)

  function CallNames(b: Bounds): set<string> {
    set c | c in b.calls
  }

  function KeyOf(s: nat, x: Slot): Key {
    Key(s, x.generation, x.fence, x.endpoint, x.attempt)
  }

  function Min(a: nat, b: nat): nat {
    if a < b then a else b
  }

  /** The history as the endpoint sees it: each block paired with its native form. */
  function Project(s: nat, x: Slot): seq<Projected> {
    seq(Min(|x.history|, |x.native|), i requires 0 <= i < Min(|x.history|, |x.native|) =>
      Projected(s, x.generation, x.endpoint, x.history[i], x.native[i]))
  }

  function Blank(n: nat): seq<Option<Native>> {
    seq(n, _ => None)
  }

  predicate Drafting(x: Slot) {
    x.phase == Streaming || x.phase == Tools || x.phase == Committable
  }

  // ----- the invariants the source checks, in the order it checks them -----

  function CheckSlot(s: nat, x: Slot, b: Bounds): Option<string> {
    var w := x.work;
    if !(&& 0 <= x.generation <= b.generations && 0 <= x.fence <= b.fences && 0 <= x.attempt <= b.attempts
         && |x.history| <= b.blocks && |x.native| == |x.history|
         && w.results <= w.started <= w.calls <= CallNames(b))
    then Some("TypeOK")
    else if exists i :: 0 <= i < |x.history| && x.history[i].calls != x.history[i].results
    then Some("ClosedHistory")
    else if exists i :: 0 <= i < Min(|x.history|, |x.native|) && Misaligned(s, x, x.history[i], x.native[i])
    then Some("NativeAligned")
    else if !(x.cache <= Project(s, x)) || !(x.sent <= Project(s, x))
    then Some("PrefixSound")
    else if Drafting(x) && !(w.token == Some(KeyOf(s, x)) && w.nativeCalls == w.calls)
    then Some("DraftAligned")
    else if exists i, j :: 0 <= i < j < |x.history| && x.history[i].token == x.history[j].token
    then Some("NoDuplicateCommit")
    else None
  }

  predicate Misaligned(s: nat, x: Slot, block: Block, native: Option<Native>) {
    && native.Some?
    && !(&& native.value.token.scope == s && native.value.token.generation == x.generation
         && native.value.token.endpoint == x.endpoint && native.value.calls == block.calls)
  }

  function FirstBroken(findings: seq<Option<string>>): Option<string> {
    if findings == [] then None else if findings[0].Some? then findings[0] else FirstBroken(findings[1..])
  }

  /** The first broken check of the first slot that has one. */
  function Check(st: State, b: Bounds): Option<string> {
    FirstBroken(seq(|st.slots|, s requires 0 <= s < |st.slots| => CheckSlot(s, st.slots[s], b)))
  }

  // ----- the transitions -----

  function Initial(b: Bounds): State {
    State(seq(if b.scopes < 0 then 0 else b.scopes, _ => EmptySlot), {})
  }

  function IdleActions(s: nat, x: Slot, b: Bounds): set<Action> {
    var p := Project(s, x);
    (if x.cache != p && x.cache <= p then {Sync(s)} else {}) +
    (if x.cache == p && x.attempt < b.attempts && |x.history| < b.blocks
     then set cs: set<string> | cs <= CallNames(b) :: Begin(s, cs) else {}) +
    (if x.generation < b.generations then {Switch(s), Compact(s)} else {}) +
    (if x.cache != [] then {Evict(s)} else {}) +
    (if x.fence < b.fences then {Restart(s)} else {}) +
    {Close(s)}
  }

  function ToolActions(s: nat, x: Slot): set<Action> {
    (set c | c in x.work.calls - x.work.started :: StartTool(s, c)) +
    (set c | c in x.work.started - x.work.results :: FinishTool(s, c)) +
    (if x.work.calls != x.work.started then {Repair(s)} else {})
  }

  function SlotActions(s: nat, x: Slot, b: Bounds): set<Action> {
    match x.phase
    case Idle => IdleActions(s, x, b)
    case Streaming => {CancelStream(s)}
    case Tools => ToolActions(s, x)
    case Committable =>
      if x.work.calls == x.work.results == x.work.nativeCalls && x.work.token == Some(KeyOf(s, x))
      then {Commit(s)} else {}
    case Retired => {}
  }

  function Actions(st: State, b: Bounds): set<Action> {
    (set s, a | 0 <= s < |st.slots| && a in SlotActions(s, st.slots[s], b) :: a) +
    (set k | k in st.mail && k.scope < |st.slots| :: Deliver(k))
  }

  /** The effect of a transition other than `Deliver` on its own slot. */
  function Local(x: Slot, a: Action, b: Bounds): Slot
    requires !a.Deliver?
  {
    var w := x.work;
    match a
    case Sync(s) => x.(cache := Project(s, x))
    case Begin(s, cs) =>
      var nx := x.(attempt := x.attempt + 1, phase := Streaming, sent := x.cache);
      nx.(work := Work(cs, {}, {}, cs, Some(KeyOf(s, nx))))
    case Switch(_) =>
      x.(generation := x.generation + 1, endpoint := if x.endpoint == A then B else A,
         native := Blank(|x.history|), cache := [], sent := [])
    case Compact(_) => x.(generation := x.generation + 1, history := [], native := [], cache := [], sent := [])
    case Evict(_) => x.(cache := [])
    case Restart(_) => x.(fence := x.fence + 1, cache := [])
    case Close(_) => x.(phase := Retired, native := Blank(|x.history|), cache := [], sent := [])
    case CancelStream(_) => x.(phase := Idle, work := EmptyWork)
    case StartTool(_, c) => x.(work := w.(started := w.started + {c}))
    case FinishTool(_, c) =>
      var rs := w.results + {c};
      x.(phase := if rs == w.calls then Committable else Tools, work := w.(results := rs))
    case Repair(_) =>
      x.(phase := if w.started == w.results then Committable else Tools,
         work := w.(calls := w.started, nativeCalls := if b.buggy then w.nativeCalls else w.started))
    case Commit(_) =>
      if w.token.None? then x else
        x.(phase := Idle, work := EmptyWork,
           history := x.history + [Block(w.token.value, w.calls, w.results)],
           native := x.native + [Some(Native(w.token.value, w.nativeCalls))])
  }

  /** What a callback does to the slot it is addressed to: nothing unless that slot still streams under its key. */
  function Delivered(x: Slot, k: Key): Slot {
    if x.phase == Streaming && k == KeyOf(k.scope, x)
    then x.(phase := if x.work.calls != {} then Tools else Committable)
    else x
  }

  function Owner(a: Action): nat {
    if a.Deliver? then a.k.scope else a.s
  }

  function Apply(st: State, a: Action, b: Bounds): State {
    var s := Owner(a);
    if s >= |st.slots| then st else
      var x := st.slots[s];
      match a
      case Deliver(k) => State(st.slots[s := Delivered(x, k)], st.mail - {k})
      case Begin(_, _) =>
        var nx := Local(x, a, b);
        State(st.slots[s := nx], st.mail + {KeyOf(s, nx)})
      case _ => State(st.slots[s := Local(x, a, b)], st.mail)
  }

  function Model(b: Bounds): System<State, Action> {
    System(Initial(b), st => Actions(st, b), (st, a) => Apply(st, a, b), st => Check(st, b))
  }
}
