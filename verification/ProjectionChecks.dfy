/** What the six checks of the projection protocol say, who may change what, and which transitions are offered. */
module ProjectionChecks {
  import opened Wrappers
  import opened Explorer
  import opened Projection

  // ----- the checks -----

  predicate OutOfBounds(x: Slot, b: Bounds) {
    || x.generation < 0 || x.generation > b.generations || x.fence < 0 || x.fence > b.fences
    || x.attempt < 0 || x.attempt > b.attempts || |x.history| > b.blocks || |x.native| != |x.history|
    || (exists c :: c in x.work.results && c !in x.work.started)
    || (exists c :: c in x.work.started && c !in x.work.calls)
    || (exists c :: c in x.work.calls && c !in b.calls)
  }

  predicate HasOpenBlock(x: Slot) {
    exists block :: block in x.history && block.calls != block.results
  }

  predicate ForeignNative(s: nat, x: Slot, i: nat)
    requires i < |x.history| && i < |x.native|
  {
    && x.native[i].Some?
    && (x.native[i].value.token.scope != s || x.native[i].value.token.generation != x.generation
        || x.native[i].value.token.endpoint != x.endpoint || x.native[i].value.calls != x.history[i].calls)
  }

  predicate HasForeignNative(s: nat, x: Slot) {
    exists i: nat :: i < |x.history| && i < |x.native| && ForeignNative(s, x, i)
  }

  predicate StartsWith(whole: seq<Projected>, start: seq<Projected>) {
    |start| <= |whole| && forall i :: 0 <= i < |start| ==> start[i] == whole[i]
  }

  predicate DraftOff(s: nat, x: Slot) {
    && (x.phase == Streaming || x.phase == Tools || x.phase == Committable)
    && (x.work.token != Some(Key(s, x.generation, x.fence, x.endpoint, x.attempt)) || x.work.nativeCalls != x.work.calls)
  }

  function Tokens(history: seq<Block>): set<Key> {
    set block | block in history :: block.token
  }

  /** Fewer different tokens than blocks: exactly when two blocks share one. */
  lemma {:induction false} SharedToken(history: seq<Block>)
    ensures |Tokens(history)| <= |history|
    ensures |Tokens(history)| < |history| <==> exists i, j :: 0 <= i < j < |history| && history[i].token == history[j].token
  {
    if history != [] {
      var n := |history| - 1;
      var front, last := history[..n], history[n];
      SharedToken(front);
      assert history == front + [last];
      assert Tokens(history) == Tokens(front) + {last.token};
      LastShares(history);
    }
  }

  // Two blocks share a token in front, or one in front shares the last one's.
  lemma LastShares(history: seq<Block>)
    requires history != []
    ensures var n := |history| - 1;
      (exists i, j :: 0 <= i < j < |history| && history[i].token == history[j].token) <==>
      ((exists i, j :: 0 <= i < j < n && history[..n][i].token == history[..n][j].token) || history[n].token in Tokens(history[..n]))
  {
    var n := |history| - 1;
    if i, j :| 0 <= i < j < |history| && history[i].token == history[j].token {
      assert history[..n][i] == history[i] && history[i] in history[..n];
      if j < n {
        assert history[..n][j] == history[j];
      }
    }
    if i, j :| 0 <= i < j < n && history[..n][i].token == history[..n][j].token {
      assert history[i].token == history[j].token;
    }
    if history[n].token in Tokens(history[..n]) {
      var block :| block in history[..n] && block.token == history[n].token;
      var i :| 0 <= i < n && history[..n][i] == block;
      assert history[i].token == history[n].token;
    }
  }

  lemma TypesMean(x: Slot, b: Bounds)
    ensures OutOfBounds(x, b) <==>
      !(&& 0 <= x.generation <= b.generations && 0 <= x.fence <= b.fences && 0 <= x.attempt <= b.attempts
        && |x.history| <= b.blocks && |x.native| == |x.history|
        && x.work.results <= x.work.started <= x.work.calls <= CallNames(b))
  {
    assert (exists c :: c in x.work.results && c !in x.work.started) <==> !(x.work.results <= x.work.started);
    assert (exists c :: c in x.work.started && c !in x.work.calls) <==> !(x.work.started <= x.work.calls);
    assert (exists c :: c in x.work.calls && c !in b.calls) <==> !(x.work.calls <= CallNames(b));
  }

  lemma ClosedMeans(x: Slot)
    ensures HasOpenBlock(x) <==> exists i :: 0 <= i < |x.history| && x.history[i].calls != x.history[i].results
  {}

  lemma NativeMeans(s: nat, x: Slot)
    ensures HasForeignNative(s, x) <==>
            exists i :: 0 <= i < Min(|x.history|, |x.native|) && Misaligned(s, x, x.history[i], x.native[i])
  {
    if i: nat :| i < |x.history| && i < |x.native| && ForeignNative(s, x, i) {
      assert Misaligned(s, x, x.history[i], x.native[i]);
    }
    if i :| 0 <= i < Min(|x.history|, |x.native|) && Misaligned(s, x, x.history[i], x.native[i]) {
      assert ForeignNative(s, x, i);
    }
  }

  /** The check of a slot names the first of its six clauses that is broken, and nothing when none is. */
  lemma CheckNamesFirst(s: nat, x: Slot, b: Bounds)
    ensures CheckSlot(s, x, b) ==
      if OutOfBounds(x, b) then Some("TypeOK")
      else if HasOpenBlock(x) then Some("ClosedHistory")
      else if HasForeignNative(s, x) then Some("NativeAligned")
      else if !StartsWith(Project(s, x), x.cache) || !StartsWith(Project(s, x), x.sent) then Some("PrefixSound")
      else if DraftOff(s, x) then Some("DraftAligned")
      else if |Tokens(x.history)| < |x.history| then Some("NoDuplicateCommit")
      else None
  {
    TypesMean(x, b);
    ClosedMeans(x);
    NativeMeans(s, x);
    SharedToken(x.history);
    assert x.cache <= Project(s, x) <==> StartsWith(Project(s, x), x.cache);
    assert x.sent <= Project(s, x) <==> StartsWith(Project(s, x), x.sent);
  }

  /** A projection pairs each block with its native form, for one scope, lineage and endpoint. */
  lemma ProjectMeans(s: nat, x: Slot, i: nat)
    ensures |Project(s, x)| == if |x.history| < |x.native| then |x.history| else |x.native|
    ensures i < |x.history| && i < |x.native| ==>
      i < |Project(s, x)| && Project(s, x)[i] == Projected(s, x.generation, x.endpoint, x.history[i], x.native[i])
  {}

  /** The check of a state is that of the first slot with something to report. */
  lemma {:induction false} FirstFinding(findings: seq<Option<string>>)
    ensures FirstBroken(findings) == None <==> forall i :: 0 <= i < |findings| ==> findings[i] == None
    ensures forall i :: 0 <= i < |findings| && findings[i].Some? && (forall j :: 0 <= j < i ==> findings[j] == None) ==>
      FirstBroken(findings) == findings[i]
  {
    if findings != [] {
      FirstFinding(findings[1..]);
      assert forall i :: 1 <= i < |findings| ==> findings[i] == findings[1..][i - 1];
    }
  }

  // ----- who changes what -----

  /** Each field of a slot, and the transitions that change it. */
  lemma WhoChangesLineage(x: Slot, a: Action, b: Bounds)
    requires !a.Deliver?
    ensures var y := Local(x, a, b);
      && y.generation == x.generation + (if a.Switch? || a.Compact? then 1 else 0)
      && y.fence == x.fence + (if a.Restart? then 1 else 0)
      && y.attempt == x.attempt + (if a.Begin? then 1 else 0)
      && (y.endpoint == x.endpoint <==> !a.Switch?)
  {}

  lemma WhoChangesHistory(x: Slot, a: Action, b: Bounds)
    requires !a.Deliver? && (a.Commit? ==> x.work.token.Some?)
    ensures var y := Local(x, a, b);
      && |y.history| == (if a.Compact? then 0 else |x.history| + if a.Commit? then 1 else 0)
      && (!a.Compact? ==> y.history[..|x.history|] == x.history)
      && (a.Commit? ==> y.history[|x.history|] == Block(x.work.token.value, x.work.calls, x.work.results)
                        && |y.native| == |x.native| + 1 && y.native[..|x.native|] == x.native
                        && y.native[|x.native|] == Some(Native(x.work.token.value, x.work.nativeCalls)))
      && (a.Compact? ==> y.native == [])
      && (a.Switch? || a.Close? ==> |y.native| == |x.history| && forall i :: 0 <= i < |y.native| ==> y.native[i] == None)
      && (!(a.Commit? || a.Compact? || a.Switch? || a.Close?) ==> y.native == x.native)
  {}

  lemma WhoChangesCache(s: nat, x: Slot, a: Action, b: Bounds)
    requires !a.Deliver? && (a.Sync? ==> a.s == s)
    ensures var y := Local(x, a, b);
      && y.cache == (if a.Sync? then Project(s, x)
                     else if a.Switch? || a.Compact? || a.Evict? || a.Restart? || a.Close? then [] else x.cache)
      && y.sent == (if a.Begin? then x.cache else if a.Switch? || a.Compact? || a.Close? then [] else x.sent)
  {}

  lemma WhoChangesWork(x: Slot, a: Action, b: Bounds)
    requires !a.Deliver? && (a.Commit? ==> x.work.token.Some?)
    ensures var w, v := x.work, Local(x, a, b).work;
      && (a.CancelStream? || a.Commit? ==> v.calls == v.started == v.results == v.nativeCalls == {} && v.token == None)
      && (a.Begin? ==> v.calls == v.nativeCalls == a.cs && v.started == v.results == {}
                       && v.token == Some(Key(a.s, x.generation, x.fence, x.endpoint, x.attempt + 1)))
      && (a.StartTool? ==> v == w.(started := w.started + {a.c}))
      && (a.FinishTool? ==> v == w.(results := w.results + {a.c}))
      && (a.Repair? ==> v.calls == v.started == w.started && v.results == w.results && v.token == w.token
                        && v.nativeCalls == if b.buggy then w.nativeCalls else w.started)
      && (a.Sync? || a.Switch? || a.Compact? || a.Evict? || a.Restart? || a.Close? ==> v == w)
  {}

  /** The phase a transition leads to. */
  lemma WhoChangesPhase(x: Slot, a: Action, b: Bounds)
    requires !a.Deliver? && (a.Commit? ==> x.work.token.Some?)
    ensures Local(x, a, b).phase ==
      match a
      case Begin(_, _) => Streaming
      case Close(_) => Retired
      case CancelStream(_) => Idle
      case Commit(_) => Idle
      case FinishTool(_, c) => if x.work.calls == x.work.results + {c} then Committable else Tools
      case Repair(_) => if x.work.started == x.work.results then Committable else Tools
      case _ => x.phase
  {}

  // ----- what is offered -----

  /** The slot may take the transition now. */
  predicate MayTake(s: nat, x: Slot, a: Action, b: Bounds) {
    !a.Deliver? && a.s == s &&
    match a
    case Sync(_) => x.phase == Idle && x.cache != Project(s, x) && StartsWith(Project(s, x), x.cache)
    case Begin(_, cs) =>
      x.phase == Idle && x.cache == Project(s, x) && x.attempt < b.attempts && |x.history| < b.blocks && cs <= CallNames(b)
    case Switch(_) => x.phase == Idle && x.generation < b.generations
    case Compact(_) => x.phase == Idle && x.generation < b.generations
    case Evict(_) => x.phase == Idle && x.cache != []
    case Restart(_) => x.phase == Idle && x.fence < b.fences
    case Close(_) => x.phase == Idle
    case CancelStream(_) => x.phase == Streaming
    case StartTool(_, c) => x.phase == Tools && c in x.work.calls && c !in x.work.started
    case FinishTool(_, c) => x.phase == Tools && c in x.work.started && c !in x.work.results
    case Repair(_) => x.phase == Tools && x.work.calls != x.work.started
    case Commit(_) =>
      x.phase == Committable && x.work.calls == x.work.results == x.work.nativeCalls
      && x.work.token == Some(Key(s, x.generation, x.fence, x.endpoint, x.attempt))
  }

  lemma IdleOffers(s: nat, x: Slot, a: Action, b: Bounds)
    requires x.phase == Idle
    ensures a in IdleActions(s, x, b) <==> MayTake(s, x, a, b)
  {
    assert x.cache <= Project(s, x) <==> StartsWith(Project(s, x), x.cache);
  }

  lemma ToolsOffer(s: nat, x: Slot, a: Action, b: Bounds)
    requires x.phase == Tools
    ensures a in ToolActions(s, x) <==> MayTake(s, x, a, b)
  {}

  /** A state offers exactly the transitions its slots may take and the callbacks under way. */
  lemma OfferedIff(b: Bounds, st: State, a: Action)
    ensures a in Actions(st, b) <==>
      if a.Deliver? then a.k in st.mail && a.k.scope < |st.slots| else a.s < |st.slots| && MayTake(a.s, st.slots[a.s], a, b)
  {
    forall s | 0 <= s < |st.slots| ensures a in SlotActions(s, st.slots[s], b) <==> MayTake(s, st.slots[s], a, b) {
      SlotOffers(s, st.slots[s], a, b);
    }
  }

  lemma SlotOffers(s: nat, x: Slot, a: Action, b: Bounds)
    ensures a in SlotActions(s, x, b) <==> MayTake(s, x, a, b)
  {
    match x.phase
    case Idle => IdleOffers(s, x, a, b);
    case Tools => ToolsOffer(s, x, a, b);
    case _ =>
  }

  // ----- lineages that can be reached -----

  // One more transition of slot `s`.
  lemma OneMore(b: Bounds, path: seq<Action>, st: State, a: Action) returns (longer: seq<Action>)
    requires Run(Model(b), Initial(b), path) && Exec(Model(b), Initial(b), path) == st
    requires !a.Deliver? && !a.Begin? && a.s < |st.slots| && MayTake(a.s, st.slots[a.s], a, b)
    ensures Run(Model(b), Initial(b), longer)
    ensures Exec(Model(b), Initial(b), longer) == State(st.slots[a.s := Local(st.slots[a.s], a, b)], st.mail)
  {
    OfferedIff(b, st, a);
    ExtendRun(Model(b), Initial(b), path, a);
    longer := path + [a];
  }

  /** Every generation within the bounds is reached, from the first one on with either endpoint. */
  lemma {:induction false} LineageReached(b: Bounds, s: nat, generation: nat, endpoint: Endpoint) returns (path: seq<Action>)
    requires s < b.scopes && generation <= b.generations && (generation == 0 ==> endpoint == A)
    ensures Run(Model(b), Initial(b), path)
    ensures var st := Exec(Model(b), Initial(b), path);
      && |st.slots| == b.scopes && st.slots[s].phase == Idle
      && st.slots[s].generation == generation && st.slots[s].endpoint == endpoint
    decreases generation
  {
    if generation == 0 {
      path := [];
    } else {
      var before := if generation == 1 then A else endpoint;
      var front := LineageReached(b, s, generation - 1, before);
      var a := if before == endpoint then Compact(s) else Switch(s);
      path := OneMore(b, front, Exec(Model(b), Initial(b), front), a);
    }
  }
}
