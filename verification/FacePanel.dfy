/** The face panel of plugins/st7789_face/sidecar.py: which pose is shown, and who may change it.

    `Panel` is the state the sidecar keeps and the functions on it say what one call does; the class `FaceSidecar`
    updates its fields the way the source does and is proved against them.  The clock is read once a call and the two
    random draws (the next idle delay and the number that picks an idle action) are parameters. */
module FacePanel {
  import opened Wrappers

  datatype Pose =
    | Standby | Thinking | Working | Sleeping | Greeting | Curious | Love | Wink | Shock | Happy | Cheeky | Smirk
    | Snacking | Drinking | Sad | Confused | Panic | Angry | Error | Shy | Awkward | Crying | Bored | Gloomy
    | Celebrate | Agree

  predicate Base(p: Pose) {
    p == Standby || p == Thinking || p == Working || p == Sleeping
  }

  function Duration(p: Pose): real {
    match p
    case Drinking => 5.2
    case Greeting | Agree | Confused | Bored | Gloomy => 4.2
    case Snacking | Celebrate => 3.6
    case Shock => 1.1
    case _ => 2.6
  }

  predicate IdleAction(p: Pose) {
    p == Snacking || p == Drinking || p == Bored || p == Gloomy
  }

  /** The idle actions to choose from: never the last one again. */
  function Choices(last: Option<Pose>): (choices: seq<Pose>)
    ensures |choices| >= 3
    ensures forall i :: 0 <= i < |choices| ==> IdleAction(choices[i]) && last != Some(choices[i])
    ensures forall a :: IdleAction(a) && last != Some(a) ==> a in choices
  {
    match last
    case Some(Snacking) => [Drinking, Bored, Gloomy]
    case Some(Drinking) => [Snacking, Bored, Gloomy]
    case Some(Bored) => [Snacking, Drinking, Gloomy]
    case Some(Gloomy) => [Snacking, Drinking, Bored]
    case _ => [Snacking, Drinking, Bored, Gloomy]
  }

  /** `random.choice`, with the number that was drawn. */
  function Choice(last: Option<Pose>, pick: nat): (action: Pose)
    ensures IdleAction(action) && last != Some(action)
  {
    Choices(last)[pick % |Choices(last)|]
  }

  /** The command-line settings of the idle policy, in seconds. */
  datatype Config = Config(idleToSleeping: real, sleepingWake: real, actionMin: real, actionJitter: real)

  datatype Panel = Panel(
    state: Pose, base: Pose, since: real, activity: real, waking: bool, pending: Option<Pose>, holdUntil: real,
    system: Option<Pose>, lastAction: Option<Pose>, nextAction: real)

  function SetState(p: Panel, pose: Pose, hold: real, now: real): Panel {
    if Base(pose) && pose == p.state then p
    else if Base(pose) && p.waking then p.(base := pose, activity := now)
    else p.(state := pose, base := if Base(pose) then pose else p.base, since := now, activity := now,
            holdUntil := if hold != 0.0 then now + hold else 0.0)
  }

  predicate HoldActive(p: Panel, now: real) {
    p.holdUntil > now
  }

  // Commands that arrive while something else owns the panel only move the base pose.
  function MoveBase(p: Panel, pose: Pose, now: real): Panel {
    if Base(pose) then p.(base := pose, activity := now) else p
  }

  // Asleep: shock first, then settle into what arrived.
  function ShockAwake(p: Panel, pose: Pose, now: real): Panel {
    SetState(p.(base := if Base(pose) then pose else Standby, pending := if Base(pose) then None else Some(pose),
                waking := true), Shock, 0.0, now)
  }

  // Awake: a fresh expression preempts a shock in progress, a base pose only drops what waits behind it.
  function ShowAwake(p: Panel, pose: Pose, now: real): Panel {
    SetState(if !Base(pose) then p.(waking := false, pending := None)
             else if p.waking then p.(pending := None) else p, pose, 0.0, now)
  }

  // An ambient command, or a base pose asked for by hand, while nothing owns the panel.
  function ReceiveAmbient(p: Panel, pose: Pose, now: real): Panel {
    if p.base == Sleeping && pose != Sleeping then ShockAwake(p, pose, now)
    else ShowAwake(p, pose, now)
  }

  // An animation asked for by hand: it preempts everything but a system pose and holds the panel for its duration.
  function HandPlayed(p: Panel, pose: Pose, now: real): Panel {
    SetState(p.(base := if p.base == Sleeping then Standby else p.base, waking := false, pending := None),
             pose, Duration(pose), now)
  }

  // A command, once the next idle action has been put off.
  function Receive(p: Panel, pose: Pose, manual: bool, now: real): Panel {
    if p.system.Some? then MoveBase(p, pose, now)
    else if manual && !Base(pose) then HandPlayed(p, pose, now)
    else if HoldActive(p, now) then MoveBase(p, pose, now)
    else ReceiveAmbient(p, pose, now)
  }

  function ReceiveState(p: Panel, pose: Pose, manual: bool, now: real, delay: real): Panel {
    Receive(p.(nextAction := now + delay), pose, manual, now)
  }

  /** `target` is `None` for a clear. */
  function ReceiveSystem(p0: Panel, target: Option<Pose>, now: real, delay: real): Panel {
    var p := p0.(nextAction := now + delay);
    match target
    case None => if p.system.None? then p else SetState(p.(system := None), p.base, 0.0, now)
    case Some(pose) =>
      if p.system == target then p
      else SetState(p.(system := target, waking := false, pending := None), pose, 0.0, now)
  }

  function Expire(p: Panel, now: real): Panel {
    if p.system.Some? || Base(p.state) || now - p.since < Duration(p.state) then p
    else
      var q := p.(holdUntil := 0.0);
      if q.waking then
        var r := q.(waking := false, pending := None);
        if q.pending.Some? then SetState(r, q.pending.value, 0.0, now) else SetState(r, r.base, 0.0, now)
      else SetState(q, q.base, 0.0, now)
  }

  // A fidget leaves the idle clock alone.
  function Fidget(p: Panel, action: Pose, now: real): Panel {
    SetState(p, action, 0.0, now).(activity := p.activity)
  }

  function MaybeIdleAction(p: Panel, pick: nat, now: real, delay: real): Panel {
    if p.base != Standby || p.state != Standby || now < p.nextAction then p
    else
      var action := Choice(p.lastAction, pick);
      Fidget(p.(lastAction := Some(action), nextAction := now + delay), action, now)
  }

  function TickIdle(cfg: Config, p: Panel, pick: nat, now: real, delay: real): Panel {
    if p.waking || !Base(p.state) then p
    else
      var idle := now - p.activity;
      if p.base == Standby && idle >= cfg.idleToSleeping then SetState(p, Sleeping, 0.0, now)
      else if p.state == Sleeping && idle >= cfg.sleepingWake then SetState(p, Standby, 0.0, now)
      else MaybeIdleAction(p, pick, now, delay)
  }

  function Initial(now: real, delay: real): Panel {
    Panel(Standby, Standby, now, now, false, None, 0.0, None, None, now + delay)
  }

  // ----- runs -----

  datatype Event =
    | Command(now: real, delay: real, pose: Pose, manual: bool)
    | System(now: real, delay: real, target: Option<Pose>)
    | Tick(now: real, delay: real, pick: nat)

  /** What one command, or one round of the render loop, does. */
  function Step(cfg: Config, p: Panel, e: Event): Panel {
    match e
    case Command(now, delay, pose, manual) => ReceiveState(p, pose, manual, now, delay)
    case System(now, delay, target) => ReceiveSystem(p, target, now, delay)
    case Tick(now, delay, pick) => TickIdle(cfg, Expire(p, now), pick, now, delay)
  }

  function Play(cfg: Config, p: Panel, events: seq<Event>): Panel
    decreases |events|
  {
    if events == [] then p else Play(cfg, Step(cfg, p, events[0]), events[1..])
  }

  /** The clock does not run backwards. */
  predicate Timed(from: real, events: seq<Event>)
    decreases |events|
  {
    events == [] || (from <= events[0].now && Timed(events[0].now, events[1..]))
  }

  // ----- consistency in every reachable state -----

  predicate Consistent(p: Panel) {
    && (p.pending.Some? ==> p.waking && !Base(p.pending.value))
    && (p.waking ==> p.state == Shock && p.holdUntil == 0.0 && p.system.None?)
    && (p.system.None? && Base(p.state) ==> p.state == p.base)
    && Base(p.base)
    && (p.holdUntil != 0.0 ==> p.system.None? && !p.waking && !Base(p.state) && p.holdUntil == p.since + Duration(p.state))
    && (p.system.Some? && !Base(p.system.value) ==> p.state == p.system.value)
  }

  lemma StepConsistent(cfg: Config, p: Panel, e: Event)
    requires Consistent(p) && 0.0 <= p.since <= e.now
    ensures Consistent(Step(cfg, p, e)) && p.since <= Step(cfg, p, e).since <= e.now
  {
    match e
    case Command(now, delay, pose, manual) => CommandConsistent(p, pose, manual, now, delay);
    case System(now, delay, target) =>
    case Tick(now, delay, pick) =>
      ExpireConsistent(p, now);
      IdleConsistent(cfg, Expire(p, now), pick, now, delay);
  }

  lemma CommandConsistent(p: Panel, pose: Pose, manual: bool, now: real, delay: real)
    requires Consistent(p) && 0.0 <= p.since <= now
    ensures var q := ReceiveState(p, pose, manual, now, delay);
      Consistent(q) && p.since <= q.since <= now
  {
    var q := p.(nextAction := now + delay);
    assert Consistent(q);
    if q.system.Some? {
      BaseConsistent(q, pose, now);
    } else if manual && !Base(pose) {
      HandConsistent(q, pose, now);
    } else if HoldActive(q, now) {
      BaseConsistent(q, pose, now);
    } else {
      AmbientConsistent(q, pose, now);
    }
  }

  lemma BaseConsistent(p: Panel, pose: Pose, now: real)
    requires Consistent(p) && 0.0 <= p.since <= now && (p.system.Some? || HoldActive(p, now))
    ensures Consistent(MoveBase(p, pose, now)) && MoveBase(p, pose, now).since == p.since
  {}

  lemma HandConsistent(p: Panel, pose: Pose, now: real)
    requires Consistent(p) && 0.0 <= p.since <= now && p.system.None? && !Base(pose)
    ensures Consistent(HandPlayed(p, pose, now)) && HandPlayed(p, pose, now).since == now
  {}

  lemma ShockConsistent(p: Panel, pose: Pose, now: real)
    requires Consistent(p) && 0.0 <= p.since <= now && p.system.None?
    ensures Consistent(ShockAwake(p, pose, now)) && ShockAwake(p, pose, now).since == now
  {}

  lemma ShowConsistent(p: Panel, pose: Pose, now: real)
    requires Consistent(p) && 0.0 <= p.since <= now && p.system.None? && !HoldActive(p, now)
    ensures Consistent(ShowAwake(p, pose, now)) && p.since <= ShowAwake(p, pose, now).since <= now
  {}

  lemma AmbientConsistent(p: Panel, pose: Pose, now: real)
    requires Consistent(p) && 0.0 <= p.since <= now && p.system.None? && !HoldActive(p, now)
    ensures var q := ReceiveAmbient(p, pose, now);
      Consistent(q) && p.since <= q.since <= now
  {
    if p.base == Sleeping && pose != Sleeping {
      ShockConsistent(p, pose, now);
    } else {
      ShowConsistent(p, pose, now);
    }
  }

  lemma ExpireConsistent(p: Panel, now: real)
    requires Consistent(p) && 0.0 <= p.since <= now
    ensures Consistent(Expire(p, now)) && p.since <= Expire(p, now).since <= now
  {}

  lemma IdleConsistent(cfg: Config, p: Panel, pick: nat, now: real, delay: real)
    requires Consistent(p) && 0.0 <= p.since <= now
    ensures var q := TickIdle(cfg, p, pick, now, delay);
      Consistent(q) && p.since <= q.since <= now
  {}

  /** Whatever commands and ticks arrive: a pending expression waits for a wake-up shock, a shock excludes holds and
      system poses, a base pose on display is the base pose, and a non-base system pose is on display. */
  lemma {:induction false} AlwaysConsistent(cfg: Config, p: Panel, events: seq<Event>, from: real)
    requires Consistent(p) && 0.0 <= p.since <= from && Timed(from, events)
    ensures Consistent(Play(cfg, p, events))
    decreases |events|
  {
    if events != [] {
      StepConsistent(cfg, p, events[0]);
      AlwaysConsistent(cfg, Step(cfg, p, events[0]), events[1..], events[0].now);
    }
  }

  // ----- holds, system poses, settling -----

  /** A command by hand for an animation, or a system pose: the only things that may cut a hold. */
  predicate Cuts(e: Event) {
    (e.Command? && e.manual && !Base(e.pose)) || (e.System? && e.target.Some?)
  }

  /** The base pose the commands of a run ask for last. */
  function LastBase(base: Pose, events: seq<Event>): Pose
    decreases |events|
  {
    if events == [] then base
    else LastBase(if events[0].Command? && Base(events[0].pose) then events[0].pose else base, events[1..])
  }

  predicate Held(p: Panel, pose: Pose, at: real) {
    Consistent(p) && p.state == pose && p.since == at && p.system.None? && p.holdUntil == at + Duration(pose)
  }

  lemma HandRequestHolds(p: Panel, pose: Pose, now: real, delay: real)
    requires Consistent(p) && 0.0 <= p.since <= now && p.system.None? && !Base(pose)
    ensures Held(ReceiveState(p, pose, true, now, delay), pose, now)
    ensures ReceiveState(p, pose, true, now, delay).base == if p.base == Sleeping then Standby else p.base
  {}

  /** A hand-requested animation plays out: until its duration is over no ambient command, base request, clear or tick
      changes the display; meanwhile the base pose follows the commands. */
  lemma {:induction false} HoldPlaysOut(cfg: Config, p: Panel, pose: Pose, at: real, events: seq<Event>, from: real)
    requires Held(p, pose, at) && 0.0 <= at <= from && Timed(from, events)
    requires forall e :: e in events ==> !Cuts(e) && e.now < at + Duration(pose)
    ensures Held(Play(cfg, p, events), pose, at)
    ensures Play(cfg, p, events).base == LastBase(p.base, events)
    decreases |events|
  {
    if events != [] {
      assert events[0] in events;
      HoldPlaysOut(cfg, Step(cfg, p, events[0]), pose, at, events[1..], events[0].now);
    }
  }

  /** When the next idle action is due: every command puts it off. */
  function LastArmed(due: real, events: seq<Event>): real
    decreases |events|
  {
    if events == [] then due
    else LastArmed(if events[0].Tick? then due else events[0].now + events[0].delay, events[1..])
  }

  lemma {:induction false} HoldArms(cfg: Config, p: Panel, pose: Pose, at: real, events: seq<Event>, from: real)
    requires Held(p, pose, at) && 0.0 <= at <= from && Timed(from, events)
    requires forall e :: e in events ==> !Cuts(e) && e.now < at + Duration(pose)
    ensures Play(cfg, p, events).nextAction == LastArmed(p.nextAction, events)
    decreases |events|
  {
    if events != [] {
      assert events[0] in events;
      HoldPlaysOut(cfg, p, pose, at, [events[0]], from);
      HoldArms(cfg, Step(cfg, p, events[0]), pose, at, events[1..], events[0].now);
    }
  }

  predicate PositiveThresholds(cfg: Config) {
    0.0 < cfg.idleToSleeping && 0.0 < cfg.sleepingWake
  }

  // The first tick after an expression that hands over to nothing: the base pose, or a fidget that is due by now.
  lemma TickSettles(cfg: Config, p: Panel, now: real, delay: real, pick: nat)
    requires PositiveThresholds(cfg) && Consistent(p) && p.system.None? && !Base(p.state) && (!p.waking || p.pending.None?)
    requires p.since + Duration(p.state) <= now
    ensures var q := Step(cfg, p, Tick(now, delay, pick));
      && q.base == p.base && q.system.None? && !q.waking && q.pending.None? && q.holdUntil == 0.0
      && q.state == if p.base == Standby && p.nextAction <= now then Choice(p.lastAction, pick) else p.base
  {}

  /** The first tick at or after the end of the hold draws the last base pose that was asked for, unless that is standby
      and an idle action is due by then: the fidget begins in the same round. */
  lemma HoldSettles(cfg: Config, p: Panel, pose: Pose, at: real, events: seq<Event>, from: real, now: real, delay: real, pick: nat)
    requires PositiveThresholds(cfg) && Held(p, pose, at) && 0.0 <= at <= from && Timed(from, events)
    requires forall e :: e in events ==> !Cuts(e) && e.now < at + Duration(pose)
    requires at + Duration(pose) <= now
    ensures var shown, base := Step(cfg, Play(cfg, p, events), Tick(now, delay, pick)), LastBase(p.base, events);
      && shown.base == base && shown.holdUntil == 0.0
      && (shown.state == base <==> !(base == Standby && LastArmed(p.nextAction, events) <= now))
      && (shown.state != base ==> IdleAction(shown.state))
  {
    HoldPlaysOut(cfg, p, pose, at, events, from);
    HoldArms(cfg, p, pose, at, events, from);
    TickSettles(cfg, Play(cfg, p, events), now, delay, pick);
  }

  /** A non-base system pose stays on display until it is cleared or replaced. */
  lemma {:induction false} SystemPoseStays(cfg: Config, p: Panel, pose: Pose, events: seq<Event>, from: real)
    requires Consistent(p) && 0.0 <= p.since <= from && Timed(from, events)
    requires !Base(pose) && p.system == Some(pose)
    requires forall e :: e in events && e.System? ==> e.target == Some(pose)
    ensures Play(cfg, p, events).state == pose && Play(cfg, p, events).system == Some(pose)
    ensures Play(cfg, p, events).base == LastBase(p.base, events)
    decreases |events|
  {
    if events != [] {
      assert events[0] in events;
      StepConsistent(cfg, p, events[0]);
      SystemPoseStays(cfg, Step(cfg, p, events[0]), pose, events[1..], events[0].now);
    }
  }

  /** Clearing a system pose shows the base pose that was kept up to date underneath it. */
  lemma ClearShowsBase(cfg: Config, p: Panel, pose: Pose, events: seq<Event>, from: real, now: real, delay: real)
    requires Consistent(p) && 0.0 <= p.since <= from && Timed(from, events)
    requires !Base(pose) && p.system == Some(pose)
    requires forall e :: e in events && e.System? ==> e.target == Some(pose)
    ensures var shown := ReceiveSystem(Play(cfg, p, events), None, now, delay);
      shown.system.None? && shown.state == shown.base == LastBase(p.base, events)
  {
    SystemPoseStays(cfg, p, pose, events, from);
    AlwaysConsistent(cfg, p, events, from);
  }

  /** An idle action begins at a tick at `now`: nothing else is on display, or it is over by then, and the face has not
      been idle for too long. */
  predicate FidgetDue(cfg: Config, p: Panel, now: real) {
    && p.base == Standby && p.nextAction <= now
    && (p.state == Standby ==> now - p.activity < cfg.idleToSleeping)
  }

  /** With nobody interfering, two ticks, each after the expression before it is over, bring any display back to the base
      pose, unless a fidget begins at the second; one tick is enough when no expression waits behind a shock. */
  lemma TwoTicksSettle(cfg: Config, p: Panel, first: real, d1: real, k1: nat, second: real, d2: real, k2: nat)
    requires PositiveThresholds(cfg) && Consistent(p) && p.system.None? && 0.0 <= p.since
    requires p.since + Duration(p.state) <= first
    requires first + Duration(Step(cfg, p, Tick(first, d1, k1)).state) <= second
    ensures var q := Step(cfg, p, Tick(first, d1, k1));
      && (!p.waking || p.pending.None? ==> (q.state == q.base <==> !FidgetDue(cfg, p, first)))
      && var r := Step(cfg, q, Tick(second, d2, k2));
         && (r.state == r.base <==> !FidgetDue(cfg, q, second)) && (r.state != r.base ==> IdleAction(r.state))
  {
    var q := Step(cfg, p, Tick(first, d1, k1));
    StepConsistent(cfg, p, Tick(first, d1, k1));
    FirstTick(cfg, p, first, d1, k1);
    OneTickSettles(cfg, q, second, d2, k2);
    if !p.waking || p.pending.None? {
      OneTickSettles(cfg, p, first, d1, k1);
    }
  }

  // After one tick nothing waits any more, and what is on display began no later than the tick.
  lemma FirstTick(cfg: Config, p: Panel, now: real, delay: real, pick: nat)
    requires Consistent(p) && p.system.None? && 0.0 <= p.since && p.since + Duration(p.state) <= now
    ensures var q := Step(cfg, p, Tick(now, delay, pick));
      q.system.None? && !q.waking && q.since <= now
  {}

  lemma OneTickSettles(cfg: Config, p: Panel, now: real, delay: real, pick: nat)
    requires PositiveThresholds(cfg) && Consistent(p) && p.system.None? && (!p.waking || p.pending.None?)
    requires p.since + Duration(p.state) <= now
    ensures var q := Step(cfg, p, Tick(now, delay, pick));
      (q.state == q.base <==> !FidgetDue(cfg, p, now)) && (q.state != q.base ==> IdleAction(q.state))
  {
    if !Base(p.state) {
      TickSettles(cfg, p, now, delay, pick);
    }
  }

  /** A sleeping face wakes with a shock, then shows what arrived, then settles; where it settles to standby, a fidget
      that is due begins at once. */
  lemma WakesWithShock(cfg: Config, p: Panel, pose: Pose, now: real, delay: real,
                       first: real, d1: real, k1: nat, second: real, d2: real, k2: nat)
    requires PositiveThresholds(cfg) && Consistent(p) && p.state == Sleeping && p.system.None? && pose != Sleeping
    requires 0.0 <= p.since <= now && now + Duration(Shock) <= first && first + Duration(pose) <= second
    ensures var woken := ReceiveState(p, pose, false, now, delay);
      var shown := Step(cfg, woken, Tick(first, d1, k1));
      && woken.state == Shock
      && (shown.state == pose <==> !(pose == Standby && now + delay <= first))
      && (!Base(pose) ==>
            var settled := Step(cfg, shown, Tick(second, d2, k2));
            settled.base == Standby && (settled.state == Standby <==> second < now + delay))
  {
    var woken := ReceiveState(p, pose, false, now, delay);
    ShockConsistent(p.(nextAction := now + delay), pose, now);
    if Base(pose) {
      TickSettles(cfg, woken, first, d1, k1);
    } else {
      ShowsPending(cfg, woken, first, d1, k1);
      TickSettles(cfg, Step(cfg, woken, Tick(first, d1, k1)), second, d2, k2);
    }
  }

  lemma ShowsPending(cfg: Config, p: Panel, now: real, delay: real, pick: nat)
    requires Consistent(p) && p.pending.Some? && p.since + Duration(Shock) <= now
    ensures var q := Step(cfg, p, Tick(now, delay, pick));
      && Consistent(q) && q.state == p.pending.value && q.since == now && q.base == p.base && q.nextAction == p.nextAction
      && q.system.None? && !q.waking && q.pending.None?
  {}

  // ----- who decides what is on display -----

  /** The panel belongs to a system pose, or to a hold that nothing but another animation by hand may cut. */
  predicate Closed(p: Panel, pose: Pose, manual: bool, now: real) {
    p.system.Some? || (HoldActive(p, now) && !(manual && !Base(pose)))
  }

  /** A command wakes a sleeping panel, unless it is an animation by hand, which plays at once. */
  predicate Wakes(p: Panel, pose: Pose, manual: bool, now: real) {
    !Closed(p, pose, manual, now) && !(manual && !Base(pose)) && p.base == Sleeping && pose != Sleeping
  }

  /** What a command shows. */
  lemma CommandShows(p: Panel, pose: Pose, manual: bool, now: real, delay: real)
    requires Consistent(p)
    ensures ReceiveState(p, pose, manual, now, delay).state ==
      if Closed(p, pose, manual, now) || (Base(pose) && p.waking) then p.state
      else if Wakes(p, pose, manual, now) then Shock else pose
  {
    if !Closed(p, pose, manual, now) && !(manual && !Base(pose)) {
      AmbientShows(p.(nextAction := now + delay), pose, now);
    }
  }

  /** What a command leaves underneath. */
  lemma CommandBase(p: Panel, pose: Pose, manual: bool, now: real, delay: real)
    requires Consistent(p)
    ensures ReceiveState(p, pose, manual, now, delay).base ==
      if Base(pose) then pose else if !Closed(p, pose, manual, now) && p.base == Sleeping then Standby else p.base
  {
    if !Closed(p, pose, manual, now) && !(manual && !Base(pose)) {
      AmbientShows(p.(nextAction := now + delay), pose, now);
    }
  }

  /** What a command never touches, and that it puts off the next idle action. */
  lemma CommandLeaves(p: Panel, pose: Pose, manual: bool, now: real, delay: real)
    requires Consistent(p)
    ensures var q := ReceiveState(p, pose, manual, now, delay);
      q.system == p.system && q.lastAction == p.lastAction && q.nextAction == now + delay
  {
    var q := p.(nextAction := now + delay);
    if q.system.Some? {
      BaseLeaves(q, pose, now);
    } else if manual && !Base(pose) {
      HandLeaves(q, pose, now);
    } else if HoldActive(q, now) {
      BaseLeaves(q, pose, now);
    } else {
      AmbientShows(q, pose, now);
    }
  }

  lemma BaseLeaves(p: Panel, pose: Pose, now: real)
    ensures var q := MoveBase(p, pose, now);
      q.system == p.system && q.lastAction == p.lastAction && q.nextAction == p.nextAction
  {}

  lemma HandLeaves(p: Panel, pose: Pose, now: real)
    ensures var q := HandPlayed(p, pose, now);
      q.system == p.system && q.lastAction == p.lastAction && q.nextAction == p.nextAction
  {}

  // Where nothing owns the panel.
  lemma AmbientShows(p: Panel, pose: Pose, now: real)
    requires Consistent(p) && p.system.None?
    ensures var q, wakes := ReceiveAmbient(p, pose, now), p.base == Sleeping && pose != Sleeping;
      && q.state == (if Base(pose) && p.waking then p.state else if wakes then Shock else pose)
      && q.base == (if Base(pose) then pose else if p.base == Sleeping then Standby else p.base)
      && q.system == p.system && q.lastAction == p.lastAction && q.nextAction == p.nextAction
  {}

  lemma AmbientWakes(p: Panel, pose: Pose, now: real)
    requires Consistent(p) && p.system.None?
    ensures var q, wakes := ReceiveAmbient(p, pose, now), p.base == Sleeping && pose != Sleeping;
      && q.waking == (wakes || (Base(pose) && p.waking))
      && q.pending == (if wakes && !Base(pose) then Some(pose) else None)
  {}

  /** Whether a shock goes on, and what waits behind it. */
  lemma CommandWakes(p: Panel, pose: Pose, manual: bool, now: real, delay: real)
    requires Consistent(p)
    ensures var q, closed, wakes := ReceiveState(p, pose, manual, now, delay), Closed(p, pose, manual, now), Wakes(p, pose, manual, now);
      && q.waking == (if closed then p.waking else wakes || (Base(pose) && p.waking))
      && q.pending == (if closed then p.pending else if wakes && !Base(pose) then Some(pose) else None)
  {
    if !Closed(p, pose, manual, now) && !(manual && !Base(pose)) {
      AmbientWakes(p.(nextAction := now + delay), pose, now);
    }
  }

  /** Only an animation by hand leaves a hold behind. */
  lemma CommandHolds(p: Panel, pose: Pose, manual: bool, now: real, delay: real)
    requires Consistent(p)
    ensures ReceiveState(p, pose, manual, now, delay).holdUntil ==
      if Closed(p, pose, manual, now) then p.holdUntil else if manual && !Base(pose) then now + Duration(pose) else 0.0
  {}

  /** A command that shows something new, or any base pose underneath a hold or a system pose, starts the idle clock again. */
  lemma CommandClocks(p: Panel, pose: Pose, manual: bool, now: real, delay: real)
    requires Consistent(p)
    ensures ReceiveState(p, pose, manual, now, delay).activity ==
      if Closed(p, pose, manual, now) then (if Base(pose) then now else p.activity)
      else if Base(pose) && pose == p.state then p.activity else now
  {
    var q := p.(nextAction := now + delay);
    if !Closed(p, pose, manual, now) && !(manual && !Base(pose)) {
      AmbientClocks(q, pose, now);
    }
  }

  lemma AmbientClocks(p: Panel, pose: Pose, now: real)
    requires Consistent(p) && p.system.None?
    ensures ReceiveAmbient(p, pose, now).activity == if Base(pose) && pose == p.state then p.activity else now
  {}

  /** A system pose takes the display at once and ends hold and shock; clearing it shows the base pose. */
  lemma SystemEffects(p: Panel, target: Option<Pose>, now: real, delay: real)
    requires Consistent(p)
    ensures var q := ReceiveSystem(p, target, now, delay);
      && q.system == target && q.nextAction == now + delay
      && (target == p.system ==> q == p.(nextAction := now + delay))
      && (target != p.system && target.Some? ==> q.state == target.value && !q.waking && q.pending.None? && q.holdUntil == 0.0)
      && (target != p.system && target.None? ==> q.state == q.base == p.base)
  {}

  /** A sleeping panel wakes by itself exactly when it has not been active for the wake time, and the clock starts again. */
  lemma SleeperWakesIff(cfg: Config, p: Panel, now: real, delay: real, pick: nat)
    requires PositiveThresholds(cfg) && Consistent(p) && p.system.None? && p.state == Sleeping
    ensures var q := Step(cfg, p, Tick(now, delay, pick));
      if now - p.activity >= cfg.sleepingWake
      then q.state == q.base == Standby && q.since == q.activity == now && !q.waking
      else q == p
  {}

  /** Left alone, a sleeping panel sleeps on until the wake time has passed, and the first tick after that wakes it. */
  lemma {:induction false} SleepsUntilWake(cfg: Config, p: Panel, events: seq<Event>, last: Event)
    requires PositiveThresholds(cfg) && Consistent(p) && p.system.None? && p.state == Sleeping
    requires forall e :: e in events ==> e.Tick? && e.now < p.activity + cfg.sleepingWake
    requires last.Tick? && p.activity + cfg.sleepingWake <= last.now
    ensures Play(cfg, p, events) == p && Step(cfg, p, last).state == Standby
    decreases |events|
  {
    SleeperWakesIff(cfg, p, last.now, last.delay, last.pick);
    if events != [] {
      var e := events[0];
      assert e in events;
      SleeperWakesIff(cfg, p, e.now, e.delay, e.pick);
      SleepsUntilWake(cfg, p, events[1..], last);
    }
  }

  /** The shock is the shortest expression, the drink the longest. */
  lemma DurationRange(pose: Pose)
    ensures 1.1 == Duration(Shock) <= Duration(pose) <= Duration(Drinking) == 5.2
  {}

  // ----- fidgets -----

  /** The idle action a tick begins, if it begins one: standby is on display, a fidget is due, and it is not yet time to
      sleep. */
  function Begun(cfg: Config, p: Panel, e: Event): seq<Pose> {
    match e
    case Tick(now, _, pick) =>
      var q := Expire(p, now);
      if !q.waking && q.state == Standby && FidgetDue(cfg, q, now) then [Choice(q.lastAction, pick)] else []
    case _ => []
  }

  /** The idle actions of a run, in order. */
  function Fidgets(cfg: Config, p: Panel, events: seq<Event>): seq<Pose>
    decreases |events|
  {
    if events == [] then [] else Begun(cfg, p, events[0]) + Fidgets(cfg, Step(cfg, p, events[0]), events[1..])
  }

  /** A tick that begins an idle action shows it and remembers it; nothing else touches the memory. */
  lemma TickBegins(cfg: Config, p: Panel, e: Event)
    ensures var q, begun := Step(cfg, p, e), Begun(cfg, p, e);
      if begun == [] then q.lastAction == p.lastAction
      else begun == [q.state] && q.lastAction == Some(q.state) && IdleAction(q.state) && p.lastAction != q.lastAction
  {
    CommandLeavesLast(p, e);
  }

  lemma CommandLeavesLast(p: Panel, e: Event)
    ensures match e
      case Command(now, delay, pose, manual) => ReceiveState(p, pose, manual, now, delay).lastAction == p.lastAction
      case System(now, delay, target) => ReceiveSystem(p, target, now, delay).lastAction == p.lastAction
      case Tick(now, _, _) => Expire(p, now).lastAction == p.lastAction
  {}

  /** The same idle action never plays twice in a row, whatever happens in between. */
  lemma {:induction false} NeverTwiceInARow(cfg: Config, p: Panel, events: seq<Event>)
    ensures var f := Fidgets(cfg, p, events);
      && (forall i :: 0 <= i < |f| ==> IdleAction(f[i]))
      && (forall i :: 0 <= i < |f| - 1 ==> f[i] != f[i + 1])
      && (|f| > 0 ==> p.lastAction != Some(f[0]))
    decreases |events|
  {
    if events != [] {
      TickBegins(cfg, p, events[0]);
      NeverTwiceInARow(cfg, Step(cfg, p, events[0]), events[1..]);
    }
  }

  /** A standby panel at a tick: asleep after too long, else fidgeting if that is due, else as before.  A fidget leaves the
      idle clock alone; it is its end, at a later tick, that starts the clock again. */
  lemma StandbyTick(cfg: Config, p: Panel, now: real, delay: real, pick: nat)
    requires p.system.None? && p.state == p.base == Standby && !p.waking
    ensures var q := Step(cfg, p, Tick(now, delay, pick));
      if now - p.activity >= cfg.idleToSleeping then
        q.state == q.base == Sleeping && q.since == q.activity == now
      else if p.nextAction <= now then
        q.state == Choice(p.lastAction, pick) && q.base == Standby && q.since == now && q.activity == p.activity
        && q.nextAction == now + delay && q.lastAction == Some(q.state)
      else q == p
  {}

  /** The end of a fidget counts as activity. */
  lemma FidgetEnds(cfg: Config, p: Panel, now: real, delay: real, pick: nat)
    requires PositiveThresholds(cfg) && p.system.None? && !Base(p.state) && p.base == Standby && !p.waking
    ensures var q := Step(cfg, p, Tick(now, delay, pick));
      if now - p.since < Duration(p.state) then q == p
      else q.activity == now && q.base == Standby && (q.state == Standby <==> now < p.nextAction)
  {}

  // ----- drifting to sleep -----

  /** A delay `_idle_action_delay` can draw. */
  predicate Drawn(cfg: Config, delay: real) {
    cfg.actionMin <= delay <= cfg.actionMin + cfg.actionJitter
  }

  /** Only ticks, with idle delays the settings allow. */
  predicate Silent(cfg: Config, from: real, events: seq<Event>)
    decreases |events|
  {
    events == [] ||
    (events[0].Tick? && Drawn(cfg, events[0].delay) && from <= events[0].now && Silent(cfg, events[0].now, events[1..]))
  }

  predicate ValidConfig(cfg: Config) {
    PositiveThresholds(cfg) && 0.0 <= cfg.actionMin && 0.0 <= cfg.actionJitter
  }

  ghost predicate Sleeps(cfg: Config, p: Panel, events: seq<Event>) {
    exists n :: 0 <= n <= |events| && Play(cfg, p, events[..n]).state == Sleeping
  }

  function LastTime(from: real, events: seq<Event>): real {
    if events == [] then from else events[|events|-1].now
  }

  // A standby face that has not been idle for long and whose next fidget is far away.
  predicate Resting(p: Panel, delay: real) {
    p.system.None? && p.state == p.base == Standby && !p.waking && p.activity + delay <= p.nextAction
  }

  /** While no fidget can come before the threshold, the face falls asleep at the first tick after it. */
  lemma {:induction false} RestingSleeps(cfg: Config, p: Panel, events: seq<Event>, from: real)
    requires Resting(p, cfg.idleToSleeping) && from < p.activity + cfg.idleToSleeping <= LastTime(from, events)
    requires Silent(cfg, from, events)
    ensures Sleeps(cfg, p, events)
    decreases |events|
  {
    var e := events[0];
    var q := Step(cfg, p, e);
    if e.now < p.activity + cfg.idleToSleeping {
      assert q == p;
      assert LastTime(e.now, events[1..]) == LastTime(from, events);
      RestingSleeps(cfg, q, events[1..], e.now);
      SleepsLater(cfg, p, events);
    } else {
      assert q.state == Sleeping;
      assert Play(cfg, p, events[..1]) == q by {
        assert events[..1] == [e] && [e][1..] == [];
      }
    }
  }

  lemma SleepsLater(cfg: Config, p: Panel, events: seq<Event>)
    requires events != [] && Sleeps(cfg, Step(cfg, p, events[0]), events[1..])
    ensures Sleeps(cfg, p, events)
  {
    var n :| 0 <= n <= |events[1..]| && Play(cfg, Step(cfg, p, events[0]), events[1..][..n]).state == Sleeping;
    assert events[..n + 1][0] == events[0] && events[..n + 1][1..] == events[1..][..n];
    assert Play(cfg, p, events[..n + 1]).state == Sleeping;
  }

  // One fidget before the threshold, and a tick after its end: the idle clock starts again.
  function Restless(cfg: Config, now: real): seq<Event> {
    var begun := now + cfg.actionMin;
    var over := begun + 6.0;
    [Tick(begun, cfg.actionMin, 0), Tick(if over < now + cfg.idleToSleeping then now + cfg.idleToSleeping else over, cfg.actionMin, 0)]
  }

  lemma RestlessStaysAwake(cfg: Config, now: real)
    requires ValidConfig(cfg) && cfg.actionMin < cfg.idleToSleeping
    ensures var events, p := Restless(cfg, now), Initial(now, cfg.actionMin);
      && Silent(cfg, now, events) && LastTime(now, events) >= now + cfg.idleToSleeping
      && !Sleeps(cfg, p, events)
  {
    var events, p := Restless(cfg, now), Initial(now, cfg.actionMin);
    var q := Step(cfg, p, events[0]);
    assert events[1..] == [events[1]] && events[1..][1..] == [];
    assert q.state == Snacking && q.base == Standby && q.since == now + cfg.actionMin && q.system.None? && !q.waking;
    var r := Step(cfg, q, events[1]);
    assert r.state != Sleeping;
    forall n | 0 <= n <= |events| ensures Play(cfg, p, events[..n]).state != Sleeping {
      if n == 1 {
        assert events[..1] == [events[0]] && [events[0]][1..] == [];
      } else if n == 2 {
        assert events[..2] == events;
        assert Play(cfg, p, events) == Play(cfg, q, [events[1]]) == Play(cfg, r, []);
      }
    }
  }

  ghost predicate SilenceSleeps(cfg: Config, now: real) {
    forall delay, events :: Drawn(cfg, delay) && Silent(cfg, now, events) && LastTime(now, events) >= now + cfg.idleToSleeping ==>
      Sleeps(cfg, Initial(now, delay), events)
  }

  /** The source means a fidget to leave the idle clock alone, so that a silent face always falls asleep.  The end of a
      fidget goes through `set_state` and starts that clock again: the promise holds if and only if the settings let no
      fidget come before the threshold. */
  lemma SilenceSleepsIff(cfg: Config, now: real)
    requires ValidConfig(cfg)
    ensures SilenceSleeps(cfg, now) <==> cfg.actionMin >= cfg.idleToSleeping
  {
    if cfg.actionMin >= cfg.idleToSleeping {
      forall delay, events | Drawn(cfg, delay) && Silent(cfg, now, events) && LastTime(now, events) >= now + cfg.idleToSleeping
        ensures Sleeps(cfg, Initial(now, delay), events)
      {
        RestingSleeps(cfg, Initial(now, delay), events, now);
      }
    } else {
      RestlessStaysAwake(cfg, now);
      assert Drawn(cfg, cfg.actionMin);
    }
  }

  // ----- never falling asleep -----

  /** The render loop ticks at least every `gap` seconds. */
  predicate Frequent(from: real, gap: real, events: seq<Event>)
    decreases |events|
  {
    events == [] || (events[0].now <= from + gap && Frequent(events[0].now, gap, events[1..]))
  }

  /** Every idle delay the settings can draw leaves a tick before the face has been idle for too long. */
  predicate OftenEnough(cfg: Config, gap: real) {
    gap < cfg.idleToSleeping && cfg.actionMin + cfg.actionJitter + gap <= cfg.idleToSleeping
  }

  // A standby face between fidgets, or one that is fidgeting, last looked at at `at`.
  predicate Fidgety(p: Panel, delay: real, at: real) {
    && p.system.None? && p.base == Standby && !p.waking
    && if p.state == Standby then p.activity <= at && (p.activity == at || at < p.nextAction) && p.nextAction <= p.activity + delay
       else !Base(p.state) && p.since <= at && p.nextAction <= p.since + delay
  }

  lemma FidgetStep(cfg: Config, p: Panel, e: Event, gap: real, at: real)
    requires ValidConfig(cfg) && OftenEnough(cfg, gap)
    requires Fidgety(p, cfg.actionMin + cfg.actionJitter, at) && Silent(cfg, at, [e]) && Frequent(at, gap, [e])
    ensures Fidgety(Step(cfg, p, e), cfg.actionMin + cfg.actionJitter, e.now)
  {}

  /** A fidgeting standby face stays awake, however long the silence. */
  lemma {:induction false} FidgetsPreventSleep(cfg: Config, p: Panel, events: seq<Event>, gap: real, at: real)
    requires ValidConfig(cfg) && OftenEnough(cfg, gap)
    requires Fidgety(p, cfg.actionMin + cfg.actionJitter, at) && Silent(cfg, at, events) && Frequent(at, gap, events)
    ensures Play(cfg, p, events).state != Sleeping
    decreases |events|
  {
    if events != [] {
      FidgetStep(cfg, p, events[0], gap, at);
      FidgetsPreventSleep(cfg, Step(cfg, p, events[0]), events[1..], gap, events[0].now);
    }
  }

  lemma OneGapLess(span: real, gap: real)
    requires 0.0 < gap
    ensures (span - gap) / gap == span / gap - 1.0
  {
    var m, n := (span - gap) / gap, span / gap;
    assert m * gap == span - gap && n * gap == span;
    ZeroFactor(m - (n - 1.0), gap);
  }

  lemma ZeroFactor(x: real, gap: real)
    requires 0.0 < gap && x * gap == 0.0
    ensures x == 0.0
  {
    if x > 0.0 {
      Product(x, gap);
    } else if x < 0.0 {
      Product(-x, gap);
    }
  }

  lemma Product(x: real, y: real)
    requires 0.0 < x && 0.0 < y
    ensures 0.0 < x * y
  {}

  // Ticks at most `gap` apart up to `to`, before the fidget is due, and one more that finds the face idle for too long.
  lemma {:induction false} SleepyTicks(cfg: Config, p: Panel, from: real, to: real, gap: real) returns (events: seq<Event>)
    requires ValidConfig(cfg) && Resting(p, 0.0) && p.activity <= from <= to <= p.activity + cfg.idleToSleeping <= to + gap && 0.0 < gap
    requires from < to ==> to < p.nextAction && to < p.activity + cfg.idleToSleeping
    ensures Silent(cfg, from, events) && Frequent(from, gap, events) && Play(cfg, p, events).state == Sleeping
    decreases ((to - from) / gap).Floor, if from < to then 1 else 0
  {
    var at := if from == to then p.activity + cfg.idleToSleeping else if to <= from + gap then to else from + gap;
    var e := Tick(at, cfg.actionMin, 0);
    if from == to {
      events := [e];
      assert Step(cfg, p, e).state == Sleeping && events[1..] == [];
      assert Play(cfg, p, events) == Play(cfg, Step(cfg, p, e), []);
    } else {
      assert Step(cfg, p, e) == p;
      if at < to {
        OneGapLess(to - from, gap);
      } else {
        assert (to - at) / gap == 0.0 <= (to - from) / gap;
      }
      var rest := SleepyTicks(cfg, p, at, to, gap);
      events := [e] + rest;
      assert events[1..] == rest;
    }
  }

  ghost predicate NeverSleeps(cfg: Config, now: real, gap: real) {
    forall delay, events :: Drawn(cfg, delay) && Silent(cfg, now, events) && Frequent(now, gap, events) ==>
      Play(cfg, Initial(now, delay), events).state != Sleeping
  }

  /** With ticks at most `gap` apart, a silent face never falls asleep if and only if every fidget the settings can draw
      comes, with the tick that plays it, before the threshold. */
  lemma NeverSleepsIff(cfg: Config, now: real, gap: real)
    requires ValidConfig(cfg) && 0.0 < gap
    ensures NeverSleeps(cfg, now, gap) <==> OftenEnough(cfg, gap)
  {
    var longest := cfg.actionMin + cfg.actionJitter;
    if OftenEnough(cfg, gap) {
      forall delay, events | Drawn(cfg, delay) && Silent(cfg, now, events) && Frequent(now, gap, events)
        ensures Play(cfg, Initial(now, delay), events).state != Sleeping
      {
        FidgetsPreventSleep(cfg, Initial(now, delay), events, gap, now);
      }
    } else {
      var to := if gap < cfg.idleToSleeping then now + cfg.idleToSleeping - gap else now;
      var events := SleepyTicks(cfg, Initial(now, longest), now, to, gap);
      assert Drawn(cfg, longest);
    }
  }

  // ----- the object -----

  class FaceSidecar {
    const cfg: Config
    var state: Pose
    var base: Pose
    var stateSince: real
    var lastActivity: real
    var waking: bool
    var pending: Option<Pose>
    var holdUntil: real
    var systemState: Option<Pose>
    var lastIdleAction: Option<Pose>
    var nextIdleActionAt: real

    function View(): Panel
      reads this
    {
      Panel(state, base, stateSince, lastActivity, waking, pending, holdUntil, systemState, lastIdleAction, nextIdleActionAt)
    }

    constructor (cfg: Config, now: real, delay: real)
      requires 0.0 <= now
      ensures this.cfg == cfg && View() == Initial(now, delay) && Consistent(View())
    {
      this.cfg := cfg;
      state, base, stateSince, lastActivity := Standby, Standby, now, now;
      waking, pending, holdUntil, systemState := false, None, 0.0, None;
      lastIdleAction, nextIdleActionAt := None, now + delay;
    }

    method DoSetState(pose: Pose, hold: real, now: real)
      modifies this
      ensures View() == SetState(old(View()), pose, hold, now)
    {
      if Base(pose) {
        if pose == state {
          return;
        }
        base := pose;
        lastActivity := now;
        if waking {
          return;
        }
      }
      state, stateSince, lastActivity := pose, now, now;
      holdUntil := if hold != 0.0 then now + hold else 0.0;
    }

    method DoReceiveState(pose: Pose, manual: bool, now: real, delay: real)
      modifies this
      ensures View() == ReceiveState(old(View()), pose, manual, now, delay)
    {
      nextIdleActionAt := now + delay;
      assert View() == old(View()).(nextAction := now + delay);
      DoReceive(pose, manual, now);
    }

    method DoReceive(pose: Pose, manual: bool, now: real)
      modifies this
      ensures View() == Receive(old(View()), pose, manual, now)
    {
      if systemState.Some? {
        KeepBase(pose, now);
      } else if manual && !Base(pose) {
        PlayByHand(pose, now);
      } else if holdUntil > now {
        KeepBase(pose, now);
      } else {
        DoReceiveAmbient(pose, now);
      }
    }

    method KeepBase(pose: Pose, now: real)
      modifies this
      ensures View() == MoveBase(old(View()), pose, now)
    {
      if Base(pose) {
        base, lastActivity := pose, now;
      }
    }

    method PlayByHand(pose: Pose, now: real)
      modifies this
      ensures View() == HandPlayed(old(View()), pose, now)
    {
      if base == Sleeping {
        base := Standby;
      }
      waking, pending := false, None;
      DoSetState(pose, Duration(pose), now);
    }

    // The rest of `DoReceiveState`: nothing owns the panel.
    method DoReceiveAmbient(pose: Pose, now: real)
      modifies this
      ensures View() == ReceiveAmbient(old(View()), pose, now)
    {
      if base == Sleeping && pose != Sleeping {
        WakeUp(pose, now);
      } else {
        Show(pose, now);
      }
    }

    method Show(pose: Pose, now: real)
      modifies this
      ensures View() == ShowAwake(old(View()), pose, now)
    {
      if Base(pose) {
        if waking {
          pending := None;
        }
      } else {
        waking, pending := false, None;
      }
      DoSetState(pose, 0.0, now);
    }

    method WakeUp(pose: Pose, now: real)
      modifies this
      ensures View() == ShockAwake(old(View()), pose, now)
    {
      base := if Base(pose) then pose else Standby;
      pending := if Base(pose) then None else Some(pose);
      waking := true;
      DoSetState(Shock, 0.0, now);
    }

    method DoReceiveSystemState(target: Option<Pose>, now: real, delay: real)
      modifies this
      ensures View() == ReceiveSystem(old(View()), target, now, delay)
    {
      nextIdleActionAt := now + delay;
      match target
      case None =>
        if systemState.None? {
          return;
        }
        systemState := None;
        DoSetState(base, 0.0, now);
      case Some(pose) =>
        if target == systemState {
          return;
        }
        systemState := target;
        waking, pending := false, None;
        DoSetState(pose, 0.0, now);
    }

    method ExpireExpression(now: real)
      modifies this
      ensures View() == Expire(old(View()), now)
    {
      if systemState.Some? || Base(state) || now - stateSince < Duration(state) {
        return;
      }
      holdUntil := 0.0;
      if waking {
        waking := false;
        var next := pending;
        pending := None;
        if next.Some? {
          DoSetState(next.value, 0.0, now);
          return;
        }
      }
      DoSetState(base, 0.0, now);
    }

    method DoMaybeIdleAction(pick: nat, now: real, delay: real)
      modifies this
      ensures View() == MaybeIdleAction(old(View()), pick, now, delay)
    {
      if base != Standby || state != Standby || now < nextIdleActionAt {
        return;
      }
      var action := Choice(lastIdleAction, pick);
      lastIdleAction := Some(action);
      nextIdleActionAt := now + delay;
      assert View() == old(View()).(lastAction := Some(action), nextAction := now + delay);
      DoFidget(action, now);
    }

    method DoFidget(action: Pose, now: real)
      modifies this
      ensures View() == Fidget(old(View()), action, now)
    {
      var activity := lastActivity;
      DoSetState(action, 0.0, now);
      lastActivity := activity;
    }

    method DoTickIdle(pick: nat, now: real, delay: real)
      modifies this
      ensures View() == TickIdle(cfg, old(View()), pick, now, delay)
    {
      if waking || !Base(state) {
        return;
      }
      var idle := now - lastActivity;
      if base == Standby && idle >= cfg.idleToSleeping {
        DoSetState(Sleeping, 0.0, now);
      } else if state == Sleeping && idle >= cfg.sleepingWake {
        DoSetState(Standby, 0.0, now);
      } else {
        DoMaybeIdleAction(pick, now, delay);
      }
    }

    /** One event of the render loop or the socket; keeps the panel consistent. */
    method Handle(e: Event)
      requires Consistent(View()) && 0.0 <= stateSince <= e.now
      modifies this
      ensures View() == Step(cfg, old(View()), e)
      ensures Consistent(View()) && 0.0 <= stateSince <= e.now
    {
      StepConsistent(cfg, View(), e);
      match e
      case Command(now, delay, pose, manual) => DoReceiveState(pose, manual, now, delay);
      case System(now, delay, target) => DoReceiveSystemState(target, now, delay);
      case Tick(now, delay, pick) =>
        ExpireExpression(now);
        DoTickIdle(pick, now, delay);
    }
  }
}
