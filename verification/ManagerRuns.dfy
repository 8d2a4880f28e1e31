/** Every interleaving of the manager's critical sections, whoever calls them and in whatever order. */
module ManagerRuns {
  import opened Wire
  import opened Manager

  /**
    A critical section entered by some goroutine. Starts and reconnect loops are named by the context or the
    number they were given; everything else may be called by anyone at any time.
   */
  datatype Event =
    | Start(profile: Profile)
    | Finish(ctx: nat, bypass: Hosts)
    | GiveUp(ctx: nat)
    | HoldRoutes(ctx: nat)
    | StopNow(manual: bool)
    | Switch(enabled: bool, profile: Profile)
    | EnterReconnect(loop: nat)
    | LeaveReconnect(loop: nat)

  /** What the calls into the routes package have left in force: a block, and setups not undone yet. */
  datatype Outside = Outside(block: Option<Hosts>, setups: nat)

  /** One call; none if it blocks while a block is in force, or undoes what is not. */
  function Effect(o: Outside, call: RouteCall): Option<Outside> {
    match call
    case Block(hosts) => if o.block.None? then Some(o.(block := Some(hosts))) else None
    case RunBlockCleanup => if o.block.Some? then Some(o.(block := None)) else None
    case RunRouteCleanup => if o.setups > 0 then Some(o.(setups := o.setups - 1)) else None
  }

  function Perform(o: Option<Outside>, calls: seq<RouteCall>): Option<Outside>
    decreases |calls|
  {
    if o.None? || calls == [] then o else Perform(Effect(o.value, calls[0]), calls[1..])
  }

  /**
    The manager, the admitted starts still between admission and commit, every admitted context with its
    profile, those that became running, and the reconnect loops between mark and clear; then what its calls
    have left in force, the starts that handed over a route cleanup, and how many cleanups were overwritten by
    a later one before they ran.
   */
  datatype State = State(m: Fields, pending: set<nat>, admitted: map<nat, Profile>, committed: set<nat>,
                         loops: set<nat>, outside: Option<Outside>, handed: set<nat>, lost: nat)

  const START := State(INITIAL, {}, map[], {}, {}, Some(Outside(None, 0)), {}, 0)

  /** A critical section: the fields change and its calls are made. */
  function Enter(s: State, r: (Fields, seq<RouteCall>)): State {
    s.(m := r.0, outside := Perform(s.outside, r.1))
  }

  /** A start's setup is in force, and its cleanup replaces the one held. */
  function Hand(s: State, ctx: nat): State {
    s.(m := s.m.(routesHeld := true),
       outside := if s.outside.Some? then Some(s.outside.value.(setups := s.outside.value.setups + 1)) else None,
       handed := s.handed + {ctx},
       lost := if s.m.routesHeld then s.lost + 1 else s.lost)
  }

  predicate Enabled(s: State, e: Event) {
    match e
    case Finish(ctx, _) => ctx in s.pending && ctx in s.admitted
    case GiveUp(ctx) => ctx in s.pending
    case HoldRoutes(ctx) => ctx in s.pending && ctx !in s.handed
    case LeaveReconnect(loop) => loop in s.loops
    case _ => true
  }

  function Step(s: State, e: Event, canBlock: bool): State
    requires Enabled(s, e)
  {
    match e
    case Start(p) =>
      var ctx, t := s.m.nextContext, Enter(s, Admit(s.m, p, canBlock));
      if Busy(s.m) then t else t.(pending := s.pending + {ctx}, admitted := s.admitted[ctx := p])
    case Finish(ctx, bypass) =>
      var p := s.admitted[ctx];
      Enter(s, Commit(s.m, ctx, p, bypass, canBlock)).(
        pending := s.pending - {ctx},
        committed := if Current(s.m, ctx, p) then s.committed + {ctx} else s.committed)
    case GiveUp(ctx) => s.(pending := s.pending - {ctx})
    case HoldRoutes(ctx) => Hand(s, ctx)
    case StopNow(manual) => Enter(s, Stop(s.m, manual, canBlock))
    case Switch(enabled, p) => Enter(s, SetKillSwitch(s.m, enabled, p, canBlock))
    case EnterReconnect(loop) =>
      var (m1, marked) := Mark(s.m);
      s.(m := m1, loops := if marked then s.loops + {loop} else s.loops)
    case LeaveReconnect(loop) => s.(m := s.m.(reconnecting := false), loops := s.loops - {loop})
  }

  datatype Outcome = Stuck | Reached(state: State)

  function After(events: seq<Event>, canBlock: bool): Outcome {
    if events == [] then Reached(START)
    else match After(events[..|events| - 1], canBlock)
      case Stuck => Stuck
      case Reached(s) =>
        var e := events[|events| - 1];
        if Enabled(s, e) then Reached(Step(s, e, canBlock)) else Stuck
  }

  // ---------- the invariants ----------

  /** The status shows this profile. */
  predicate Reports(status: Status, p: Profile) {
    && status.profileID == p.id && status.openvpn == p.openvpn
    && status.tun == p.tun && status.routeAll == p.routeAll
  }

  /** The one admitted start whose context is alive is the one the manager can cancel. */
  ghost predicate SingleLive(s: State) {
    && !(s.m.status.running && s.m.status.connecting)
    && (s.m.cancel.Some? <==> Busy(s.m))
    && (forall ctx :: ctx in s.admitted && ctx !in s.m.cancelled ==> s.m.cancel == Some(ctx))
    && (s.m.cancel.Some? ==> s.m.cancel.value in s.admitted && s.m.cancel.value !in s.m.cancelled)
    && (s.m.cancel.Some? ==> Reports(s.m.status, s.admitted[s.m.cancel.value]))
    && (s.m.cancel.Some? ==> (s.m.status.running <==> s.m.cancel.value in s.committed))
  }

  /** Bookkeeping of contexts: numbered in order, and committed or pending but not both. */
  ghost predicate Numbered(s: State) {
    && (forall ctx :: ctx in s.admitted || ctx in s.m.cancelled ==> ctx < s.m.nextContext)
    && s.pending <= s.admitted.Keys && s.committed <= s.admitted.Keys && s.pending !! s.committed
  }

  ghost predicate OneReconnectLoop(s: State) {
    && (forall a, b :: a in s.loops && b in s.loops ==> a == b)
    && (s.m.reconnecting <==> s.loops != {})
  }

  ghost predicate Safe(s: State, canBlock: bool) {
    SingleLive(s) && Numbered(s) && OneReconnectLoop(s) && KillSwitchAgrees(s.m, canBlock)
  }

  lemma StepKeeps(s: State, e: Event, canBlock: bool)
    requires Safe(s, canBlock) && Enabled(s, e)
    ensures Safe(Step(s, e, canBlock), canBlock)
  {
    hide Admit, Commit, Stop, SetKillSwitch, Perform;
    match e {
      case Start(p) => StartKeeps(s, p, canBlock);
      case Finish(ctx, bypass) => FinishKeeps(s, ctx, bypass, canBlock);
      case GiveUp(ctx) =>
      case HoldRoutes(ctx) =>
      case StopNow(manual) => StopKeeps(s, manual, canBlock);
      case Switch(enabled, p) => SwitchKeeps(s, enabled, p, canBlock);
      case EnterReconnect(loop) =>
      case LeaveReconnect(loop) =>
        assert forall a :: a in s.loops ==> a == loop;
    }
  }

  lemma StartKeeps(s: State, p: Profile, canBlock: bool)
    requires Safe(s, canBlock)
    ensures Safe(Step(s, Start(p), canBlock), canBlock)
  {
    hide Sync, Perform;
  }

  lemma FinishKeeps(s: State, ctx: nat, bypass: Hosts, canBlock: bool)
    requires Safe(s, canBlock) && Enabled(s, Finish(ctx, bypass))
    ensures Safe(Step(s, Finish(ctx, bypass), canBlock), canBlock)
  {
    hide Sync, Perform;
  }

  lemma StopKeeps(s: State, manual: bool, canBlock: bool)
    requires Safe(s, canBlock)
    ensures Safe(Step(s, StopNow(manual), canBlock), canBlock)
  {
    hide Sync, Perform;
  }

  lemma SwitchKeeps(s: State, enabled: bool, p: Profile, canBlock: bool)
    requires Safe(s, canBlock)
    ensures Safe(Step(s, Switch(enabled, p), canBlock), canBlock)
  {
    hide Sync, Switched, Perform;
  }

  /** Whatever the interleaving, all of it holds at every release of the mutex. */
  lemma {:induction false} AlwaysSafe(events: seq<Event>, canBlock: bool)
    requires After(events, canBlock).Reached?
    ensures Safe(After(events, canBlock).state, canBlock)
    decreases |events|
  {
    if events != [] {
      var fore := events[..|events| - 1];
      AlwaysSafe(fore, canBlock);
      StepKeeps(After(fore, canBlock).state, events[|events| - 1], canBlock);
    }
  }

  /**
    The commit test compares profile identifiers, not contexts, yet for a pending start it is true exactly
    when that start owns the manager.
   */
  lemma CurrentIffOwner(s: State, ctx: nat, canBlock: bool)
    requires Safe(s, canBlock) && ctx in s.pending && ctx in s.admitted
    ensures Current(s.m, ctx, s.admitted[ctx]) <==> s.m.cancel == Some(ctx)
  {
  }

  /** Cancelling is final. */
  lemma StepNeverRevives(s: State, e: Event, ctx: nat, canBlock: bool)
    requires Enabled(s, e) && ctx in s.m.cancelled && ctx !in s.committed
    ensures var t := Step(s, e, canBlock); ctx in t.m.cancelled && ctx !in t.committed
  {
    hide Admit, Commit, Stop, SetKillSwitch, Perform;
  }

  lemma {:induction false} CancelledNeverRuns(events: seq<Event>, more: seq<Event>, ctx: nat, canBlock: bool)
    requires After(events, canBlock).Reached? && After(events + more, canBlock).Reached?
    requires ctx in After(events, canBlock).state.m.cancelled && ctx !in After(events, canBlock).state.committed
    ensures var t := After(events + more, canBlock).state;
            ctx in t.m.cancelled && ctx !in t.committed && !(t.m.status.running && t.m.cancel == Some(ctx))
    decreases |more|
  {
    hide Step, Numbered, OneReconnectLoop, KillSwitchAgrees;
    AlwaysSafe(events + more, canBlock);
    if more == [] {
      assert events + more == events;
    } else {
      var n := |more| - 1;
      assert (events + more)[..|events| + n] == events + more[..n];
      CancelledNeverRuns(events, more[..n], ctx, canBlock);
      StepNeverRevives(After(events + more[..n], canBlock).state, more[n], ctx, canBlock);
    }
  }

  /** A stop leaves every start admitted before it cancelled. */
  lemma StopCancelsAll(s: State, manual: bool, canBlock: bool)
    requires Safe(s, canBlock)
    ensures var t := Step(s, StopNow(manual), canBlock);
            t.committed == s.committed && forall ctx :: ctx in s.admitted ==> ctx in t.m.cancelled
  {
    hide Sync, Perform, Numbered, OneReconnectLoop, KillSwitchAgrees;
  }

  lemma {:induction false} ReachedBefore(events: seq<Event>, more: seq<Event>, canBlock: bool)
    requires After(events + more, canBlock).Reached?
    ensures After(events, canBlock).Reached?
    decreases |more|
  {
    hide Step;
    if more == [] {
      assert events + more == events;
    } else {
      var n := |more| - 1;
      assert (events + more)[..|events| + n] == events + more[..n];
      ReachedBefore(events, more[..n], canBlock);
    }
  }

  /** A start overtaken by a stop never becomes running, whatever happened before and whatever happens afterwards. */
  lemma OvertakenNeverRuns(events: seq<Event>, manual: bool, more: seq<Event>, ctx: nat, canBlock: bool)
    requires After(events, canBlock).Reached? && ctx in After(events, canBlock).state.pending
    requires After(events + [StopNow(manual)] + more, canBlock).Reached?
    ensures var t := After(events + [StopNow(manual)] + more, canBlock).state;
            ctx in t.m.cancelled && ctx !in t.committed && !(t.m.status.running && t.m.cancel == Some(ctx))
  {
    hide Step, SingleLive, OneReconnectLoop, KillSwitchAgrees;
    var s, stopped := After(events, canBlock).state, events + [StopNow(manual)];
    AlwaysSafe(events, canBlock);
    StopCancelsAll(s, manual, canBlock);
    ReachedBefore(stopped, more, canBlock);
    assert stopped[..|stopped| - 1] == events;
    CancelledNeverRuns(stopped, more, ctx, canBlock);
  }
}
