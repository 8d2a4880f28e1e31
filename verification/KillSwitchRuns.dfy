/** What a run of the manager does to the outside world, told from the history of the run alone. */
module KillSwitchRuns {
  import opened Wire
  import opened Manager
  import opened ManagerRuns

  // ---------- the history ----------

  /** No admitted start has a live context. */
  ghost predicate Quiet(s: State) {
    forall ctx :: ctx in s.admitted ==> ctx in s.m.cancelled
  }

  /** The switch as it was last set. */
  function SwitchedOn(events: seq<Event>): bool {
    if events == [] then false
    else
      match events[|events| - 1]
      case Switch(enabled, _) => enabled
      case _ => SwitchedOn(events[..|events| - 1])
  }

  /** The profile last started or named when the switch was turned on. */
  ghost function LastNamed(events: seq<Event>, canBlock: bool): Profile
    requires After(events, canBlock).Reached?
  {
    if events == [] then NO_PROFILE
    else
      var fore := events[..|events| - 1];
      match events[|events| - 1]
      case Start(p) => if Quiet(After(fore, canBlock).state) then p else LastNamed(fore, canBlock)
      case Switch(enabled, p) => if enabled && p.id != "" then p else LastNamed(fore, canBlock)
      case _ => LastNamed(fore, canBlock)
  }

  /**
    The hosts that stay reachable: those of the latest start that was admitted, of the latest one that finished
    before anybody stopped it, or of the profile the switch was last turned on for, whichever came last.
   */
  ghost function AllowedHosts(events: seq<Event>, canBlock: bool): Hosts
    requires After(events, canBlock).Reached?
  {
    if events == [] then []
    else
      var fore := events[..|events| - 1];
      var s, hosts := After(fore, canBlock).state, AllowedHosts(fore, canBlock);
      match events[|events| - 1]
      case Start(p) => if Quiet(s) then p.controlHosts else hosts
      case Finish(ctx, bypass) => if ctx !in s.m.cancelled then bypass else hosts
      case Switch(enabled, p) =>
        if enabled && p.id != "" then p.controlHosts
        else if enabled && LastNamed(fore, canBlock).id != "" then LastNamed(fore, canBlock).controlHosts
        else hosts
      case _ => hosts
  }

  /** The user has stopped the connection and nothing has been started since. */
  ghost predicate StoppedByUser(events: seq<Event>, canBlock: bool)
    requires After(events, canBlock).Reached?
  {
    events != [] &&
    var fore := events[..|events| - 1];
    match events[|events| - 1]
    case StopNow(manual) => manual || StoppedByUser(fore, canBlock)
    case Start(_) => !Quiet(After(fore, canBlock).state) && StoppedByUser(fore, canBlock)
    case _ => StoppedByUser(fore, canBlock)
  }

  /** The fields are what the history says. */
  ghost predicate Remembers(s: State, events: seq<Event>, canBlock: bool)
    requires After(events, canBlock).Reached?
  {
    && s.m.killSwitch == SwitchedOn(events)
    && s.m.lastProfile == LastNamed(events, canBlock)
    && s.m.hosts == AllowedHosts(events, canBlock)
    && s.m.manualStop == StoppedByUser(events, canBlock)
  }

  lemma QuietIffIdle(s: State, canBlock: bool)
    requires Safe(s, canBlock)
    ensures Quiet(s) <==> !Busy(s.m)
  {
  }

  /** The four fields that only the history decides. */
  datatype Choices = Choices(killSwitch: bool, lastProfile: Profile, hosts: Hosts, manualStop: bool)

  function ChoicesOf(m: Fields): Choices {
    Choices(m.killSwitch, m.lastProfile, m.hosts, m.manualStop)
  }

  lemma StepChooses(s: State, e: Event, canBlock: bool)
    requires Enabled(s, e)
    ensures var c, d := ChoicesOf(s.m), ChoicesOf(Step(s, e, canBlock).m);
            match e
            case Start(p) =>
              d == if Busy(s.m) then c else Choices(c.killSwitch, p, p.controlHosts, false)
            case Finish(ctx, bypass) => d == if Current(s.m, ctx, s.admitted[ctx]) then c.(hosts := bypass) else c
            case StopNow(manual) => d == c.(manualStop := c.manualStop || manual)
            case Switch(enabled, p) =>
              d == if enabled && p.id != "" then Choices(true, p, p.controlHosts, c.manualStop)
                   else if enabled && c.lastProfile.id != "" then
                     c.(killSwitch := true, hosts := c.lastProfile.controlHosts)
                   else c.(killSwitch := enabled)
            case _ => d == c
  {
    hide Sync, Perform;
  }

  lemma {:induction false} FieldsRemember(events: seq<Event>, canBlock: bool)
    requires After(events, canBlock).Reached?
    ensures Remembers(After(events, canBlock).state, events, canBlock)
    decreases |events|
  {
    hide Step, Safe, Quiet, Busy, Current;
    if events != [] {
      var fore, e := events[..|events| - 1], events[|events| - 1];
      var s := After(fore, canBlock).state;
      FieldsRemember(fore, canBlock);
      AlwaysSafe(fore, canBlock);
      QuietIffIdle(s, canBlock);
      StepChooses(s, e, canBlock);
      if e.Finish? {
        CurrentIffAlive(s, e.ctx, canBlock);
      }
    }
  }

  lemma CurrentIffAlive(s: State, ctx: nat, canBlock: bool)
    requires Safe(s, canBlock) && ctx in s.pending && ctx in s.admitted
    ensures Current(s.m, ctx, s.admitted[ctx]) <==> ctx !in s.m.cancelled
  {
    CurrentIffOwner(s, ctx, canBlock);
  }

  // ---------- what is in force ----------

  function Applied(m: Fields): Option<Hosts> {
    if m.blocked then Some(m.appliedHosts) else None
  }

  /** The cleanups held are those of what is in force, but for the setups whose cleanup was overwritten. */
  ghost predicate Accounted(s: State) {
    s.outside == Some(Outside(Applied(s.m), s.lost + if s.m.routesHeld then 1 else 0))
  }

  lemma PerformOne(o: Outside, call: RouteCall)
    ensures Perform(Some(o), [call]) == Effect(o, call)
  {
  }

  lemma SyncPerforms(m: Fields, o: Outside, canBlock: bool)
    requires o.block == Applied(m)
    ensures var (m1, calls) := Sync(m, canBlock);
            Perform(Some(o), calls) == Some(o.(block := Applied(m1)))
  {
    var (m1, calls) := Sync(m, canBlock);
    if |calls| == 2 {
      assert calls[1..] == [calls[1]];
      PerformOne(o.(block := None), calls[1]);
    } else if |calls| == 1 {
      assert calls == [calls[0]];
      PerformOne(o, calls[0]);
    }
  }

  lemma StepAccounts(s: State, e: Event, canBlock: bool)
    requires Accounted(s) && Enabled(s, e)
    ensures Accounted(Step(s, e, canBlock))
  {
    hide Admit, Commit, Stop, SetKillSwitch, Perform;
    match e {
      case Start(p) => AdmitPerforms(s.m, s.outside.value, p, canBlock);
      case Finish(ctx, bypass) => CommitPerforms(s.m, s.outside.value, ctx, s.admitted[ctx], bypass, canBlock);
      case StopNow(manual) => StopPerforms(s.m, s.outside.value, manual, canBlock);
      case Switch(enabled, p) => SwitchPerforms(s.m, s.outside.value, enabled, p, canBlock);
      case _ =>
    }
  }

  lemma AdmitPerforms(m: Fields, o: Outside, p: Profile, canBlock: bool)
    requires o.block == Applied(m)
    ensures var (m1, calls) := Admit(m, p, canBlock);
            Perform(Some(o), calls) == Some(o.(block := Applied(m1))) && m1.routesHeld == m.routesHeld
  {
    hide Sync;
    SyncPerforms(Admitted(m, p), o, canBlock);
  }

  lemma CommitPerforms(m: Fields, o: Outside, ctx: nat, p: Profile, bypass: Hosts, canBlock: bool)
    requires o.block == Applied(m)
    ensures var (m1, calls) := Commit(m, ctx, p, bypass, canBlock);
            Perform(Some(o), calls) == Some(o.(block := Applied(m1))) && m1.routesHeld == m.routesHeld
  {
    hide Sync;
    SyncPerforms(Committed(m, p, bypass), o, canBlock);
  }

  lemma SwitchPerforms(m: Fields, o: Outside, enabled: bool, p: Profile, canBlock: bool)
    requires o.block == Applied(m)
    ensures var (m1, calls) := SetKillSwitch(m, enabled, p, canBlock);
            Perform(Some(o), calls) == Some(o.(block := Applied(m1))) && m1.routesHeld == m.routesHeld
  {
    hide Sync;
    SyncPerforms(Switched(m, enabled, p), o, canBlock);
  }

  lemma StopPerforms(m: Fields, o: Outside, manual: bool, canBlock: bool)
    requires o.block == Applied(m) && (m.routesHeld ==> o.setups > 0)
    ensures var (m1, calls) := Stop(m, manual, canBlock);
            && Perform(Some(o), calls) == Some(Outside(Applied(m1), if m.routesHeld then o.setups - 1 else o.setups))
            && !m1.routesHeld
  {
    hide Sync;
    var m1 := Cleared(m, manual);
    var calls := Sync(m1, canBlock).1;
    if m.routesHeld {
      SyncPerforms(m1, o.(setups := o.setups - 1), canBlock);
      assert ([RunRouteCleanup] + calls)[1..] == calls;
    } else {
      SyncPerforms(m1, o, canBlock);
      assert [] + calls == calls;
    }
  }

  lemma {:induction false} AlwaysAccounted(events: seq<Event>, canBlock: bool)
    requires After(events, canBlock).Reached?
    ensures Accounted(After(events, canBlock).state)
    decreases |events|
  {
    hide Step, Enabled, Accounted;
    if events == [] {
      assert Accounted(START) by { StartAccounted(); }
    } else {
      var fore := events[..|events| - 1];
      AlwaysAccounted(fore, canBlock);
      StepAccounts(After(fore, canBlock).state, events[|events| - 1], canBlock);
    }
  }

  lemma StartAccounted()
    ensures Accounted(START)
  {
  }

  /** A start that has become running and that nobody has stopped carries all of the device's traffic. */
  ghost predicate TunnelUp(s: State) {
    exists ctx ::
      && ctx in s.committed && ctx in s.admitted && ctx !in s.m.cancelled
      && (s.admitted[ctx].openvpn || (s.admitted[ctx].tun && s.admitted[ctx].routeAll))
  }

  lemma TunnelUpIffOwns(s: State, canBlock: bool)
    requires Safe(s, canBlock)
    ensures TunnelUp(s) <==> TunnelOwnsRouting(s.m.status)
  {
    if TunnelOwnsRouting(s.m.status) {
      assert s.m.cancel.value in s.committed;
    }
  }

  /**
    The kill switch: in every interleaving, at every release of the mutex, the calls made so far have left a
    block in force exactly when the platform can block, the switch was last turned on, and no tunnel carries
    all traffic; it is a block for the hosts the history allows. No call blocked twice or undid what was not
    in force.
   */
  lemma KillSwitchInForce(events: seq<Event>, canBlock: bool)
    requires After(events, canBlock).Reached?
    ensures var s := After(events, canBlock).state;
            && s.outside.Some?
            && s.outside.value.block ==
               if canBlock && SwitchedOn(events) && !TunnelUp(s) then Some(AllowedHosts(events, canBlock)) else None
  {
    var s := After(events, canBlock).state;
    AlwaysSafe(events, canBlock);
    AlwaysAccounted(events, canBlock);
    FieldsRemember(events, canBlock);
    TunnelUpIffOwns(s, canBlock);
    hide Step, After, TunnelUp, SingleLive, Numbered, OneReconnectLoop, AllowedHosts;
  }

  /**
    Route setups: in every interleaving, those still in force are the one whose cleanup is held and those whose
    cleanup a later one overwrote; the others have been undone.
   */
  lemma SetupsInForce(events: seq<Event>, canBlock: bool)
    requires After(events, canBlock).Reached?
    ensures var s := After(events, canBlock).state;
            s.outside.Some? && s.outside.value.setups == s.lost + if s.m.routesHeld then 1 else 0
  {
    hide After;
    AlwaysAccounted(events, canBlock);
  }

  /** A later stop leaves exactly the overwritten ones. */
  lemma StopUndoesHeld(events: seq<Event>, manual: bool, canBlock: bool)
    requires After(events, canBlock).Reached?
    ensures var s := Step(After(events, canBlock).state, StopNow(manual), canBlock);
            s.outside.Some? && s.outside.value.setups == s.lost == After(events, canBlock).state.lost
  {
    hide After, Sync;
    var s := After(events, canBlock).state;
    AlwaysAccounted(events, canBlock);
    StopPerforms(s.m, s.outside.value, manual, canBlock);
  }

  /** Two starts of a profile in flight, the first one stopped before it has set up its routes. */
  lemma OverlapHolds(p: Profile, canBlock: bool)
    ensures var r := After([Start(p), StopNow(false), Start(p), HoldRoutes(1)], canBlock);
            r.Reached? && r.state.m.routesHeld && r.state.lost == 0 && 0 in r.state.pending && r.state.handed == {1}
  {
    hide Sync, Perform;
    var e1 := [Start(p)];
    var e2 := e1 + [StopNow(false)];
    var e3 := e2 + [Start(p)];
    Extend([], Start(p), canBlock);
    Extend(e1, StopNow(false), canBlock);
    Extend(e2, Start(p), canBlock);
    Extend(e3, HoldRoutes(1), canBlock);
    assert [] + [Start(p)] == e1;
    assert e3 + [HoldRoutes(1)] == [Start(p), StopNow(false), Start(p), HoldRoutes(1)];
  }

  /** When the first one then hands over its cleanup, that of the second is lost: a setup is never undone. */
  lemma OverlapLosesCleanup(p: Profile, canBlock: bool)
    ensures var events := [Start(p), StopNow(false), Start(p), HoldRoutes(1), HoldRoutes(0), StopNow(true)];
            var r := After(events, canBlock);
            r.Reached? && !r.state.m.routesHeld && r.state.outside.Some? && r.state.outside.value.setups == 1
  {
    hide Sync, Perform, After;
    var e4 := [Start(p), StopNow(false), Start(p), HoldRoutes(1)];
    var e5 := e4 + [HoldRoutes(0)];
    OverlapHolds(p, canBlock);
    Extend(e4, HoldRoutes(0), canBlock);
    Extend(e5, StopNow(true), canBlock);
    StopUndoesHeld(e5, true, canBlock);
    assert e5 + [StopNow(true)] == [Start(p), StopNow(false), Start(p), HoldRoutes(1), HoldRoutes(0), StopNow(true)];
  }

  lemma Extend(events: seq<Event>, e: Event, canBlock: bool)
    ensures After(events + [e], canBlock) ==
            match After(events, canBlock)
            case Stuck => Stuck
            case Reached(s) => if Enabled(s, e) then Reached(Step(s, e, canBlock)) else Stuck
  {
    assert (events + [e])[..|events|] == events;
  }

  // ---------- reconnecting ----------

  /** A reconnect loop is entered exactly when none is, and the user has not stopped the connection. */
  lemma ReconnectExactly(events: seq<Event>, loop: nat, canBlock: bool)
    requires After(events, canBlock).Reached?
    ensures var s := After(events, canBlock).state;
            Step(s, EnterReconnect(loop), canBlock).loops ==
            if s.loops == {} && !StoppedByUser(events, canBlock) then {loop} else s.loops
  {
    hide After, StoppedByUser;
    AlwaysSafe(events, canBlock);
    FieldsRemember(events, canBlock);
  }
}
