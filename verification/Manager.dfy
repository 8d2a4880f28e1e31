/** The connection manager: each critical section of its mutex as one step on its fields. */
module Manager {
  import opened Wire

  type Hosts = seq<string>

  /** What of a profile matters here; an empty `id` stands for no profile. */
  datatype Profile = Profile(id: string, openvpn: bool, tun: bool, routeAll: bool, controlHosts: Hosts)

  datatype Status = Status(running: bool, connecting: bool, profileID: string, openvpn: bool, tun: bool,
                           routeAll: bool, killSwitch: bool)

  const NO_PROFILE := Profile("", false, false, false, [])

  function IdleStatus(killSwitch: bool): Status {
    Status(false, false, "", false, false, false, killSwitch)
  }

  /** Calls into the routes package, in the order a critical section makes them. */
  datatype RouteCall = RunRouteCleanup | RunBlockCleanup | Block(hosts: Hosts)

  /**
    The fields guarded by the mutex, and the contexts handed out so far: context `n` is cancelled when it is
    in `cancelled`. `blocked` and `routesHeld` say whether the two cleanup fields are set.
   */
  datatype Fields = Fields(
    status: Status,
    cancel: Option<nat>,
    manualStop: bool,
    reconnecting: bool,
    killSwitch: bool,
    blocked: bool,
    hosts: Hosts,
    appliedHosts: Hosts,
    lastProfile: Profile,
    routesHeld: bool,
    cancelled: set<nat>,
    nextContext: nat)

  const INITIAL := Fields(IdleStatus(false), None, false, false, false, false, [], [], NO_PROFILE, false, {}, 0)

  /** A tunnel that carries all of the device's traffic is up. */
  predicate TunnelOwnsRouting(s: Status) {
    s.running && (s.openvpn || (s.tun && s.routeAll))
  }

  /** The block is in force exactly when the switch is on and no full-device tunnel is up. */
  predicate KillSwitchAgrees(m: Fields, canBlock: bool) {
    && m.status.killSwitch == m.killSwitch
    && (m.blocked <==> canBlock && m.killSwitch && !TunnelOwnsRouting(m.status))
    && (m.blocked ==> m.appliedHosts == m.hosts)
  }

  // ---------- the sections, as functions ----------

  /** `canBlock` says whether blocking is implemented on this platform. */
  function Sync(m: Fields, canBlock: bool): (r: (Fields, seq<RouteCall>))
    ensures r.0 == m.(status := m.status.(killSwitch := m.killSwitch), blocked := r.0.blocked,
                      appliedHosts := r.0.appliedHosts)
    ensures (m.blocked ==> canBlock) ==> KillSwitchAgrees(r.0, canBlock)
  {
    var m1 := m.(status := m.status.(killSwitch := m.killSwitch));
    if !m.killSwitch || TunnelOwnsRouting(m.status) then
      (m1.(blocked := false), if m.blocked then [RunBlockCleanup] else [])
    else if m.blocked && m.appliedHosts == m.hosts then
      (m1, [])
    else
      var calls := if m.blocked then [RunBlockCleanup] else [];
      if canBlock then (m1.(blocked := true, appliedHosts := m.hosts), calls + [Block(m.hosts)])
      else (m1.(blocked := false), calls)
  }

  predicate Busy(m: Fields) {
    m.status.running || m.status.connecting
  }

  /** A stop before it synchronises the kill switch: the live context is cancelled and the status is idle. */
  function Cleared(m: Fields, manual: bool): (r: Fields)
    ensures m.cancelled <= r.cancelled && r.cancel == None && !r.routesHeld && !Busy(r) && r.blocked == m.blocked
  {
    m.(manualStop := m.manualStop || manual,
       cancelled := if m.cancel.Some? then m.cancelled + {m.cancel.value} else m.cancelled,
       cancel := None,
       routesHeld := false,
       status := IdleStatus(m.killSwitch))
  }

  function Stop(m: Fields, manual: bool, canBlock: bool): (r: (Fields, seq<RouteCall>))
    ensures m.cancelled <= r.0.cancelled
  {
    var (m1, calls) := Sync(Cleared(m, manual), canBlock);
    (m1, (if m.routesHeld then [RunRouteCleanup] else []) + calls)
  }

  /** An admission before it synchronises the kill switch. */
  function Admitted(m: Fields, p: Profile): (r: Fields)
    ensures r.cancelled == m.cancelled && r.blocked == m.blocked && r.routesHeld == m.routesHeld && !r.status.running
  {
    m.(nextContext := m.nextContext + 1, cancel := Some(m.nextContext), manualStop := false, lastProfile := p,
       hosts := p.controlHosts, status := Status(false, true, p.id, p.openvpn, p.tun, p.routeAll, m.killSwitch))
  }

  /** Admission: a new context is made; it is kept only if nothing is running or connecting. */
  function Admit(m: Fields, p: Profile, canBlock: bool): (r: (Fields, seq<RouteCall>))
    ensures m.cancelled <= r.0.cancelled
  {
    var ctx := m.nextContext;
    if Busy(m) then (m.(nextContext := ctx + 1, cancelled := m.cancelled + {ctx}), [])
    else Sync(Admitted(m, p), canBlock)
  }

  /** The test made at commit and, in the middle of a start, by `ensureCurrent`. */
  predicate Current(m: Fields, ctx: nat, p: Profile) {
    ctx !in m.cancelled && m.cancel.Some? && m.status.connecting && m.status.profileID == p.id
  }

  /** A commit before it synchronises the kill switch. */
  function Committed(m: Fields, p: Profile, bypass: Hosts): (r: Fields)
    ensures r == m.(hosts := r.hosts, status := r.status) && r.status.running
  {
    m.(hosts := bypass, status := Status(true, false, p.id, p.openvpn, p.tun, p.routeAll, m.killSwitch))
  }

  function Commit(m: Fields, ctx: nat, p: Profile, bypass: Hosts, canBlock: bool): (r: (Fields, seq<RouteCall>))
    ensures m.cancelled <= r.0.cancelled
  {
    if Current(m, ctx, p) then Sync(Committed(m, p, bypass), canBlock) else (m, [])
  }

  /** A change of the switch before it is synchronised. */
  function Switched(m: Fields, enabled: bool, p: Profile): (r: Fields)
    ensures r == m.(killSwitch := enabled, lastProfile := r.lastProfile, hosts := r.hosts)
  {
    var m1 := m.(killSwitch := enabled);
    if !enabled then m1
    else if p.id != "" then m1.(lastProfile := p, hosts := p.controlHosts)
    else if m.lastProfile.id != "" then m1.(hosts := m.lastProfile.controlHosts)
    else m1
  }

  function SetKillSwitch(m: Fields, enabled: bool, p: Profile, canBlock: bool): (r: (Fields, seq<RouteCall>))
    ensures m.cancelled <= r.0.cancelled
  {
    Sync(Switched(m, enabled, p), canBlock)
  }

  function Mark(m: Fields): (Fields, bool) {
    if m.manualStop || m.reconnecting then (m, false) else (m.(reconnecting := true), true)
  }

  // ---------- the object ----------

  class ConnectionManager {
    const canBlock: bool
    var status: Status
    var cancel: Option<nat>
    var manualStop: bool
    var reconnecting: bool
    var killSwitch: bool
    var blocked: bool
    var hosts: Hosts
    var appliedHosts: Hosts
    var lastProfile: Profile
    var routesHeld: bool
    var cancelled: set<nat>
    var nextContext: nat

    ghost function State(): Fields
      reads this
    {
      Fields(status, cancel, manualStop, reconnecting, killSwitch, blocked, hosts, appliedHosts, lastProfile,
             routesHeld, cancelled, nextContext)
    }

    constructor (canBlock: bool)
      ensures State() == INITIAL && this.canBlock == canBlock
    {
      this.canBlock := canBlock;
      status, cancel, manualStop, reconnecting := IdleStatus(false), None, false, false;
      killSwitch, blocked := false, false;
      hosts, appliedHosts, lastProfile, routesHeld, cancelled, nextContext := [], [], NO_PROFILE, false, {}, 0;
    }

    method SyncKillSwitchLocked() returns (calls: seq<RouteCall>)
      modifies this
      ensures (State(), calls) == Sync(old(State()), canBlock)
    {
      calls := [];
      status := status.(killSwitch := killSwitch);
      var tunnelOwnsRouting := status.running && (status.openvpn || (status.tun && status.routeAll));
      if !killSwitch || tunnelOwnsRouting {
        if blocked {
          calls := [RunBlockCleanup];
          blocked := false;
        }
        return;
      }
      if blocked && appliedHosts == hosts {
        return;
      }
      if blocked {
        calls := [RunBlockCleanup];
        blocked := false;
      }
      if !canBlock {
        return;
      }
      calls := calls + [Block(hosts)];
      blocked := true;
      appliedHosts := hosts;
    }

    method StopSection(manual: bool) returns (calls: seq<RouteCall>)
      modifies this
      ensures (State(), calls) == Stop(old(State()), manual, canBlock)
    {
      hide Sync;
      calls := [];
      if manual {
        manualStop := true;
      }
      if cancel.Some? {
        cancelled := cancelled + {cancel.value};
        cancel := None;
      }
      if routesHeld {
        calls := [RunRouteCleanup];
        routesHeld := false;
      }
      status := IdleStatus(killSwitch);
      assert State() == Cleared(old(State()), manual);
      hide Cleared;
      var more := SyncKillSwitchLocked();
      calls := calls + more;
    }

    method AdmitSection(p: Profile) returns (ctx: nat, admitted: bool, calls: seq<RouteCall>)
      modifies this
      ensures State() == Admit(old(State()), p, canBlock).0 && calls == Admit(old(State()), p, canBlock).1
      ensures ctx == old(nextContext)
      ensures admitted <==> !Busy(old(State()))
    {
      hide Sync;
      ctx := nextContext;
      if status.running || status.connecting {
        nextContext, cancelled := ctx + 1, cancelled + {ctx};
        return ctx, false, [];
      }
      cancel, manualStop, lastProfile, hosts, nextContext := Some(ctx), false, p, p.controlHosts, ctx + 1;
      status := Status(false, true, p.id, p.openvpn, p.tun, p.routeAll, killSwitch);
      assert State() == Admitted(old(State()), p) && !Busy(old(State()));
      hide Admitted, Busy;
      calls := SyncKillSwitchLocked();
      admitted := true;
    }

    method CommitSection(ctx: nat, p: Profile, bypass: Hosts) returns (ok: bool, calls: seq<RouteCall>)
      modifies this
      ensures (State(), calls) == Commit(old(State()), ctx, p, bypass, canBlock)
      ensures ok <==> Current(old(State()), ctx, p)
    {
      hide Sync;
      var current := cancel.Some? && status.connecting && status.profileID == p.id;
      calls := [];
      ok := ctx !in cancelled && current;
      if ok {
        status := Status(true, false, p.id, p.openvpn, p.tun, p.routeAll, killSwitch);
        hosts := bypass;
        calls := SyncKillSwitchLocked();
      }
    }

    method KillSwitchSection(enabled: bool, p: Profile) returns (calls: seq<RouteCall>)
      modifies this
      ensures (State(), calls) == SetKillSwitch(old(State()), enabled, p, canBlock)
    {
      hide Sync;
      killSwitch := enabled;
      if enabled {
        if p.id != "" {
          lastProfile := p;
          hosts := p.controlHosts;
        } else if lastProfile.id != "" {
          hosts := lastProfile.controlHosts;
        }
      }
      assert State() == Switched(old(State()), enabled, p);
      hide Switched;
      calls := SyncKillSwitchLocked();
    }

    /** The test made between the steps of a start. */
    method EnsureCurrent(ctx: nat, p: Profile) returns (ok: bool)
      ensures ok <==> Current(State(), ctx, p)
    {
      if ctx in cancelled {
        return false;
      }
      return !(cancel.None? || !status.connecting || status.profileID != p.id);
    }

    /** A start hands over the cleanup of its route setup. */
    method HoldRouteCleanup()
      modifies this
      ensures State() == old(State()).(routesHeld := true)
    {
      routesHeld := true;
    }

    method ClearReconnecting()
      modifies this
      ensures State() == old(State()).(reconnecting := false)
    {
      reconnecting := false;
    }

    method MarkReconnecting() returns (marked: bool)
      modifies this
      ensures (State(), marked) == Mark(old(State()))
      ensures marked <==> !old(manualStop) && !old(reconnecting)
    {
      if manualStop || reconnecting {
        return false;
      }
      reconnecting := true;
      return true;
    }
  }
}
