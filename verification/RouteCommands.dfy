/** Route setup and the kill switch block on Linux, as sequences of commands any of which may be refused. */
module RouteCommands {
  import opened Routes

  /** The kernel's table and an oracle for commands that fail for reasons of their own. */
  class Kernel {
    const refuses: nat -> bool
    var table: Table
    var clock: nat
    var failures: nat

    constructor (table: Table, refuses: nat -> bool)
      ensures this.table == table && this.refuses == refuses && clock == 0 && failures == 0
    {
      this.table, this.refuses, clock, failures := table, refuses, 0, 0;
    }

    method Run(c: Command) returns (ok: bool)
      modifies this
      ensures ok <==> !refuses(old(clock)) && Applies(old(table), c)
      ensures table == if ok then Effect(old(table), c) else old(table)
      ensures clock == old(clock) + 1 && failures == old(failures) + if ok then 0 else 1
    {
      ok := !refuses(clock) && Applies(table, c);
      clock := clock + 1;
      if ok {
        table := Effect(table, c);
      } else {
        failures := failures + 1;
      }
    }

    /** The gateway and device of the default route; both empty when there is none. */
    function Gateway(f: Family): Hop
      reads this
    {
      GatewayIn(table, f)
    }
  }

  function GatewayIn(t: Table, f: Family): Hop {
    if Default(f) in t then t[Default(f)] else Hop("", "")
  }

  class Cleanup {
    var commands: seq<Command>

    constructor ()
      ensures commands == []
    {
      commands := [];
    }

    /** Walks the log backwards. If nothing is refused, the result is the table with every record undone. */
    method Run(k: Kernel)
      modifies k
      ensures (forall i :: old(k.clock) <= i < k.clock ==> !k.refuses(i)) ==> k.table == UndoAll(old(k.table), commands)
      ensures k.failures >= old(k.failures)
      ensures k.failures == old(k.failures) ==> k.table == UndoAll(old(k.table), commands)
    {
      var i := |commands|;
      assert commands[..i] == commands;
      while i > 0
        invariant 0 <= i <= |commands| && k.clock >= old(k.clock) && k.failures >= old(k.failures)
        invariant k.failures == old(k.failures) ==> UndoAll(k.table, commands[..i]) == UndoAll(old(k.table), commands)
        invariant (forall j :: old(k.clock) <= j < k.clock ==> !k.refuses(j)) ==>
                    UndoAll(k.table, commands[..i]) == UndoAll(old(k.table), commands)
      {
        i := i - 1;
        assert commands[..i + 1][..i] == commands[..i];
        var ok := k.Run(commands[i]);
      }
    }

    /** Runs a forward command and journals its undo if it succeeds. */
    method Do(k: Kernel, c: Command, ghost t0: Table, ghost others: set<Command>)
      requires IsForward(c)
      modifies k, this
      ensures k.failures >= old(k.failures) && k.clock == old(k.clock) + 1
      ensures !k.refuses(old(k.clock)) && Applies(old(k.table), c) ==> k.failures == old(k.failures)
      ensures k.table == old(k.table) || (Applies(old(k.table), c) && k.table == Effect(old(k.table), c))
      ensures k.failures == old(k.failures) ==> Applies(old(k.table), c) && k.table == Effect(old(k.table), c)
      ensures old(Accounts(t0, k.table, others, commands)) && (c.Replace? ==> c.prefix !in old(k.table)) ==>
                Accounts(t0, k.table, others, commands)
    {
      ghost var before := k.table;
      var undo := if Applies(k.table, c) then Undo(k.table, c) else c;
      var ok := k.Run(c);
      if ok {
        if Accounts(t0, before, others, commands) && (c.Replace? ==> c.prefix !in before) {
          AccountsForward(t0, before, others, commands, c);
        }
        commands := commands + [undo];
      }
    }
  }

  function HostPrefix(f: Family, address: seq<bool>): Prefix {
    Prefix(f, address)
  }

  /** Host routes for all addresses through one hop. */
  function WithHosts(t: Table, f: Family, hosts: seq<seq<bool>>, hop: Hop): Table
    decreases |hosts|
  {
    if hosts == [] then t else WithHosts(t[HostPrefix(f, hosts[0]) := hop], f, hosts[1..], hop)
  }

  predicate Addresses(f: Family, hosts: seq<seq<bool>>) {
    forall i :: 0 <= i < |hosts| ==> |hosts[i]| == AddressWidth(f)
  }

  /** The tables agree except on host routes. */
  ghost predicate SameButHosts(t: Table, u: Table) {
    forall p {:trigger SameAt(t, u, p)} :: !IsHost(p) ==> SameAt(t, u, p)
  }

  ghost predicate Unrefused(k: Kernel, from: nat, to: nat) {
    forall i :: from <= i < to ==> !k.refuses(i)
  }

  ghost predicate DistinctHosts(hosts: seq<seq<bool>>) {
    forall i, j :: 0 <= i < j < |hosts| ==> hosts[i] != hosts[j]
  }

  /** Every address can be given a route of its own. */
  ghost predicate Free(t: Table, f: Family, hosts: seq<seq<bool>>) {
    DistinctHosts(hosts) && forall h :: h in hosts ==> HostPrefix(f, h) !in t
  }

  /** Addresses of one family out of the answers for several hosts, each kept once, in order. */
  method Resolve(f: Family, answers: seq<seq<seq<bool>>>) returns (out: seq<seq<bool>>)
    ensures Addresses(f, out) && DistinctHosts(out)
    ensures forall a :: a in out <==> |a| == AddressWidth(f) && exists h :: 0 <= h < |answers| && a in answers[h]
  {
    out := [];
    var seen: set<seq<bool>> := {};
    for h := 0 to |answers|
      invariant Addresses(f, out) && DistinctHosts(out) && (forall a :: a in seen <==> a in out)
      invariant forall a :: a in out <==> |a| == AddressWidth(f) && exists g :: 0 <= g < h && a in answers[g]
    {
      var ips := answers[h];
      for i := 0 to |ips|
        invariant Addresses(f, out) && DistinctHosts(out) && (forall a :: a in seen <==> a in out)
        invariant forall a :: a in out <==>
                    |a| == AddressWidth(f) && (a in ips[..i] || exists g :: 0 <= g < h && a in answers[g])
      {
        if |ips[i]| == AddressWidth(f) && ips[i] !in seen {
          seen := seen + {ips[i]};
          out := out + [ips[i]];
        }
      }
    }
  }

  method AddBypass(k: Kernel, f: Family, hosts: seq<seq<bool>>, hop: Hop, cleanup: Cleanup,
                   ghost t0: Table, ghost others: set<Command>)
    requires Addresses(f, hosts)
    modifies k, cleanup
    ensures k.failures >= old(k.failures) && SameButHosts(old(k.table), k.table)
    ensures k.failures == old(k.failures) ==> k.table == WithHosts(old(k.table), f, hosts, hop)
    ensures Unrefused(k, old(k.clock), k.clock) && Free(old(k.table), f, hosts) ==> k.failures == old(k.failures)
    ensures old(Accounts(t0, k.table, others, cleanup.commands)) ==> Accounts(t0, k.table, others, cleanup.commands)
  {
    hide Accounts;
    assert hosts[0..] == hosts;
    for i := 0 to |hosts|
      invariant k.failures >= old(k.failures) && SameButHosts(old(k.table), k.table)
      invariant k.clock >= old(k.clock)
      invariant Unrefused(k, old(k.clock), k.clock) && Free(old(k.table), f, hosts) ==>
                  k.failures == old(k.failures) && forall j :: i <= j < |hosts| ==> HostPrefix(f, hosts[j]) !in k.table
      invariant k.failures == old(k.failures) ==>
                  WithHosts(k.table, f, hosts[i..], hop) == WithHosts(old(k.table), f, hosts, hop)
      invariant old(Accounts(t0, k.table, others, cleanup.commands)) ==> Accounts(t0, k.table, others, cleanup.commands)
    {
      assert hosts[i..][1..] == hosts[i + 1..];
      ghost var before := k.table;
      cleanup.Do(k, Add(HostPrefix(f, hosts[i]), hop), t0, others);
      forall p | !IsHost(p) ensures SameAt(old(k.table), k.table, p) {
        assert SameAt(old(k.table), before, p);
      }
    }
  }

  datatype Tun = Tun(enabled: bool, routeAll: bool, hop4: Hop, hop6: Hop, ipv6Enabled: bool, allowIPv6Leak: bool)

  function WithHalves(t: Table, f: Family, hop: Hop): Table {
    t[Half(f, false) := hop][Half(f, true) := hop]
  }

  predicate NoHalvesOf(t: Table, f: Family) {
    Half(f, false) !in t && Half(f, true) !in t
  }

  /** Both halves of a family are replaced by routes into the tunnel. */
  method ReplaceHalves(k: Kernel, f: Family, hop: Hop, cleanup: Cleanup, ghost t0: Table, ghost others: set<Command>)
    modifies k, cleanup
    ensures k.failures >= old(k.failures)
    ensures forall p: Prefix :: p.family != f || !IsHalf(p) ==> SameAt(old(k.table), k.table, p)
    ensures k.failures == old(k.failures) ==> k.table == WithHalves(old(k.table), f, hop)
    ensures old(Accounts(t0, k.table, others, cleanup.commands)) && NoHalvesOf(old(k.table), f) ==>
              Accounts(t0, k.table, others, cleanup.commands)
  {
    hide Accounts;
    cleanup.Do(k, Replace(Half(f, false), hop), t0, others);
    cleanup.Do(k, Replace(Half(f, true), hop), t0, others);
  }

  /** The addresses of a family that keep the old gateway: none if there is no usable one, or IPv6 is to be blocked. */
  function Bypassed(f: Family, tun: Tun, hosts: seq<seq<bool>>, gateway: Hop): seq<seq<bool>> {
    if f.V4? && gateway.gateway != "" then hosts
    else if f.V6? && tun.ipv6Enabled && (gateway.gateway != "" || gateway.device != "") then hosts
    else []
  }

  function TunHop(f: Family, tun: Tun): Hop {
    if f.V4? then tun.hop4 else tun.hop6
  }

  /** IPv6 is left alone only if it is neither tunnelled nor to be blocked. */
  predicate Redirects(f: Family, tun: Tun) {
    tun.enabled && tun.routeAll && (f.V4? || tun.ipv6Enabled || !tun.allowIPv6Leak)
  }

  /** The table after the setup of one family in which no command failed. */
  function Installed(t: Table, f: Family, tun: Tun, hosts: seq<seq<bool>>, gateway: Hop): Table {
    if !Redirects(f, tun) then t
    else WithHalves(WithHosts(t, f, Bypassed(f, tun, hosts, gateway), gateway), f, TunHop(f, tun))
  }

  /**
    Sends everything but the bypass addresses into the tunnel. Whichever commands fail, the table and the
    journal still account for each other; if none fails, traffic is split between the old gateways and the
    tunnel.
   */
  method Apply(k: Kernel, tun: Tun, hosts4: seq<seq<bool>>, hosts6: seq<seq<bool>>,
               ghost t0: Table, ghost others: set<Command>) returns (cleanup: Cleanup)
    requires Addresses(V4, hosts4) && Addresses(V6, hosts6)
    modifies k
    ensures fresh(cleanup) && k.failures >= old(k.failures)
    ensures !tun.enabled || !tun.routeAll ==> k.table == old(k.table) && cleanup.commands == []
    ensures old(Ledger(t0, k.table, others)) && NoHalves(old(k.table)) ==>
              Accounts(t0, k.table, others, cleanup.commands)
    ensures k.failures == old(k.failures) ==>
              var t, gw4, gw6 := old(k.table), old(k.Gateway(V4)), old(k.Gateway(V6));
              && k.table == Installed(Installed(t, V4, tun, hosts4, gw4), V6, tun, hosts6, gw6)
              && (tun.enabled && tun.routeAll ==> Split(t, k.table, tun, hosts4, hosts6))
  {
    hide Split;
    cleanup := new Cleanup();
    if Ledger(t0, k.table, others) {
      assert others + Commands([]) == others;
    }
    assert NoHalves(k.table) ==> forall f :: NoHalvesOf(k.table, f) by {
      assert forall f, upper :: IsHalf(Half(f, upper));
    }
    if tun.enabled && tun.routeAll {
      SplitRouting(k.table, tun, hosts4, k.Gateway(V4), hosts6, k.Gateway(V6));
    }
    if tun.enabled && tun.routeAll {
      ghost var before := k.table;
      ApplyIPv4(k, tun, hosts4, cleanup, t0, others);
      assert SameAt(before, k.table, Half(V6, false)) && SameAt(before, k.table, Half(V6, true));
      assert SameAt(before, k.table, Default(V6));
      ApplyIPv6(k, tun, hosts6, cleanup, t0, others);
    }
  }

  method ApplyIPv4(k: Kernel, tun: Tun, hosts4: seq<seq<bool>>, cleanup: Cleanup,
                   ghost t0: Table, ghost others: set<Command>)
    requires Addresses(V4, hosts4) && Redirects(V4, tun)
    modifies k, cleanup
    ensures k.failures >= old(k.failures)
    ensures forall p: Prefix :: p.family == V6 && !IsHost(p) ==> SameAt(old(k.table), k.table, p)
    ensures k.failures == old(k.failures) ==> k.table == Installed(old(k.table), V4, tun, hosts4, old(k.Gateway(V4)))
    ensures old(Accounts(t0, k.table, others, cleanup.commands)) && NoHalvesOf(old(k.table), V4) ==>
              Accounts(t0, k.table, others, cleanup.commands)
  {
    hide Accounts;
    var gw := k.Gateway(V4);
    if gw.gateway != "" {
      AddBypass(k, V4, hosts4, gw, cleanup, t0, others);
    }
    ghost var bypassed := k.table;
    assert SameAt(old(k.table), bypassed, Half(V4, false)) && SameAt(old(k.table), bypassed, Half(V4, true));
    ReplaceHalves(k, V4, tun.hop4, cleanup, t0, others);
    forall p: Prefix | p.family == V6 && !IsHost(p) ensures SameAt(old(k.table), k.table, p) {
      assert SameAt(old(k.table), bypassed, p) && SameAt(bypassed, k.table, p);
    }
  }

  /** IPv6 goes into the tunnel, whether it is routed there or only kept from leaking, unless leaks are allowed. */
  method ApplyIPv6(k: Kernel, tun: Tun, hosts6: seq<seq<bool>>, cleanup: Cleanup,
                   ghost t0: Table, ghost others: set<Command>)
    requires Addresses(V6, hosts6) && tun.enabled && tun.routeAll
    modifies k, cleanup
    ensures k.failures >= old(k.failures)
    ensures k.failures == old(k.failures) ==> k.table == Installed(old(k.table), V6, tun, hosts6, old(k.Gateway(V6)))
    ensures old(Accounts(t0, k.table, others, cleanup.commands)) && NoHalvesOf(old(k.table), V6) ==>
              Accounts(t0, k.table, others, cleanup.commands)
  {
    hide Accounts;
    if !tun.ipv6Enabled && tun.allowIPv6Leak {
      return;
    }
    if tun.ipv6Enabled {
      var gw := k.Gateway(V6);
      if gw.gateway != "" || gw.device != "" {
        AddBypass(k, V6, hosts6, gw, cleanup, t0, others);
        assert SameAt(old(k.table), k.table, Half(V6, false)) && SameAt(old(k.table), k.table, Half(V6, true));
      }
    }
    ReplaceHalves(k, V6, tun.hop6, cleanup, t0, others);
  }

  /** The table after blocking one family without a failure: nothing changes if the default route has no gateway. */
  function Blocked(t: Table, f: Family, hosts: seq<seq<bool>>, gateway: Hop): Table {
    if gateway.gateway == "" then t else WithHosts(t - {Default(f)}, f, hosts, gateway)
  }

  /**
    The kill switch: default routes go, the allowed hosts keep working over the old gateway. If nothing fails,
    an address covered by no other route has none left.
   */
  method BlockLinux(k: Kernel, hosts4: seq<seq<bool>>, hosts6: seq<seq<bool>>,
                    ghost t0: Table, ghost others: set<Command>) returns (cleanup: Cleanup)
    requires Addresses(V4, hosts4) && Addresses(V6, hosts6)
    modifies k
    ensures fresh(cleanup) && k.failures >= old(k.failures)
    ensures old(Ledger(t0, k.table, others)) ==> Accounts(t0, k.table, others, cleanup.commands)
    ensures k.failures == old(k.failures) ==>
              var t, gw4, gw6 := old(k.table), old(k.Gateway(V4)), old(k.Gateway(V6));
              && k.table == Blocked(Blocked(t, V4, hosts4, gw4), V6, hosts6, gw6)
              && CutOff(t, k.table, V4, hosts4) && CutOff(t, k.table, V6, hosts6)
  {
    hide CutOff;
    cleanup := new Cleanup();
    if Ledger(t0, k.table, others) {
      assert others + Commands([]) == others;
    }
    BlockRouting(k.table, hosts4, k.Gateway(V4), hosts6, k.Gateway(V6));
    BlockFamily(k, V4, hosts4, cleanup, t0, others);
    assert SameAt(old(k.table), k.table, Default(V6));
    BlockFamily(k, V6, hosts6, cleanup, t0, others);
  }

  method BlockFamily(k: Kernel, f: Family, hosts: seq<seq<bool>>, cleanup: Cleanup,
                     ghost t0: Table, ghost others: set<Command>)
    requires Addresses(f, hosts)
    modifies k, cleanup
    ensures k.failures >= old(k.failures)
    ensures k.failures == old(k.failures) ==> k.table == Blocked(old(k.table), f, hosts, old(k.Gateway(f)))
    ensures forall g :: g != f ==> SameAt(old(k.table), k.table, Default(g))
    ensures old(Accounts(t0, k.table, others, cleanup.commands)) ==> Accounts(t0, k.table, others, cleanup.commands)
  {
    hide Accounts;
    var gw := k.Gateway(f);
    if gw.gateway != "" {
      var before := k.failures;
      cleanup.Do(k, Del(Default(f)), t0, others);
      if k.failures == before {
        ghost var t := k.table;
        AddBypass(k, f, hosts, gw, cleanup, t0, others);
        assert forall g :: SameAt(t, k.table, Default(g));
      }
    }
  }

  // ---------- where traffic goes ----------

  /** The tables have the same routes for a family. */
  ghost predicate SameFor(f: Family, t: Table, u: Table) {
    forall p: Prefix {:trigger SameAt(t, u, p)} :: p.family == f ==> SameAt(t, u, p)
  }

  lemma {:induction false} SameRoutes(f: Family, t: Table, u: Table, address: seq<bool>, n: nat)
    requires SameFor(f, t, u) && n <= |address|
    ensures Match(t, f, address, n) == Match(u, f, address, n)
    decreases n
  {
    assert SameAt(t, u, Prefix(f, address[..n]));
    if n > 0 {
      SameRoutes(f, t, u, address, n - 1);
    }
  }

  lemma {:induction false} WithHostsAt(t: Table, f: Family, hosts: seq<seq<bool>>, hop: Hop, p: Prefix)
    ensures var r := WithHosts(t, f, hosts, hop);
            if p.family == f && p.bits in hosts then p in r && r[p] == hop else SameAt(t, r, p)
    decreases |hosts|
  {
    if hosts != [] {
      WithHostsAt(t[HostPrefix(f, hosts[0]) := hop], f, hosts[1..], hop, p);
    }
  }

  /** Some route of `t` for this address is longer than `m` bits. */
  ghost predicate Covered(t: Table, f: Family, address: seq<bool>, m: nat) {
    exists i {:trigger address[..i]} :: m < i <= |address| && Prefix(f, address[..i]) in t
  }

  /**
    After routes of at most `m` bits and host routes have changed: the addresses in `hosts` go to the gateway,
    and of the others those with a longer route in `t` keep it and the rest get what `short` says.
   */
  ghost predicate Steered(t: Table, u: Table, f: Family, m: nat, hosts: seq<seq<bool>>, gateway: Hop, short: Choice) {
    forall address {:trigger RouteOf(u, f, address)} :: |address| == AddressWidth(f) ==>
      RouteOf(u, f, address) ==
      if address in hosts then Use(gateway) else if Covered(t, f, address, m) then RouteOf(t, f, address) else short
  }

  /** If the tables agree on prefixes longer than `m` bits and one of them matches, they choose alike. */
  lemma {:induction false} SameMatch(t: Table, r: Table, f: Family, address: seq<bool>, m: nat, n: nat)
    requires m <= n <= |address|
    requires forall i :: m < i <= n ==> SameAt(t, r, Prefix(f, address[..i]))
    ensures if exists i :: m < i <= n && Prefix(f, address[..i]) in t
            then Match(t, f, address, n) == Match(r, f, address, n)
            else Match(r, f, address, n) == Match(r, f, address, m)
    decreases n
  {
    if m < n {
      assert SameAt(t, r, Prefix(f, address[..n]));
      if Prefix(f, address[..n]) !in t {
        SameMatch(t, r, f, address, m, n - 1);
      }
    }
  }

  lemma SteeredBy(t: Table, r: Table, f: Family, m: nat, hosts: seq<seq<bool>>, gateway: Hop, short: Choice)
    requires Addresses(f, hosts) && m < AddressWidth(f)
    requires forall p: Prefix {:trigger SameAt(t, r, p)} ::
               p.family == f && |p.bits| > m && p.bits !in hosts ==> SameAt(t, r, p)
    requires forall a :: a in hosts ==> Prefix(f, a) in r && r[Prefix(f, a)] == gateway
    requires forall a: seq<bool> :: |a| == AddressWidth(f) ==> Match(r, f, a, m) == short
    ensures Steered(t, r, f, m, hosts, gateway, short)
  {
    forall address: seq<bool> | |address| == AddressWidth(f)
      ensures RouteOf(r, f, address) ==
              if address in hosts then Use(gateway)
              else if Covered(t, f, address, m) then RouteOf(t, f, address) else short
    {
      assert address[..|address|] == address;
      if address !in hosts {
        forall i | m < i <= |address| ensures SameAt(t, r, Prefix(f, address[..i])) {
          assert address[..i] in hosts ==> i == |address|;
        }
        SameMatch(t, r, f, address, m, |address|);
      }
    }
  }

  /** What a setup makes of a family's traffic. */
  ghost predicate SplitBy(t: Table, u: Table, f: Family, tun: Tun, hosts: seq<seq<bool>>, gateway: Hop) {
    if Redirects(f, tun) then
      Steered(t, u, f, 1, Bypassed(f, tun, hosts, gateway), gateway, Use(TunHop(f, tun)))
    else
      forall address {:trigger RouteOf(u, f, address)} :: RouteOf(u, f, address) == RouteOf(t, f, address)
  }

  lemma InstalledSplits(t: Table, f: Family, tun: Tun, hosts: seq<seq<bool>>, gateway: Hop)
    requires Addresses(f, hosts)
    ensures SplitBy(t, Installed(t, f, tun, hosts, gateway), f, tun, hosts, gateway)
  {
    if Redirects(f, tun) {
      var bypassed, hop, r := Bypassed(f, tun, hosts, gateway), TunHop(f, tun), Installed(t, f, tun, hosts, gateway);
      forall p: Prefix | p.family == f && |p.bits| > 1 ensures
        if p.bits in bypassed then p in r && r[p] == gateway else SameAt(t, r, p)
      {
        WithHostsAt(t, f, bypassed, gateway, p);
      }
      forall a: seq<bool> | |a| == AddressWidth(f) ensures Match(r, f, a, 1) == Use(hop) {
        assert a[..1] == [a[0]] && Prefix(f, a[..1]) == Half(f, a[0]);
        assert Half(f, a[0]) in r && r[Half(f, a[0])] == hop;
      }
      SteeredBy(t, r, f, 1, bypassed, gateway, Use(hop));
    }
  }

  lemma InstalledElsewhere(t: Table, f: Family, tun: Tun, hosts: seq<seq<bool>>, gateway: Hop)
    ensures forall g :: g != f ==> SameFor(g, t, Installed(t, f, tun, hosts, gateway))
  {
    forall p: Prefix | p.family != f ensures SameAt(t, Installed(t, f, tun, hosts, gateway), p) {
      WithHostsAt(t, f, Bypassed(f, tun, hosts, gateway), gateway, p);
    }
  }

  lemma SteeredSame(t: Table, u: Table, t1: Table, u1: Table, f: Family, m: nat, hosts: seq<seq<bool>>, gateway: Hop,
                    short: Choice)
    requires Steered(t, u, f, m, hosts, gateway, short) && SameFor(f, t, t1) && SameFor(f, u, u1)
    ensures Steered(t1, u1, f, m, hosts, gateway, short)
  {
    forall address: seq<bool> | |address| == AddressWidth(f)
      ensures RouteOf(u1, f, address) == RouteOf(u, f, address) && RouteOf(t1, f, address) == RouteOf(t, f, address)
      ensures Covered(t1, f, address, m) <==> Covered(t, f, address, m)
    {
      SameRoutes(f, t, t1, address, |address|);
      SameRoutes(f, u, u1, address, |address|);
      forall i | 0 <= i <= |address| ensures SameAt(t, t1, Prefix(f, address[..i])) {
      }
    }
  }

  lemma SplitBySame(t: Table, u: Table, t1: Table, u1: Table, f: Family, tun: Tun, hosts: seq<seq<bool>>, gateway: Hop)
    requires SplitBy(t, u, f, tun, hosts, gateway) && SameFor(f, t, t1) && SameFor(f, u, u1)
    ensures SplitBy(t1, u1, f, tun, hosts, gateway)
  {
    hide Steered;
    if Redirects(f, tun) {
      SteeredSame(t, u, t1, u1, f, 1, Bypassed(f, tun, hosts, gateway), gateway, Use(TunHop(f, tun)));
    } else {
      forall address ensures RouteOf(u1, f, address) == RouteOf(t1, f, address) {
        SameRoutes(f, t, t1, address, |address|);
        SameRoutes(f, u, u1, address, |address|);
        assert RouteOf(u, f, address) == RouteOf(t, f, address);
      }
    }
  }

  /** There is a default route with a gateway. */
  predicate HasGateway(t: Table, f: Family) {
    Prefix(f, []) in t && t[Prefix(f, [])].gateway != ""
  }

  /**
    What a setup does to traffic. IPv4: the addresses in `hosts4` keep the old gateway if there was one, any
    other address goes into the tunnel, unless a route longer than one bit was there before; then that route
    still decides. IPv6: the same when it is tunnelled, the old device being enough to keep `hosts6`; no address
    is kept when it is only blocked; and nothing changes exactly when it is neither.
   */
  ghost predicate Split(t: Table, u: Table, tun: Tun, hosts4: seq<seq<bool>>, hosts6: seq<seq<bool>>) {
    && (if HasGateway(t, V4) then Steered(t, u, V4, 1, hosts4, t[Prefix(V4, [])], Use(tun.hop4))
        else Steered(t, u, V4, 1, [], NO_HOP, Use(tun.hop4)))
    && (if !tun.ipv6Enabled && tun.allowIPv6Leak then
          SameFor(V6, t, u)
        else
          && (forall upper :: Prefix(V6, [upper]) in u && u[Prefix(V6, [upper])] == tun.hop6)
          && if tun.ipv6Enabled && Prefix(V6, []) in t && t[Prefix(V6, [])] != NO_HOP
             then Steered(t, u, V6, 1, hosts6, t[Prefix(V6, [])], Use(tun.hop6))
             else Steered(t, u, V6, 1, [], NO_HOP, Use(tun.hop6)))
  }

  const NO_HOP := Hop("", "")

  lemma SplitRouting(t: Table, tun: Tun, hosts4: seq<seq<bool>>, gateway4: Hop, hosts6: seq<seq<bool>>, gateway6: Hop)
    requires Addresses(V4, hosts4) && Addresses(V6, hosts6) && tun.enabled && tun.routeAll
    requires gateway4 == GatewayIn(t, V4) && gateway6 == GatewayIn(t, V6)
    ensures Split(t, Installed(Installed(t, V4, tun, hosts4, gateway4), V6, tun, hosts6, gateway6), tun, hosts4, hosts6)
  {
    var u := Installed(Installed(t, V4, tun, hosts4, gateway4), V6, tun, hosts6, gateway6);
    SplitByEach(t, tun, hosts4, gateway4, hosts6, gateway6);
    InstalledElsewhere(t, V4, tun, hosts4, gateway4);
    SteeredNowhere(t, u, V4, 1, gateway4, Use(tun.hop4));
    SteeredNowhere(t, u, V6, 1, gateway6, Use(tun.hop6));
    hide Steered;
    assert forall upper :: Prefix(V6, [upper]) == Half(V6, upper);
  }

  lemma SteeredNowhere(t: Table, u: Table, f: Family, m: nat, gateway: Hop, short: Choice)
    ensures Steered(t, u, f, m, [], gateway, short) ==> Steered(t, u, f, m, [], NO_HOP, short)
  {
  }

  lemma SplitByEach(t: Table, tun: Tun, hosts4: seq<seq<bool>>, gateway4: Hop, hosts6: seq<seq<bool>>, gateway6: Hop)
    requires Addresses(V4, hosts4) && Addresses(V6, hosts6)
    ensures var u := Installed(Installed(t, V4, tun, hosts4, gateway4), V6, tun, hosts6, gateway6);
            SplitBy(t, u, V4, tun, hosts4, gateway4) && SplitBy(t, u, V6, tun, hosts6, gateway6)
  {
    hide Installed, SplitBy;
    var t1 := Installed(t, V4, tun, hosts4, gateway4);
    var u := Installed(t1, V6, tun, hosts6, gateway6);
    InstalledSplits(t, V4, tun, hosts4, gateway4);
    InstalledSplits(t1, V6, tun, hosts6, gateway6);
    InstalledElsewhere(t, V4, tun, hosts4, gateway4);
    InstalledElsewhere(t1, V6, tun, hosts6, gateway6);
    SplitBySame(t, t1, t, u, V4, tun, hosts4, gateway4);
    assert SameFor(V6, t1, t) by { SameForSym(V6, t, t1); }
    SplitBySame(t1, u, t, u, V6, tun, hosts6, gateway6);
  }

  lemma SameForSym(f: Family, t: Table, u: Table)
    requires SameFor(f, t, u)
    ensures SameFor(f, u, t)
  {
    forall p: Prefix | p.family == f ensures SameAt(u, t, p) {
      assert SameAt(t, u, p);
    }
  }

  /**
    What a block does to a family's traffic: if there was a gateway, the addresses in `hosts` keep it, an address
    with a route other than the default one keeps that, and every other address has no route.
   */
  ghost predicate CutOff(t: Table, u: Table, f: Family, hosts: seq<seq<bool>>) {
    if HasGateway(t, f) then Steered(t, u, f, 0, hosts, t[Prefix(f, [])], NoRoute) else SameFor(f, t, u)
  }

  lemma BlockedCutsOff(t: Table, f: Family, hosts: seq<seq<bool>>)
    requires Addresses(f, hosts)
    ensures CutOff(t, Blocked(t, f, hosts, GatewayIn(t, f)), f, hosts)
  {
    var gateway := GatewayIn(t, f);
    if HasGateway(t, f) {
      var t1, r := t - {Default(f)}, Blocked(t, f, hosts, gateway);
      forall p: Prefix ensures
        if p.family == f && p.bits in hosts then p in r && r[p] == gateway
        else if p == Default(f) then p !in r
        else SameAt(t, r, p)
      {
        WithHostsAt(t1, f, hosts, gateway, p);
      }
      forall a: seq<bool> | |a| == AddressWidth(f) ensures Match(r, f, a, 0) == NoRoute {
        assert Prefix(f, a[..0]) == Default(f);
      }
      SteeredBy(t, r, f, 0, hosts, gateway, NoRoute);
    }
  }

  lemma BlockedElsewhere(t: Table, f: Family, hosts: seq<seq<bool>>, gateway: Hop)
    ensures forall g :: g != f ==> SameFor(g, t, Blocked(t, f, hosts, gateway))
  {
    forall p: Prefix | p.family != f ensures SameAt(t, Blocked(t, f, hosts, gateway), p) {
      WithHostsAt(t - {Default(f)}, f, hosts, gateway, p);
    }
  }

  lemma CutOffSame(t: Table, u: Table, t1: Table, u1: Table, f: Family, hosts: seq<seq<bool>>)
    requires CutOff(t, u, f, hosts) && SameFor(f, t, t1) && SameFor(f, u, u1)
    ensures CutOff(t1, u1, f, hosts)
  {
    hide Steered;
    assert SameAt(t, t1, Prefix(f, []));
    if HasGateway(t, f) {
      SteeredSame(t, u, t1, u1, f, 0, hosts, t[Prefix(f, [])], NoRoute);
    } else {
      forall p: Prefix | p.family == f ensures SameAt(t1, u1, p) {
        assert SameAt(t, t1, p) && SameAt(u, u1, p) && SameAt(t, u, p);
      }
    }
  }

  /** A block of both families in which nothing failed. */
  lemma BlockRouting(t: Table, hosts4: seq<seq<bool>>, gateway4: Hop, hosts6: seq<seq<bool>>, gateway6: Hop)
    requires Addresses(V4, hosts4) && Addresses(V6, hosts6)
    requires gateway4 == GatewayIn(t, V4) && gateway6 == GatewayIn(t, V6)
    ensures var u := Blocked(Blocked(t, V4, hosts4, gateway4), V6, hosts6, gateway6);
            CutOff(t, u, V4, hosts4) && CutOff(t, u, V6, hosts6)
  {
    hide Blocked, CutOff;
    var t1 := Blocked(t, V4, hosts4, gateway4);
    var u := Blocked(t1, V6, hosts6, gateway6);
    BlockedElsewhere(t, V4, hosts4, gateway4);
    BlockedElsewhere(t1, V6, hosts6, gateway6);
    assert SameFor(V6, t, t1) && SameAt(t, t1, Default(V6));
    BlockedCutsOff(t, V4, hosts4);
    BlockedCutsOff(t1, V6, hosts6);
    CutOffSame(t, t1, t, u, V4, hosts4);
    assert SameFor(V6, t1, t) by { SameForSym(V6, t, t1); }
    CutOffSame(t1, u, t, u, V6, hosts6);
  }

  // ---------- a start while the kill switch holds a block ----------

  /** Undoing looks at each prefix by itself. */
  lemma {:induction false} UndoLocal(t: Table, u: Table, commands: seq<Command>, p: Prefix)
    requires SameAt(t, u, p)
    ensures SameAt(UndoAll(t, commands), UndoAll(u, commands), p)
    decreases |commands|
  {
    if commands != [] {
      var c, rest := commands[|commands| - 1], commands[..|commands| - 1];
      UndoLocal(if Applies(t, c) then Effect(t, c) else t, if Applies(u, c) then Effect(u, c) else u, rest, p);
    }
  }

  lemma {:induction false} UndoElsewhere(t: Table, commands: seq<Command>, p: Prefix)
    requires forall c :: c in commands ==> c.prefix != p
    ensures SameAt(t, UndoAll(t, commands), p)
    decreases |commands|
  {
    if commands != [] {
      var c, rest := commands[|commands| - 1], commands[..|commands| - 1];
      UndoElsewhere(if Applies(t, c) then Effect(t, c) else t, rest, p);
    }
  }

  /** Releasing a block brings back every route it had changed and leaves the others as they have become. */
  lemma ReleaseAt(t: Table, blocked: Table, now: Table, commands: seq<Command>, p: Prefix)
    requires Accounts(t, blocked, {}, commands)
    ensures SameAt(blocked, now, p) ==> SameAt(t, UndoAll(now, commands), p)
    ensures SameAt(t, blocked, p) ==> SameAt(now, UndoAll(now, commands), p)
  {
    if SameAt(blocked, now, p) {
      UndoAllSettles(t, blocked, {}, commands);
      LedgerEmpty(t, UndoAll(blocked, commands));
      UndoLocal(blocked, now, commands, p);
    }
    if SameAt(t, blocked, p) {
      forall c | c in commands ensures c.prefix != p {
        assert c in {} + Commands(commands) && Records(t, blocked, c);
      }
      UndoElsewhere(now, commands, p);
    }
  }

  lemma BlockedAt(t: Table, hosts4: seq<seq<bool>>, hosts6: seq<seq<bool>>, p: Prefix)
    requires p.family == V4 && HasGateway(t, V4)
    ensures var gw4, gw6 := GatewayIn(t, V4), GatewayIn(t, V6);
            var u := Blocked(Blocked(t, V4, hosts4, gw4), V6, hosts6, gw6);
            if p.bits in hosts4 then p in u && u[p] == gw4
            else if p == Default(V4) then p !in u
            else SameAt(t, u, p)
  {
    hide WithHosts;
    var gw4, gw6 := GatewayIn(t, V4), GatewayIn(t, V6);
    var t1 := Blocked(t, V4, hosts4, gw4);
    WithHostsAt(t - {Default(V4)}, V4, hosts4, gw4, p);
    BlockedElsewhere(t1, V6, hosts6, gw6);
    assert SameFor(V4, t1, Blocked(t1, V6, hosts6, gw6));
    assert SameAt(t1, Blocked(t1, V6, hosts6, gw6), p);
  }

  /** `t` before a block, `blocked` under it, `now` after a setup made under it. */
  lemma ReleasedRouting(t: Table, blocked: Table, now: Table, commands: seq<Command>, tun: Tun,
                        allowed4: seq<seq<bool>>, allowed6: seq<seq<bool>>, hosts4: seq<seq<bool>>,
                        hosts6: seq<seq<bool>>)
    requires Addresses(V4, allowed4) && Addresses(V4, hosts4) && HasGateway(t, V4) && tun.enabled && tun.routeAll
    requires blocked == Blocked(Blocked(t, V4, allowed4, GatewayIn(t, V4)), V6, allowed6, GatewayIn(t, V6))
    requires now == Installed(Installed(blocked, V4, tun, hosts4, GatewayIn(blocked, V4)), V6, tun, hosts6,
                              GatewayIn(blocked, V6))
    requires Accounts(t, blocked, {}, commands)
    ensures Steered(t, UndoAll(now, commands), V4, 1, [], NO_HOP, Use(tun.hop4))
  {
    hide Accounts, Blocked, Steered, UndoAll, WithHosts;
    var u, goal := UndoAll(now, commands), Installed(t, V4, tun, [], NO_HOP);
    BlockedAt(t, allowed4, allowed6, Default(V4));
    assert [] !in allowed4;
    var inner := Installed(blocked, V4, tun, hosts4, GatewayIn(blocked, V4));
    assert inner == WithHalves(blocked, V4, tun.hop4) by { NoHostsNoChange(blocked); }
    assert goal == WithHalves(t, V4, tun.hop4) by { NoHostsNoChange(t); }
    InstalledElsewhere(inner, V6, tun, hosts6, GatewayIn(blocked, V6));
    assert SameFor(V4, inner, now);
    forall p: Prefix | p.family == V4 ensures SameAt(goal, u, p) {
      assert SameAt(inner, now, p);
      ReleaseAt(t, blocked, now, commands, p);
      if IsHalf(p) {
        BlockedAt(t, allowed4, allowed6, p);
        assert p == Half(V4, p.bits[0]);
      }
    }
    InstalledSplits(t, V4, tun, [], NO_HOP);
    assert SameFor(V4, t, t);
    SteeredSame(t, goal, t, u, V4, 1, [], NO_HOP, Use(tun.hop4));
  }

  lemma NoHostsNoChange(t: Table)
    ensures forall f, hop :: WithHosts(t, f, [], hop) == t
  {
  }

  /**
    The calls for a start that becomes running: with the kill switch on, a block taken at admission is released
    after the setup. If nothing fails and there was a gateway, the bypass addresses keep it exactly when there was
    no block: under a block the setup finds no gateway and adds no bypass, so once the block is released they
    go into the tunnel like any other address.
   */
  method StartSequence(k: Kernel, tun: Tun, killSwitch: bool, allowed4: seq<seq<bool>>, allowed6: seq<seq<bool>>,
                       hosts4: seq<seq<bool>>, hosts6: seq<seq<bool>>)
    requires Addresses(V4, allowed4) && Addresses(V6, allowed6) && Addresses(V4, hosts4) && Addresses(V6, hosts6)
    requires tun.enabled && tun.routeAll
    modifies k
    ensures k.failures == old(k.failures) && HasGateway(old(k.table), V4) ==>
              if killSwitch then Steered(old(k.table), k.table, V4, 1, [], NO_HOP, Use(tun.hop4))
              else Steered(old(k.table), k.table, V4, 1, hosts4, old(k.table)[Prefix(V4, [])], Use(tun.hop4))
  {
    hide Accounts, Installed, Blocked, Steered, CutOff, UndoAll;
    ghost var t := k.table;
    LedgerStart(t);
    if !killSwitch {
      var setup := Apply(k, tun, hosts4, hosts6, t, {});
      return;
    }
    var block := BlockLinux(k, allowed4, allowed6, t, {});
    ghost var blocked := k.table;
    var setup := Apply(k, tun, hosts4, hosts6, blocked, {});
    ghost var now := k.table;
    block.Run(k);
    if k.failures == old(k.failures) && HasGateway(t, V4) {
      ReleasedRouting(t, blocked, now, block.commands, tun, allowed4, allowed6, hosts4, hosts6);
    }
  }
}
