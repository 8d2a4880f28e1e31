/** The manager together with the kernel's table: route changes are always accounted for by what is held. */
module RouteRuns {
  import opened Routes
  import opened Wire
  import opened Manager

  /**
    One start between admission and its end: not yet applying routes, running the commands of its setup one by
    one outside the mutex, holding its cleanup in the manager, or refused at commit and about to stop.
   */
  datatype Phase = Starting | Applying(todo: seq<Command>, journal: seq<Command>) | Holding | Refused

  datatype Flight = NoFlight | Flight(ctx: nat, profile: Profile, phase: Phase)

  /** `block` and `route` are the journals of the two cleanups the manager may hold, empty when it holds none. */
  datatype System = System(m: Fields, flight: Flight, table: Table, block: seq<Command>, route: seq<Command>)

  function Journal(f: Flight): seq<Command> {
    if f.Flight? && f.phase.Applying? then f.phase.journal else []
  }

  /** A forward command and whether the system lets it succeed. */
  type Attempted = (Command, bool)

  datatype Event =
    | Begin(profile: Profile, plan: seq<Attempted>)
    | BeginApply(todo: seq<Command>)
    | NextCommand(ok: bool)
    | Hold
    | Finish(bypass: Hosts, plan: seq<Attempted>)
    | Abort(plan: seq<Attempted>)
    | StopNow(manual: bool, plan: seq<Attempted>)
    | Switch(enabled: bool, profile: Profile, plan: seq<Attempted>)

  /** The commands of a block: default routes are deleted and host routes added, in any number and order. */
  predicate IsBlockPlan(plan: seq<Attempted>) {
    forall i :: 0 <= i < |plan| ==> IsForward(plan[i].0) && !plan[i].0.Replace?
  }

  /** The commands of a setup: host routes are added and each half route replaced at most once. */
  predicate IsSetup(todo: seq<Command>) {
    && (forall i :: 0 <= i < |todo| ==> IsForward(todo[i]) && !todo[i].Del?)
    && (forall i, j :: 0 <= i < j < |todo| && todo[i].Replace? && todo[j].Replace? ==> todo[i].prefix != todo[j].prefix)
  }

  function RunPlan(t: Table, journal: seq<Command>, plan: seq<Attempted>): (Table, seq<Command>)
    decreases |plan|
  {
    if plan == [] then (t, journal)
    else
      var (c, ok) := plan[0];
      if ok && Applies(t, c) then RunPlan(Effect(t, c), journal + [Undo(t, c)], plan[1..])
      else RunPlan(t, journal, plan[1..])
  }

  /** What a call into the routes package does; undo commands are not refused. */
  function Call(s: System, call: RouteCall, plan: seq<Attempted>): System {
    match call
    case RunRouteCleanup => s.(table := UndoAll(s.table, s.route), route := [])
    case RunBlockCleanup => s.(table := UndoAll(s.table, s.block), block := [])
    case Block(_) =>
      var (t, journal) := RunPlan(s.table, [], plan);
      s.(table := t, block := journal)
  }

  function Calls(s: System, calls: seq<RouteCall>, plan: seq<Attempted>): System
    decreases |calls|
  {
    if calls == [] then s else Calls(Call(s, calls[0], plan), calls[1..], plan)
  }

  /** A critical section: the fields change and its calls are carried out. */
  function Section(s: System, r: (Fields, seq<RouteCall>), plan: seq<Attempted>): System {
    Calls(s.(m := r.0), r.1, plan)
  }

  /** At most one start is in flight; others may be attempted meanwhile when the manager is busy and refuses them. */
  predicate Enabled(s: System, e: Event) {
    match e
    case Begin(_, plan) => IsBlockPlan(plan) && (s.flight.NoFlight? || Busy(s.m))
    case BeginApply(todo) => IsSetup(todo) && s.flight.Flight? && s.flight.phase.Starting?
    case NextCommand(_) => s.flight.Flight? && s.flight.phase.Applying? && s.flight.phase.todo != []
    case Hold => s.flight.Flight? && s.flight.phase.Applying? && s.flight.phase.todo == []
    case Finish(_, plan) =>
      IsBlockPlan(plan) && s.flight.Flight? && (s.flight.phase.Starting? || s.flight.phase.Holding?)
    case Abort(plan) =>
      IsBlockPlan(plan) && s.flight.Flight? && (s.flight.phase.Starting? || s.flight.phase.Refused?)
    case StopNow(_, plan) => IsBlockPlan(plan)
    case Switch(_, _, plan) => IsBlockPlan(plan)
  }

  function Step(s: System, e: Event): System
    requires Enabled(s, e)
  {
    match e
    case Begin(p, plan) =>
      var t := Section(s, Admit(s.m, p, true), plan);
      if Busy(s.m) then t else t.(flight := Flight(s.m.nextContext, p, Starting))
    case BeginApply(todo) => s.(flight := s.flight.(phase := Applying(todo, [])))
    case NextCommand(ok) =>
      var Applying(todo, journal) := s.flight.phase;
      if ok && Applies(s.table, todo[0]) then
        s.(table := Effect(s.table, todo[0]),
           flight := s.flight.(phase := Applying(todo[1..], journal + [Undo(s.table, todo[0])])))
      else s.(flight := s.flight.(phase := Applying(todo[1..], journal)))
    case Hold =>
      s.(m := s.m.(routesHeld := true), route := s.flight.phase.journal, flight := s.flight.(phase := Holding))
    case Finish(bypass, plan) =>
      if Current(s.m, s.flight.ctx, s.flight.profile) then
        Section(s, Commit(s.m, s.flight.ctx, s.flight.profile, bypass, true), plan).(flight := NoFlight)
      else s.(flight := s.flight.(phase := Refused))
    case Abort(plan) => Section(s, Stop(s.m, false, true), plan).(flight := NoFlight)
    case StopNow(manual, plan) => Section(s, Stop(s.m, manual, true), plan)
    case Switch(enabled, p, plan) => Section(s, SetKillSwitch(s.m, enabled, p, true), plan)
  }

  datatype Outcome = Stuck | Reached(state: System)

  function After(t0: Table, events: seq<Event>): Outcome {
    if events == [] then Reached(System(INITIAL, NoFlight, t0, [], []))
    else match After(t0, events[..|events| - 1])
      case Stuck => Stuck
      case Reached(s) =>
        var e := events[|events| - 1];
        if Enabled(s, e) then Reached(Step(s, e)) else Stuck
  }

  // ---------- the invariant ----------

  ghost predicate NoHalfIn(s: seq<Command>) {
    forall c :: c in s ==> !IsHalf(c.prefix)
  }

  /** All three journals together are the ledger; they share no command. */
  ghost predicate Books(t0: Table, s: System) {
    var journal := Journal(s.flight);
    && Distinct(s.block) && Distinct(s.route) && Distinct(journal)
    && Commands(s.block) !! Commands(s.route) && Commands(s.block) !! Commands(journal)
    && Commands(s.route) !! Commands(journal)
    && Ledger(t0, s.table, Commands(s.block) + Commands(s.route) + Commands(journal))
    && NoHalfIn(s.block)
  }

  /** A cleanup field that is not set has nothing left to undo. */
  predicate Fielded(s: System) {
    (!s.m.blocked ==> s.block == []) && (!s.m.routesHeld ==> s.route == [])
  }

  /** Routes are held only by a start in its last phase or by a running connection. */
  predicate Phased(s: System) {
    && (s.flight.Flight? ==> !s.m.status.running)
    && (s.flight.NoFlight? && !s.m.status.running ==> !s.m.routesHeld)
    && (s.flight.Flight? && (s.flight.phase.Starting? || s.flight.phase.Applying?) ==> !s.m.routesHeld)
  }

  /** What is left of a setup replaces only half routes it has not replaced yet. */
  ghost predicate Pending(s: System) {
    s.flight.Flight? && s.flight.phase.Applying? ==>
      && IsSetup(s.flight.phase.todo)
      && forall c :: c in s.flight.phase.todo && c.Replace? ==>
           forall d :: d in s.flight.phase.journal ==> d.prefix != c.prefix
  }

  ghost predicate Inv(t0: Table, s: System) {
    Books(t0, s) && Fielded(s) && Phased(s) && Pending(s)
  }

  // ---------- calls ----------

  lemma {:induction false} RunPlanAccounts(t0: Table, t: Table, others: set<Command>, journal: seq<Command>,
                                           plan: seq<Attempted>)
    requires Accounts(t0, t, others, journal) && IsBlockPlan(plan) && NoHalfIn(journal)
    ensures var (t1, journal1) := RunPlan(t, journal, plan);
            Accounts(t0, t1, others, journal1) && NoHalfIn(journal1)
    decreases |plan|
  {
    if plan != [] {
      var (c, ok) := plan[0];
      if ok && Applies(t, c) {
        AccountsForward(t0, t, others, journal, c);
        RunPlanAccounts(t0, Effect(t, c), others, journal + [Undo(t, c)], plan[1..]);
      } else {
        RunPlanAccounts(t0, t, others, journal, plan[1..]);
      }
    }
  }

  /** A block is only ever built when none is held. */
  lemma CallKeeps(t0: Table, s: System, call: RouteCall, plan: seq<Attempted>)
    requires Books(t0, s) && IsBlockPlan(plan) && (call.Block? ==> s.block == [])
    ensures Books(t0, Call(s, call, plan))
  {
    var journal := Journal(s.flight);
    var b, r, j := Commands(s.block), Commands(s.route), Commands(journal);
    match call {
      case RunRouteCleanup =>
        assert b + r + j == b + j + r;
        UndoAllSettles(t0, s.table, b + j, s.route);
        assert Commands([]) == {} && b + {} + j == b + j;
      case RunBlockCleanup =>
        assert b + r + j == r + j + b;
        UndoAllSettles(t0, s.table, r + j, s.block);
        assert Commands([]) == {} && {} + r + j == r + j;
      case Block(_) =>
        assert b == {} && b + r + j == r + j + Commands([]);
        RunPlanAccounts(t0, s.table, r + j, [], plan);
        var (t1, block1) := RunPlan(s.table, [], plan);
        assert Commands(block1) + r + j == r + j + Commands(block1);
    }
  }

  /** The calls a section may make: at most one of each kind, and a block only after releasing the one held. */
  predicate CallsFit(s: System, calls: seq<RouteCall>) {
    || calls == []
    || calls == [RunBlockCleanup]
    || (calls[1..] == [] && calls[0].Block? && s.block == [])
    || (|calls| == 2 && calls[0] == RunBlockCleanup && calls[1].Block?)
  }

  lemma CallsKeep(t0: Table, s: System, calls: seq<RouteCall>, plan: seq<Attempted>)
    requires Books(t0, s) && IsBlockPlan(plan) && CallsFit(s, calls)
    ensures var t := Calls(s, calls, plan);
            && Books(t0, t) && t == s.(table := t.table, block := t.block)
            && (calls == [] ==> t.block == s.block)
            && (calls == [RunBlockCleanup] ==> t.block == [])
  {
    hide Books;
    if calls != [] {
      var s1 := Call(s, calls[0], plan);
      CallKeeps(t0, s, calls[0], plan);
      assert Calls(s, calls, plan) == Calls(s1, calls[1..], plan);
      if |calls| == 2 {
        assert calls[1..][0] == calls[1] && calls[1..][1..] == [];
        CallKeeps(t0, s1, calls[1], plan);
        assert Calls(s1, calls[1..], plan) == Calls(Call(s1, calls[1], plan), [], plan);
      }
    }
  }

  /** Synchronising the kill switch keeps the books, and leaves a journal only where a cleanup is set. */
  lemma SyncSection(t0: Table, s: System, m: Fields, plan: seq<Attempted>)
    requires Books(t0, s) && IsBlockPlan(plan) && Fielded(s)
    requires m.blocked == s.m.blocked && m.routesHeld == s.m.routesHeld
    ensures var t := Section(s, Sync(m, true), plan);
            && Books(t0, t) && Fielded(t)
            && t == s.(m := Sync(m, true).0, table := t.table, block := t.block)
  {
    var (m1, calls) := Sync(m, true);
    var s1 := s.(m := m1);
    assert Books(t0, s1);
    assert CallsFit(s1, calls);
    CallsKeep(t0, s1, calls, plan);
  }

  lemma StopSection(t0: Table, s: System, manual: bool, plan: seq<Attempted>)
    requires Books(t0, s) && IsBlockPlan(plan) && Fielded(s)
    ensures var t := Section(s, Stop(s.m, manual, true), plan);
            && Books(t0, t) && Fielded(t) && t.flight == s.flight
            && !t.m.status.running && !t.m.status.connecting && !t.m.routesHeld
  {
    hide Sync, Books, Cleared;
    var m2 := Cleared(s.m, manual);
    var (m3, calls) := Sync(m2, true);
    var s1 := if s.m.routesHeld then Call(s, RunRouteCleanup, plan) else s;
    if s.m.routesHeld {
      CallKeeps(t0, s, RunRouteCleanup, plan);
      assert ([RunRouteCleanup] + calls)[1..] == calls;
    } else {
      assert [] + calls == calls;
    }
    assert Section(s, Stop(s.m, manual, true), plan) == Calls(s1.(m := m3), calls, plan);
    var s2 := s1.(m := m2);
    BooksIgnoreFields(t0, s1, s2);
    SyncSection(t0, s2, m2, plan);
  }

  // ---------- steps ----------

  /** A half route about to be replaced is not in the table: nobody else adds one. */
  lemma HalfIsFree(t0: Table, s: System)
    requires Inv(t0, s) && NoHalves(t0) && s.flight.Flight? && s.flight.phase.Applying? && s.flight.phase.todo != []
    ensures var c := s.flight.phase.todo[0]; c.Replace? ==> c.prefix !in s.table
  {
    var c := s.flight.phase.todo[0];
    if c.Replace? {
      assert c in s.flight.phase.todo && IsForward(c);
      assert SameAt(t0, s.table, c.prefix);
    }
  }

  lemma NextCommandBooks(t0: Table, s: System, ok: bool)
    requires Inv(t0, s) && NoHalves(t0) && Enabled(s, NextCommand(ok))
    ensures Books(t0, Step(s, NextCommand(ok)))
  {
    hide Fielded, Phased;
    var Applying(todo, journal) := s.flight.phase;
    var c := todo[0];
    HalfIsFree(t0, s);
    assert IsForward(c);
    if ok && Applies(s.table, c) {
      hide Pending, Undo, Effect, Ledger;
      AccountsForward(t0, s.table, Commands(s.block) + Commands(s.route), journal, c);
      assert Commands(journal + [Undo(s.table, c)]) == Commands(journal) + {Undo(s.table, c)};
    }
  }

  lemma NextCommandKeeps(t0: Table, s: System, ok: bool)
    requires Inv(t0, s) && NoHalves(t0) && Enabled(s, NextCommand(ok))
    ensures Inv(t0, Step(s, NextCommand(ok)))
  {
    NextCommandBooks(t0, s, ok);
    hide Books;
    SetupStep(s.flight.phase.todo, s.flight.phase.journal);
  }

  lemma SetupStep(todo: seq<Command>, journal: seq<Command>)
    requires todo != [] && IsSetup(todo)
    requires forall c :: c in todo && c.Replace? ==> forall d :: d in journal ==> d.prefix != c.prefix
    ensures IsSetup(todo[1..])
    ensures forall c :: c in todo[1..] && c.Replace? ==>
              forall d :: d in journal || d.prefix == todo[0].prefix ==> d.prefix != c.prefix
  {
    var rest := todo[1..];
    assert forall i :: 0 <= i < |rest| ==> rest[i] == todo[i + 1];
    forall c, d | c in rest && c.Replace? && (d in journal || d.prefix == todo[0].prefix) ensures d.prefix != c.prefix {
      var i :| 0 <= i < |rest| && rest[i] == c;
      assert todo[i + 1] == c && IsForward(todo[i + 1]) && IsForward(todo[0]);
      assert c in todo;
    }
  }

  lemma BeginKeeps(t0: Table, s: System, p: Profile, plan: seq<Attempted>)
    requires Inv(t0, s) && Enabled(s, Begin(p, plan))
    ensures Inv(t0, Step(s, Begin(p, plan)))
  {
    hide Books, Sync, Admitted, Switched;
    if Busy(s.m) {
      assert Section(s, Admit(s.m, p, true), plan) == s.(m := Admit(s.m, p, true).0);
      BooksIgnoreFields(t0, s, s.(m := Admit(s.m, p, true).0));
    } else {
      var m := Admitted(s.m, p);
      SyncSection(t0, s, m, plan);
      BooksIgnoreFields(t0, Section(s, Sync(m, true), plan), Step(s, Begin(p, plan)));
    }
  }

  /** The books depend on the journals only, and do not care which of two empty-handed holders has one. */
  lemma BooksIgnoreFields(t0: Table, s: System, t: System)
    requires Books(t0, s) && t.table == s.table && t.block == s.block
    requires || (Journal(t.flight) == Journal(s.flight) && t.route == s.route)
             || (s.route == [] && Journal(t.flight) == [] && t.route == Journal(s.flight))
    ensures Books(t0, t)
  {
    var b := Commands(s.block);
    assert b + Commands(s.route) + Commands(Journal(s.flight)) == b + Commands(t.route) + Commands(Journal(t.flight));
  }

  lemma FinishKeeps(t0: Table, s: System, bypass: Hosts, plan: seq<Attempted>)
    requires Inv(t0, s) && Enabled(s, Finish(bypass, plan))
    ensures Inv(t0, Step(s, Finish(bypass, plan)))
  {
    hide Books, Sync, Committed;
    var p := s.flight.profile;
    if Current(s.m, s.flight.ctx, p) {
      var m := Committed(s.m, p, bypass);
      SyncSection(t0, s, m, plan);
      BooksIgnoreFields(t0, Section(s, Sync(m, true), plan), Step(s, Finish(bypass, plan)));
    } else {
      BooksIgnoreFields(t0, s, Step(s, Finish(bypass, plan)));
    }
  }

  lemma AbortKeeps(t0: Table, s: System, plan: seq<Attempted>)
    requires Inv(t0, s) && Enabled(s, Abort(plan))
    ensures Inv(t0, Step(s, Abort(plan)))
  {
    hide Books, Stop;
    StopSection(t0, s, false, plan);
    BooksIgnoreFields(t0, Section(s, Stop(s.m, false, true), plan), Step(s, Abort(plan)));
  }

  lemma SwitchKeeps(t0: Table, s: System, enabled: bool, p: Profile, plan: seq<Attempted>)
    requires Inv(t0, s) && Enabled(s, Switch(enabled, p, plan))
    ensures Inv(t0, Step(s, Switch(enabled, p, plan)))
  {
    hide Books, Sync, Switched;
    SyncSection(t0, s, Switched(s.m, enabled, p), plan);
    BooksIgnoreFields(t0, Section(s, Sync(Switched(s.m, enabled, p), true), plan), Step(s, Switch(enabled, p, plan)));
  }

  lemma StepKeeps(t0: Table, s: System, e: Event)
    requires Inv(t0, s) && NoHalves(t0) && Enabled(s, e)
    ensures Inv(t0, Step(s, e))
  {
    hide Books, Section, Sync, Stop, SetKillSwitch, Admit, Commit;
    match e {
      case Begin(p, plan) => BeginKeeps(t0, s, p, plan);
      case BeginApply(todo) => BooksIgnoreFields(t0, s, Step(s, e));
      case NextCommand(ok) => NextCommandKeeps(t0, s, ok);
      case Hold => BooksIgnoreFields(t0, s, Step(s, e));
      case Finish(bypass, plan) => FinishKeeps(t0, s, bypass, plan);
      case Abort(plan) => AbortKeeps(t0, s, plan);
      case StopNow(manual, plan) => StopSection(t0, s, manual, plan);
      case Switch(enabled, p, plan) => SwitchKeeps(t0, s, enabled, p, plan);
    }
  }

  /** What all cleanups held at this moment record. */
  function Held(s: System): set<Command> {
    Commands(s.block) + Commands(s.route) + Commands(Journal(s.flight))
  }

  /**
    In every run with at most one start in flight, from a table without half routes, whichever forward
    commands fail: the table is the first one adjusted by exactly what the held cleanups record, and when
    neither the manager nor a start in flight holds one, the first table is back.
   */
  lemma {:induction false} RoutesAccountedFor(t0: Table, events: seq<Event>)
    requires NoHalves(t0) && After(t0, events).Reached?
    ensures var s := After(t0, events).state;
            && Inv(t0, s) && Ledger(t0, s.table, Held(s))
            && (!s.m.blocked && !s.m.routesHeld && Journal(s.flight) == [] ==> s.table == t0)
    decreases |events|
  {
    var s := After(t0, events).state;
    if events == [] {
      LedgerStart(t0);
      assert Commands([]) == {} && Commands([]) + Commands([]) + Commands([]) == {};
    } else {
      var fore := events[..|events| - 1];
      RoutesAccountedFor(t0, fore);
      StepKeeps(t0, After(t0, fore).state, events[|events| - 1]);
    }
    if !s.m.blocked && !s.m.routesHeld && Journal(s.flight) == [] {
      assert Held(s) == {};
      LedgerEmpty(t0, s.table);
    }
  }
}
