/** The routing table, the commands that change it, and the undo log kept while they run. */
module Routes {
  datatype Family = V4 | V6

  /** A destination: the leading bits of an address. */
  datatype Prefix = Prefix(family: Family, bits: seq<bool>)

  datatype Hop = Hop(gateway: string, device: string)

  type Table = map<Prefix, Hop>

  datatype Command =
    | Add(prefix: Prefix, hop: Hop)
    | Replace(prefix: Prefix, hop: Hop)
    | Del(prefix: Prefix)

  function Default(f: Family): Prefix {
    Prefix(f, [])
  }

  /** One of the two halves of the address space. */
  function Half(f: Family, upper: bool): Prefix {
    Prefix(f, [upper])
  }

  predicate IsDefault(p: Prefix) {
    p.bits == []
  }

  predicate IsHalf(p: Prefix) {
    |p.bits| == 1
  }

  predicate NoHalves(t: Table) {
    forall p :: p in t ==> !IsHalf(p)
  }

  function AddressWidth(f: Family): nat {
    if f.V4? then 32 else 128
  }

  predicate IsHost(p: Prefix) {
    |p.bits| == AddressWidth(p.family)
  }

  /** Adding needs the prefix to be free, deleting needs it to be there. */
  predicate Applies(t: Table, c: Command) {
    match c
    case Add(p, _) => p !in t
    case Replace(_, _) => true
    case Del(p) => p in t
  }

  function Effect(t: Table, c: Command): Table {
    match c
    case Add(p, hop) => t[p := hop]
    case Replace(p, hop) => t[p := hop]
    case Del(p) => t - {p}
  }

  /** The undo command recorded when a forward command succeeds. */
  function Undo(t: Table, c: Command): Command
    requires Applies(t, c)
  {
    match c
    case Add(p, _) => Del(p)
    case Replace(p, _) => Del(p)
    case Del(p) => Add(p, t[p])
  }

  /** Forward commands the program issues: host routes are added, half routes replaced, default routes deleted. */
  predicate IsForward(c: Command) {
    match c
    case Add(p, _) => IsHost(p)
    case Replace(p, _) => IsHalf(p)
    case Del(p) => IsDefault(p)
  }

  // ---------- the ledger ----------

  predicate SameAt(t: Table, u: Table, p: Prefix) {
    (p in t <==> p in u) && (p in t ==> t[p] == u[p])
  }

  predicate Touches(held: set<Command>, p: Prefix) {
    exists c :: c in held && c.prefix == p
  }

  /** A record describes one difference between the first table and the current one. */
  predicate Records(t0: Table, t: Table, c: Command) {
    match c
    case Add(p, hop) => IsDefault(p) && p in t0 && t0[p] == hop && p !in t
    case Replace(_, _) => false
    case Del(p) => !IsDefault(p) && p !in t0 && p in t
  }

  /** The current table is the first one adjusted by exactly the records held, one per prefix. */
  ghost predicate Ledger(t0: Table, t: Table, held: set<Command>) {
    && (forall c :: c in held ==> Records(t0, t, c))
    && (forall c, d :: c in held && d in held && c.prefix == d.prefix ==> c == d)
    && (forall p {:trigger SameAt(t0, t, p)} :: !Touches(held, p) ==> SameAt(t0, t, p))
  }

  lemma LedgerStart(t: Table)
    ensures Ledger(t, t, {})
  {
  }

  /** With no record held, the first table is back. */
  lemma LedgerEmpty(t0: Table, t: Table)
    requires Ledger(t0, t, {})
    ensures t == t0
  {
    forall p | p in t || p in t0 ensures p in t && p in t0 && t[p] == t0[p] {
      assert SameAt(t0, t, p);
    }
  }

  /** A forward command that succeeds is recorded; half routes must not exist before. */
  lemma LedgerForward(t0: Table, t: Table, held: set<Command>, c: Command)
    requires Ledger(t0, t, held) && IsForward(c) && Applies(t, c) && (c.Replace? ==> c.prefix !in t)
    ensures Undo(t, c) !in held && Ledger(t0, Effect(t, c), held + {Undo(t, c)})
  {
    var u, t1 := Undo(t, c), Effect(t, c);
    var held1 := held + {u};
    assert forall d :: d in held ==> Records(t0, t, d);
    assert !Touches(held, c.prefix);
    assert SameAt(t0, t, c.prefix);
    forall d | d in held1 ensures Records(t0, t1, d) {
      if d != u {
        assert Records(t0, t, d) && d.prefix != c.prefix;
      }
    }
    forall p | !Touches(held1, p) ensures SameAt(t0, t1, p) {
      assert u in held1 && p != c.prefix;
      assert forall d :: d in held ==> d in held1;
      assert SameAt(t0, t, p);
    }
  }

  /** Any held record can be undone at any time, in any order; it then no longer counts. */
  lemma LedgerUndo(t0: Table, t: Table, held: set<Command>, u: Command)
    requires Ledger(t0, t, held) && u in held
    ensures Applies(t, u) && Ledger(t0, Effect(t, u), held - {u})
  {
    var t1, held1 := Effect(t, u), held - {u};
    assert Records(t0, t, u);
    forall d | d in held1 ensures Records(t0, t1, d) {
      assert Records(t0, t, d) && d.prefix != u.prefix;
    }
    forall p | !Touches(held1, p) ensures SameAt(t0, t1, p) {
      if p != u.prefix {
        assert forall d :: d in held && d.prefix == p ==> d in held1;
        assert SameAt(t0, t, p);
      }
    }
  }

  /** One command by whoever issues it: going forward, or undoing one record of some cleanup. */
  datatype Move = Forward(command: Command) | Backward(record: Command)

  /** A half route is replaced only by a setup that does not hold it yet, and only what is held is undone. */
  predicate MayTake(t: Table, held: set<Command>, move: Move) {
    match move
    case Forward(c) => IsForward(c) && Applies(t, c) && (c.Replace? ==> !Touches(held, c.prefix))
    case Backward(u) => u in held
  }

  /** The table and the records after these moves; one that may not be taken is passed over. */
  function Moved(t: Table, held: set<Command>, moves: seq<Move>): (Table, set<Command>)
    decreases |moves|
  {
    if moves == [] then (t, held)
    else if !MayTake(t, held, moves[0]) then Moved(t, held, moves[1..])
    else
      match moves[0]
      case Forward(c) => Moved(Effect(t, c), held + {Undo(t, c)}, moves[1..])
      case Backward(u) => Moved(if Applies(t, u) then Effect(t, u) else t, held - {u}, moves[1..])
  }

  /** Setups, blocks and cleanups may interleave command by command, in any number and order. */
  lemma {:induction false} LedgerInterleaved(t0: Table, t: Table, held: set<Command>, moves: seq<Move>)
    requires Ledger(t0, t, held) && NoHalves(t0)
    ensures var (t1, held1) := Moved(t, held, moves);
            Ledger(t0, t1, held1) && (held1 == {} ==> t1 == t0)
    decreases |moves|
  {
    hide Ledger, Records, Touches;
    if moves == [] {
      if held == {} {
        LedgerEmpty(t0, t);
      }
    } else if !MayTake(t, held, moves[0]) {
      LedgerInterleaved(t0, t, held, moves[1..]);
    } else {
      match moves[0] {
        case Forward(c) =>
          UntouchedHalf(t0, t, held, c);
          LedgerForward(t0, t, held, c);
          LedgerInterleaved(t0, Effect(t, c), held + {Undo(t, c)}, moves[1..]);
        case Backward(u) =>
          LedgerUndo(t0, t, held, u);
          LedgerInterleaved(t0, Effect(t, u), held - {u}, moves[1..]);
      }
    }
  }

  lemma UntouchedHalf(t0: Table, t: Table, held: set<Command>, c: Command)
    requires Ledger(t0, t, held) && NoHalves(t0) && IsForward(c)
    requires c.Replace? ==> !Touches(held, c.prefix)
    ensures c.Replace? ==> c.prefix !in t
  {
    if c.Replace? {
      assert SameAt(t0, t, c.prefix);
    }
  }

  /** A half route that was already there is overwritten, and undoing deletes it: the condition above is exact. */
  lemma ReplaceRestoredIff(t: Table, p: Prefix, hop: Hop)
    ensures Effect(Effect(t, Replace(p, hop)), Undo(t, Replace(p, hop))) == t <==> p !in t
  {
  }

  // ---------- one cleanup among others ----------

  function Commands(s: seq<Command>): set<Command> {
    set c | c in s
  }

  ghost predicate Distinct(s: seq<Command>) {
    forall i, j :: 0 <= i < j < |s| ==> s[i] != s[j]
  }

  /** This cleanup's commands, together with what others hold, account for the table. */
  ghost predicate Accounts(t0: Table, t: Table, others: set<Command>, commands: seq<Command>) {
    && Distinct(commands)
    && Commands(commands) !! others
    && Ledger(t0, t, others + Commands(commands))
  }

  lemma AccountsForward(t0: Table, t: Table, others: set<Command>, commands: seq<Command>, c: Command)
    requires Accounts(t0, t, others, commands) && IsForward(c) && Applies(t, c) && (c.Replace? ==> c.prefix !in t)
    ensures Accounts(t0, Effect(t, c), others, commands + [Undo(t, c)])
  {
    LedgerForward(t0, t, others + Commands(commands), c);
    var u := Undo(t, c);
    assert Commands(commands + [u]) == Commands(commands) + {u};
    assert others + Commands(commands + [u]) == others + Commands(commands) + {u};
    assert u !in commands;
  }

  lemma AccountsUndo(t0: Table, t: Table, others: set<Command>, commands: seq<Command>)
    requires Accounts(t0, t, others, commands) && commands != []
    ensures var u := commands[|commands| - 1];
            Applies(t, u) && Accounts(t0, Effect(t, u), others, commands[..|commands| - 1])
  {
    var n := |commands| - 1;
    var u, rest := commands[n], commands[..n];
    LedgerUndo(t0, t, others + Commands(commands), u);
    assert commands == rest + [u] && u !in rest;
    assert Commands(commands) == Commands(rest) + {u};
    assert others + Commands(rest) == others + Commands(commands) - {u};
  }

  /** Undoing a whole cleanup, last command first; a command that does not apply changes nothing. */
  function UndoAll(t: Table, commands: seq<Command>): Table
    decreases |commands|
  {
    if commands == [] then t
    else
      var u := commands[|commands| - 1];
      UndoAll(if Applies(t, u) then Effect(t, u) else t, commands[..|commands| - 1])
  }

  lemma {:induction false} UndoAllSettles(t0: Table, t: Table, others: set<Command>, commands: seq<Command>)
    requires Accounts(t0, t, others, commands)
    ensures Ledger(t0, UndoAll(t, commands), others)
    decreases |commands|
  {
    if commands == [] {
      assert others + Commands(commands) == others;
    } else {
      AccountsUndo(t0, t, others, commands);
      var n := |commands| - 1;
      UndoAllSettles(t0, Effect(t, commands[n]), others, commands[..n]);
    }
  }

  // ---------- longest-prefix match ----------

  datatype Choice = NoRoute | Use(hop: Hop)

  /** The route for an address: the longest prefix of at most `n` bits that is in the table. */
  function Match(t: Table, f: Family, address: seq<bool>, n: nat): Choice
    requires n <= |address|
  {
    if Prefix(f, address[..n]) in t then Use(t[Prefix(f, address[..n])])
    else if n == 0 then NoRoute
    else Match(t, f, address, n - 1)
  }

  function RouteOf(t: Table, f: Family, address: seq<bool>): Choice {
    Match(t, f, address, |address|)
  }
}
