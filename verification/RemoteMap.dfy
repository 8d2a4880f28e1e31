/** Peers by address, with a heap by age for expiry; the heap and the index move together. */
module RemoteMap {
  import opened HeapOrder

  type Addr = string

  class Record {
    const addr: Addr
    var lastSeen: int
    var closed: bool

    constructor (addr: Addr, lastSeen: int)
      ensures this.addr == addr && this.lastSeen == lastSeen && !closed
    {
      this.addr, this.lastSeen, closed := addr, lastSeen, false;
    }

    /** Closing the send queue twice would panic. */
    method CloseSendQueue()
      requires !closed
      modifies this`closed
      ensures closed
    {
      closed := true;
    }
  }

  // ---------- a heap and an index in step ----------

  /** The two collections describe the same records: `index` holds each record's position and nothing else. */
  ghost predicate InStep(age: seq<Record>, index: map<Addr, nat>) {
    && |age| == |index|
    && (forall i :: 0 <= i < |age| ==> age[i].addr in index && index[age[i].addr] == i)
    && (forall a :: a in index ==> index[a] < |age| && age[index[a]].addr == a)
  }

  /** The plain map that the two collections stand for. */
  ghost function ViewOf(age: seq<Record>, index: map<Addr, nat>): (view: map<Addr, Record>)
    requires InStep(age, index)
    ensures view.Keys == index.Keys
  {
    map a | a in index :: age[index[a]]
  }

  lemma ViewRecords(age: seq<Record>, index: map<Addr, nat>)
    requires InStep(age, index)
    ensures var view := ViewOf(age, index);
            && (forall r :: r in age <==> r.addr in view && view[r.addr] == r)
            && (forall a :: a in view ==> view[a].addr == a && view[a] in age)
  {
    var view := ViewOf(age, index);
    forall r | r in age ensures r.addr in view && view[r.addr] == r {
      var i :| 0 <= i < |age| && age[i] == r;
    }
  }

  /** The index after positions `i` and `j` of `age` have been exchanged. */
  function Reindexed(age: seq<Record>, index: map<Addr, nat>, i: nat, j: nat): map<Addr, nat>
    requires i < |age| && j < |age|
  {
    index[age[j].addr := i][age[i].addr := j]
  }

  lemma ExchangeStaysInStep(age: seq<Record>, index: map<Addr, nat>, i: nat, j: nat)
    requires InStep(age, index) && i < |age| && j < |age|
    ensures InStep(age[i := age[j]][j := age[i]], Reindexed(age, index, i, j))
    ensures Reindexed(age, index, i, j).Keys == index.Keys
  {
  }

  lemma ExchangeInStep(age: seq<Record>, index: map<Addr, nat>, i: nat, j: nat)
    requires InStep(age, index) && i < |age| && j < |age|
    ensures var age1, index1 := age[i := age[j]][j := age[i]], Reindexed(age, index, i, j);
            InStep(age1, index1) && ViewOf(age1, index1) == ViewOf(age, index)
  {
    ExchangeStaysInStep(age, index, i, j);
    var age1, index1 := age[i := age[j]][j := age[i]], Reindexed(age, index, i, j);
    forall a | a in index ensures age1[index1[a]] == age[index[a]] {
      assert age1[index1[a]].addr == a;
    }
  }

  lemma AppendInStep(age: seq<Record>, index: map<Addr, nat>, record: Record)
    requires InStep(age, index) && record.addr !in index
    ensures var age1, index1 := age + [record], index[record.addr := |age|];
            InStep(age1, index1) && ViewOf(age1, index1) == ViewOf(age, index)[record.addr := record]
  {
    assert InStep(age + [record], index[record.addr := |age|]);
  }

  lemma ShortenInStep(age: seq<Record>, index: map<Addr, nat>)
    requires InStep(age, index) && age != []
    ensures var n := |age| - 1;
            var age1, index1 := age[..n], index - {age[n].addr};
            InStep(age1, index1) && ViewOf(age1, index1) == ViewOf(age, index) - {age[n].addr}
  {
    var n := |age| - 1;
    var index1 := index - {age[n].addr};
    assert index1.Keys == index.Keys - {age[n].addr};
    forall a | a in index1 ensures index[a] < n {
      assert age[index[a]].addr == a;
    }
  }

  class Inner {
    var byAge: seq<Record>
    var byAddr: map<Addr, nat>

    ghost predicate Synced()
      reads this
    {
      InStep(byAge, byAddr)
    }

    ghost function Times(): (t: seq<int>)
      reads this, byAge
      ensures |t| == |byAge|
    {
      seq(|byAge|, i requires 0 <= i < |byAge| reads this, byAge => byAge[i].lastSeen)
    }

    /** The plain map that the structure stands for. */
    ghost function View(): map<Addr, Record>
      requires Synced()
      reads this
    {
      ViewOf(byAge, byAddr)
    }

    ghost predicate Valid()
      reads this, byAge
    {
      && Synced()
      && IsHeap(Times())
      && (forall r :: r in byAge ==> !r.closed)
    }

    constructor ()
      ensures Valid() && View() == map[] && byAge == []
    {
      byAge, byAddr := [], map[];
    }

    // ---------- heap.Interface ----------

    /** Panics on inconsistent lengths, which being in step excludes. */
    method Len() returns (n: nat)
      requires Synced()
      ensures n == |byAge|
    {
      assert |byAge| == |byAddr|;
      return |byAge|;
    }

    predicate Less(i: nat, j: nat)
      requires i < |byAge| && j < |byAge|
      reads this, byAge
    {
      byAge[i].lastSeen < byAge[j].lastSeen
    }

    method Swap(i: nat, j: nat)
      requires Synced() && i < |byAge| && j < |byAge|
      modifies this
      ensures Synced() && View() == old(View()) && Times() == Swapped(old(Times()), i, j)
      ensures byAge == old(byAge)[i := old(byAge)[j]][j := old(byAge)[i]]
    {
      ExchangeInStep(byAge, byAddr, i, j);
      hide InStep, ViewOf;
      ghost var age, index := byAge, byAddr;
      byAge := byAge[i := byAge[j]][j := byAge[i]];
      byAddr := byAddr[byAge[i].addr := i];
      byAddr := byAddr[byAge[j].addr := j];
      assert byAddr == Reindexed(age, index, i, j);
      hide Reindexed;
    }

    /** Panics on a duplicate address, which the precondition excludes. */
    method Push(record: Record)
      requires Synced() && record.addr !in byAddr
      modifies this
      ensures Synced() && View() == old(View())[record.addr := record]
      ensures byAge == old(byAge) + [record]
    {
      AppendInStep(byAge, byAddr, record);
      hide InStep, ViewOf;
      byAddr := byAddr[record.addr := |byAge|];
      byAge := byAge + [record];
    }

    method Pop() returns (record: Record)
      requires Synced() && byAge != []
      modifies this
      ensures Synced() && record == old(byAge)[|old(byAge)| - 1] && byAge == old(byAge)[..|old(byAge)| - 1]
      ensures View() == old(View()) - {record.addr}
    {
      assert |byAge| == |byAddr|;
      ShortenInStep(byAge, byAddr);
      hide InStep, ViewOf;
      var n := |byAddr|;
      record := byAge[n - 1];
      byAge := byAge[..n - 1];
      byAddr := byAddr - {record.addr};
    }

    // ---------- container/heap ----------

    method Up(start: nat)
      requires Synced() && start < |byAge| && HeapButUp(Times(), start)
      modifies this
      ensures Synced() && View() == old(View()) && IsHeap(Times()) && |byAge| == |old(byAge)|
    {
      var j: nat := start;
      while true
        invariant Synced() && View() == old(View()) && |byAge| == |old(byAge)|
        invariant j < |byAge| && HeapButUp(Times(), j)
        decreases j
      {
        var i: nat := if j == 0 then 0 else (j - 1) / 2;
        if i == j || !Less(j, i) {
          break;
        }
        SiftUpStep(Times(), j);
        Swap(i, j);
        j := i;
      }
    }

    method Down(start: nat, n: nat) returns (moved: bool)
      requires Synced() && start <= n <= |byAge| && HeapButDown(Times(), n, start, start)
      modifies this
      ensures Synced() && View() == old(View()) && |byAge| == |old(byAge)|
      ensures byAge[n..] == old(byAge)[n..]
      ensures forall k :: 0 < k < n && (k != start || moved) ==> Edge(Times(), k)
      ensures !moved ==> byAge == old(byAge)
    {
      hide Synced, View, Edge;
      var i: nat := start;
      while true
        invariant Synced() && View() == old(View()) && |byAge| == |old(byAge)|
        invariant start <= i <= n && byAge[n..] == old(byAge)[n..] && HeapButDown(Times(), n, i, start)
        invariant i == start ==> byAge == old(byAge)
        decreases n - i
      {
        if 2 * i + 1 >= n {
          break;
        }
        var j := LeastChild(i, n);
        if !Less(j, i) {
          break;
        }
        SiftDownStep(Times(), n, i, j, start);
        Swap(i, j);
        i := j;
      }
      SiftDownStop(Times(), n, i, start);
      return i > start;
    }

    /** The child to compare with when sifting down: the younger only if it is strictly smaller. */
    method LeastChild(i: nat, n: nat) returns (j: nat)
      requires 2 * i + 1 < n <= |byAge|
      ensures 0 < j < n && Parent(j) == i && forall k :: 0 < k < n && Parent(k) == i ==> Times()[j] <= Times()[k]
    {
      var j1 := 2 * i + 1;
      j := j1;
      var j2 := j1 + 1;
      if j2 < n && Less(j2, j1) {
        j := j2;
      }
    }

    method HeapPush(record: Record)
      requires Valid() && record.addr !in byAddr && !record.closed
      modifies this
      ensures Valid() && View() == old(View())[record.addr := record]
    {
      hide InStep, ViewOf;
      ViewRecords(byAge, byAddr);
      Push(record);
      var n := Len();
      assert Times()[..n - 1] == old(Times());
      AppendIsHeapButUp(old(Times()), Times());
      ghost var view := View();
      Up(n - 1);
      OpenIfViewOpen(view);
    }

    method HeapPop() returns (record: Record)
      requires Valid() && byAge != []
      modifies this
      ensures Valid() && record == old(byAge)[0] && View() == old(View()) - {record.addr}
      ensures |byAge| == |old(byAge)| - 1
    {
      hide Edge, HeapButDown, InStep, ViewOf;
      ViewRecords(byAge, byAddr);
      var n := Len();
      n := n - 1;
      Swap(0, n);
      SwapRootIsHeapButDown(old(Times()));
      ghost var view := View();
      var moved := Down(0, n);
      ghost var before := Times();
      assert byAge[n..][0] == old(byAge)[0];
      record := Pop();
      assert Times() == before[..n];
      ShrinkIsHeap(before, n);
      OpenIfViewOpen(view);
    }

    method HeapFix(i: nat)
      requires Synced() && i < |byAge| && HeapButDown(Times(), |byAge|, i, i) && (forall r :: r in byAge ==> !r.closed)
      modifies this
      ensures Valid() && View() == old(View())
    {
      var n := Len();
      ghost var view := View();
      var moved := Down(i, n);
      if !moved {
        Up(i);
      }
      OpenIfViewOpen(view);
    }

    // ---------- the map itself ----------

    /**
      Finds or creates the record of an address and marks it seen. The same record is returned for as long as
      it stays in the map; no other record changes.
     */
    method Lookup(addr: Addr, now: int) returns (record: Record)
      requires Valid()
      modifies this, byAge
      ensures Valid() && record.addr == addr && record.lastSeen == now && !record.closed
      ensures if addr in old(byAddr) then record == old(View())[addr] && View() == old(View())
              else fresh(record) && View() == old(View())[addr := record]
      ensures forall r :: r in old(byAge) && r != record ==> r.lastSeen == old(r.lastSeen) && r.closed == old(r.closed)
      ensures forall r :: r in byAge ==> r in old(byAge) || fresh(r)
    {
      if addr in byAddr {
        record := Refresh(addr, now);
      } else {
        record := new Record(addr, now);
        Insert(record);
      }
    }

    /** The record is found: its time changes in place and the heap is fixed at its index. */
    method Refresh(addr: Addr, now: int) returns (record: Record)
      requires Valid() && addr in byAddr
      modifies this, byAge[byAddr[addr]]
      ensures Valid() && record == old(View())[addr] && record.lastSeen == now && View() == old(View())
      ensures forall r :: r in byAge <==> r in old(byAge)
    {
      var i := byAddr[addr];
      record := byAge[i];
      record.lastSeen := now;
      assert Times() == old(Times())[i := now];
      ChangedKey(old(Times()), i, now);
      ViewRecords(byAge, byAddr);
      HeapFix(i);
      ViewRecords(byAge, byAddr);
    }

    method Insert(record: Record)
      requires Valid() && record.addr !in byAddr && !record.closed
      modifies this
      ensures Valid() && View() == old(View())[record.addr := record]
      ensures forall r :: r in byAge <==> r in old(byAge) || r == record
    {
      ViewRecords(byAge, byAddr);
      HeapPush(record);
      ViewRecords(byAge, byAddr);
    }

    /** The oldest record leaves the map and its send queue is closed. */
    method PopAndClose() returns (record: Record)
      requires Valid() && byAge != []
      modifies this, byAge[0]
      ensures Valid() && record == old(byAge)[0] && record.closed && record.lastSeen == old(byAge[0].lastSeen)
      ensures |byAge| == |old(byAge)| - 1 && forall r :: r in byAge <==> r in old(byAge) && r != record
    {
      hide InStep, ViewOf, IsHeap;
      ViewRecords(byAge, byAddr);
      record := HeapPop();
      ViewRecords(byAge, byAddr);
      record.CloseSendQueue();
    }

    /** Removes and closes exactly the records not seen for `timeout`, and leaves the rest as they were. */
    method RemoveExpired(now: int, timeout: int)
      requires Valid()
      modifies this, byAge
      ensures Valid()
      ensures forall r :: r in byAge <==> r in old(byAge) && now - old(r.lastSeen) < timeout
      ensures forall r :: r in old(byAge) ==> r.lastSeen == old(r.lastSeen)
      ensures forall r :: r in old(byAge) ==> (r.closed <==> now - old(r.lastSeen) >= timeout)
    {
      hide InStep, ViewOf;
      var n := Len();
      while n > 0 && now - byAge[0].lastSeen >= timeout
        invariant n == |byAge| && Valid()
        invariant forall r :: r in old(byAge) ==> r.lastSeen == old(r.lastSeen)
        invariant forall r :: r in byAge ==> r in old(byAge)
        invariant forall r :: r in old(byAge) && r !in byAge ==> r.closed && now - r.lastSeen >= timeout
        decreases |byAge|
      {
        hide IsHeap, Synced;
        var record := PopAndClose();
        n := Len();
      }
      AllRecent(now, timeout);
    }

    /** If the root is recent, every record is. */
    lemma AllRecent(now: int, timeout: int)
      requires Valid() && (byAge == [] || now - byAge[0].lastSeen < timeout)
      ensures forall r :: r in byAge ==> now - r.lastSeen < timeout
    {
      forall r | r in byAge ensures now - r.lastSeen < timeout {
        RootIsLeast(Times(), byAddr[r.addr]);
      }
    }

    /** A reordering keeps exactly the same records. */
    lemma OpenIfViewOpen(view: map<Addr, Record>)
      requires Synced() && forall a :: a in View() ==> a in view && view[a] == View()[a]
      requires forall a :: a in view ==> !view[a].closed
      ensures forall r :: r in byAge ==> !r.closed
    {
      forall r | r in byAge ensures !r.closed {
        assert r.addr in byAddr && View()[r.addr] == r;
      }
    }
  }

  /** Changing one key of a heap, either way, leaves a state that `HeapFix` repairs. */
  lemma ChangedKey(t: seq<int>, i: nat, key: int)
    requires IsHeap(t) && i < |t|
    ensures HeapButDown(t[i := key], |t|, i, i)
  {
    var r := t[i := key];
    forall k | 0 < k < |t| && Parent(k) != i && k != i ensures Edge(r, k) {
      assert Edge(t, k);
    }
    if i > 0 {
      forall k | 0 < k < |t| && Parent(k) == i ensures r[Parent(i)] <= r[k] {
        assert Edge(t, k) && Edge(t, i);
      }
    }
  }

  lemma SiftDownStop(t: seq<int>, n: nat, i: nat, start: nat)
    requires n <= |t| && start <= i && HeapButDown(t, n, i, start)
    requires forall k :: 0 < k < n && Parent(k) == i ==> t[i] <= t[k]
    ensures forall k :: 0 < k < n && (k != start || i > start) ==> Edge(t, k)
  {
  }

  lemma AppendIsHeapButUp(t: seq<int>, r: seq<int>)
    requires IsHeap(t) && |r| == |t| + 1 && r[..|t|] == t
    ensures HeapButUp(r, |t|)
  {
    forall k | 0 < k < |t| ensures Edge(r, k) {
      assert Edge(t, k) && r[k] == r[..|t|][k] && r[Parent(k)] == r[..|t|][Parent(k)];
    }
  }

  lemma SwapRootIsHeapButDown(t: seq<int>)
    requires IsHeap(t) && t != []
    ensures HeapButDown(Swapped(t, 0, |t| - 1), |t| - 1, 0, 0)
  {
    var r := Swapped(t, 0, |t| - 1);
    forall k | 0 < k < |t| - 1 && Parent(k) != 0 ensures Edge(r, k) {
      assert Edge(t, k);
    }
  }

  lemma ShrinkIsHeap(t: seq<int>, n: nat)
    requires n <= |t| && forall k :: 0 < k < n ==> Edge(t, k)
    ensures IsHeap(t[..n])
  {
    forall k | 0 < k < n ensures Edge(t[..n], k) {
      assert Edge(t, k);
    }
  }

  // ---------- runs ----------

  datatype Op = Look(addr: Addr, now: int) | Expire(now: int, timeout: int)

  /** What is remembered of a peer; `birth` is the operation that made its record. */
  datatype Peer = Peer(lastSeen: int, birth: nat)

  type Peers = map<Addr, Peer>

  /** Operation number `n` on a plain map. */
  function Plain(m: Peers, op: Op, n: nat): Peers {
    match op
    case Look(addr, now) => m[addr := Peer(now, if addr in m then m[addr].birth else n)]
    case Expire(now, timeout) => map a | a in m && now - m[a].lastSeen < timeout :: m[a]
  }

  lemma PlainLook(m: Peers, addr: Addr, now: int, n: nat)
    ensures var m1 := Plain(m, Look(addr, now), n);
            && addr in m1 && m1[addr].lastSeen == now
            && forall a :: a in m && a != addr ==> a in m1 && m1[a] == m[a]
  {
  }

  function PlainRun(ops: seq<Op>): Peers {
    if ops == [] then map[] else Plain(PlainRun(ops[..|ops| - 1]), ops[|ops| - 1], |ops| - 1)
  }

  /** The operation that made the record which lookup number `k` returns. */
  function Birth(ops: seq<Op>, k: nat): nat
    requires k < |ops| && ops[k].Look?
  {
    var before := PlainRun(ops[..k]);
    if ops[k].addr in before then before[ops[k].addr].birth else k
  }

  lemma PlainRunStep(ops: seq<Op>, k: nat)
    requires k < |ops|
    ensures PlainRun(ops[..k + 1]) == Plain(PlainRun(ops[..k]), ops[k], k)
  {
    assert ops[..k + 1][..k] == ops[..k];
  }

  /** A peer not looked up in between is as its last lookup left it, until an expiry finds it too old. */
  lemma {:induction false} KeptOrGone(ops: seq<Op>, j: nat, k: nat)
    requires j < k <= |ops| && ops[j].Look?
    requires forall i :: j < i < k && ops[i].Look? ==> ops[i].addr != ops[j].addr
    ensures var addr, m := ops[j].addr, PlainRun(ops[..k]);
            if exists i :: j < i < k && ops[i].Expire? && ops[i].now - ops[j].now >= ops[i].timeout then addr !in m
            else addr in m && m[addr] == Peer(ops[j].now, Birth(ops, j))
    decreases k
  {
    hide PlainRun;
    PlainRunStep(ops, k - 1);
    if j + 1 < k {
      KeptOrGone(ops, j, k - 1);
    }
  }

  /**
    Two lookups of an address with none in between share a record exactly when no expiry in between found it
    too old.
   */
  lemma SameRecordIff(ops: seq<Op>, j: nat, k: nat)
    requires j < k < |ops| && ops[j].Look? && ops[k].Look? && ops[k].addr == ops[j].addr
    requires forall i :: j < i < k && ops[i].Look? ==> ops[i].addr != ops[j].addr
    ensures Birth(ops, k) == Birth(ops, j) <==>
            forall i :: j < i < k && ops[i].Expire? ==> ops[i].now - ops[j].now < ops[i].timeout
  {
    KeptOrGone(ops, j, k);
    BornBefore(ops, j);
  }

  lemma {:induction false} BirthsBefore(ops: seq<Op>)
    ensures forall a :: a in PlainRun(ops) ==> PlainRun(ops)[a].birth < |ops|
    decreases |ops|
  {
    if ops != [] {
      BirthsBefore(ops[..|ops| - 1]);
    }
  }

  lemma BornBefore(ops: seq<Op>, k: nat)
    requires k < |ops| && ops[k].Look?
    ensures Birth(ops, k) <= k
  {
    BirthsBefore(ops[..k]);
  }

  /** `view` holds the records made for the peers; no record was made twice. */
  ghost predicate Fits(view: map<Addr, Record>, peers: Peers, made: map<nat, Record>) {
    && view.Keys == peers.Keys
    && (forall a :: a in view ==> view[a].addr == a && peers[a].birth in made && view[a] == made[peers[a].birth])
    && (forall b, c :: b in made && c in made && made[b] == made[c] ==> b == c)
  }

  lemma FitsKeys(view: map<Addr, Record>, peers: Peers, made: map<nat, Record>)
    requires Fits(view, peers, made)
    ensures view.Keys == peers.Keys
    ensures forall a :: a in peers ==> peers[a].birth in made && view[a] == made[peers[a].birth]
  {
  }

  lemma FitsLook(view: map<Addr, Record>, peers: Peers, made: map<nat, Record>, record: Record, now: int, n: nat)
    requires Fits(view, peers, made) && n !in made
    requires if record.addr in view then record == view[record.addr] else record !in made.Values
    ensures Fits(view[record.addr := record], Plain(peers, Look(record.addr, now), n),
                 if record.addr in view then made else made[n := record])
  {
  }

  lemma FitsExpire(view: map<Addr, Record>, peers: Peers, made: map<nat, Record>, view1: map<Addr, Record>, now: int,
                   timeout: int, n: nat)
    requires Fits(view, peers, made)
    requires forall a :: a in view1 <==> a in view && now - peers[a].lastSeen < timeout
    requires forall a :: a in view1 ==> view1[a] == view[a]
    ensures Fits(view1, Plain(peers, Expire(now, timeout), n), made)
  {
    assert view1.Keys == Plain(peers, Expire(now, timeout), n).Keys;
  }

  lemma FitsAlive(view: map<Addr, Record>, peers: Peers, made: map<nat, Record>, b: nat)
    requires Fits(view, peers, made) && b in made
    ensures var a := made[b].addr;
            (a in view && view[a] == made[b]) <==> a in peers && peers[a].birth == b
  {
  }

  /** The structure holds the records of the plain map's peers, and of all records made exactly those are open. */
  ghost predicate Agrees(m: Inner, peers: Peers, made: map<nat, Record>)
    reads m, m.byAge, made.Values
  {
    && m.Valid() && Fits(m.View(), peers, made)
    && (forall a :: a in m.View() && a in peers ==> m.View()[a] in m.byAge && m.View()[a].lastSeen == peers[a].lastSeen)
    && (forall b :: b in made ==> (made[b] in m.byAge <==> !made[b].closed))
  }

  lemma HoldsMade(m: Inner, peers: Peers, made: map<nat, Record>)
    requires Agrees(m, peers, made)
    ensures forall i :: 0 <= i < |m.byAge| ==> m.byAge[i] in made.Values
  {
    hide InStep, ViewOf, IsHeap;
    ViewRecords(m.byAge, m.byAddr);
    assert forall i :: 0 <= i < |m.byAge| ==> m.byAge[i] in m.byAge;
  }

  method PlayLook(m: Inner, ghost peers: Peers, made: map<nat, Record>, addr: Addr, now: int, n: nat)
    returns (record: Record, made1: map<nat, Record>)
    requires Agrees(m, peers, made) && n !in made
    modifies m, m.byAge
    ensures Agrees(m, Plain(peers, Look(addr, now), n), made1) && record.addr == addr
    ensures if addr in peers then made1 == made && peers[addr].birth in made && record == made[peers[addr].birth]
            else made1 == made[n := record] && fresh(record)
  {
    hide InStep, ViewOf, IsHeap, Fits, Plain;
    ViewRecords(m.byAge, m.byAddr);
    FitsKeys(m.View(), peers, made);
    PlainLook(peers, addr, now, n);
    ghost var view := m.View();
    var wasThere := addr in m.byAddr;
    record := m.Lookup(addr, now);
    ViewRecords(m.byAge, m.byAddr);
    made1 := if wasThere then made else made[n := record];
    FitsLook(view, peers, made, record, now, n);
    assert m.View() == view[addr := record];
  }

  method PlayExpire(m: Inner, ghost peers: Peers, ghost made: map<nat, Record>, now: int, timeout: int, ghost n: nat)
    requires Agrees(m, peers, made)
    modifies m, m.byAge
    ensures Agrees(m, Plain(peers, Expire(now, timeout), n), made)
  {
    hide InStep, ViewOf, IsHeap, Fits;
    ViewRecords(m.byAge, m.byAddr);
    FitsKeys(m.View(), peers, made);
    ghost var view := m.View();
    m.RemoveExpired(now, timeout);
    ViewRecords(m.byAge, m.byAddr);
    FitsExpire(view, peers, made, m.View(), now, timeout, n);
  }

  /** The first `n` operations returned these records: each lookup the one made at its birth. */
  ghost predicate Traced(ops: seq<Op>, n: nat, returned: map<nat, Record>, made: map<nat, Record>) {
    && n <= |ops|
    && (forall k: nat :: k in returned <==> k < n && ops[k].Look?)
    && (forall k :: k in returned ==>
          returned[k].addr == ops[k].addr && Birth(ops, k) in made && returned[k] == made[Birth(ops, k)])
    && (forall b :: b in made ==> b in returned && Birth(ops, b) == b)
  }

  lemma TracedLook(ops: seq<Op>, n: nat, returned: map<nat, Record>, made: map<nat, Record>, record: Record,
                   made1: map<nat, Record>)
    requires Traced(ops, n, returned, made) && n < |ops| && ops[n].Look? && record.addr == ops[n].addr
    requires var peers := PlainRun(ops[..n]);
             if record.addr in peers then
               made1 == made && peers[record.addr].birth in made && record == made[peers[record.addr].birth]
             else made1 == made[n := record]
    ensures Traced(ops, n + 1, returned[n := record], made1)
  {
    hide PlainRun;
  }

  lemma TracedExpire(ops: seq<Op>, n: nat, returned: map<nat, Record>, made: map<nat, Record>)
    requires Traced(ops, n, returned, made) && n < |ops| && !ops[n].Look?
    ensures Traced(ops, n + 1, returned, made)
  {
    hide Birth;
  }

  lemma TracedNew(ops: seq<Op>, n: nat, returned: map<nat, Record>, made: map<nat, Record>)
    requires Traced(ops, n, returned, made)
    ensures n !in made
  {
    hide Birth;
  }

  lemma TracedAlike(ops: seq<Op>, returned: map<nat, Record>, made: map<nat, Record>, view: map<Addr, Record>)
    requires Traced(ops, |ops|, returned, made) && Fits(view, PlainRun(ops), made)
    ensures forall j, k :: j in returned && k in returned ==>
              (returned[j] == returned[k] <==> Birth(ops, j) == Birth(ops, k))
  {
    hide PlainRun, Birth;
  }

  lemma TracedAlive(ops: seq<Op>, returned: map<nat, Record>, made: map<nat, Record>, view: map<Addr, Record>)
    requires Traced(ops, |ops|, returned, made) && Fits(view, PlainRun(ops), made)
    ensures forall k {:trigger returned[k]} :: k in returned ==>
              ((ops[k].addr in view && view[ops[k].addr] == returned[k]) <==>
               Survives(ops, k))
    ensures forall a :: a in view ==> PlainRun(ops)[a].birth in returned && view[a] == returned[PlainRun(ops)[a].birth]
  {
    hide PlainRun, Birth;
    forall k | k in returned
      ensures (ops[k].addr in view && view[ops[k].addr] == returned[k]) <==> Survives(ops, k)
    {
      FitsAlive(view, PlainRun(ops), made, Birth(ops, k));
    }
  }

  /** The record that lookup number `k` returned is still in the map at the end. */
  predicate Survives(ops: seq<Op>, k: nat)
    requires k < |ops| && ops[k].Look?
  {
    var peers := PlainRun(ops);
    ops[k].addr in peers && peers[ops[k].addr].birth == Birth(ops, k)
  }

  /**
    Every sequence of lookups and expiries, at whatever times, agrees with the plain map: two lookups return
    one record exactly when they share a birth, and a record is closed exactly when it has left the map.
    `returned` holds the record each lookup returned; no panic is met.
   */
  method Replay(ops: seq<Op>) returns (m: Inner, returned: map<nat, Record>)
    ensures m.Valid() && m.View().Keys == PlainRun(ops).Keys
    ensures forall a :: a in m.View() ==> m.View()[a].lastSeen == PlainRun(ops)[a].lastSeen
    ensures forall a :: a in m.View() ==>
              PlainRun(ops)[a].birth in returned && m.View()[a] == returned[PlainRun(ops)[a].birth]
    ensures forall k: nat :: k in returned <==> k < |ops| && ops[k].Look?
    ensures forall k :: k in returned ==> returned[k].addr == ops[k].addr
    ensures forall j, k :: j in returned && k in returned ==>
              (returned[j] == returned[k] <==> Birth(ops, j) == Birth(ops, k))
    ensures forall k :: k in returned ==> (!returned[k].closed <==> Survives(ops, k))
  {
    var made: map<nat, Record>;
    m, returned, made := Play(ops);
    ViewRecords(m.byAge, m.byAddr);
    TracedAlike(ops, returned, made, m.View());
    TracedAlive(ops, returned, made, m.View());
    FitsKeys(m.View(), PlainRun(ops), made);
    hide InStep, ViewOf, IsHeap, PlainRun, Birth, Fits, Survives;
  }

  /** Operation number `n`. */
  method PlayOne(ops: seq<Op>, n: nat, m: Inner, returned: map<nat, Record>, made: map<nat, Record>)
    returns (returned1: map<nat, Record>, made1: map<nat, Record>)
    requires n < |ops| && Agrees(m, PlainRun(ops[..n]), made) && Traced(ops, n, returned, made)
    modifies m, made.Values
    ensures Agrees(m, PlainRun(ops[..n + 1]), made1) && Traced(ops, n + 1, returned1, made1)
    ensures forall b :: b in made1 ==> (b in made && made1[b] == made[b]) || fresh(made1[b])
  {
    HoldsMade(m, PlainRun(ops[..n]), made);
    PlainRunStep(ops, n);
    TracedNew(ops, n, returned, made);
    hide Agrees, Traced, PlainRun;
    match ops[n] {
      case Look(addr, now) =>
        var record;
        record, made1 := PlayLook(m, PlainRun(ops[..n]), made, addr, now, n);
        TracedLook(ops, n, returned, made, record, made1);
        returned1 := returned[n := record];
      case Expire(now, timeout) =>
        PlayExpire(m, PlainRun(ops[..n]), made, now, timeout, n);
        TracedExpire(ops, n, returned, made);
        returned1, made1 := returned, made;
    }
  }

  lemma AgreesEmpty(m: Inner, ops: seq<Op>)
    requires m.Valid() && m.View() == map[] && m.byAge == []
    ensures Agrees(m, PlainRun(ops[..0]), map[]) && Traced(ops, 0, map[], map[])
  {
    hide IsHeap, InStep, ViewOf;
    assert ops[..0] == [];
  }

  method Play(ops: seq<Op>) returns (m: Inner, returned: map<nat, Record>, made: map<nat, Record>)
    ensures Agrees(m, PlainRun(ops), made) && Traced(ops, |ops|, returned, made)
  {
    m := new Inner();
    returned, made := map[], map[];
    AgreesEmpty(m, ops);
    hide Agrees, Traced, PlainRun;
    for i := 0 to |ops|
      invariant fresh(m) && forall b :: b in made ==> fresh(made[b])
      invariant Agrees(m, PlainRun(ops[..i]), made) && Traced(ops, i, returned, made)
    {
      returned, made := PlayOne(ops, i, m, returned, made);
    }
    assert ops[..|ops|] == ops;
  }
}
