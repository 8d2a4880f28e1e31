/** Connection identifiers of a UDPGW session: one per client and destination, from a 16-bit counter that skips 0. */
module UdpgwSession {
  import opened Wire

  type ID = U16
  type Client = string

  /** A local client and the destination it sends to. */
  datatype Pair = Pair(client: Client, dest: string)

  datatype Session = Session(nextID: ID, pairID: map<Pair, ID>, idClient: map<ID, Client>)

  const FRESH := Session(1, map[], map[])

  /** How many identifiers there are before the counter starts again. */
  const ID_COUNT := 65535

  function IdFor(s: Session, p: Pair): (Session, ID, bool) {
    if p in s.pairID then (s.(idClient := s.idClient[s.pairID[p] := p.client]), s.pairID[p], false)
    else
      var id: ID := if s.nextID == 0 then 1 else s.nextID;
      var bumped: ID := (id + 1) % 0x1_0000;
      (Session(if bumped == 0 then 1 else bumped, s.pairID[p := id], s.idClient[id := p.client]), id, true)
  }

  class SessionTable {
    var nextID: ID
    var pairID: map<Pair, ID>
    var idClient: map<ID, Client>

    ghost function State(): Session
      reads this
    {
      Session(nextID, pairID, idClient)
    }

    constructor ()
      ensures State() == FRESH
    {
      nextID, pairID, idClient := 1, map[], map[];
    }

    /** A missing client address is an error and changes nothing. */
    method IdForDatagram(client: Option<Client>, dest: string) returns (r: Option<(ID, bool)>)
      modifies this
      ensures client.None? ==> r.None? && State() == old(State())
      ensures client.Some? ==>
                r.Some? && (State(), r.value.0, r.value.1) == IdFor(old(State()), Pair(client.value, dest))
    {
      if client.None? {
        return None;
      }
      var id, isNew := AssignID(Pair(client.value, dest));
      return Some((id, isNew));
    }

    method AssignID(p: Pair) returns (id: ID, isNew: bool)
      modifies this
      ensures (State(), id, isNew) == IdFor(old(State()), p)
    {
      if p in pairID {
        id := pairID[p];
        idClient := idClient[id := p.client];
        return id, false;
      }
      id := nextID;
      if id == 0 {
        id := 1;
      }
      nextID := (id + 1) % 0x1_0000;
      if nextID == 0 {
        nextID := 1;
      }
      pairID := pairID[p := id];
      idClient := idClient[id := p.client];
      return id, true;
    }
  }

  // ---------- runs ----------

  /** The session after the calls made so far. */
  function After(calls: seq<Pair>): Session {
    if calls == [] then FRESH else IdFor(After(calls[..|calls| - 1]), calls[|calls| - 1]).0
  }

  /** The identifier returned by the last call. */
  function LastID(calls: seq<Pair>): ID
    requires calls != []
  {
    IdFor(After(calls[..|calls| - 1]), calls[|calls| - 1]).1
  }

  /** The different pairs in the order in which they first appeared. */
  function Order(calls: seq<Pair>): seq<Pair> {
    if calls == [] then []
    else
      var order, p := Order(calls[..|calls| - 1]), calls[|calls| - 1];
      if p in order then order else order + [p]
  }

  /** The identifier of the `k`-th new pair, counted from 0. */
  function NthID(k: nat): ID {
    1 + k % ID_COUNT
  }

  /** The client of the latest call that returned `id`, if any did. */
  function LatestClient(calls: seq<Pair>, id: ID): Option<Client> {
    if calls == [] then None
    else if LastID(calls) == id then Some(calls[|calls| - 1].client)
    else LatestClient(calls[..|calls| - 1], id)
  }

  ghost predicate Numbered(s: Session, order: seq<Pair>) {
    && s.nextID == NthID(|order|)
    && (forall p :: p in s.pairID <==> p in order)
    && (forall k :: 0 <= k < |order| ==> s.pairID[order[k]] == NthID(k))
    && (forall j, k :: 0 <= j < k < |order| ==> order[j] != order[k])
  }

  lemma NextID(k: nat)
    ensures var id := NthID(k); var bumped := (id + 1) % 0x1_0000; NthID(k + 1) == if bumped == 0 then 1 else bumped
  {
    var r := k % ID_COUNT;
    assert (k + 1) % ID_COUNT == if r == ID_COUNT - 1 then 0 else r + 1;
  }

  lemma SmallMod(j: nat, k: nat)
    requires j < ID_COUNT && k < ID_COUNT && j != k
    ensures NthID(j) != NthID(k)
  {
  }

  /** One call: the pair keeps its number, or takes the next one. */
  lemma IdForNumbers(s: Session, order: seq<Pair>, p: Pair)
    requires Numbered(s, order)
    ensures var (t, id, isNew) := IdFor(s, p);
            && (isNew <==> p !in order)
            && Numbered(t, if isNew then order + [p] else order)
            && p in t.pairID && t.pairID[p] == id && t.idClient == s.idClient[id := p.client]
  {
    NextID(|order|);
    hide NthID;
    if p !in order {
      var order1 := order + [p];
      assert forall q :: q in order1 <==> q in order || q == p;
      assert NthID(|order|) == s.nextID;
    }
  }

  /**
    In every run: the counter and every identifier depend only on the order of first appearance, and a pair is
    new exactly the first time it appears.
   */
  lemma {:induction false} Identifiers(calls: seq<Pair>)
    ensures Numbered(After(calls), Order(calls))
    ensures forall p :: p in Order(calls) <==> p in calls
    ensures calls != [] ==>
              var fore, p := calls[..|calls| - 1], calls[|calls| - 1];
              IdFor(After(fore), p).2 <==> p !in fore
    decreases |calls|
  {
    hide NthID, IdFor;
    if calls == [] {
      assert NthID(0) == 1 by { FirstID(); }
    } else {
      var fore, p := calls[..|calls| - 1], calls[|calls| - 1];
      Identifiers(fore);
      assert calls == fore + [p];
      IdForNumbers(After(fore), Order(fore), p);
    }
  }

  lemma FirstID()
    ensures NthID(0) == 1
  {
  }

  /** An identifier leads back to the client of the latest call that returned it. */
  lemma {:induction false} ClientIsLatest(calls: seq<Pair>, id: ID)
    ensures LatestClient(calls, id) ==
            if id in After(calls).idClient then Some(After(calls).idClient[id]) else None
    decreases |calls|
  {
    hide IdFor, NthID, Numbered;
    if calls != [] {
      var fore, p := calls[..|calls| - 1], calls[|calls| - 1];
      ClientIsLatest(fore, id);
      Identifiers(fore);
      IdForNumbers(After(fore), Order(fore), p);
    }
  }

  /**
    Two pairs share an identifier exactly when their numbers differ by a multiple of 65535; so never up to
    65535 pairs.
   */
  lemma Collisions(calls: seq<Pair>, j: nat, k: nat)
    requires j < |Order(calls)| && k < |Order(calls)|
    ensures var s, p, q := After(calls), Order(calls)[j], Order(calls)[k];
            && p in s.pairID && q in s.pairID && s.pairID[q] != 0
            && (s.pairID[p] == s.pairID[q] <==> j % ID_COUNT == k % ID_COUNT)
            && (|Order(calls)| <= ID_COUNT && j != k ==> s.pairID[p] != s.pairID[q])
  {
    hide After, Order;
    Identifiers(calls);
    assert Order(calls)[j] in Order(calls) && Order(calls)[k] in Order(calls);
    if |Order(calls)| <= ID_COUNT && j != k {
      SmallMod(j, k);
    }
  }

  lemma DifferentPairs(calls: seq<Pair>, p: Pair, q: Pair)
    requires p in calls && q in calls && p != q && |Order(calls)| <= ID_COUNT
    ensures p in After(calls).pairID && q in After(calls).pairID && After(calls).pairID[p] != After(calls).pairID[q]
  {
    hide After, Order, Numbered;
    Identifiers(calls);
    var order := Order(calls);
    var j :| 0 <= j < |order| && order[j] == p;
    var k :| 0 <= k < |order| && order[k] == q;
    Collisions(calls, j, k);
  }

  /** While identifiers are not reused, a pair's identifier leads back to that pair's own client. */
  lemma {:induction false} ClientOfPair(calls: seq<Pair>, p: Pair)
    requires p in calls && |Order(calls)| <= ID_COUNT
    ensures var s := After(calls); p in s.pairID && s.pairID[p] in s.idClient && s.idClient[s.pairID[p]] == p.client
    decreases |calls|
  {
    hide IdFor, NthID, Numbered, Order;
    var fore, q := calls[..|calls| - 1], calls[|calls| - 1];
    Identifiers(fore);
    IdForNumbers(After(fore), Order(fore), q);
    if p != q {
      assert p in fore by { assert calls == fore + [q]; }
      OrderGrows(calls);
      ClientOfPair(fore, p);
      DifferentPairs(calls, p, q);
      PairKept(After(fore), p, q);
    }
  }

  lemma OrderGrows(calls: seq<Pair>)
    requires calls != []
    ensures |Order(calls[..|calls| - 1])| <= |Order(calls)|
  {
  }

  lemma PairKept(s: Session, p: Pair, q: Pair)
    requires p in s.pairID && p != q
    ensures var t := IdFor(s, q).0; p in t.pairID && t.pairID[p] == s.pairID[p]
  {
  }
}
