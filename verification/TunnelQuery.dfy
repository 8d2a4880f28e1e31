/** Upstream: a packet travels as base32 labels in the question of a query. */
module TunnelQuery {
  import opened Wire
  import opened DnsName
  import opened DnsBuilder
  import DnsReader
  import DnsRoundTrip
  import DnsCodec
  import DnsGrammar
  import Base32

  const NUM_PADDING := 3
  const NUM_PADDING_FOR_POLL := 8
  const LABEL_MAX := 63

  // ---------- chunks ----------

  function Chunked(p: Bytes, n: nat): (r: seq<Bytes>)
    requires n > 0
    ensures |r| == (|p| + n - 1) / n
    decreases |p|
  {
    if p == [] then []
    else if |p| <= n then
      ChunkCountOne(|p|, n);
      [p]
    else
      ChunkCountStep(|p|, n);
      [p[..n]] + Chunked(p[n..], n)
  }

  lemma ChunkCountOne(len: nat, n: nat)
    requires 1 <= len <= n
    ensures (len + n - 1) / n == 1
  {
    assert (len + n - 1) - n < n;
    assert (len + n - 1) / n == 1 by { DivUnique(len + n - 1, n, 1, len - 1); }
  }

  lemma ChunkCountStep(len: nat, n: nat)
    requires len > n > 0
    ensures (len + n - 1) / n == 1 + (len - n + n - 1) / n
  {
    var q, r := (len - 1) / n, (len - 1) % n;
    assert len - 1 == q * n + r;
    DivUnique(len + n - 1, n, q + 1, r);
  }

  lemma DivUnique(x: int, n: int, q: int, r: int)
    requires n > 0 && 0 <= r < n && x == q * n + r
    ensures x / n == q
  {
    var d := x / n - q;
    assert x % n == r - d * n;
    assert d >= 1 ==> d * n >= n;
    assert d <= -1 ==> d * n <= -n;
  }

  function Joined(labels: seq<Bytes>): Bytes {
    if labels == [] then [] else labels[0] + Joined(labels[1..])
  }

  /** Chunks are non-empty, at most `n` long, all but the last exactly `n`, and lose nothing. */
  lemma {:induction false} ChunkedProperties(p: Bytes, n: nat)
    requires n > 0
    ensures Joined(Chunked(p, n)) == p
    ensures forall i :: 0 <= i < |Chunked(p, n)| ==> 1 <= |Chunked(p, n)[i]| <= n
    ensures forall i :: 0 <= i < |Chunked(p, n)| - 1 ==> |Chunked(p, n)[i]| == n
    decreases |p|
  {
    if |p| > n {
      ChunkedProperties(p[n..], n);
      var r := Chunked(p, n);
      assert r[1..] == Chunked(p[n..], n);
      assert p[..n] + p[n..] == p;
    }
  }

  method Chunks(p: Bytes, n: nat) returns (result: seq<Bytes>)
    requires n > 0
    ensures result == Chunked(p, n)
    ensures Joined(result) == p
  {
    result := [];
    var rest := p;
    while |rest| > 0
      invariant result + Chunked(rest, n) == Chunked(p, n)
      decreases |rest|
    {
      var sz := |rest|;
      if sz > n {
        sz := n;
      }
      assert rest[..|rest|] == rest;
      result := result + [rest[..sz]];
      rest := rest[sz..];
    }
    ChunkedProperties(p, n);
  }

  lemma {:induction false} ChunkedWireLength(p: Bytes)
    ensures WireLength(Chunked(p, LABEL_MAX)) == |p| + (|p| + 62) / 63 + 1
    decreases |p|
  {
    var r := Chunked(p, LABEL_MAX);
    if |p| > LABEL_MAX {
      ChunkedWireLength(p[LABEL_MAX..]);
      assert r[1..] == Chunked(p[LABEL_MAX..], LABEL_MAX);
    } else if p != [] {
      assert r[1..] == [];
    }
  }

  // ---------- capacity ----------

  /** Integer division that truncates toward zero. */
  function TruncDiv(a: int, b: int): int
    requires b > 0
  {
    if a >= 0 then a / b else -((-a) / b)
  }

  function Capacity(domain: Name): int {
    TruncDiv(TruncDiv((255 - WireLength(domain)) * 63, 64) * 5, 8)
  }

  method DnsNameCapacity(domain: Name) returns (capacity: int)
    ensures capacity == Capacity(domain)
  {
    capacity := 255;
    capacity := capacity - 1;
    assert domain[0..] == domain;
    for i := 0 to |domain|
      invariant capacity == 255 - WireLength(domain) + WireLength(domain[i..]) - 1
    {
      assert domain[i..][1..] == domain[i + 1..];
      capacity := capacity - (|domain[i]| + 1);
    }
    capacity := TruncDiv(capacity * 63, 64);
    capacity := TruncDiv(capacity * 5, 8);
  }

  /** The labels a payload becomes: base32 in lower case, cut into labels, in front of the domain. */
  function QueryLabels(payload: Bytes, domain: Name): Name {
    Chunked(Lower(Base32.Encode(payload)), LABEL_MAX) + domain
  }

  /** How many octets fit `room`: a length octet per 63, then 8 symbols per 5 octets. */
  lemma CapacityArithmetic(octets: nat, room: nat)
    ensures var e := (8 * octets + 4) / 5;
            e + (e + 62) / 63 <= room <==> octets <= (room * 63 / 64) * 5 / 8
  {
    var e, f := (8 * octets + 4) / 5, room * 63 / 64;
    assert e + (e + 62) / 63 <= room <==> e <= f;
    assert e <= f <==> octets <= f * 5 / 8;
  }

  /** The capacity formula is exact: a payload fits in a name under the domain if and only if it is no longer. */
  lemma CapacityExact(domain: Name, payload: Bytes)
    requires ValidName(domain)
    ensures CheckName(QueryLabels(payload, domain)).Ok? <==> |payload| <= Capacity(domain)
  {
    hide Base32.Encode, Lower, Chunked, WireLength;
    var text := Lower(Base32.Encode(payload));
    var labels := Chunked(text, LABEL_MAX);
    ChunkedProperties(text, LABEL_MAX);
    ChunkedWireLength(text);
    WireLengthConcat(labels, domain);
    assert LabelsOk(labels + domain);
    hide LabelsOk;
    CapacityArithmetic(|payload|, 255 - WireLength(domain));
  }

  // ---------- sending ----------

  /** Client identifier, random padding behind a prefix of 224 or more, then the packet behind its length. */
  function QueryPayload(clientID: Bytes, padding: Bytes, p: Bytes): Bytes
    requires |padding| < 32 && |p| < 224
  {
    clientID + [224 + |padding|] + padding + (if p == [] then [] else [|p|] + p)
  }

  function Query(id: U16, name: Name): Message {
    Message(id, 0x0100, [Question(name, 16, 1)], [], [], [RR([], 41, 4096, 0, [])])
  }

  function PaddingLength(p: Bytes): nat {
    if p == [] then NUM_PADDING_FOR_POLL else NUM_PADDING
  }

  /** `random` and `id` stand for what the random source returns; the result is what goes to the transport. */
  method Send(clientID: Bytes, domain: Name, p: Bytes, random: Bytes, id: U16) returns (r: Result<Bytes>)
    requires ValidName(domain) && |random| >= NUM_PADDING_FOR_POLL
    ensures |p| >= 224 ==> r == Err(PacketTooLong)
    ensures |p| < 224 ==>
              var payload :=
                clientID + (if p == [] then [232] + random[..8] else [227] + random[..3] + ([|p|] + p));
              var name := Chunked(Lower(Base32.Encode(payload)), 63) + domain;
              if |payload| <= Capacity(domain) then LabelsOk(name) && r == Ok(QueryOctets(id, name))
              else r == Err(NameTooLong)
  {
    hide QueryOctets, Base32.Encode, Chunked, Capacity, PutMessage, ValidNames;
    hide DnsReader.FromWireFormat, DnsRoundTrip.ChainsWithinLimit;
    if |p| >= 224 {
      return Err(PacketTooLong);
    }
    var buf := clientID;
    var n := NUM_PADDING;
    if |p| == 0 {
      n := NUM_PADDING_FOR_POLL;
    }
    buf := buf + [224 + n];
    buf := buf + random[..n];
    if |p| > 0 {
      buf := buf + [|p|];
      buf := buf + p;
    }
    ghost var payload := QueryPayload(clientID, random[..PaddingLength(p)], p);
    assert buf == payload;
    assert payload == clientID + (if p == [] then [232] + random[..8] else [227] + random[..3] + ([|p|] + p));
    var encoded := Lower(Base32.Encode(buf));
    var labels := Chunks(encoded, LABEL_MAX);
    labels := labels + domain;
    CapacityExact(domain, payload);
    QueryLabelsOk(payload, domain);
    var name := DnsCodec.NewName(labels);
    if name.Err? {
      return Err(name.error);
    }
    r := DnsCodec.WireFormat(Query(id, name.value));
    QueryIsOctets(id, name.value);
  }

  /**
    A query octet by octet: recursion desired, one question for TXT records of the Internet class, and one additional
    record that offers to receive 4096 octets, section 6.1.2 of RFC 6891.
   */
  function QueryOctets(id: U16, name: Name): Bytes
    requires LabelsOk(name)
  {
    [id / 256, id % 256, 1, 0, 0, 1, 0, 0, 0, 0, 0, 1]
    + (DnsGrammar.Labels(name) + [0]) + [0, 16, 0, 1]
    + [0] + [0, 41, 16, 0, 0, 0, 0, 0, 0, 0]
  }

  lemma QueryIsOctets(id: U16, name: Name)
    requires LabelsOk(name)
    ensures var m := Query(id, name);
            LabelsOkIn(m) && DnsBuilder.WireFormat(m) == Ok(QueryOctets(id, name))
  {
    QueryParts(id, name);
    hide Header, PutMessage, Depth;
    var m := Query(id, name);
    var q, opt := QuestionEntry(m.question[0]), RREntry(m.additional[0]);
    hide QuestionEntry, RREntry;
    PutMessageSections(EMPTY, m);
    var b0 := EMPTY.Append(Header(m));
    assert QuestionEntries(m.question) == [q] && RREntries(m.additional) == [opt] && RREntries([]) == [];
    OneEntry(b0, q);
    OneEntry(PutEntry(b0, q), opt);
    assert b0.w == Header(m);
    DnsGrammar.FreshOctets(b0, name, Depth(b0, name));
  }

  lemma QueryParts(id: U16, name: Name)
    ensures var m := Query(id, name);
            && Encodable(m) && Header(m) == [id / 256, id % 256, 1, 0, 0, 1, 0, 0, 0, 0, 0, 1]
            && QuestionEntry(m.question[0]).tail == [0, 16, 0, 1]
            && RREntry(m.additional[0]) == Entry([], [0, 41, 16, 0, 0, 0, 0, 0, 0, 0])
  {
  }

  lemma OneEntry(b: Builder, e: Entry)
    requires LabelsOk(e.name)
    ensures PutEntries(b, [e]) == PutEntry(b, e)
  {
  }

  lemma QueryLabelsOk(payload: Bytes, domain: Name)
    requires ValidName(domain)
    ensures LabelsOk(QueryLabels(payload, domain)) && FirstBadLabel(QueryLabels(payload, domain)).None?
  {
    ChunkedProperties(Lower(Base32.Encode(payload)), LABEL_MAX);
    BadLabelIffNotOk(QueryLabels(payload, domain));
  }

  // ---------- what a receiver recovers ----------

  /** The prefix-coded stream after the client identifier: packets below 224, padding from 224 on. */
  function PrefixCoded(s: Bytes): Option<seq<Bytes>> {
    if s == [] then Some([])
    else
      var n: nat := if s[0] >= 224 then s[0] - 224 else s[0];
      if |s| < 1 + n then None
      else match PrefixCoded(s[1 + n..])
        case None => None
        case Some(more) => Some(if s[0] >= 224 then more else [s[1..1 + n]] + more)
  }

  datatype Upstream = Upstream(clientID: Bytes, packets: seq<Bytes>)

  /** The inverse of sending: parse, trim the domain, join the labels, decode, split. */
  function ReceiveQuery(wire: Bytes, domain: Name): Option<Upstream> {
    match DnsReader.FromWireFormat(wire)
    case Err(_) => None
    case Ok(m) =>
      if |m.question| != 1 then None
      else match Trimmed(m.question[0].name, domain)
        case None => None
        case Some(fore) =>
          match Base32.Decode(Joined(fore))
          case None => None
          case Some(payload) => ReceivePayload(payload)
  }

  function ReceivePayload(payload: Bytes): Option<Upstream> {
    if |payload| < 8 then None
    else match PrefixCoded(payload[8..])
      case None => None
      case Some(packets) => Some(Upstream(payload[..8], packets))
  }

  lemma PrefixPadding(padding: Bytes, rest: Bytes)
    requires |padding| < 32
    ensures PrefixCoded([224 + |padding|] + (padding + rest)) == PrefixCoded(rest)
  {
    var s := [224 + |padding|] + (padding + rest);
    assert s[1 + |padding|..] == rest;
  }

  lemma PrefixPacket(s: Bytes, p: Bytes)
    requires 0 < |p| < 224 && |s| == 1 + |p| && s[0] == |p| && s[1..] == p
    ensures PrefixCoded(s) == Some([p])
  {
    var rest := s[1 + |p|..];
    assert rest == [] && s[1..1 + |p|] == p;
    var none: seq<Bytes> := [];
    assert PrefixCoded(rest) == Some(none) && [p] + none == [p];
  }

  lemma PayloadParts(clientID: Bytes, prefix: Byte, padding: Bytes, packet: Bytes)
    ensures var payload := clientID + [prefix] + padding + packet;
            payload[..|clientID|] == clientID && payload[|clientID|..] == [prefix] + (padding + packet)
  {
    Associative(clientID, [prefix], padding);
    Associative(clientID, [prefix] + padding, packet);
    Associative([prefix], padding, packet);
    var rest := [prefix] + (padding + packet);
    assert clientID + [prefix] + padding + packet == clientID + rest;
    assert (clientID + rest)[|clientID|..] == rest;
  }

  lemma PayloadReceived(clientID: Bytes, padding: Bytes, p: Bytes)
    requires |clientID| == 8 && |padding| < 32 && |p| < 224
    ensures ReceivePayload(QueryPayload(clientID, padding, p)) == Some(Upstream(clientID, if p == [] then [] else [p]))
  {
    hide PrefixCoded;
    var packet: Bytes := if p == [] then [] else [|p|] + p;
    PayloadParts(clientID, 224 + |padding|, padding, packet);
    PrefixPadding(padding, packet);
    if p != [] {
      PrefixPacket(packet, p);
    } else {
      assert PrefixCoded([]) == Some([]) by { PrefixEmpty(); }
    }
  }

  lemma PrefixEmpty()
    ensures PrefixCoded([]) == Some([])
  {
  }

  lemma DomainTrims(fore: Name, domain: Name)
    ensures Trimmed(fore + domain, domain) == Some(fore)
  {
    var name := fore + domain;
    assert name[|name| - |domain|..] == domain && name[..|name| - |domain|] == fore;
  }

  lemma NameDecodes(payload: Bytes, domain: Name)
    ensures Trimmed(QueryLabels(payload, domain), domain) == Some(Chunked(Lower(Base32.Encode(payload)), LABEL_MAX))
    ensures Base32.Decode(Joined(Chunked(Lower(Base32.Encode(payload)), LABEL_MAX))) == Some(payload)
  {
    var text := Lower(Base32.Encode(payload));
    DomainTrims(Chunked(text, LABEL_MAX), domain);
    ChunkedProperties(text, LABEL_MAX);
    hide Trimmed, Chunked, Joined;
    Base32.DecodeInverts(payload, text);
  }

  lemma QueryFits(clientID: Bytes, domain: Name, p: Bytes, padding: Bytes)
    requires ValidName(domain) && |clientID| == 8 && |padding| == PaddingLength(p)
    requires var mtu := Capacity(domain) - 8 - 1 - NUM_PADDING - 1; mtu >= 80 && |p| <= mtu
    ensures |p| < 224 && |QueryPayload(clientID, padding, p)| <= Capacity(domain)
    ensures ValidName(QueryLabels(QueryPayload(clientID, padding, p), domain))
  {
    hide QueryLabels;
    CapacityExact(domain, QueryPayload(clientID, padding, p));
  }

  lemma QueryRoundTrips(id: U16, name: Name)
    requires ValidName(name)
    ensures var m := Query(id, name);
            && LabelsOkIn(m) && DnsBuilder.WireFormat(m).Ok?
            && DnsReader.FromWireFormat(DnsBuilder.WireFormat(m).value) == Ok(m)
  {
    hide DnsReader.FromWireFormat, PutMessage;
    DnsRoundTrip.ElevenNamesSuffice(Query(id, name));
  }

  /**
    Upstream is lossless: under every valid domain that leaves an MTU of at least 80, a packet of up to the
    MTU is accepted, and a receiver recovers the client identifier and exactly that packet (none for a poll).
   */
  lemma UpstreamLossless(clientID: Bytes, domain: Name, p: Bytes, padding: Bytes, id: U16)
    requires ValidName(domain) && |clientID| == 8 && |padding| == PaddingLength(p)
    requires var mtu := Capacity(domain) - 8 - 1 - NUM_PADDING - 1; mtu >= 80 && |p| <= mtu
    ensures |p| < 224 && |QueryPayload(clientID, padding, p)| <= Capacity(domain)
    ensures var m := Query(id, QueryLabels(QueryPayload(clientID, padding, p), domain));
            && LabelsOkIn(m) && DnsBuilder.WireFormat(m).Ok?
            && ReceiveQuery(DnsBuilder.WireFormat(m).value, domain) ==
               Some(Upstream(clientID, if p == [] then [] else [p]))
  {
    hide QueryLabels, QueryPayload, Base32.Decode, Trimmed, ReceivePayload, ValidName, LabelsOkIn;
    hide DnsReader.FromWireFormat, DnsBuilder.WireFormat;
    QueryFits(clientID, domain, p, padding);
    var payload := QueryPayload(clientID, padding, p);
    QueryRoundTrips(id, QueryLabels(payload, domain));
    NameDecodes(payload, domain);
    PayloadReceived(clientID, padding, p);
  }
}
