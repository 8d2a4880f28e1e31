/** Downstream: length-prefixed packets travel in the TXT record of a response. */
module TunnelResponse {
  import opened Wire
  import opened DnsName
  import opened DnsBuilder
  import DnsReader
  import DnsRoundTrip
  import DnsCodec
  import DnsExtent
  import opened DnsTxt

  const RECEIVE_BUFFER := 4096

  /** The payload of a response, or nothing when it is not a well-formed answer under the domain. */
  function ResponsePayload(resp: Message, domain: Name): Bytes {
    if resp.flags < 0x8000 || resp.flags % 0x10 != 0 || |resp.answer| != 1 then []
    else
      var answer := resp.answer[0];
      if Trimmed(answer.name, domain).None? || answer.rtype != 16 then []
      else match DecodeTxt(answer.data)
        case Ok(payload) => payload
        case Err(_) => []
  }

  /** A complete packet at `pos`; end of file only when nothing at all is left. */
  function PacketAt(s: Bytes, pos: nat): (r: Result<(Bytes, nat)>)
    requires pos <= |s|
    ensures r.Ok? ==> pos + 2 <= r.value.1 <= |s|
    ensures pos == |s| ==> r.Err?
  {
    var n :- DnsReader.ReadU16(s, pos);
    match DnsReader.ReadFull(s, pos + 2, n)
    case Ok(p) => Ok((p, pos + 2 + n))
    case Err(_) => Err(UnexpectedEndOfFile)
  }

  /** The packets that repeated reading yields from `pos` on. */
  function PacketsFrom(s: Bytes, pos: nat): seq<Bytes>
    requires pos <= |s|
    decreases |s| - pos
  {
    match PacketAt(s, pos)
    case Ok((p, next)) => [p] + PacketsFrom(s, next)
    case Err(_) => []
  }

  method NextPacket(r: DnsCodec.Reader) returns (p: Result<Bytes>)
    requires r.pos <= |r.buf|
    modifies r
    ensures match PacketAt(r.buf, old(r.pos))
            case Ok((q, next)) => p == Ok(q) && r.pos == next
            case Err(e) => p == Err(e)
    ensures p == Err(EndOfFile) <==> old(r.pos) == |r.buf|
  {
    var n := r.ReadU16();
    if n.Err? {
      return Err(n.error);
    }
    p := r.ReadFull(n.value);
    if p.Err? && p.error == EndOfFile {
      p := Err(UnexpectedEndOfFile);
    }
  }

  /** What one datagram delivers: the receive buffer cuts it at 4096 octets, and anything unparsable yields nothing. */
  function Delivered(datagram: Bytes, domain: Name): seq<Bytes> {
    match DnsReader.FromWireFormat(if |datagram| > RECEIVE_BUFFER then datagram[..RECEIVE_BUFFER] else datagram)
    case Ok(resp) => PacketsFrom(ResponsePayload(resp, domain), 0)
    case Err(_) => []
  }

  /** One turn of the receive loop; `any` is what permits an immediate poll. */
  method Receive(datagram: Bytes, domain: Name) returns (packets: seq<Bytes>, any: bool)
    ensures packets == Delivered(datagram, domain)
    ensures any <==> packets != []
  {
    hide DnsReader.FromWireFormat, ResponsePayload, PacketsFrom;
    packets, any := [], false;
    var buf := if |datagram| > RECEIVE_BUFFER then datagram[..RECEIVE_BUFFER] else datagram;
    var resp := DnsCodec.MessageFromWireFormat(buf);
    if resp.Err? {
      return;
    }
    packets, any := SplitPackets(ResponsePayload(resp.value, domain));
  }

  method SplitPackets(payload: Bytes) returns (packets: seq<Bytes>, any: bool)
    ensures packets == PacketsFrom(payload, 0)
    ensures any <==> packets != []
  {
    packets, any := [], false;
    var r := new DnsCodec.Reader(payload);
    assert packets + PacketsFrom(payload, 0) == PacketsFrom(payload, 0);
    while true
      invariant r.buf == payload && r.pos <= |payload| && fresh(r)
      invariant packets + PacketsFrom(payload, r.pos) == PacketsFrom(payload, 0)
      invariant any <==> packets != []
      decreases |payload| - r.pos
    {
      hide PacketAt;
      ghost var start := r.pos;
      var p := NextPacket(r);
      if p.Err? {
        assert packets + [] == packets;
        break;
      }
      any := true;
      Associative(packets, [p.value], PacketsFrom(payload, r.pos));
      packets := packets + [p.value];
    }
  }

  // ---------- framing ----------

  predicate Framable(ps: seq<Bytes>) {
    forall i :: 0 <= i < |ps| ==> |ps[i]| < 0x1_0000
  }

  function Frame(ps: seq<Bytes>): Bytes
    requires Framable(ps)
  {
    if ps == [] then [] else PutU16(|ps[0]|) + ps[0] + Frame(ps[1..])
  }

  /** How many packets lie entirely within the first `k` octets of the framing. */
  function Complete(ps: seq<Bytes>, k: nat): (j: nat)
    ensures j <= |ps|
  {
    if ps == [] || k < 2 + |ps[0]| then 0 else 1 + Complete(ps[1..], k - 2 - |ps[0]|)
  }

  lemma FrameStep(ps: seq<Bytes>, j: nat)
    requires Framable(ps) && j < |ps|
    ensures Frame(ps[..j + 1]) == PutU16(|ps[0]|) + ps[0] + Frame(ps[1..][..j])
  {
    assert ps[..j + 1][1..] == ps[1..][..j];
  }

  lemma {:induction false} FramePrefix(ps: seq<Bytes>, j: nat)
    requires Framable(ps) && j <= |ps|
    ensures Frame(ps[..j]) <= Frame(ps)
    decreases |ps|
  {
    if j == 0 {
      assert ps[..0] == [];
    } else {
      var first, fore, rest := PutU16(|ps[0]|) + ps[0], Frame(ps[1..][..j - 1]), Frame(ps[1..]);
      FramePrefix(ps[1..], j - 1);
      FrameStep(ps, j - 1);
      assert (first + rest)[..|first| + |fore|] == first + fore;
    }
  }

  lemma {:induction false} CompleteFits(ps: seq<Bytes>, k: nat)
    requires Framable(ps)
    ensures var j := Complete(ps, k);
            |Frame(ps[..j])| <= k && (j < |ps| ==> k < |Frame(ps[..j + 1])|)
    decreases |ps|
  {
    hide Frame;
    if ps == [] || k < 2 + |ps[0]| {
      assert ps[..0] == [];
      assert Frame([]) == [] by { FrameNone(); }
      if ps != [] {
        FrameStep(ps, 0);
      }
    } else {
      var k1 := k - 2 - |ps[0]|;
      var j := Complete(ps[1..], k1);
      CompleteFits(ps[1..], k1);
      FrameStep(ps, j);
      if j + 1 < |ps| {
        FrameStep(ps, j + 1);
      }
    }
  }

  lemma FrameNone()
    ensures Frame([]) == []
  {
  }

  /** `Complete` is what its name says: that many packets fit in `k` octets and one more does not. */
  lemma CompleteIsMaximal(ps: seq<Bytes>, k: nat)
    requires Framable(ps)
    ensures var j := Complete(ps, k);
            && |Frame(ps[..j])| <= k && Frame(ps[..j]) <= Frame(ps)
            && (j < |ps| ==> k < |Frame(ps[..j + 1])|)
  {
    hide Frame, Complete;
    CompleteFits(ps, k);
    FramePrefix(ps, Complete(ps, k));
  }

  lemma PacketAtFrame(s: Bytes, pos: nat, p: Bytes, rest: Bytes)
    requires pos <= |s| && |p| < 0x1_0000 && s[pos..] <= PutU16(|p|) + p + rest
    ensures if |s| - pos >= 2 + |p|
            then PacketAt(s, pos) == Ok((p, pos + 2 + |p|)) && s[pos + 2 + |p|..] <= rest
            else PacketAt(s, pos).Err?
  {
    var f := PutU16(|p|) + p + rest;
    var t := s[pos..];
    assert forall i :: 0 <= i < |t| ==> s[pos + i] == t[i] == f[i];
    if |t| >= 2 {
      assert s[pos] == f[0] && s[pos + 1] == f[1];
      assert GetU16(s, pos) == |p|;
      if |t| >= 2 + |p| {
        assert s[pos + 2..pos + 2 + |p|] == t[2..2 + |p|] == f[2..2 + |p|] == p;
        assert s[pos + 2 + |p|..] == t[2 + |p|..];
        assert f[2 + |p|..] == rest;
      }
    }
  }

  /** Reading any prefix of a framing yields exactly the packets that are complete in it, in order. */
  lemma {:induction false} FramePackets(ps: seq<Bytes>, s: Bytes, pos: nat)
    requires Framable(ps) && pos <= |s| && s[pos..] <= Frame(ps)
    ensures PacketsFrom(s, pos) == ps[..Complete(ps, |s| - pos)]
    decreases |ps|
  {
    hide PacketAt;
    if ps != [] {
      PacketAtFrame(s, pos, ps[0], Frame(ps[1..]));
      if |s| - pos >= 2 + |ps[0]| {
        FramePackets(ps[1..], s, pos + 2 + |ps[0]|);
        var more := Complete(ps[1..], |s| - pos - 2 - |ps[0]|);
        assert [ps[0]] + ps[1..][..more] == ps[..more + 1];
      }
    }
  }

  /** The response a tunnel server sends: one TXT answer, under the domain, with no error code. */
  predicate Carries(resp: Message, domain: Name, payload: Bytes) {
    && resp.flags >= 0x8000 && resp.flags % 0x10 == 0
    && |resp.answer| == 1 && resp.answer[0].rtype == 16
    && Trimmed(resp.answer[0].name, domain).Some?
    && resp.answer[0].data == EncodeTxt(payload)
  }

  /**
    Downstream delivery: from the wire form of any such response, the packets handed on are exactly those
    framed in it. If the framing was cut at `k` octets, only packets past the cut are lost.
   */
  lemma DownstreamDelivery(resp: Message, domain: Name, ps: seq<Bytes>, k: nat)
    requires Framable(ps) && k <= |Frame(ps)| && Carries(resp, domain, Frame(ps)[..k])
    requires ValidNames(resp) && Encodable(resp) && DnsRoundTrip.ChainsWithinLimit(resp)
    requires |DnsBuilder.WireFormat(resp).value| <= RECEIVE_BUFFER
    ensures Delivered(DnsBuilder.WireFormat(resp).value, domain) == ps[..Complete(ps, k)]
    ensures k == |Frame(ps)| ==> Delivered(DnsBuilder.WireFormat(resp).value, domain) == ps
  {
    hide DnsReader.FromWireFormat, PutMessage, DnsRoundTrip.ChainsWithinLimit, PacketsFrom;
    DnsRoundTrip.RoundTrip(resp);
    var payload := Frame(ps)[..k];
    TxtRoundTrip(payload);
    assert payload[0..] == payload;
    FramePackets(ps, payload, 0);
    CompleteWhole(ps);
  }

  lemma {:induction false} CompleteWhole(ps: seq<Bytes>)
    requires Framable(ps)
    ensures Complete(ps, |Frame(ps)|) == |ps|
    decreases |ps|
  {
    if ps != [] {
      CompleteWhole(ps[1..]);
    }
  }

  // ---------- what is not delivered ----------

  /**
    A datagram delivers something only if it is, up to the receive buffer, a whole response without an error
    whose one answer is a TXT record under the domain; then it delivers the packets in that record.
   */
  lemma DeliveredExactly(datagram: Bytes, domain: Name)
    ensures var r := DnsReader.FromWireFormat(if |datagram| > 4096 then datagram[..4096] else datagram);
            Delivered(datagram, domain) ==
            if && r.Ok? && r.value.flags / 0x8000 % 2 == 1 && r.value.flags % 16 == 0
               && |r.value.answer| == 1 && r.value.answer[0].rtype == 16
               && Under(r.value.answer[0].name, domain) && DecodeTxt(r.value.answer[0].data).Ok?
            then PacketsFrom(DecodeTxt(r.value.answer[0].data).value, 0)
            else []
  {
    hide DnsReader.FromWireFormat, Trimmed, Under, DecodeTxt;
    var r := DnsReader.FromWireFormat(if |datagram| > 4096 then datagram[..4096] else datagram);
    if r.Ok? && |r.value.answer| == 1 {
      TrimmedIffUnder(r.value.answer[0].name, domain);
    }
  }

  /** A response longer than the receive buffer is lost as a whole. */
  lemma OversizeIsLost(datagram: Bytes, domain: Name)
    requires |datagram| > 4096 && DnsReader.FromWireFormat(datagram).Ok?
    ensures Delivered(datagram, domain) == []
  {
    hide DnsReader.FromWireFormat;
    DnsExtent.CutRefused(datagram, 4096);
  }

  /** Too short for the length in front of it. */
  predicate Incomplete(tail: Bytes) {
    |tail| < 2 || |tail| < 2 + GetU16(tail, 0)
  }

  lemma PacketThere(s: Bytes, pos: nat)
    requires pos <= |s|
    ensures if Incomplete(s[pos..]) then PacketAt(s, pos).Err?
            else
              var n := GetU16(s[pos..], 0);
              var p, next := s[pos + 2..pos + 2 + n], pos + 2 + n;
              PacketAt(s, pos) == Ok((p, next)) && |p| == n && s[pos..] == PutU16(n) + p + s[next..]
  {
    var tail := s[pos..];
    if |tail| >= 2 {
      assert GetU16(s, pos) == GetU16(tail, 0);
      assert s[pos..pos + 2] == PutU16(GetU16(s, pos));
      assert s[pos + 2..pos + 2] == [];
    }
  }

  /** Any payload is the framing of the packets read from it and a rest that is no packet. */
  lemma {:induction false} AnyPayload(s: Bytes, pos: nat)
    requires pos <= |s|
    ensures var ps := PacketsFrom(s, pos);
            Framable(ps) && Frame(ps) <= s[pos..] && Incomplete(s[pos..][|Frame(ps)|..])
    decreases |s| - pos
  {
    hide PacketAt, PutU16, GetU16;
    PacketThere(s, pos);
    match PacketAt(s, pos) {
      case Ok((p, next)) =>
        AnyPayload(s, next);
        FrameFront(p, PacketsFrom(s, next), s[next..]);
      case Err(_) =>
        assert s[pos..][0..] == s[pos..];
    }
  }

  lemma FrameFront(p: Bytes, ps: seq<Bytes>, tail: Bytes)
    requires |p| < 0x1_0000 && Framable(ps) && Frame(ps) <= tail
    ensures var s := PutU16(|p|) + p + tail;
            && Framable([p] + ps) && Frame([p] + ps) <= s
            && s[|Frame([p] + ps)|..] == tail[|Frame(ps)|..]
  {
    hide PutU16;
    assert ([p] + ps)[1..] == ps;
    var first := PutU16(|p|) + p;
    assert (first + tail)[..|first| + |Frame(ps)|] == first + Frame(ps);
  }
}
