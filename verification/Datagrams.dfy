/** SOCKS5 UDP datagrams (section 7 of RFC 1928) and the frames that carry them over UDPGW. */
module Datagrams {
  import opened Wire

  /** Where a datagram goes: the text of a host, which may or may not be the text of an address. */
  datatype Datagram = Datagram(host: Bytes, port: U16, data: Bytes)

  datatype Failure = Malformed | TooLong | WrongHost

  datatype Outcome<+T> = Good(value: T) | Bad(failure: Failure)

  // ---------- addresses as text ----------

  type Octets16 = s: Bytes | |s| == 16 witness seq(16, i => 0)

  const MAPPED: Bytes := [0, 0, 0, 0, 0, 0, 0, 0, 0, 0, 255, 255]

  /** Sixteen octets that hold an IPv4 address. */
  predicate IsMapped(octets: Bytes) {
    MAPPED <= octets
  }

  /** The library's reading and printing of addresses; reading always gives the sixteen-octet form. */
  datatype AddressText = AddressText(parse: Bytes -> Option<Octets16>, print4: Bytes -> Bytes, print16: Bytes -> Bytes)

  function Map4(octets: Bytes): Octets16
    requires |octets| == 4
  {
    MAPPED + octets
  }

  /** What is printed reads back, and an IPv4 address prints alike in both forms. */
  ghost predicate Lawful(ip: AddressText) {
    && (forall a: Bytes {:trigger ip.print4(a)} :: |a| == 4 ==> ip.parse(ip.print4(a)) == Some(Map4(a)))
    && (forall a: Bytes {:trigger ip.print16(a)} :: |a| == 16 ==> ip.parse(ip.print16(a)) == Some(a))
    && (forall a: Bytes {:trigger ip.print4(a)} :: |a| == 4 ==> ip.print16(Map4(a)) == ip.print4(a))
  }

  predicate IsAddress(ip: AddressText, host: Bytes) {
    ip.parse(host).Some?
  }

  /** The standard text of the address, if the host is one. */
  function Canonical(ip: AddressText, host: Bytes): Bytes {
    match ip.parse(host)
    case Some(octets) => ip.print16(octets)
    case None => host
  }

  /** The address in its shortest form. */
  function Short(octets: Octets16): Bytes {
    if IsMapped(octets) then octets[12..] else octets
  }

  lemma ShortOfMapped(octets: Octets16)
    ensures IsMapped(octets) ==> |Short(octets)| == 4 && Map4(Short(octets)) == octets
    ensures !IsMapped(octets) ==> Short(octets) == octets
  {
  }

  lemma Map4IsMapped(octets: Bytes)
    requires |octets| == 4
    ensures IsMapped(Map4(octets)) && Short(Map4(octets)) == octets
  {
  }

  // ---------- SOCKS ----------

  function AfterHost(host: Bytes, s: Bytes): Outcome<Datagram> {
    if |s| < 2 then Bad(Malformed) else Good(Datagram(host, GetU16(s, 0), s[2..]))
  }

  function ParseSocks(ip: AddressText, packet: Bytes): Outcome<Datagram> {
    if |packet| < 4 || packet[0] != 0 || packet[1] != 0 || packet[2] != 0 then Bad(Malformed)
    else
      var s := packet[4..];
      if packet[3] == 1 then
        if |s| < 4 then Bad(Malformed) else AfterHost(ip.print4(s[..4]), s[4..])
      else if packet[3] == 3 then
        if |s| < 1 || |s| <= s[0] then Bad(Malformed) else AfterHost(s[1..][..s[0]], s[1..][s[0]..])
      else if packet[3] == 4 then
        if |s| < 16 then Bad(Malformed) else AfterHost(ip.print16(s[..16]), s[16..])
      else Bad(Malformed)
  }

  /** Address type and host as they go on the wire; the text of an address is sent as the address. */
  function HostOctets(ip: AddressText, host: Bytes): Outcome<Bytes> {
    match ip.parse(host)
    case Some(octets) => Good([if IsMapped(octets) then 1 else 4] + Short(octets))
    case None => if |host| > 255 then Bad(TooLong) else Good([3, |host|] + host)
  }

  function BuildSocks(ip: AddressText, d: Datagram): Outcome<Bytes> {
    match HostOctets(ip, d.host)
    case Good(h) => Good([0, 0, 0] + h + (PutU16(d.port) + d.data))
    case Bad(e) => Bad(e)
  }

  lemma PortAndData(port: U16, data: Bytes, host: Bytes)
    ensures AfterHost(host, PutU16(port) + data) == Good(Datagram(host, port, data))
  {
    assert (PutU16(port) + data)[2..] == data;
  }

  lemma PortAndDataBack(host: Bytes, s: Bytes)
    requires AfterHost(host, s).Good?
    ensures var d := AfterHost(host, s).value; d.host == host && PutU16(d.port) + d.data == s
  {
    assert PutU16(GetU16(s, 0)) == s[..2];
  }

  lemma PacketParts(atyp: Byte, s: Bytes, end: Bytes, packet: Bytes)
    requires packet == [0, 0, 0] + ([atyp] + s) + end
    ensures |packet| >= 4 && packet[..3] == [0, 0, 0] && packet[0] == packet[1] == packet[2] == 0
    ensures packet[3] == atyp && packet[4..] == s + end
  {
  }

  lemma Cut(s: Bytes, end: Bytes)
    ensures (s + end)[..|s|] == s && (s + end)[|s|..] == end
  {
  }

  lemma AddressReads(ip: AddressText, octets: Octets16, port: U16, data: Bytes)
    requires Lawful(ip)
    ensures var packet := [0, 0, 0] + ([if IsMapped(octets) then 1 else 4] + Short(octets)) + (PutU16(port) + data);
            ParseSocks(ip, packet) == Good(Datagram(ip.print16(octets), port, data))
  {
    var end := PutU16(port) + data;
    var packet := [0, 0, 0] + ([if IsMapped(octets) then 1 else 4] + Short(octets)) + end;
    PortAndData(port, data, ip.print16(octets));
    hide AfterHost, PutU16;
    ShortOfMapped(octets);
    PacketParts(if IsMapped(octets) then 1 else 4, Short(octets), end, packet);
    Cut(Short(octets), end);
    assert IsMapped(octets) ==> ip.print4(Short(octets)) == ip.print16(octets);
    hide IsMapped, Short, Map4;
  }

  lemma NameReads(ip: AddressText, host: Bytes, port: U16, data: Bytes)
    requires |host| <= 255
    ensures var packet := [0, 0, 0] + ([3, |host|] + host) + (PutU16(port) + data);
            ParseSocks(ip, packet) == Good(Datagram(host, port, data))
  {
    var n: Byte, end := |host|, PutU16(port) + data;
    var packet := [0, 0, 0] + ([3, n] + host) + end;
    PortAndData(port, data, host);
    hide AfterHost, PutU16;
    assert [3, n] + host == [3] + ([n] + host);
    PacketParts(3, [n] + host, end, packet);
    assert ([n] + host + end)[1..] == host + end;
    Cut(host, end);
  }

  /**
    Parsing inverts building up to the standard text of an address: a datagram comes back unchanged if and
    only if its host is no address or is already written the way addresses are printed.
   */
  lemma SocksRoundTrip(ip: AddressText, d: Datagram)
    requires Lawful(ip)
    ensures BuildSocks(ip, d) == Bad(TooLong) <==> !IsAddress(ip, d.host) && |d.host| > 255
    ensures BuildSocks(ip, d).Good? ==>
              && ParseSocks(ip, BuildSocks(ip, d).value) == Good(d.(host := Canonical(ip, d.host)))
              && (ParseSocks(ip, BuildSocks(ip, d).value) == Good(d) <==> Canonical(ip, d.host) == d.host)
  {
    hide ParseSocks, IsMapped, Short, PutU16;
    if BuildSocks(ip, d).Good? {
      match ip.parse(d.host) {
        case Some(octets) => AddressReads(ip, octets, d.port, d.data);
        case None => NameReads(ip, d.host, d.port, d.data);
      }
    }
  }

  /** The ways in which a packet names its destination that building does not use. */
  predicate Rewritten(ip: AddressText, packet: Bytes)
    requires ParseSocks(ip, packet).Good?
  {
    || (packet[3] == 4 && IsMapped(packet[4..][..16]))
    || (packet[3] == 3 && IsAddress(ip, ParseSocks(ip, packet).value.host))
  }

  lemma Rebuild(atyp: Byte, h: Bytes, end: Bytes, packet: Bytes)
    requires |packet| >= 4 && packet[0] == packet[1] == packet[2] == 0 && packet[3] == atyp && packet[4..] == h + end
    ensures packet == [0, 0, 0] + ([atyp] + h) + end
  {
    assert packet == packet[..4] + packet[4..] && packet[..4] == [0, 0, 0, atyp];
  }

  /**
    Building inverts parsing, except when an IPv4 address was sent in IPv6 form or an address was sent as a
    name: then, and only then, the packet comes back in another form.
   */
  lemma SocksReparse(ip: AddressText, packet: Bytes)
    requires Lawful(ip) && ParseSocks(ip, packet).Good?
    ensures BuildSocks(ip, ParseSocks(ip, packet).value).Good?
    ensures BuildSocks(ip, ParseSocks(ip, packet).value) == Good(packet) <==> !Rewritten(ip, packet)
  {
    match packet[3] {
      case 1 => ReparseIPv4(ip, packet);
      case 3 => ReparseName(ip, packet);
      case _ => ReparseIPv6(ip, packet);
    }
  }

  lemma ReparseIPv4(ip: AddressText, packet: Bytes)
    requires Lawful(ip) && ParseSocks(ip, packet).Good? && packet[3] == 1
    ensures BuildSocks(ip, ParseSocks(ip, packet).value) == Good(packet)
  {
    hide AfterHost, IsMapped;
    var s := packet[4..];
    PortAndDataBack(ip.print4(s[..4]), s[4..]);
    Map4IsMapped(s[..4]);
    Rebuild(1, s[..4], s[4..], packet);
  }

  lemma ReparseIPv6(ip: AddressText, packet: Bytes)
    requires Lawful(ip) && ParseSocks(ip, packet).Good? && packet[3] == 4
    ensures BuildSocks(ip, ParseSocks(ip, packet).value).Good?
    ensures BuildSocks(ip, ParseSocks(ip, packet).value) == Good(packet) <==> !IsMapped(packet[4..][..16])
  {
    hide AfterHost, IsMapped;
    var s := packet[4..];
    PortAndDataBack(ip.print16(s[..16]), s[16..]);
    ShortOfMapped(s[..16]);
    var built := BuildSocks(ip, ParseSocks(ip, packet).value).value;
    if IsMapped(s[..16]) {
      PacketParts(1, Short(s[..16]), s[16..], built);
    } else {
      Rebuild(4, s[..16], s[16..], packet);
    }
  }

  lemma ReparseName(ip: AddressText, packet: Bytes)
    requires Lawful(ip) && ParseSocks(ip, packet).Good? && packet[3] == 3
    ensures BuildSocks(ip, ParseSocks(ip, packet).value).Good?
    ensures var d := ParseSocks(ip, packet).value;
            BuildSocks(ip, d) == Good(packet) <==> !IsAddress(ip, d.host)
  {
    hide AfterHost, IsMapped;
    var s := packet[4..];
    var n := s[0];
    var host, end := s[1..][..n], s[1..][n..];
    PortAndDataBack(host, end);
    var built := BuildSocks(ip, ParseSocks(ip, packet).value).value;
    match ip.parse(host) {
      case Some(octets) =>
        PacketParts(if IsMapped(octets) then 1 else 4, Short(octets), end, built);
      case None =>
        assert s == [n] + host + end;
        Rebuild(3, [n] + host, end, packet);
        assert [3] + ([n] + host) == [3, |host|] + host;
    }
  }

  /** A domain packet whose name is the text of an address comes back as an address packet. */
  lemma AddressSentAsName(ip: AddressText, name: Bytes, port: U16, data: Bytes)
    requires Lawful(ip) && |name| <= 255 && IsAddress(ip, name)
    ensures var packet := [0, 0, 0] + ([3] + ([|name|] + name)) + (PutU16(port) + data);
            && ParseSocks(ip, packet) == Good(Datagram(name, port, data))
            && BuildSocks(ip, Datagram(name, port, data)) != Good(packet)
  {
    var n: Byte := |name|;
    var end := PutU16(port) + data;
    var packet := [0, 0, 0] + ([3] + ([n] + name)) + end;
    PacketParts(3, [n] + name, end, packet);
    assert ([n] + name + end)[1..] == name + end;
    Cut(name, end);
    PortAndData(port, data, name);
    SocksReparse(ip, packet);
  }

  // ---------- UDPGW payloads ----------

  function PutLE16(n: U16): (s: Bytes)
    ensures |s| == 2
  {
    [n % 0x100, n / 0x100]
  }

  function GetLE16(s: Bytes): U16
    requires |s| >= 2
  {
    s[0] + s[1] as int * 0x100
  }

  const FLAG_REBIND := 2
  const FLAG_IPV6 := 8

  function Flags(isNew: bool, octets: Octets16): Byte {
    (if isNew then FLAG_REBIND else 0) + (if IsMapped(octets) then 0 else FLAG_IPV6)
  }

  function BadVPNPayload(id: U16, isNew: bool, octets: Octets16, d: Datagram): (p: Bytes)
    ensures |p| == 5 + |Short(octets)| + |d.data|
  {
    [Flags(isNew, octets)] + PutLE16(id) + Short(octets) + (PutU16(d.port) + d.data)
  }

  function LegacyPayload(id: U16, octets: Octets16, d: Datagram): (p: Bytes)
    ensures |p| == 5 + |Short(octets)| + |d.data|
  {
    PutU16(id) + [0] + Short(octets) + (PutU16(d.port) + d.data)
  }

  /** A payload behind its length, if the length fits 16 bits. */
  function Framed(payload: Bytes): Outcome<Bytes> {
    if |payload| > 65535 then Bad(TooLong) else Good(PutLE16(|payload|) + payload)
  }

  /** Only a host that is the text of an address can be sent. */
  function BuildBadVPN(ip: AddressText, id: U16, isNew: bool, d: Datagram): Outcome<Bytes> {
    match ip.parse(d.host)
    case None => Bad(WrongHost)
    case Some(octets) => Framed(BadVPNPayload(id, isNew, octets, d))
  }

  /** Only the text of an IPv4 address can be sent. */
  function BuildLegacy(ip: AddressText, id: U16, d: Datagram): Outcome<Bytes> {
    match ip.parse(d.host)
    case None => Bad(WrongHost)
    case Some(octets) => if IsMapped(octets) then Framed(LegacyPayload(id, octets, d)) else Bad(WrongHost)
  }

  method Copy(out: array<Byte>, at: nat, s: Bytes)
    requires at + |s| <= out.Length
    modifies out
    ensures out[..at + |s|] == old(out[..at]) + s
  {
    forall i | 0 <= i < |s| {
      out[at + i] := s[i];
    }
  }

  /** Six fields written one after the other are a length, a head of two fields, an address, a port and data. */
  lemma Fields(len: Bytes, a: Bytes, b: Bytes, addr: Bytes, port: Bytes, data: Bytes)
    ensures len + a + b + addr + port + data == len + (a + b + addr + (port + data))
  {
    Associative(len, a, b);
    Associative(len, a + b, addr);
    Associative(len + (a + b + addr), port, data);
    Associative(len, a + b + addr, port + data);
  }

  /** The builder fills a buffer of the final size field by field. */
  method FillBadVPN(ip: AddressText, id: U16, isNew: bool, d: Datagram) returns (r: Outcome<Bytes>)
    ensures r == BuildBadVPN(ip, id, isNew, d)
  {
    hide Short, Flags, IsMapped;
    var parsed := ip.parse(d.host);
    if parsed.None? {
      return Bad(WrongHost);
    }
    var addr := Short(parsed.value);
    var payloadLen := 1 + 2 + |addr| + 2 + |d.data|;
    if payloadLen > 65535 {
      return Bad(TooLong);
    }
    var out := new Byte[2 + payloadLen];
    var portOff := 5 + |addr|;
    Copy(out, 0, PutLE16(payloadLen));
    assert out[..2] == PutLE16(payloadLen);
    Copy(out, 2, [Flags(isNew, parsed.value)]);
    Copy(out, 3, PutLE16(id));
    Copy(out, 5, addr);
    Copy(out, portOff, PutU16(d.port));
    Copy(out, portOff + 2, d.data);
    Fields(PutLE16(payloadLen), [Flags(isNew, parsed.value)], PutLE16(id), addr, PutU16(d.port), d.data);
    assert out[..out.Length] == out[..];
    return Good(out[..]);
  }

  method FillLegacy(ip: AddressText, id: U16, d: Datagram) returns (r: Outcome<Bytes>)
    ensures r == BuildLegacy(ip, id, d)
  {
    var parsed := ip.parse(d.host);
    if parsed.None? || !IsMapped(parsed.value) {
      return Bad(WrongHost);
    }
    var v4 := Short(parsed.value);
    assert |v4| == 4;
    hide Short, IsMapped;
    var payloadLen := 2 + 1 + 4 + 2 + |d.data|;
    if payloadLen > 65535 {
      return Bad(TooLong);
    }
    var out := new Byte[2 + payloadLen];
    Copy(out, 0, PutLE16(payloadLen));
    assert out[..2] == PutLE16(payloadLen);
    Copy(out, 2, PutU16(id));
    Copy(out, 4, [0]);
    Copy(out, 5, v4);
    Copy(out, 9, PutU16(d.port));
    Copy(out, 11, d.data);
    Fields(PutLE16(payloadLen), PutU16(id), [0], v4, PutU16(d.port), d.data);
    assert out[..out.Length] == out[..];
    return Good(out[..]);
  }

  function WithID(id: U16, r: Outcome<Datagram>): Outcome<(U16, Datagram)> {
    match r
    case Good(d) => Good((id, d))
    case Bad(e) => Bad(e)
  }

  function ParseBadVPN(ip: AddressText, payload: Bytes): Outcome<(U16, Datagram)> {
    if |payload| < 9 || payload[0] % 2 == 1 then Bad(Malformed)
    else
      var id, s := GetLE16(payload[1..]), payload[3..];
      if payload[0] / FLAG_IPV6 % 2 == 1 then
        if |s| < 18 then Bad(Malformed) else WithID(id, AfterHost(ip.print16(s[..16]), s[16..]))
      else WithID(id, AfterHost(ip.print4(s[..4]), s[4..]))
  }

  function ParseLegacy(ip: AddressText, payload: Bytes): Outcome<(U16, Datagram)> {
    if |payload| < 9 then Bad(Malformed)
    else WithID(GetU16(payload, 0), AfterHost(ip.print4(payload[3..][..4]), payload[3..][4..]))
  }

  /**
    The first octet of a badvpn payload: the rebind bit is set exactly for a new connection, the IPv6 bit exactly
    for an address that is not IPv4, the keep-alive bit and all others never.
   */
  lemma FlagBits(ip: AddressText, id: U16, isNew: bool, d: Datagram)
    requires BuildBadVPN(ip, id, isNew, d).Good?
    ensures var frame := BuildBadVPN(ip, id, isNew, d).value;
            && |frame| > 2 && frame[2] % 2 == 0 && (frame[2] / 2 % 2 == 1 <==> isNew) && frame[2] / 4 % 2 == 0
            && (frame[2] / 8 % 2 == 1 <==> ip.parse(d.host).value[..12] != [0, 0, 0, 0, 0, 0, 0, 0, 0, 0, 255, 255])
            && frame[2] < 16
  {
    var octets := ip.parse(d.host).value;
    hide Short;
    assert octets[..12] == MAPPED <==> IsMapped(octets);
  }

  /** A legacy frame octet by octet. */
  lemma LegacyLayout(ip: AddressText, id: U16, d: Datagram)
    requires BuildLegacy(ip, id, d).Good?
    ensures var n := 9 + |d.data|;
            n <= 65535 && BuildLegacy(ip, id, d).value ==
            [n % 256, n / 256, id / 256, id % 256, 0] + ip.parse(d.host).value[12..]
            + [d.port / 256, d.port % 256] + d.data
  {
    var v4 := ip.parse(d.host).value[12..];
    Fields(PutLE16(9 + |d.data|), PutU16(id), [0], v4, PutU16(d.port), d.data);
  }

  /** A payload reads back as its identifier, port and data, and the host in its standard text. */
  lemma BadVPNRoundTrip(ip: AddressText, id: U16, isNew: bool, octets: Octets16, d: Datagram)
    requires Lawful(ip) && ip.parse(d.host) == Some(octets)
    ensures ParseBadVPN(ip, BadVPNPayload(id, isNew, octets, d)) == Good((id, d.(host := Canonical(ip, d.host))))
  {
    hide AfterHost, IsMapped, Map4;
    var payload, end := BadVPNPayload(id, isNew, octets, d), PutU16(d.port) + d.data;
    ShortOfMapped(octets);
    assert payload[3..] == Short(octets) + end;
    assert payload[1..][0] == payload[1] && payload[1..][1] == payload[2];
    Cut(Short(octets), end);
    PortAndData(d.port, d.data, Canonical(ip, d.host));
    assert IsMapped(octets) ==> ip.print4(Short(octets)) == ip.print16(octets);
  }

  lemma LegacyRoundTrip(ip: AddressText, id: U16, octets: Octets16, d: Datagram)
    requires Lawful(ip) && ip.parse(d.host) == Some(octets) && IsMapped(octets)
    ensures ParseLegacy(ip, LegacyPayload(id, octets, d)) == Good((id, d.(host := Canonical(ip, d.host))))
  {
    hide AfterHost, IsMapped, Map4;
    var payload, end := LegacyPayload(id, octets, d), PutU16(d.port) + d.data;
    ShortOfMapped(octets);
    assert payload[3..] == Short(octets) + end;
    Cut(Short(octets), end);
    PortAndData(d.port, d.data, Canonical(ip, d.host));
    assert ip.print4(Short(octets)) == ip.print16(octets);
  }

  // ---------- streams of frames ----------

  /** Payloads read off a stream of frames until it ends or a frame is empty or cut short. */
  function ReadFrames(s: Bytes): seq<Bytes> {
    if |s| < 2 then []
    else
      var n := GetLE16(s);
      if n == 0 || |s| < 2 + n then [] else [s[2..2 + n]] + ReadFrames(s[2 + n..])
  }

  lemma FrameFirst(p: Bytes, rest: Bytes)
    requires 0 < |p| < 0x1_0000
    ensures ReadFrames(PutLE16(|p|) + p + rest) == [p] + ReadFrames(rest)
  {
    var s := PutLE16(|p|) + p + rest;
    assert s[2..2 + |p|] == p && s[2 + |p|..] == rest;
  }

  /** Too short for the length in front of it, or of length 0. */
  predicate EndsStream(tail: Bytes) {
    |tail| < 2 || var n := tail[0] + tail[1] as int * 256; n == 0 || |tail| < 2 + n
  }

  predicate AreFrames(ps: seq<Bytes>) {
    forall i :: 0 <= i < |ps| ==> 0 < |ps[i]| < 0x1_0000
  }

  function Frames(ps: seq<Bytes>): Bytes
    requires AreFrames(ps)
  {
    if ps == [] then [] else PutLE16(|ps[0]|) + ps[0] + Frames(ps[1..])
  }

  /** Frames are read up to the first that is empty or cut short, which is where the stream ends. */
  lemma {:induction false} FramesThenEnd(ps: seq<Bytes>, tail: Bytes)
    requires AreFrames(ps) && EndsStream(tail)
    ensures ReadFrames(Frames(ps) + tail) == ps
    decreases |ps|
  {
    hide PutLE16;
    if ps == [] {
      assert Frames(ps) + tail == tail;
    } else {
      Associative(PutLE16(|ps[0]|) + ps[0], Frames(ps[1..]), tail);
      FrameFirst(ps[0], Frames(ps[1..]) + tail);
      FramesThenEnd(ps[1..], tail);
    }
  }

  /**
    A reply is accepted exactly if it is long enough for the address its IPv6 bit announces and is no keep-alive;
    identifier, port and data are where they should be.
   */
  lemma ReplyAccepted(ip: AddressText, payload: Bytes)
    ensures var r := ParseBadVPN(ip, payload);
            && (r.Good? <==> |payload| >= 9 && payload[0] % 2 == 0 && (payload[0] / 8 % 2 == 1 ==> |payload| >= 21))
            && (r.Good? ==>
                  var end := if payload[0] / 8 % 2 == 1 then 19 else 7;
                  && r.value.0 == payload[1] + payload[2] as int * 256
                  && r.value.1.port == payload[end] as int * 256 + payload[end + 1]
                  && r.value.1.data == payload[end + 2..])
  {
  }

  /** One datagram forwarded under a connection identifier. */
  datatype Sent = Sent(id: U16, isNew: bool, d: Datagram)

  function Build(ip: AddressText, legacy: bool, m: Sent): Outcome<Bytes> {
    if legacy then BuildLegacy(ip, m.id, m.d) else BuildBadVPN(ip, m.id, m.isNew, m.d)
  }

  function Parse(ip: AddressText, legacy: bool, payload: Bytes): Outcome<(U16, Datagram)> {
    if legacy then ParseLegacy(ip, payload) else ParseBadVPN(ip, payload)
  }

  predicate CanSend(ip: AddressText, legacy: bool, sent: seq<Sent>) {
    forall i :: 0 <= i < |sent| ==> Build(ip, legacy, sent[i]).Good?
  }

  /** What goes out on the connection: the built frames one after the other. */
  function FramesOf(ip: AddressText, legacy: bool, sent: seq<Sent>): Bytes
    requires CanSend(ip, legacy, sent)
  {
    if sent == [] then [] else Build(ip, legacy, sent[0]).value + FramesOf(ip, legacy, sent[1..])
  }

  /** A built frame is a payload behind its length, and the payload reads back. */
  lemma BuiltFrame(ip: AddressText, legacy: bool, m: Sent) returns (p: Bytes)
    requires Lawful(ip) && Build(ip, legacy, m).Good?
    ensures 0 < |p| < 0x1_0000 && Build(ip, legacy, m).value == PutLE16(|p|) + p
    ensures Parse(ip, legacy, p) == Good((m.id, m.d.(host := Canonical(ip, m.d.host))))
  {
    hide ParseBadVPN, ParseLegacy, Lawful, Canonical;
    var octets := ip.parse(m.d.host).value;
    if legacy {
      p := LegacyPayload(m.id, octets, m.d);
      LegacyRoundTrip(ip, m.id, octets, m.d);
    } else {
      p := BadVPNPayload(m.id, m.isNew, octets, m.d);
      BadVPNRoundTrip(ip, m.id, m.isNew, octets, m.d);
    }
  }

  /** A stream of frames, in either layout, reads back in order, each with its identifier, destination and data. */
  lemma {:induction false} StreamRoundTrip(ip: AddressText, legacy: bool, sent: seq<Sent>)
    requires Lawful(ip) && CanSend(ip, legacy, sent)
    ensures var payloads := ReadFrames(FramesOf(ip, legacy, sent));
            && |payloads| == |sent|
            && forall i :: 0 <= i < |sent| ==>
                 Parse(ip, legacy, payloads[i]) == Good((sent[i].id, sent[i].d.(host := Canonical(ip, sent[i].d.host))))
    decreases |sent|
  {
    hide Parse, Build, Lawful, Canonical;
    if sent != [] {
      var rest := FramesOf(ip, legacy, sent[1..]);
      var p := BuiltFrame(ip, legacy, sent[0]);
      FrameFirst(p, rest);
      StreamRoundTrip(ip, legacy, sent[1..]);
    }
  }

  /**
    A datagram with an address becomes a frame payload one octet shorter (thirteen for IPv4 in IPv6 form), so
    the size error is unreachable for one that was read.
   */
  lemma ForwardedSize(ip: AddressText, packet: Bytes, id: U16, isNew: bool)
    requires Lawful(ip) && ParseSocks(ip, packet).Good? && (packet[3] == 1 || packet[3] == 4)
    ensures var d := ParseSocks(ip, packet).value;
            && IsAddress(ip, d.host)
            && |BadVPNPayload(id, isNew, ip.parse(d.host).value, d)| ==
               |packet| - (if packet[3] == 4 && IsMapped(packet[4..][..16]) then 13 else 1)
            && (|packet| <= 65536 ==> BuildBadVPN(ip, id, isNew, d).Good?)
  {
    var s := packet[4..];
    if packet[3] == 1 {
      Map4IsMapped(s[..4]);
    } else {
      ShortOfMapped(s[..16]);
    }
  }
}
