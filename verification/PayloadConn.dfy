/** The negotiation as it runs on a connection. */
module PayloadConn {
  import opened Wire
  import opened Text
  import opened PayloadStream
  import opened PayloadLaws

  class Conn {
    var stream: Stream

    constructor (stream: Stream)
      ensures this.stream == stream
    {
      this.stream := stream;
    }

    method SetReadDeadline()
      modifies this
      ensures stream == old(stream).(expired := false)
    {
      stream := stream.(expired := false);
    }

    /** At least one octet if any is next, and as many more of those that follow as the system cares to return. */
    method Read(max: nat) returns (data: Bytes, err: Option<ReadError>)
      requires max > 0
      modifies this
      ensures err.None? ==>
                && !old(stream).expired && 1 <= |data| <= max && |data| <= |old(stream).events|
                && old(stream).events[..|data|] == DataOf(data)
                && stream == old(stream).(events := old(stream).events[|data|..])
      ensures err.Some? ==> data == [] && ReadByte(old(stream)) == (Failed(err.value), stream)
    {
      var (first, rest) := ReadByte(stream);
      if first.Failed? {
        stream := rest;
        return [], Some(first.error);
      }
      data := [first.b];
      while |data| < max && |data| < |stream.events| && stream.events[|data|].Data?
        invariant 1 <= |data| <= max && |data| <= |stream.events| && stream.events[..|data|] == DataOf(data)
      {
        if * {
          break;
        }
        data := data + [stream.events[|data|].b];
      }
      stream := stream.(events := stream.events[|data|..]);
      return data, None;
    }
  }

  method ReadPayloadLine(conn: Conn) returns (r: LineRead)
    modifies conn
    ensures (r, conn.stream) == ReadLine(old(conn.stream))
  {
    var line: Bytes := [];
    while |line| < LINE_LIMIT
      invariant ReadLineFrom(conn.stream, line) == ReadLine(old(conn.stream))
      decreases LINE_LIMIT - |line|
    {
      ghost var before := conn.stream;
      var buf, err := conn.Read(1);
      if err.Some? {
        if |line| > 0 && err.value == EndOfStream {
          return Line(line);
        }
        return Partial(err.value, line);
      }
      assert before.events[..1][0] == before.events[0];
      var b := buf[0];
      line := line + [b];
      if b == NEWLINE {
        return Line(line);
      }
    }
    return Line(line);
  }

  /** Dropping a run of octets at once is dropping them one by one. */
  lemma {:induction false} DiscardBulk(s: Stream, k: nat, n: int)
    requires !s.expired && k <= n && k <= |s.events| && forall i :: 0 <= i < k ==> s.events[i].Data?
    ensures Discard(s, n) == Discard(s.(events := s.events[k..]), n - k)
    decreases k
  {
    if k == 0 {
      assert s.events[0..] == s.events;
    } else {
      var t := s.(events := s.events[1..]);
      DiscardBulk(t, k - 1, n - 1);
      assert t.events[k - 1..] == s.events[k..];
    }
  }

  method DiscardFixedLengthBody(conn: Conn, contentLength: int) returns (r: Done<()>)
    modifies conn
    ensures (r, conn.stream) == DiscardFixed(old(conn.stream), contentLength)
  {
    var remaining := contentLength;
    if remaining > MAX_BODY {
      remaining := MAX_BODY;
    }
    while remaining > 0
      invariant Discard(conn.stream, remaining) == DiscardFixed(old(conn.stream), contentLength)
      decreases remaining
    {
      var toRead := 4096;
      if remaining < toRead {
        toRead := remaining;
      }
      ghost var before := conn.stream;
      var data, err := conn.Read(toRead);
      if err.Some? {
        return Stopped(err.value);
      }
      assert forall i :: 0 <= i < |data| ==> before.events[i] == before.events[..|data|][i];
      DiscardBulk(before, |data|, remaining);
      remaining := remaining - |data|;
    }
    return Done(());
  }

  method ConsumeTrailingHeaders(conn: Conn) returns (r: Done<()>)
    modifies conn
    ensures (r, conn.stream) == Trailers(old(conn.stream), MAX_LINES)
  {
    for i := 0 to MAX_LINES
      invariant Trailers(conn.stream, MAX_LINES - i) == Trailers(old(conn.stream), MAX_LINES)
    {
      hide ReadLine, TrimSpace;
      var line := ReadPayloadLine(conn);
      if line.Partial? {
        return Stopped(line.error);
      }
      if TrimSpace(line.text) == [] {
        return Done(());
      }
    }
    return Done(());
  }

  /** One pass of the loop over chunks; a result when the body ends in it. */
  method DiscardChunk(conn: Conn) returns (r: Option<Done<()>>)
    modifies conn
    ensures (r, conn.stream) == ChunkTurn(old(conn.stream))
  {
    hide ReadLine, ChunkSize, DiscardFixed, Trailers;
    var line := ReadPayloadLine(conn);
    if line.Partial? {
      return Some(Stopped(line.error));
    }
    var size := ChunkSize(line.text);
    if size.None? {
      return Some(Done(()));
    }
    if size.value == 0 {
      var d := ConsumeTrailingHeaders(conn);
      return Some(d);
    }
    var d := DiscardFixedLengthBody(conn, size.value);
    if d.Stopped? {
      return Some(d);
    }
    var crlf := ReadPayloadLine(conn);
    return None;
  }

  lemma ChunkedUnfold(s: Stream, chunks: nat)
    requires chunks > 0
    ensures DiscardChunked(s, chunks) ==
            match ChunkTurn(s).0
            case Some(d) => (d, ChunkTurn(s).1)
            case None => DiscardChunked(ChunkTurn(s).1, chunks - 1)
  {
    hide ChunkTurn;
  }

  lemma ChunkedEnd(s: Stream)
    ensures DiscardChunked(s, 0) == (Done(()), s)
  {
  }

  method DiscardChunkedBody(conn: Conn) returns (r: Done<()>)
    modifies conn
    ensures (r, conn.stream) == DiscardChunked(old(conn.stream), MAX_LINES)
  {
    hide DiscardChunked, ChunkTurn;
    for i := 0 to MAX_LINES
      invariant DiscardChunked(conn.stream, MAX_LINES - i) == DiscardChunked(old(conn.stream), MAX_LINES)
    {
      ChunkedUnfold(conn.stream, MAX_LINES - i);
      var ended := DiscardChunk(conn);
      if ended.Some? {
        return ended.value;
      }
    }
    ChunkedEnd(conn.stream);
    return Done(());
  }

  method ConsumeHeaders(conn: Conn) returns (r: Done<Info>)
    modifies conn
    ensures (r, conn.stream) == Headers(old(conn.stream), MAX_LINES, Info(-1, false))
  {
    var info := Info(-1, false);
    for i := 0 to MAX_LINES
      invariant Headers(conn.stream, MAX_LINES - i, info) == Headers(old(conn.stream), MAX_LINES, Info(-1, false))
    {
      hide ReadLine, TrimSpace, HeaderInfo;
      var line := ReadPayloadLine(conn);
      if line.Partial? {
        return Stopped(line.error);
      }
      if TrimSpace(line.text) == [] {
        return Done(info);
      }
      info := HeaderInfo(info, line.text);
    }
    return Done(info);
  }

  method ConsumeHeadersAndBody(conn: Conn) returns (r: Done<()>)
    modifies conn
    ensures (r, conn.stream) == HeadersAndBody(old(conn.stream))
  {
    hide Headers, DiscardChunked, DiscardFixed;
    var h := ConsumeHeaders(conn);
    if h.Stopped? {
      return Stopped(h.error);
    }
    if h.value.chunked {
      r := DiscardChunkedBody(conn);
    } else if h.value.contentLength > 0 {
      r := DiscardFixedLengthBody(conn, h.value.contentLength);
    } else {
      r := Done(());
    }
  }

  /** One pass of the negotiation loop; a result when the negotiation ends in it, the status it read otherwise. */
  method TakeTurn(conn: Conn, last: Last, sawSuccess: bool, acceptAny: bool) returns (turn: Turn)
    modifies conn
    ensures turn == NegotiationTurn(old(conn.stream), last, sawSuccess, acceptAny)
    ensures turn.Onward? ==> conn.stream == turn.rest
    ensures turn.Over? && turn.result.HandOver? ==> conn.stream == turn.result.rest
  {
    hide ReadLine, HeadersAndBody, TrimSpace, IsStatusLine, StatusCode;
    conn.SetReadDeadline();
    var line := ReadPayloadLine(conn);
    if line.Partial? {
      conn.SetReadDeadline();
      if line.error == TimedOut {
        if last.code >= 400 && !acceptAny && !sawSuccess {
          return Over(Rejected(last));
        }
        return Over(HandOver(last, line.text, conn.stream));
      }
      if line.error == EndOfStream && |line.text| > 0 {
        return Over(HandOver(last, line.text, conn.stream));
      }
      if last.code > 0 {
        return Over(HandOver(last, [], conn.stream));
      }
      return Over(ReadFailed(line.error));
    }
    var clean := TrimSpace(line.text);
    if !IsStatusLine(clean) {
      conn.SetReadDeadline();
      return Over(HandOver(last, line.text, conn.stream));
    }
    var last1 := Last(clean, StatusCode(clean));
    var r := ConsumeHeadersAndBody(conn);
    if r.Stopped? {
      conn.SetReadDeadline();
      if r.error == TimedOut {
        return Over(HandOver(last1, [], conn.stream));
      }
      return Over(ConsumeFailed(last1, r.error));
    }
    return Onward(conn.stream, last1);
  }

  lemma NegotiateUnfold(s: Stream, attempts: nat, last: Last, sawSuccess: bool, acceptAny: bool)
    requires attempts > 0
    ensures Negotiate(s, attempts, last, sawSuccess, acceptAny) ==
            match NegotiationTurn(s, last, sawSuccess, acceptAny)
            case Over(n) => n
            case Onward(rest, last1) =>
              Negotiate(rest, attempts - 1, last1, sawSuccess || IsSuccess(last1.code), acceptAny)
  {
    hide NegotiationTurn;
  }

  lemma NegotiateEnd(s: Stream, last: Last, sawSuccess: bool, acceptAny: bool)
    ensures Negotiate(s, 0, last, sawSuccess, acceptAny) ==
            if Refuses(last, sawSuccess, acceptAny) then Rejected(last) else HandOver(last, [], s.(expired := false))
  {
  }

  /** The result, and the connection as it is left; a hand-over wraps it with the octets to replay. */
  method ConsumeNegotiation(conn: Conn, acceptAny: bool) returns (n: Negotiated)
    modifies conn
    ensures n == Negotiate(old(conn.stream), MAX_RESPONSES, NO_STATUS, false, acceptAny)
    ensures n.HandOver? ==> conn.stream == n.rest
  {
    hide Negotiate, NegotiationTurn;
    var last, sawSuccess := NO_STATUS, false;
    for attempt := 0 to MAX_RESPONSES
      invariant Negotiate(conn.stream, MAX_RESPONSES - attempt, last, sawSuccess, acceptAny) ==
                Negotiate(old(conn.stream), MAX_RESPONSES, NO_STATUS, false, acceptAny)
    {
      NegotiateUnfold(conn.stream, MAX_RESPONSES - attempt, last, sawSuccess, acceptAny);
      var turn := TakeTurn(conn, last, sawSuccess, acceptAny);
      if turn.Over? {
        return turn.result;
      }
      last := turn.last;
      if last.code == 101 || 200 <= last.code < 400 {
        sawSuccess := true;
      }
    }
    NegotiateEnd(conn.stream, last, sawSuccess, acceptAny);
    conn.SetReadDeadline();
    if last.code >= 400 && !acceptAny && !sawSuccess {
      return Rejected(last);
    }
    return HandOver(last, [], conn.stream);
  }

  /** The wrapped connection: preloaded octets first, then the connection itself. */
  class PreloadedConn {
    const conn: Conn
    var preloaded: Bytes

    constructor (conn: Conn, preloaded: Bytes)
      ensures this.conn == conn && this.preloaded == preloaded
    {
      this.conn, this.preloaded := conn, preloaded;
    }

    /** Everything still to be read through the wrapper. */
    ghost function Content(): Bytes
      reads this, conn
    {
      preloaded + Readable(conn.stream.events)
    }

    /** Each successful read takes a non-empty front part of the content, and nothing else changes it. */
    method Read(max: nat) returns (data: Bytes, err: Option<ReadError>)
      requires max > 0
      modifies this, conn
      ensures err.None? ==> 1 <= |data| <= max
      ensures old(Content()) == data + Content()
    {
      if |preloaded| > 0 {
        var n := if max < |preloaded| then max else |preloaded|;
        data := preloaded[..n];
        preloaded := preloaded[n..];
        err := None;
      } else {
        ghost var before := conn.stream;
        data, err := conn.Read(max);
        if err.None? {
          assert before.events == before.events[..|data|] + before.events[|data|..];
          ReadableData(data, conn.stream.events);
        } else {
          assert before.events != [] && !before.expired ==> conn.stream.events == before.events[1..];
        }
      }
    }
  }
}
