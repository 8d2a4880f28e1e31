/** Which octets the negotiation consumes and which it hands on. */
module PayloadLaws {
  import opened Wire
  import opened Text
  import opened PayloadStream

  function DataOf(p: Bytes): (r: seq<Event>)
    ensures |r| == |p|
  {
    seq(|p|, i requires 0 <= i < |p| => Data(p[i]))
  }

  /** These octets arrive first, without a pause, and then `tail` happens. */
  function Feed(p: Bytes, tail: seq<Event>): Stream {
    Stream(DataOf(p) + tail, false)
  }

  lemma FeedFirst(p: Bytes, tail: seq<Event>)
    requires p != []
    ensures ReadByte(Feed(p, tail)) == (Got(p[0]), Feed(p[1..], tail))
  {
    assert (DataOf(p) + tail)[1..] == DataOf(p[1..]) + tail;
  }

  lemma FeedEmpty(tail: seq<Event>)
    ensures Feed([], tail) == Stream(tail, false)
  {
    assert DataOf([]) + tail == tail;
  }

  lemma FeedConcat(p: Bytes, q: Bytes, tail: seq<Event>)
    ensures Feed(p + q, tail) == Feed(p, DataOf(q) + tail)
  {
    assert DataOf(p + q) + tail == DataOf(p) + (DataOf(q) + tail);
  }

  // ---------- complete lines and bodies are consumed exactly ----------

  /** One newline, at the end, within the limit. */
  predicate IsLine(line: Bytes) {
    1 <= |line| <= LINE_LIMIT && line[|line| - 1] == NEWLINE && forall i :: 0 <= i < |line| - 1 ==> line[i] != NEWLINE
  }

  lemma {:induction false} LineExactFrom(line: Bytes, k: nat, tail: seq<Event>)
    requires IsLine(line) && k < |line|
    ensures ReadLineFrom(Feed(line[k..], tail), line[..k]) == (Line(line), Stream(tail, false))
    decreases |line| - k
  {
    FeedFirst(line[k..], tail);
    assert line[k..][1..] == line[k + 1..] && line[..k] + [line[k]] == line[..k + 1];
    if k + 1 == |line| {
      FeedEmpty(tail);
      assert line[k + 1..] == [] && line[..k + 1] == line;
    } else {
      LineExactFrom(line, k + 1, tail);
    }
  }

  lemma LineExact(line: Bytes, tail: seq<Event>)
    requires IsLine(line)
    ensures ReadLine(Feed(line, tail)) == (Line(line), Stream(tail, false))
  {
    LineExactFrom(line, 0, tail);
    assert line[0..] == line && line[..0] == [];
  }

  lemma {:induction false} DiscardExact(content: Bytes, tail: seq<Event>)
    ensures Discard(Feed(content, tail), |content|) == (Done(()), Stream(tail, false))
    decreases |content|
  {
    if content == [] {
      FeedEmpty(tail);
    } else {
      FeedFirst(content, tail);
      DiscardExact(content[1..], tail);
    }
  }

  function Flat(lines: seq<Bytes>): Bytes {
    if lines == [] then [] else lines[0] + Flat(lines[1..])
  }

  /** Lines that are not blank, followed by one that is. */
  predicate IsBlankEnded(lines: seq<Bytes>, blank: Bytes) {
    && (forall i :: 0 <= i < |lines| ==> IsLine(lines[i]) && TrimSpace(lines[i]) != [])
    && IsLine(blank) && TrimSpace(blank) == []
  }

  function InfoOf(info: Info, lines: seq<Bytes>): Info
    decreases |lines|
  {
    if lines == [] then info else InfoOf(HeaderInfo(info, lines[0]), lines[1..])
  }

  lemma {:induction false} HeadersExact(lines: seq<Bytes>, blank: Bytes, info: Info, limit: nat, tail: seq<Event>)
    requires IsBlankEnded(lines, blank) && |lines| < limit
    ensures Headers(Feed(Flat(lines) + blank, tail), limit, info) == (Done(InfoOf(info, lines)), Stream(tail, false))
    decreases |lines|
  {
    hide HeaderInfo, TrimSpace, ReadLine;
    if lines == [] {
      assert Flat(lines) + blank == blank;
      LineExact(blank, tail);
    } else {
      var rest := Flat(lines[1..]) + blank;
      assert Flat(lines) + blank == lines[0] + rest;
      FeedConcat(lines[0], rest, tail);
      LineExact(lines[0], DataOf(rest) + tail);
      HeadersExact(lines[1..], blank, HeaderInfo(info, lines[0]), limit - 1, tail);
    }
  }

  lemma {:induction false} TrailersExact(lines: seq<Bytes>, blank: Bytes, limit: nat, tail: seq<Event>)
    requires IsBlankEnded(lines, blank) && |lines| < limit
    ensures Trailers(Feed(Flat(lines) + blank, tail), limit) == (Done(()), Stream(tail, false))
    decreases |lines|
  {
    hide TrimSpace, ReadLine;
    if lines == [] {
      assert Flat(lines) + blank == blank;
      LineExact(blank, tail);
    } else {
      var rest := Flat(lines[1..]) + blank;
      assert Flat(lines) + blank == lines[0] + rest;
      FeedConcat(lines[0], rest, tail);
      LineExact(lines[0], DataOf(rest) + tail);
      TrailersExact(lines[1..], blank, limit - 1, tail);
    }
  }

  // ---------- responses ----------

  /** A size line, that many octets, and the line end after them. */
  datatype Chunk = Chunk(size: Bytes, content: Bytes, end: Bytes)

  datatype Body =
    | NoBody
    | FixedBody(content: Bytes)
    | ChunkedBody(chunks: seq<Chunk>, last: Bytes, trailers: seq<Bytes>, blank: Bytes)

  datatype Response = Response(status: Bytes, headers: seq<Bytes>, blank: Bytes, body: Body)

  function ChunkOctets(chunks: seq<Chunk>): Bytes {
    if chunks == [] then [] else chunks[0].size + (chunks[0].content + (chunks[0].end + ChunkOctets(chunks[1..])))
  }

  function BodyOctets(body: Body): Bytes {
    match body
    case NoBody => []
    case FixedBody(content) => content
    case ChunkedBody(chunks, last, trailers, blank) => ChunkOctets(chunks) + (last + (Flat(trailers) + blank))
  }

  function Octets(r: Response): Bytes {
    r.status + (Flat(r.headers) + r.blank + BodyOctets(r.body))
  }

  predicate IsChunk(c: Chunk) {
    && IsLine(c.size) && IsLine(c.end)
    && 0 < |c.content| <= MAX_BODY && ChunkSize(c.size) == Some(|c.content|)
  }

  /** The body is the one the headers advertise, within the limits. */
  predicate Advertised(info: Info, body: Body) {
    match body
    case NoBody => !info.chunked && info.contentLength <= 0
    case FixedBody(content) => !info.chunked && 0 < info.contentLength == |content| <= MAX_BODY
    case ChunkedBody(chunks, last, trailers, blank) =>
      && info.chunked && |chunks| < MAX_LINES && (forall i :: 0 <= i < |chunks| ==> IsChunk(chunks[i]))
      && IsLine(last) && ChunkSize(last) == Some(0)
      && IsBlankEnded(trailers, blank) && |trailers| < MAX_LINES
  }

  predicate WellFormed(r: Response) {
    && IsLine(r.status) && IsStatusLine(TrimSpace(r.status))
    && IsBlankEnded(r.headers, r.blank) && |r.headers| < MAX_LINES
    && Advertised(InfoOf(Info(-1, false), r.headers), r.body)
  }

  lemma {:induction false} ChunksExact(chunks: seq<Chunk>, last: Bytes, trailers: seq<Bytes>, blank: Bytes,
                                       limit: nat, tail: seq<Event>)
    requires |chunks| < limit && forall i :: 0 <= i < |chunks| ==> IsChunk(chunks[i])
    requires IsLine(last) && ChunkSize(last) == Some(0) && IsBlankEnded(trailers, blank) && |trailers| < MAX_LINES
    ensures DiscardChunked(Feed(ChunkOctets(chunks) + (last + (Flat(trailers) + blank)), tail), limit) ==
            (Done(()), Stream(tail, false))
    decreases |chunks|
  {
    hide DiscardChunked, ChunkSize, TrimSpace;
    var end := last + (Flat(trailers) + blank);
    if chunks == [] {
      assert ChunkOctets(chunks) + end == end;
      LastChunkExact(last, trailers, blank, limit, tail);
    } else {
      var c := chunks[0];
      var more := ChunkOctets(chunks[1..]) + end;
      Associative(c.size, c.content + (c.end + ChunkOctets(chunks[1..])), end);
      Associative(c.content, c.end + ChunkOctets(chunks[1..]), end);
      Associative(c.end, ChunkOctets(chunks[1..]), end);
      ChunkExact(c, more, limit, tail);
      ChunksExact(chunks[1..], last, trailers, blank, limit - 1, tail);
    }
  }

  lemma ChunkExact(c: Chunk, more: Bytes, limit: nat, tail: seq<Event>)
    requires IsChunk(c) && limit > 0
    ensures DiscardChunked(Feed(c.size + (c.content + (c.end + more)), tail), limit) ==
            DiscardChunked(Feed(more, tail), limit - 1)
  {
    hide ChunkSize, ReadLineFrom, Discard, Trailers;
    FeedConcat(c.size, c.content + (c.end + more), tail);
    LineExact(c.size, DataOf(c.content + (c.end + more)) + tail);
    FeedConcat(c.content, c.end + more, tail);
    DiscardExact(c.content, DataOf(c.end + more) + tail);
    FeedConcat(c.end, more, tail);
    LineExact(c.end, DataOf(more) + tail);
  }

  lemma LastChunkExact(last: Bytes, trailers: seq<Bytes>, blank: Bytes, limit: nat, tail: seq<Event>)
    requires IsLine(last) && ChunkSize(last) == Some(0) && IsBlankEnded(trailers, blank)
    requires |trailers| < MAX_LINES && limit > 0
    ensures DiscardChunked(Feed(last + (Flat(trailers) + blank), tail), limit) == (Done(()), Stream(tail, false))
  {
    hide ChunkSize, ReadLineFrom, Discard, Trailers;
    FeedConcat(last, Flat(trailers) + blank, tail);
    LineExact(last, DataOf(Flat(trailers) + blank) + tail);
    TrailersExact(trailers, blank, MAX_LINES, tail);
  }

  lemma BodyExact(info: Info, body: Body, tail: seq<Event>)
    requires Advertised(info, body)
    ensures var s := Feed(BodyOctets(body), tail);
            (if info.chunked then DiscardChunked(s, MAX_LINES)
             else if info.contentLength > 0 then DiscardFixed(s, info.contentLength)
             else (Done(()), s)) == (Done(()), Stream(tail, false))
  {
    hide DiscardChunked, ChunkSize, IsBlankEnded;
    match body {
      case NoBody => FeedEmpty(tail);
      case FixedBody(content) => DiscardExact(content, tail);
      case ChunkedBody(chunks, last, trailers, blank) => ChunksExact(chunks, last, trailers, blank, MAX_LINES, tail);
    }
  }

  lemma ResponseExact(r: Response, tail: seq<Event>)
    requires WellFormed(r)
    ensures var after := Feed(Flat(r.headers) + r.blank + BodyOctets(r.body), tail);
            && ReadLine(Feed(Octets(r), tail)) == (Line(r.status), after)
            && HeadersAndBody(after) == (Done(()), Stream(tail, false))
  {
    hide ReadLine, Headers, DiscardChunked, DiscardFixed, IsStatusLine, Advertised, IsBlankEnded, BodyOctets;
    var headers, body := Flat(r.headers) + r.blank, BodyOctets(r.body);
    FeedConcat(r.status, headers + body, tail);
    LineExact(r.status, DataOf(headers + body) + tail);
    FeedConcat(headers, body, tail);
    HeadersExact(r.headers, r.blank, Info(-1, false), MAX_LINES, DataOf(body) + tail);
    BodyExact(InfoOf(Info(-1, false), r.headers), r.body, tail);
  }

  function StatusOf(r: Response): Last {
    Last(TrimSpace(r.status), StatusCode(TrimSpace(r.status)))
  }

  function AllOctets(rs: seq<Response>): Bytes {
    if rs == [] then [] else Octets(rs[0]) + AllOctets(rs[1..])
  }

  function LastOf(last: Last, rs: seq<Response>): Last {
    if rs == [] then last else StatusOf(rs[|rs| - 1])
  }

  predicate SawSuccess(rs: seq<Response>) {
    exists i :: 0 <= i < |rs| && IsSuccess(StatusOf(rs[i]).code)
  }

  /** Well-formed responses are passed over as if they had not been sent, except for what their statuses say. */
  lemma {:induction false} ResponsesSkipped(rs: seq<Response>, tail: seq<Event>, attempts: nat, last: Last, saw: bool,
                                            acceptAny: bool)
    requires |rs| <= attempts && forall i :: 0 <= i < |rs| ==> WellFormed(rs[i])
    ensures Negotiate(Feed(AllOctets(rs), tail), attempts, last, saw, acceptAny) ==
            Negotiate(Stream(tail, false), attempts - |rs|, LastOf(last, rs), saw || SawSuccess(rs), acceptAny)
    decreases |rs|
  {
    hide Negotiate, StatusCode, IsSuccess, Octets, WellFormed, SawSuccess;
    if rs == [] {
      FeedEmpty(tail);
      assert !SawSuccess(rs) by { NoSuccess(); }
    } else {
      var r, more := rs[0], AllOctets(rs[1..]);
      var saw1 := saw || IsSuccess(StatusOf(r).code);
      FeedConcat(Octets(r), more, tail);
      ResponseSkipped(r, DataOf(more) + tail, attempts, last, saw, acceptAny);
      ResponsesSkipped(rs[1..], tail, attempts - 1, StatusOf(r), saw1, acceptAny);
      SawSuccessStep(rs);
      assert LastOf(StatusOf(r), rs[1..]) == LastOf(last, rs);
    }
  }

  lemma ResponseSkipped(r: Response, tail: seq<Event>, attempts: nat, last: Last, saw: bool, acceptAny: bool)
    requires WellFormed(r) && attempts > 0
    ensures Negotiate(Feed(Octets(r), tail), attempts, last, saw, acceptAny) ==
            Negotiate(Stream(tail, false), attempts - 1, StatusOf(r), saw || IsSuccess(StatusOf(r).code), acceptAny)
  {
    hide ReadLine, HeadersAndBody, StatusCode, IsSuccess, Octets, TrimSpace, IsStatusLine, Advertised;
    ResponseExact(r, tail);
  }

  /** No status is a switch of protocols, a success or a redirection. */
  predicate NoneSucceeds(rs: seq<Response>) {
    forall i :: 0 <= i < |rs| ==> var code := StatusOf(rs[i]).code; code != 101 && (code < 200 || code >= 400)
  }

  lemma NoneOrSome(rs: seq<Response>)
    ensures NoneSucceeds(rs) <==> !SawSuccess(rs)
  {
    hide StatusOf;
  }

  lemma NoSuccess()
    ensures !SawSuccess([])
  {
  }

  lemma SawSuccessStep(rs: seq<Response>)
    requires rs != []
    ensures SawSuccess(rs) <==> IsSuccess(StatusOf(rs[0]).code) || SawSuccess(rs[1..])
  {
    hide StatusOf, IsSuccess;
    if SawSuccess(rs) {
      var i :| 0 <= i < |rs| && IsSuccess(StatusOf(rs[i]).code);
      assert i > 0 ==> rs[1..][i - 1] == rs[i];
    }
    if SawSuccess(rs[1..]) {
      var i :| 0 <= i < |rs[1..]| && IsSuccess(StatusOf(rs[1..][i]).code);
      assert rs[i + 1] == rs[1..][i];
    }
  }

  // ---------- what is handed on ----------

  /** The octets of the events to come. */
  function Readable(events: seq<Event>): Bytes {
    if events == [] then []
    else (if events[0].Data? then [events[0].b] else []) + Readable(events[1..])
  }

  lemma {:induction false} ReadableData(p: Bytes, tail: seq<Event>)
    ensures Readable(DataOf(p) + tail) == p + Readable(tail)
    decreases |p|
  {
    if p == [] {
      assert DataOf(p) + tail == tail;
    } else {
      ReadableData(p[1..], tail);
      var events := DataOf(p) + tail;
      assert events[1..] == DataOf(p[1..]) + tail;
      Associative([p[0]], p[1..], Readable(tail));
      assert p == [p[0]] + p[1..];
    }
  }

  /** Reading a line moves its octets, and no others, from the stream to the line. */
  lemma {:induction false} ReadLineMoves(s: Stream, text: Bytes)
    ensures var (r, rest) := ReadLineFrom(s, text);
            text + Readable(s.events) == r.text + Readable(rest.events)
    decreases LINE_LIMIT - |text|
  {
    if |text| < LINE_LIMIT && !s.expired && s.events != [] && s.events[0].Data? {
      var b, rest := s.events[0].b, s.(events := s.events[1..]);
      assert text + ([b] + Readable(rest.events)) == text + [b] + Readable(rest.events);
      if b != NEWLINE {
        ReadLineMoves(rest, text + [b]);
      }
    }
  }

  /** The end of the stream is reported only when no octet of the line has come. */
  lemma {:induction false} EndHasNoText(s: Stream, text: Bytes)
    ensures var r := ReadLineFrom(s, text).0;
            r.Partial? && r.error == EndOfStream ==> r.text == []
    decreases LINE_LIMIT - |text|
  {
    if |text| < LINE_LIMIT {
      var (r, rest) := ReadByte(s);
      if r.Got? && r.b != NEWLINE {
        EndHasNoText(rest, text + [r.b]);
      }
    }
  }

  /**
    Byte conservation: after fewer than 12 well-formed responses, whatever follows is handed on unchanged if
    its first line is not a status line, and so is a partial line cut by the deadline, unless the last
    status refuses the connection. A partial line ended by any other failure is handed on without what had
    been read of it, so it is lost exactly when some of it had; with no status before, it is an error.
   */
  lemma HandsOnTheRest(rs: seq<Response>, tail: seq<Event>, acceptAny: bool)
    requires |rs| < MAX_RESPONSES && forall i :: 0 <= i < |rs| ==> WellFormed(rs[i])
    ensures var n, last := Negotiate(Feed(AllOctets(rs), tail), MAX_RESPONSES, NO_STATUS, false, acceptAny),
                           LastOf(NO_STATUS, rs);
            match ReadLine(Stream(tail, false)).0
            case Line(text) =>
              !IsStatusLine(TrimSpace(text)) ==>
                n.HandOver? && n.last == last && n.replay + Readable(n.rest.events) == Readable(tail)
            case Partial(e, text) =>
              if e == TimedOut then
                if last.code >= 400 && !acceptAny && NoneSucceeds(rs) then n == Rejected(last)
                else n.HandOver? && n.replay == text && n.replay + Readable(n.rest.events) == Readable(tail)
              else if last.code > 0 then
                && n.HandOver? && n.last == last && text + (n.replay + Readable(n.rest.events)) == Readable(tail)
                && (n.replay + Readable(n.rest.events) == Readable(tail) <==> text == [])
              else n == ReadFailed(e)
  {
    hide TrimSpace, IsStatusLine, StatusCode, HeadersAndBody, ReadLineFrom, WellFormed, AllOctets, SawSuccess;
    hide NoneSucceeds;
    NoneOrSome(rs);
    ResponsesSkipped(rs, tail, MAX_RESPONSES, NO_STATUS, false, acceptAny);
    ReadLineMoves(Stream(tail, false), []);
    EndHasNoText(Stream(tail, false), []);
    assert forall t: Bytes {:trigger [] + t} :: [] + t == t;
  }

  /** A line that the connection breaks off in the middle of. */
  lemma {:induction false} BrokenLine(p: Bytes, text: Bytes)
    requires |text| + |p| < LINE_LIMIT && NEWLINE !in p
    ensures ReadLineFrom(Feed(p, [Fault]), text) == (Partial(Broken, text + p), Stream([], false))
    decreases |p|
  {
    if p == [] {
      FeedEmpty([Fault]);
      assert text + p == text && [Fault][1..] == [];
    } else {
      FeedFirst(p, [Fault]);
      BrokenLine(p[1..], text + [p[0]]);
      assert text + [p[0]] + p[1..] == text + p;
    }
  }

  /** Octets that end with the connection always make a first line. */
  lemma {:induction false} SomeLine(p: Bytes, text: Bytes)
    requires p != [] || text != []
    ensures ReadLineFrom(Feed(p, []), text).0.Line?
    decreases |p|
  {
    if p != [] {
      FeedFirst(p, []);
      SomeLine(p[1..], text + [p[0]]);
    }
  }

  /** The same, for octets: everything from the first octet that is not part of a response. */
  lemma HandsOnExactly(rs: seq<Response>, ssh: Bytes, acceptAny: bool)
    requires |rs| < MAX_RESPONSES && forall i :: 0 <= i < |rs| ==> WellFormed(rs[i])
    requires ssh != [] && !IsStatusLine(TrimSpace(ReadLine(Feed(ssh, [])).0.text))
    ensures var n := Negotiate(Feed(AllOctets(rs) + ssh, []), MAX_RESPONSES, NO_STATUS, false, acceptAny);
            n.HandOver? && n.replay + Readable(n.rest.events) == ssh
  {
    hide Negotiate, ReadLineFrom, TrimSpace, IsStatusLine;
    SomeLine(ssh, []);
    FeedConcat(AllOctets(rs), ssh, []);
    HandsOnTheRest(rs, DataOf(ssh) + [], acceptAny);
    ReadableData(ssh, []);
    assert ssh + Readable([]) == ssh;
  }

  /** The bound on responses: a twelfth is still passed over, but what follows it is handed on unexamined. */
  lemma TwelveResponses(rs: seq<Response>, tail: seq<Event>, acceptAny: bool)
    requires |rs| == MAX_RESPONSES && forall i :: 0 <= i < |rs| ==> WellFormed(rs[i])
    ensures Negotiate(Feed(AllOctets(rs), tail), MAX_RESPONSES, NO_STATUS, false, acceptAny) ==
            if StatusOf(rs[11]).code >= 400 && !acceptAny && NoneSucceeds(rs) then Rejected(StatusOf(rs[11]))
            else HandOver(StatusOf(rs[11]), [], Stream(tail, false))
  {
    hide WellFormed, AllOctets, SawSuccess, NoneSucceeds;
    NoneOrSome(rs);
    ResponsesSkipped(rs, tail, MAX_RESPONSES, NO_STATUS, false, acceptAny);
  }

  // ---------- the limits ----------

  lemma {:induction false} LongLineFrom(p: Bytes, k: nat, tail: seq<Event>)
    requires |p| == LINE_LIMIT && NEWLINE !in p && k <= |p|
    ensures ReadLineFrom(Feed(p[k..], tail), p[..k]) == (Line(p), Stream(tail, false))
    decreases |p| - k
  {
    if k == |p| {
      FeedEmpty(tail);
      assert p[k..] == [] && p[..k] == p;
    } else {
      FeedFirst(p[k..], tail);
      assert p[k..][1..] == p[k + 1..] && p[..k] + [p[k]] == p[..k + 1];
      LongLineFrom(p, k + 1, tail);
    }
  }

  /** A line is cut after 4096 octets, and what follows is the next line. */
  lemma LongLine(p: Bytes, tail: seq<Event>)
    requires |p| == 4096 && NEWLINE !in p
    ensures ReadLine(Feed(p, tail)) == (Line(p), Stream(tail, false))
  {
    LongLineFrom(p, 0, tail);
    assert p[0..] == p && p[..0] == [];
  }

  /** Of a longer body only the first mebibyte is dropped. */
  lemma LongBody(content: Bytes, n: int, tail: seq<Event>)
    requires |content| == 1048576 <= n
    ensures DiscardFixed(Feed(content, tail), n) == (Done(()), Stream(tail, false))
  {
    hide Discard;
    DiscardExact(content, tail);
  }

  /** As many header lines as the limit, without a blank one: the body starts behind them. */
  lemma {:induction false} HeadersAtLimit(lines: seq<Bytes>, info: Info, tail: seq<Event>)
    requires forall i :: 0 <= i < |lines| ==> IsLine(lines[i]) && TrimSpace(lines[i]) != []
    ensures Headers(Feed(Flat(lines), tail), |lines|, info) == (Done(InfoOf(info, lines)), Stream(tail, false))
    decreases |lines|
  {
    hide HeaderInfo, TrimSpace, ReadLine, IsLine;
    if lines == [] {
      FeedEmpty(tail);
    } else {
      FeedConcat(lines[0], Flat(lines[1..]), tail);
      LineExact(lines[0], DataOf(Flat(lines[1..])) + tail);
      HeadersAtLimit(lines[1..], HeaderInfo(info, lines[0]), tail);
    }
  }

  /** As many chunks as the limit: whatever follows them is left. */
  lemma {:induction false} ChunksAtLimit(chunks: seq<Chunk>, tail: seq<Event>)
    requires forall i :: 0 <= i < |chunks| ==> IsChunk(chunks[i])
    ensures DiscardChunked(Feed(ChunkOctets(chunks), tail), |chunks|) == (Done(()), Stream(tail, false))
    decreases |chunks|
  {
    hide ChunkTurn, IsChunk;
    if chunks == [] {
      FeedEmpty(tail);
    } else {
      ChunkExact(chunks[0], ChunkOctets(chunks[1..]), |chunks|, tail);
      ChunksAtLimit(chunks[1..], tail);
    }
  }

  /** A size line that is no number ends the body there. */
  lemma BadSizeEndsBody(line: Bytes, limit: nat, tail: seq<Event>)
    requires IsLine(line) && ChunkSize(line).None? && limit > 0
    ensures DiscardChunked(Feed(line, tail), limit) == (Done(()), Stream(tail, false))
  {
    hide ChunkSize, ReadLine;
    LineExact(line, tail);
  }

  // ---------- advertising a body ----------

  const CRLF: Bytes := [13, 10]

  function ContentLengthLine(n: nat): Bytes {
    Ascii("Content-Length: ") + Decimal(n) + CRLF
  }

  lemma TrimEnds(s: Bytes, blanks: Bytes)
    requires s != [] && !IsSpace(s[0]) && !IsSpace(s[|s| - 1])
    requires |blanks| <= 2 && forall i :: 0 <= i < |blanks| ==> IsSpace(blanks[i])
    ensures TrimSpace(s + blanks) == s
  {
    assert TrimLeft(s + blanks) == s + blanks;
    if |blanks| == 2 {
      assert (s + blanks)[..|s| + 1] == s + blanks[..1];
      assert (s + blanks[..1])[..|s|] == s;
      assert TrimRight(s + blanks) == TrimRight(s + blanks[..1]) == TrimRight(s);
    } else if |blanks| == 1 {
      assert (s + blanks)[..|s|] == s;
      assert TrimRight(s + blanks) == TrimRight(s);
    } else {
      assert s + blanks == s;
    }
  }

  lemma {:induction false} CutPast(a: Bytes, b: Byte, c: Bytes)
    requires b !in a
    ensures CutAt(a + [b] + c, b) == (a, c)
  {
    var s := a + [b] + c;
    if a == [] {
      assert s == [b] + c && s[1..] == c;
    } else {
      CutPast(a[1..], b, c);
      assert s[1..] == a[1..] + [b] + c && a == [a[0]] + a[1..];
    }
  }

  lemma LowerPrefix(a: Bytes, s: Bytes, lower: Bytes)
    requires Lower(a) == lower
    ensures lower <= Lower(a + s)
  {
    assert Lower(a + s)[..|a|] == lower;
  }

  lemma DecimalInt(n: nat)
    requires n <= INT64_MAX
    ensures ParseInt(Decimal(n), 10) == Some(n)
  {
    DecimalParses(n);
  }

  lemma NumberAfterBlank(n: nat)
    ensures TrimSpace([32] + Decimal(n)) == Decimal(n)
  {
    var digits := Decimal(n);
    DecimalParses(n);
    assert ([32] + digits)[1..] == digits;
    TrimEnds(digits, []);
    assert digits + [] == digits && TrimLeft(digits) == digits;
  }

  /** The line without its end: a name, a colon, and a blank before the number. */
  lemma ContentLengthClean(n: nat)
    ensures TrimSpace(ContentLengthLine(n)) == Ascii("Content-Length") + [58] + ([32] + Decimal(n))
  {
    var name, digits := Ascii("Content-Length"), Decimal(n);
    var clean := name + [58] + ([32] + digits);
    DecimalParses(n);
    assert Ascii("Content-Length: ") == name + [58] + [32];
    assert ContentLengthLine(n) == clean + CRLF;
    TrimEnds(clean, CRLF);
  }

  /** The header line a server writes for a body of `n` octets is read as `n`. */
  lemma ContentLengthRead(n: nat, info: Info)
    requires n <= INT64_MAX
    ensures TrimSpace(ContentLengthLine(n)) != [] && HeaderInfo(info, ContentLengthLine(n)) == info.(contentLength := n)
  {
    hide TrimSpace, ParseInt, Decimal, ContentLengthLine, Contains;
    var name, number := Ascii("Content-Length"), [32] + Decimal(n);
    ContentLengthClean(n);
    assert Lower(name + [58]) == Ascii("content-length:");
    LowerPrefix(name + [58], number, Ascii("content-length:"));
    CutPast(name, 58, number);
    NumberAfterBlank(n);
    DecimalInt(n);
  }

  // ---------- a status line ----------

  lemma {:induction false} WordPast(w: Bytes, r: Bytes)
    requires (forall i :: 0 <= i < |w| ==> !IsSpace(w[i])) && (r == [] || IsSpace(r[0]))
    ensures DropWord(w + r) == r && TakeWord(w + r) == w
  {
    if w == [] {
      assert w + r == r;
    } else {
      WordPast(w[1..], r);
      assert (w + r)[1..] == w[1..] + r;
    }
  }

  /** A protocol version, in any letter case. */
  predicate IsVersion(version: Bytes) {
    || Lower(version) == Ascii("http/1.0") || Lower(version) == Ascii("http/1.1")
    || Lower(version) == Ascii("http/2") || Lower(version) == Ascii("http/3")
  }

  function StatusText(version: Bytes, code: nat, reason: Bytes): Bytes {
    version + ([32] + (Decimal(code) + ([32] + reason)))
  }

  lemma VersionRead(version: Bytes, more: Bytes)
    requires IsVersion(version)
    ensures IsStatusLine(version + more)
    ensures 0 < |version| <= 8 && forall i :: 0 <= i < |version| ==> !IsSpace(version[i])
  {
    var low := Lower(version);
    assert Lower(version + more)[..|low|] == low;
    forall i | 0 <= i < |version| ensures !IsSpace(version[i]) {
      assert low[i] == LowerByte(version[i]) && low[i] != 32 && !(9 <= low[i] <= 13);
    }
  }

  lemma StatusRead(version: Bytes, code: nat, reason: Bytes)
    requires IsVersion(version) && code <= INT64_MAX
    ensures var text := StatusText(version, code, reason); IsStatusLine(text) && StatusCode(text) == code
  {
    hide Decimal, TakeWord, DropWord, Digits, IsStatusLine, IsVersion;
    var digits, more := Decimal(code), [32] + reason;
    var text, rest := StatusText(version, code, reason), [32] + (digits + more);
    DecimalParses(code);
    VersionRead(version, rest);
    assert TrimLeft(text) == text;
    WordPast(version, rest);
    assert rest[1..] == digits + more && TrimLeft(digits + more) == digits + more;
    assert TrimLeft(rest) == digits + more;
    WordPast(digits, more);
  }

  const ESTABLISHED := Response(StatusText(Ascii("HTTP/1.1"), 200, Ascii("OK")) + CRLF, [], CRLF, NoBody)

  lemma EstablishedIsWellFormed()
    ensures WellFormed(ESTABLISHED) && StatusOf(ESTABLISHED).code == 200
  {
    hide TrimRight, TrimLeft, IsStatusLine, StatusCode;
    var version := Ascii("HTTP/1.1");
    var text := StatusText(version, 200, Ascii("OK"));
    DecimalParses(200);
    assert Lower(version) == Ascii("http/1.1");
    StatusRead(version, 200, Ascii("OK"));
    TrimEnds(text, CRLF);
    BlankLine();
  }

  lemma BlankLine()
    ensures TrimSpace(CRLF) == []
  {
    assert CRLF[1..] == [10] && [10][1..] == [];
  }

  /** The loss at one input: after a 200 response the four octets "SSH-" arrive and the connection breaks. */
  lemma BrokenLineIsLost(acceptAny: bool)
    ensures var ssh := Ascii("SSH-");
            var n := Negotiate(Feed(AllOctets([ESTABLISHED]), DataOf(ssh) + [Fault]), MAX_RESPONSES, NO_STATUS, false,
                               acceptAny);
            n.HandOver? && n.replay + Readable(n.rest.events) == [] && Readable(DataOf(ssh) + [Fault]) == ssh
  {
    hide Negotiate, WellFormed, StatusOf, ReadLineFrom, AllOctets;
    var ssh := Ascii("SSH-");
    EstablishedIsWellFormed();
    BrokenLine(ssh, []);
    HandsOnTheRest([ESTABLISHED], DataOf(ssh) + [Fault], acceptAny);
    ReadableData(ssh, [Fault]);
  }

  // ---------- any stream at all ----------

  /** `rest` is what is left of `s` after some events from its front. */
  predicate Follows(s: Stream, rest: Stream) {
    |rest.events| <= |s.events| && s.events[|s.events| - |rest.events|..] == rest.events
  }

  lemma FollowsTrans(s: Stream, t: Stream, u: Stream)
    requires Follows(s, t) && Follows(t, u)
    ensures Follows(s, u)
  {
    var k := |t.events| - |u.events|;
    assert s.events[|s.events| - |u.events|..] == s.events[|s.events| - |t.events|..][k..];
  }

  lemma {:induction false} LineFollows(s: Stream, text: Bytes)
    ensures Follows(s, ReadLineFrom(s, text).1)
    decreases LINE_LIMIT - |text|
  {
    if |text| < LINE_LIMIT {
      var (r, rest) := ReadByte(s);
      if r.Got? && r.b != NEWLINE {
        LineFollows(rest, text + [r.b]);
        FollowsTrans(s, rest, ReadLineFrom(rest, text + [r.b]).1);
      }
    }
  }

  lemma {:induction false} DiscardFollows(s: Stream, n: int)
    ensures Follows(s, Discard(s, n).1)
    decreases n
  {
    if n > 0 {
      var (r, rest) := ReadByte(s);
      if r.Got? {
        DiscardFollows(rest, n - 1);
        FollowsTrans(s, rest, Discard(rest, n - 1).1);
      }
    }
  }

  lemma {:induction false} HeadersFollow(s: Stream, lines: nat, info: Info)
    ensures Follows(s, Headers(s, lines, info).1)
    decreases lines
  {
    hide ReadLineFrom, TrimSpace, HeaderInfo;
    if lines > 0 {
      LineFollows(s, []);
      var (r, rest) := ReadLine(s);
      if r.Line? {
        HeadersFollow(rest, lines - 1, HeaderInfo(info, r.text));
        FollowsTrans(s, rest, Headers(rest, lines - 1, HeaderInfo(info, r.text)).1);
      }
    }
  }

  lemma {:induction false} TrailersFollow(s: Stream, lines: nat)
    ensures Follows(s, Trailers(s, lines).1)
    decreases lines
  {
    hide ReadLineFrom, TrimSpace;
    if lines > 0 {
      LineFollows(s, []);
      var (r, rest) := ReadLine(s);
      if r.Line? {
        TrailersFollow(rest, lines - 1);
        FollowsTrans(s, rest, Trailers(rest, lines - 1).1);
      }
    }
  }

  lemma ChunkTurnFollows(s: Stream)
    ensures Follows(s, ChunkTurn(s).1)
  {
    hide ReadLineFrom, ChunkSize, Discard, Trailers, Follows;
    LineFollows(s, []);
    var (r, rest) := ReadLine(s);
    if r.Line? && ChunkSize(r.text).Some? {
      var size := ChunkSize(r.text).value;
      if size == 0 {
        TrailersFollow(rest, MAX_LINES);
        FollowsTrans(s, rest, Trailers(rest, MAX_LINES).1);
      } else {
        DiscardFollows(rest, if size > MAX_BODY then MAX_BODY else size);
        var (d, rest1) := DiscardFixed(rest, size);
        FollowsTrans(s, rest, rest1);
        LineFollows(rest1, []);
        FollowsTrans(s, rest1, ReadLine(rest1).1);
      }
    }
  }

  lemma {:induction false} ChunkedFollows(s: Stream, chunks: nat)
    ensures Follows(s, DiscardChunked(s, chunks).1)
    decreases chunks
  {
    hide ChunkTurn;
    if chunks > 0 {
      var (ended, rest) := ChunkTurn(s);
      ChunkTurnFollows(s);
      if ended.None? {
        ChunkedFollows(rest, chunks - 1);
        FollowsTrans(s, rest, DiscardChunked(rest, chunks - 1).1);
      }
    }
  }

  lemma HeadersAndBodyFollows(s: Stream)
    ensures Follows(s, HeadersAndBody(s).1)
  {
    hide Headers, DiscardChunked, Discard, Follows;
    HeadersFollow(s, MAX_LINES, Info(-1, false));
    var (r, rest) := Headers(s, MAX_LINES, Info(-1, false));
    if r.Done? {
      ChunkedFollows(rest, MAX_LINES);
      var n := r.value.contentLength;
      DiscardFollows(rest, if n > MAX_BODY then MAX_BODY else n);
      FollowsTrans(s, rest, DiscardChunked(rest, MAX_LINES).1);
      FollowsTrans(s, rest, DiscardFixed(rest, n).1);
    }
  }

  predicate IsSuffix(a: Bytes, b: Bytes) {
    |a| <= |b| && b[|b| - |a|..] == a
  }

  lemma SuffixTrans(a: Bytes, b: Bytes, c: Bytes)
    requires IsSuffix(a, b) && IsSuffix(b, c)
    ensures IsSuffix(a, c)
  {
    assert c[|c| - |a|..] == c[|c| - |b|..][|b| - |a|..];
  }

  lemma {:induction false} FollowsReads(s: Stream, rest: Stream)
    requires Follows(s, rest)
    ensures IsSuffix(Readable(rest.events), Readable(s.events))
    decreases |s.events|
  {
    if |rest.events| == |s.events| {
      assert s.events[0..] == s.events;
    } else {
      var t := s.(events := s.events[1..]);
      assert t.events[|t.events| - |rest.events|..] == rest.events;
      FollowsReads(t, rest);
      SuffixTrans(Readable(rest.events), Readable(t.events), Readable(s.events));
    }
  }

  /** What a line read leaves, and that with the line put back in front, compared with what there was. */
  lemma LineReads(s: Stream)
    ensures var (r, rest) := ReadLine(s);
            r.text + Readable(rest.events) == Readable(s.events) && IsSuffix(Readable(rest.events), Readable(s.events))
  {
    hide ReadLineFrom;
    ReadLineMoves(s, []);
    LineFollows(s, []);
    FollowsReads(s, ReadLine(s).1);
    assert [] + Readable(s.events) == Readable(s.events);
  }

  lemma ResponseReads(s: Stream)
    ensures IsSuffix(Readable(HeadersAndBody(ReadLine(s).1).1.events), Readable(s.events))
  {
    hide ReadLine, HeadersAndBody, IsSuffix;
    LineReads(s);
    var rest := ReadLine(s).1;
    HeadersAndBodyFollows(rest);
    FollowsReads(rest, HeadersAndBody(rest).1);
    SuffixTrans(Readable(HeadersAndBody(rest).1.events), Readable(rest.events), Readable(s.events));
  }

  /** What the connection that is handed on will read. */
  function HandedOn(n: Negotiated): Bytes
    requires n.HandOver?
  {
    n.replay + Readable(n.rest.events)
  }

  /**
    Whatever arrives: a connection that is handed on reads an unbroken final part of what arrived, in order
    and without repetition, and all of it if the first line is no status line.
   */
  lemma {:induction false} HandsOnASuffix(s: Stream, attempts: nat, last: Last, saw: bool, acceptAny: bool)
    requires Negotiate(s, attempts, last, saw, acceptAny).HandOver?
    ensures IsSuffix(HandedOn(Negotiate(s, attempts, last, saw, acceptAny)), Readable(s.events))
    ensures var r := ReadLine(s.(expired := false)).0;
            r.Line? && !IsStatusLine(TrimSpace(r.text)) ==>
              HandedOn(Negotiate(s, attempts, last, saw, acceptAny)) == Readable(s.events)
    decreases attempts
  {
    hide ReadLine, HeadersAndBody, TrimSpace, IsStatusLine, StatusCode, Readable;
    var n, t := Negotiate(s, attempts, last, saw, acceptAny), s.(expired := false);
    LineReads(t);
    ResponseReads(t);
    var (r, rest) := ReadLine(t);
    assert [] + Readable(n.rest.events) == Readable(n.rest.events);
    if attempts > 0 && r.Line? && IsStatusLine(TrimSpace(r.text)) {
      var (d, rest1) := HeadersAndBody(rest);
      if d.Done? {
        var last1 := Last(TrimSpace(r.text), StatusCode(TrimSpace(r.text)));
        HandsOnASuffix(rest1, attempts - 1, last1, saw || IsSuccess(last1.code), acceptAny);
        SuffixTrans(HandedOn(n), Readable(rest1.events), Readable(s.events));
      }
    }
  }
}
