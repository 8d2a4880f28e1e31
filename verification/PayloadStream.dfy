/** Reading HTTP negotiation off a connection: what each reader takes from the stream and what it leaves. */
module PayloadStream {
  import opened Wire
  import opened Text

  const LINE_LIMIT := 4096
  const MAX_RESPONSES := 12
  const MAX_LINES := 80
  const MAX_BODY := 1024 * 1024

  /** What the peer and the clock do, in order: an octet arrives, the read deadline passes, or a read fails. */
  datatype Event = Data(b: Byte) | Deadline | Fault

  datatype ReadError = EndOfStream | TimedOut | Broken

  /** The events to come; once the deadline has passed every read times out until it is set again. */
  datatype Stream = Stream(events: seq<Event>, expired: bool)

  datatype ByteRead = Got(b: Byte) | Failed(error: ReadError)

  function ReadByte(s: Stream): (ByteRead, Stream) {
    if s.expired then (Failed(TimedOut), s)
    else if s.events == [] then (Failed(EndOfStream), s)
    else
      var rest := s.(events := s.events[1..]);
      match s.events[0]
      case Data(b) => (Got(b), rest)
      case Deadline => (Failed(TimedOut), rest.(expired := true))
      case Fault => (Failed(Broken), rest)
  }

  // ---------- lines ----------

  datatype LineRead = Line(text: Bytes) | Partial(error: ReadError, text: Bytes)

  const NEWLINE: Byte := 10

  /** Continues a line of which `text` has been read: up to a newline, the limit, or the end of the stream. */
  function ReadLineFrom(s: Stream, text: Bytes): (LineRead, Stream)
    decreases LINE_LIMIT - |text|
  {
    if |text| >= LINE_LIMIT then (Line(text), s)
    else
      var (r, rest) := ReadByte(s);
      match r
      case Got(b) => if b == NEWLINE then (Line(text + [b]), rest) else ReadLineFrom(rest, text + [b])
      case Failed(e) => if e == EndOfStream && text != [] then (Line(text), rest) else (Partial(e, text), rest)
  }

  function ReadLine(s: Stream): (LineRead, Stream) {
    ReadLineFrom(s, [])
  }

  // ---------- headers and bodies ----------

  datatype Info = Info(contentLength: int, chunked: bool)

  function HeaderInfo(info: Info, line: Bytes): Info {
    var clean := TrimSpace(line);
    if Ascii("content-length:") <= Lower(clean) then
      match ParseInt(TrimSpace(CutAt(clean, 58).1), 10)
      case Some(n) => info.(contentLength := n)
      case None => info
    else if Ascii("transfer-encoding:") <= Lower(clean) && Contains(Lower(clean), Ascii("chunked")) then
      info.(chunked := true)
    else info
  }

  datatype Done<+T> = Done(value: T) | Stopped(error: ReadError)

  /** Header lines up to a blank one, at most `lines` of them. */
  function Headers(s: Stream, lines: nat, info: Info): (Done<Info>, Stream)
    decreases lines
  {
    if lines == 0 then (Done(info), s)
    else
      var (r, rest) := ReadLine(s);
      match r
      case Partial(e, _) => (Stopped(e), rest)
      case Line(text) =>
        if TrimSpace(text) == [] then (Done(info), rest)
        else Headers(rest, lines - 1, HeaderInfo(info, text))
  }

  function Discard(s: Stream, n: int): (Done<()>, Stream)
    decreases n
  {
    if n <= 0 then (Done(()), s)
    else
      var (r, rest) := ReadByte(s);
      match r
      case Got(_) => Discard(rest, n - 1)
      case Failed(e) => (Stopped(e), rest)
  }

  function DiscardFixed(s: Stream, contentLength: int): (Done<()>, Stream) {
    Discard(s, if contentLength > MAX_BODY then MAX_BODY else contentLength)
  }

  function Trailers(s: Stream, lines: nat): (Done<()>, Stream)
    decreases lines
  {
    if lines == 0 then (Done(()), s)
    else
      var (r, rest) := ReadLine(s);
      match r
      case Partial(e, _) => (Stopped(e), rest)
      case Line(text) => if TrimSpace(text) == [] then (Done(()), rest) else Trailers(rest, lines - 1)
  }

  /** The size on a chunk's first line, without its extension. */
  function ChunkSize(line: Bytes): Option<int> {
    ParseInt(TrimSpace(CutAt(TrimSpace(line), 59).0), 16)
  }

  /** One turn over a chunk: `Some` when the body ends in it, `None` when another chunk follows. */
  function ChunkTurn(s: Stream): (Option<Done<()>>, Stream) {
    var (r, rest) := ReadLine(s);
    match r
    case Partial(e, _) => (Some(Stopped(e)), rest)
    case Line(text) =>
      match ChunkSize(text)
      case None => (Some(Done(())), rest)
      case Some(size) =>
        if size == 0 then
          var (d, rest1) := Trailers(rest, MAX_LINES);
          (Some(d), rest1)
        else
          var (d, rest1) := DiscardFixed(rest, size);
          match d
          case Stopped(e) => (Some(Stopped(e)), rest1)
          case Done(_) => (None, ReadLine(rest1).1)
  }

  function DiscardChunked(s: Stream, chunks: nat): (Done<()>, Stream)
    decreases chunks
  {
    if chunks == 0 then (Done(()), s)
    else
      var (ended, rest) := ChunkTurn(s);
      match ended
      case Some(d) => (d, rest)
      case None => DiscardChunked(rest, chunks - 1)
  }

  function HeadersAndBody(s: Stream): (Done<()>, Stream) {
    var (r, rest) := Headers(s, MAX_LINES, Info(-1, false));
    match r
    case Stopped(e) => (Stopped(e), rest)
    case Done(info) =>
      if info.chunked then DiscardChunked(rest, MAX_LINES)
      else if info.contentLength > 0 then DiscardFixed(rest, info.contentLength)
      else (Done(()), rest)
  }

  // ---------- negotiation ----------

  predicate IsStatusLine(clean: Bytes) {
    var l := Lower(clean);
    Ascii("http/1.") <= l || Ascii("http/2") <= l || Ascii("http/3") <= l
  }

  function DropWord(s: Bytes): Bytes {
    if s != [] && !IsSpace(s[0]) then DropWord(s[1..]) else s
  }

  function TakeWord(s: Bytes): Bytes {
    if s != [] && !IsSpace(s[0]) then [s[0]] + TakeWord(s[1..]) else []
  }

  /** The number in the second field of a status line, or 0. */
  function StatusCode(clean: Bytes): int {
    var second := TakeWord(TrimLeft(DropWord(TrimLeft(clean))));
    if second == [] then 0 else Atoi(second)
  }

  predicate IsSuccess(code: int) {
    code == 101 || 200 <= code < 400
  }

  /** The last status seen; code 0 with an empty line before any. */
  datatype Last = Last(line: Bytes, code: int)

  const NO_STATUS := Last([], 0)

  /** The connection handed on replays `replay` and continues with `rest`; otherwise an error is returned. */
  datatype Negotiated =
    | HandOver(last: Last, replay: Bytes, rest: Stream)
    | Rejected(last: Last)
    | ReadFailed(error: ReadError)
    | ConsumeFailed(last: Last, error: ReadError)

  predicate Refuses(last: Last, sawSuccess: bool, acceptAny: bool) {
    last.code >= 400 && !acceptAny && !sawSuccess
  }

  /** One turn of the negotiation: over, or a response has been consumed and `last` is its status. */
  datatype Turn = Over(result: Negotiated) | Onward(rest: Stream, last: Last)

  function NegotiationTurn(s: Stream, last: Last, sawSuccess: bool, acceptAny: bool): Turn {
    var (r, rest) := ReadLine(s.(expired := false));
    match r
    case Partial(e, text) =>
      if e == TimedOut then
        if Refuses(last, sawSuccess, acceptAny) then Over(Rejected(last))
        else Over(HandOver(last, text, rest.(expired := false)))
      else if e == EndOfStream && text != [] then Over(HandOver(last, text, rest.(expired := false)))
      else if last.code > 0 then Over(HandOver(last, [], rest.(expired := false)))
      else Over(ReadFailed(e))
    case Line(text) =>
      var clean := TrimSpace(text);
      if !IsStatusLine(clean) then Over(HandOver(last, text, rest.(expired := false)))
      else
        var last1 := Last(clean, StatusCode(clean));
        var (d, rest1) := HeadersAndBody(rest);
        match d
        case Stopped(e) =>
          if e == TimedOut then Over(HandOver(last1, [], rest1.(expired := false))) else Over(ConsumeFailed(last1, e))
        case Done(_) => Onward(rest1, last1)
  }

  function Negotiate(s: Stream, attempts: nat, last: Last, sawSuccess: bool, acceptAny: bool): Negotiated
    decreases attempts
  {
    if attempts == 0 then
      if Refuses(last, sawSuccess, acceptAny) then Rejected(last) else HandOver(last, [], s.(expired := false))
    else
      match NegotiationTurn(s, last, sawSuccess, acceptAny)
      case Over(n) => n
      case Onward(rest, last1) =>
        Negotiate(rest, attempts - 1, last1, sawSuccess || IsSuccess(last1.code), acceptAny)
  }
}
