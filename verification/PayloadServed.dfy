/** Responses as a server writes them: what their lines are read as, and that nothing after them is touched. */
module PayloadServed {
  import opened Wire
  import opened Text
  import opened PayloadStream
  import opened PayloadLaws

  // ---------- trimming and lines ----------

  lemma {:induction false} TrimRightKeeps(a: Bytes, b: Bytes)
    requires a != [] && !IsSpace(a[|a| - 1])
    ensures a <= TrimRight(a + b)
    decreases |b|
  {
    if b == [] {
      assert a + b == a;
    } else {
      assert (a + b)[..|a + b| - 1] == a + b[..|b| - 1];
      TrimRightKeeps(a, b[..|b| - 1]);
    }
  }

  /** What stands between two octets that are no spaces is never trimmed. */
  lemma TrimKeeps(a: Bytes, b: Bytes)
    requires a != [] && !IsSpace(a[0]) && !IsSpace(a[|a| - 1])
    ensures a <= TrimSpace(a + b)
  {
    assert TrimLeft(a + b) == a + b;
    TrimRightKeeps(a, b);
  }

  lemma CrlfLine(a: Bytes)
    requires NEWLINE !in a && |a| + 2 <= 4096
    ensures IsLine(a + CRLF)
  {
  }

  // ---------- header lines ----------

  lemma {:induction false} ContainsAt(s: Bytes, k: nat, sub: Bytes)
    requires k <= |s| && sub <= s[k..]
    ensures Contains(s, sub)
    decreases k
  {
    if k == 0 {
      assert s[0..] == s;
    } else {
      assert s[1..][k - 1..] == s[k..];
      ContainsAt(s[1..], k - 1, sub);
    }
  }

  lemma LowerConcat(a: Bytes, b: Bytes)
    ensures Lower(a + b) == Lower(a) + Lower(b)
  {
  }

  lemma LowerKeepsSpace(s: Bytes, t: Bytes, k: nat)
    requires Lower(s) == t && k < |s|
    ensures LowerByte(s[k]) == t[k] && (IsSpace(s[k]) <==> IsSpace(t[k]))
  {
    assert Lower(s)[k] == t[k];
  }

  /** The header that announces chunks, its name and its value in any letter case. */
  lemma ChunkedLineRead(info: Info, name: Bytes, value: Bytes, k: nat)
    requires Lower(name) == Ascii("transfer-encoding:")
    requires k + 7 <= |value| && Lower(value[k..k + 7]) == Ascii("chunked") && !IsSpace(value[|value| - 1])
    ensures HeaderInfo(info, name + value + CRLF) == info.(chunked := true)
  {
    hide TrimSpace, Contains, ParseInt;
    var clean := name + value;
    LowerKeepsSpace(name, Ascii("transfer-encoding:"), 0);
    TrimEnds(clean, CRLF);
    LowerConcat(name, value);
    var low := Lower(clean);
    assert low[..18] == Ascii("transfer-encoding:");
    assert low[0] == 116 && Ascii("content-length:")[0] == 99;
    assert low[18 + k..][..7] == Lower(value[k..k + 7]);
    ContainsAt(low, 18 + k, Ascii("chunked"));
  }

  const CONTENT_LENGTH: Bytes := Ascii("content-length")
  const TRANSFER_ENCODING: Bytes := Ascii("transfer-encoding")

  datatype Header = Header(name: Bytes, value: Bytes)

  /** A header that says nothing about the body. */
  predicate IsOther(h: Header) {
    && h.name != [] && (forall i :: 0 <= i < |h.name| ==> !IsSpace(h.name[i]) && h.name[i] != 58)
    && Lower(h.name) != CONTENT_LENGTH && Lower(h.name) != TRANSFER_ENCODING
    && NEWLINE !in h.value && |h.name| + |h.value| <= 4000
  }

  function HeaderLine(h: Header): Bytes {
    h.name + [58] + h.value + CRLF
  }

  /** A prefix that ends in the only colon of a name is the name. */
  lemma NameBeforeColon(name: Bytes, clean: Bytes, key: Bytes)
    requires 58 !in name && name + [58] <= clean && 58 !in key && key + [58] <= Lower(clean)
    ensures Lower(name) == key
  {
    var low := Lower(clean);
    assert forall i :: 0 <= i < |name| ==> low[i] == LowerByte(clean[i]) && clean[i] == (name + [58])[i];
    assert low[|name|] == 58 by { assert clean[|name|] == (name + [58])[|name|]; }
    assert forall i :: 0 <= i < |key| ==> low[i] == (key + [58])[i] == key[i];
    assert low[|key|] == (key + [58])[|key|] == 58;
    assert |name| == |key|;
  }

  /** A header with another name changes nothing. */
  lemma OtherLineRead(info: Info, h: Header)
    requires IsOther(h)
    ensures HeaderInfo(info, HeaderLine(h)) == info && IsLine(HeaderLine(h)) && TrimSpace(HeaderLine(h)) != []
  {
    hide TrimSpace, Contains, ParseInt;
    var named, line := h.name + [58], HeaderLine(h);
    assert line == named + (h.value + CRLF);
    TrimKeeps(named, h.value + CRLF);
    OtherNames(h, TrimSpace(line));
    CrlfLine(named + h.value);
    hide Lower, Ascii, IsOther;
  }

  lemma OtherNames(h: Header, clean: Bytes)
    requires IsOther(h) && h.name + [58] <= clean
    ensures !(Ascii("content-length:") <= Lower(clean)) && !(Ascii("transfer-encoding:") <= Lower(clean))
  {
    hide Lower;
    KeyColon();
    if CONTENT_LENGTH + [58] <= Lower(clean) {
      NameBeforeColon(h.name, clean, CONTENT_LENGTH);
    }
    if TRANSFER_ENCODING + [58] <= Lower(clean) {
      NameBeforeColon(h.name, clean, TRANSFER_ENCODING);
    }
    hide Ascii;
  }

  lemma KeyColon()
    ensures Ascii("content-length:") == CONTENT_LENGTH + [58] && 58 !in CONTENT_LENGTH
    ensures Ascii("transfer-encoding:") == TRANSFER_ENCODING + [58] && 58 !in TRANSFER_ENCODING
  {
  }

  function HeaderLines(hs: seq<Header>): (lines: seq<Bytes>)
    ensures |lines| == |hs|
  {
    if hs == [] then [] else [HeaderLine(hs[0])] + HeaderLines(hs[1..])
  }

  lemma {:induction false} OtherLinesRead(info: Info, hs: seq<Header>)
    requires forall i :: 0 <= i < |hs| ==> IsOther(hs[i])
    ensures InfoOf(info, HeaderLines(hs)) == info
    ensures IsBlankEnded(HeaderLines(hs), CRLF)
    decreases |hs|
  {
    hide HeaderInfo, TrimSpace, HeaderLine, IsOther;
    if hs == [] {
      assert IsLine(CRLF) && TrimSpace(CRLF) == [] by { BlankLine(); }
    } else {
      OtherLineRead(info, hs[0]);
      OtherLinesRead(info, hs[1..]);
    }
  }

  // ---------- chunk sizes ----------

  function HexByte(d: nat): Byte
    requires d < 16
  {
    if d < 10 then 48 + d else 87 + d
  }

  /** Hexadecimal notation in lower case without leading zeros. */
  function Hexadecimal(n: nat): (s: Bytes)
    ensures s != []
  {
    if n < 16 then [HexByte(n)] else Hexadecimal(n / 16) + [HexByte(n % 16)]
  }

  predicate IsHexDigit(b: Byte) {
    48 <= b <= 57 || 65 <= b <= 70 || 97 <= b <= 102
  }

  lemma {:induction false} HexadecimalRead(s: Bytes, n: nat)
    requires Lower(s) == Hexadecimal(n)
    ensures Digits(s, 16) == Some(n) && forall i :: 0 <= i < |s| ==> IsHexDigit(s[i])
    decreases n
  {
    var k := |s| - 1;
    assert Lower(s)[k] == LowerByte(s[k]);
    assert s == s[..k] + [s[k]];
    if n < 16 {
      assert s[..k] == [] && Digits(s[..k], 16) == Some(0);
    } else {
      LowerConcat(s[..k], [s[k]]);
      assert Lower(s)[..k] == Hexadecimal(n / 16);
      HexadecimalRead(s[..k], n / 16);
    }
  }

  lemma {:induction false} HexadecimalLength(n: nat, k: nat)
    requires 1 <= k && n < Pow16(k)
    ensures |Hexadecimal(n)| <= k
    decreases k
  {
    if n >= 16 {
      HexadecimalLength(n / 16, k - 1);
    }
  }

  function Pow16(k: nat): nat {
    if k == 0 then 1 else 16 * Pow16(k - 1)
  }

  lemma {:induction false} CutNowhere(a: Bytes, b: Byte)
    requires b !in a
    ensures CutAt(a, b) == (a, [])
  {
    if a != [] {
      CutNowhere(a[1..], b);
      assert a == [a[0]] + a[1..];
    }
  }

  /** A size line is read as its number, in any letter case and whatever extension follows. */
  lemma ChunkSizeRead(size: Bytes, ext: Bytes, n: nat)
    requires Lower(size) == Hexadecimal(n) && n <= INT64_MAX && (ext == [] || ext[0] == 59)
    ensures ChunkSize(size + ext + CRLF) == Some(n)
  {
    hide TrimSpace, Digits, Hexadecimal;
    HexadecimalRead(size, n);
    TrimEnds(size, []);
    assert size + [] == size;
    if ext == [] {
      assert size + ext + CRLF == size + CRLF;
      TrimEnds(size, CRLF);
      CutNowhere(size, 59);
    } else {
      var marked, line := size + [59], size + ext + CRLF;
      assert line == marked + (ext[1..] + CRLF);
      TrimKeeps(marked, ext[1..] + CRLF);
      var clean := TrimSpace(line);
      assert clean == marked + clean[|marked|..];
      CutPast(size, 59, clean[|marked|..]);
    }
  }

  // ---------- whole responses ----------

  /** A chunk: its size in hexadecimal, an extension or none, and its content. */
  datatype Piece = Piece(size: Bytes, ext: Bytes, content: Bytes)

  datatype Content =
    | Sized(content: Bytes)
    | InChunks(name: Bytes, value: Bytes, pieces: seq<Piece>, trailers: seq<Header>)

  datatype Reply = Reply(version: Bytes, code: nat, reason: Bytes, headers: seq<Header>, content: Content)

  predicate IsPiece(p: Piece) {
    && Lower(p.size) == Hexadecimal(|p.content|) && 0 < |p.content| <= 1048576
    && (p.ext == [] || p.ext[0] == 59) && NEWLINE !in p.ext && |p.ext| <= 4000
  }

  /** `value` is "chunked" in any letter case. */
  predicate IsContent(c: Content) {
    match c
    case Sized(content) => |content| <= 1048576
    case InChunks(name, value, pieces, trailers) =>
      && Lower(name) == Ascii("transfer-encoding:") && Lower(value) == Ascii(" chunked")
      && |pieces| < 80 && (forall i :: 0 <= i < |pieces| ==> IsPiece(pieces[i]))
      && |trailers| < 80 && (forall i :: 0 <= i < |trailers| ==> IsOther(trailers[i]))
  }

  predicate IsReply(r: Reply) {
    && IsVersion(r.version) && r.code <= 999 && r.reason != [] && !IsSpace(r.reason[|r.reason| - 1])
    && NEWLINE !in r.reason && |r.reason| <= 4000
    && |r.headers| < 79 && (forall i :: 0 <= i < |r.headers| ==> IsOther(r.headers[i]))
    && IsContent(r.content)
  }

  function ChunksOf(ps: seq<Piece>): (cs: seq<Chunk>)
    ensures |cs| == |ps|
    ensures forall i :: 0 <= i < |ps| ==> cs[i] == Chunk(ps[i].size + ps[i].ext + CRLF, ps[i].content, CRLF)
  {
    if ps == [] then [] else [Chunk(ps[0].size + ps[0].ext + CRLF, ps[0].content, CRLF)] + ChunksOf(ps[1..])
  }

  function LastChunk(): Bytes {
    [48] + CRLF
  }

  function BodyHeader(c: Content): Bytes {
    match c
    case Sized(content) => ContentLengthLine(|content|)
    case InChunks(name, value, _, _) => name + value + CRLF
  }

  function BodyOf(c: Content): Body {
    match c
    case Sized(content) => if content == [] then NoBody else FixedBody(content)
    case InChunks(_, _, pieces, trailers) => ChunkedBody(ChunksOf(pieces), LastChunk(), HeaderLines(trailers), CRLF)
  }

  /** The status line, the header about the body, the others, a blank line, the body. */
  function Rendered(r: Reply): Response {
    Response(StatusText(r.version, r.code, r.reason) + CRLF, [BodyHeader(r.content)] + HeaderLines(r.headers), CRLF,
             BodyOf(r.content))
  }

  lemma {:induction false} DecimalLength(n: nat, k: nat)
    requires 1 <= k && n < Pow10(k)
    ensures |Decimal(n)| <= k
    decreases k
  {
    if n >= 10 {
      DecimalLength(n / 10, k - 1);
    }
  }

  function Pow10(k: nat): nat {
    if k == 0 then 1 else 10 * Pow10(k - 1)
  }

  lemma StatusLineRendered(version: Bytes, code: nat, reason: Bytes)
    requires IsVersion(version)
    requires code <= 999 && reason != [] && !IsSpace(reason[|reason| - 1]) && NEWLINE !in reason && |reason| <= 4000
    ensures var line := StatusText(version, code, reason) + CRLF;
            IsLine(line) && IsStatusLine(TrimSpace(line))
  {
    hide Decimal, IsStatusLine, TrimSpace, IsVersion;
    var text := StatusText(version, code, reason);
    VersionRead(version, []);
    DecimalParses(code);
    DecimalLength(code, 3);
    assert text[0] == version[0];
    TrimEnds(text, CRLF);
    StatusRead(version, code, reason);
    CrlfLine(text);
  }

  lemma SizedHeaderRendered(content: Bytes, info: Info)
    requires |content| <= 1048576
    ensures var line := ContentLengthLine(|content|);
            && IsLine(line) && TrimSpace(line) != []
            && HeaderInfo(info, line) == info.(contentLength := |content|)
  {
    hide Decimal, HeaderInfo, TrimSpace;
    ContentLengthRead(|content|, info);
    DecimalParses(|content|);
    assert Pow10(7) == 10000000;
    DecimalLength(|content|, 7);
    CrlfLine(Ascii("Content-Length: ") + Decimal(|content|));
  }

  lemma ChunkedHeaderRendered(name: Bytes, value: Bytes, info: Info)
    requires Lower(name) == Ascii("transfer-encoding:") && Lower(value) == Ascii(" chunked")
    ensures var line := name + value + CRLF;
            IsLine(line) && TrimSpace(line) != [] && HeaderInfo(info, line) == info.(chunked := true)
  {
    hide HeaderInfo, TrimSpace;
    assert Lower(value[1..8]) == Lower(value)[1..8] == Ascii("chunked");
    LowerKeepsSpace(value, Ascii(" chunked"), 7);
    LowerKeepsSpace(name, Ascii("transfer-encoding:"), 0);
    ChunkedLineRead(info, name, value, 1);
    TrimEnds(name + value, CRLF);
    NoNewline(name, Ascii("transfer-encoding:"));
    NoNewline(value, Ascii(" chunked"));
    CrlfLine(name + value);
  }

  lemma NoNewline(s: Bytes, low: Bytes)
    requires Lower(s) == low && NEWLINE !in low
    ensures NEWLINE !in s
  {
    forall i | 0 <= i < |s| ensures s[i] != NEWLINE {
      assert Lower(s)[i] == LowerByte(s[i]) && low[i] in low;
    }
  }

  lemma PieceRendered(p: Piece)
    requires IsPiece(p)
    ensures IsChunk(Chunk(p.size + p.ext + CRLF, p.content, CRLF))
  {
    hide ChunkSize, Hexadecimal;
    var n := |p.content|;
    ChunkSizeRead(p.size, p.ext, n);
    HexadecimalRead(p.size, n);
    assert Pow16(6) == 16777216;
    HexadecimalLength(n, 6);
    assert |Lower(p.size)| <= 6;
    CrlfLine(p.size + p.ext);
  }

  lemma LastChunkRendered()
    ensures IsLine(LastChunk()) && ChunkSize(LastChunk()) == Some(0)
  {
    var zero: Bytes := [48];
    assert Lower(zero) == Hexadecimal(0);
    assert zero + [] == zero;
    ChunkSizeRead(zero, [], 0);
  }

  /** What the headers say is what the body is. */
  lemma BodyAdvertised(r: Reply)
    requires IsReply(r)
    ensures Advertised(InfoOf(Info(-1, false), Rendered(r).headers), BodyOf(r.content))
    ensures IsBlankEnded(Rendered(r).headers, CRLF)
  {
    hide HeaderInfo, TrimSpace, ChunkSize, IsOther, IsPiece, HeaderLine, ContentLengthLine, LastChunk;
    var own, lines := BodyHeader(r.content), HeaderLines(r.headers);
    assert ([own] + lines)[1..] == lines;
    var info := Info(-1, false);
    match r.content {
      case Sized(content) =>
        SizedHeaderRendered(content, info);
        OtherLinesRead(info.(contentLength := |content|), r.headers);
      case InChunks(name, value, pieces, trailers) =>
        ChunkedHeaderRendered(name, value, info);
        OtherLinesRead(info.(chunked := true), r.headers);
        OtherLinesRead(info, trailers);
        LastChunkRendered();
        forall i | 0 <= i < |pieces| ensures IsChunk(ChunksOf(pieces)[i]) {
          PieceRendered(pieces[i]);
        }
    }
  }

  lemma ReplyIsWellFormed(r: Reply)
    requires IsReply(r)
    ensures WellFormed(Rendered(r))
  {
    hide Advertised, InfoOf, IsContent, IsBlankEnded, StatusText;
    BodyAdvertised(r);
    StatusLineRendered(r.version, r.code, r.reason);
  }

  function AllRendered(rs: seq<Reply>): (out: seq<Response>)
    ensures |out| == |rs| && forall i :: 0 <= i < |rs| ==> out[i] == Rendered(rs[i])
  {
    if rs == [] then [] else [Rendered(rs[0])] + AllRendered(rs[1..])
  }

  /** A line begins with what has been read of it. */
  lemma {:induction false} LineKeeps(s: Stream, text: Bytes)
    ensures text <= ReadLineFrom(s, text).0.text
    decreases LINE_LIMIT - |text|
  {
    if |text| < LINE_LIMIT {
      var (r, rest) := ReadByte(s);
      if r.Got? && r.b != NEWLINE {
        LineKeeps(rest, text + [r.b]);
      }
    }
  }

  lemma SshIsNoStatus(rest: Bytes)
    ensures var ssh := Ascii("SSH-") + rest;
            !IsStatusLine(TrimSpace(ReadLine(Feed(ssh, [])).0.text))
  {
    var ssh := Ascii("SSH-") + rest;
    FeedFirst(ssh, []);
    LineKeeps(Feed(ssh[1..], []), [ssh[0]]);
    var text := ReadLine(Feed(ssh, [])).0.text;
    assert ssh[0] == 83 && [] + [ssh[0]] == [ssh[0]];
    assert ReadLine(Feed(ssh, [])) == ReadLineFrom(Feed(ssh[1..], []), [ssh[0]]);
    assert text == [83] + text[1..];
    TrimKeeps([83], text[1..]);
    NotHttp(TrimSpace(text));
  }

  lemma NotHttp(clean: Bytes)
    requires clean != [] && clean[0] == 83
    ensures !IsStatusLine(clean)
  {
    assert Lower(clean)[0] == 115;
    assert Ascii("http/1.")[0] == Ascii("http/2")[0] == Ascii("http/3")[0] == 104;
  }

  /**
    Whatever a server answers, fewer than 12 responses with bodies sized or in chunks, in whatever letter case it
    writes the names and sizes: the SSH greeting that follows is handed on to the last octet, and nothing else.
   */
  lemma GreetingIsHandedOn(rs: seq<Reply>, rest: Bytes, acceptAny: bool)
    requires |rs| < 12 && forall i :: 0 <= i < |rs| ==> IsReply(rs[i])
    ensures var ssh := Ascii("SSH-") + rest;
            var n := Negotiate(Feed(AllOctets(AllRendered(rs)) + ssh, []), MAX_RESPONSES, NO_STATUS, false, acceptAny);
            n.HandOver? && n.replay + Readable(n.rest.events) == ssh
  {
    hide Negotiate, ReadLineFrom, TrimSpace, IsStatusLine, WellFormed, Rendered, IsReply, AllOctets;
    forall i | 0 <= i < |rs| ensures WellFormed(AllRendered(rs)[i]) {
      ReplyIsWellFormed(rs[i]);
    }
    SshIsNoStatus(rest);
    HandsOnExactly(AllRendered(rs), Ascii("SSH-") + rest, acceptAny);
  }
}
