/** Parsing: names with compression pointers, records and whole messages. */
module DnsReader {
  import opened Wire
  import opened DnsName
  import opened DnsBuilder

  const POINTER_LIMIT := 10

  /** A name as read: its labels, the offset just past it, and how many pointers were followed. */
  datatype NameRead = NameRead(labels: Name, end: nat, used: nat)

  /** The offset in a pointer: 14 bits, the highest first. */
  function PointerAt(buf: Bytes, pos: nat): nat
    requires pos + 1 < |buf| && buf[pos] >= 0xc0
  {
    (buf[pos] - 0xc0) as int * 0x100 + buf[pos + 1]
  }

  /** Reads the labels of a name at `pos`, following at most `limit` pointers. */
  function ReadLabels(buf: Bytes, pos: nat, limit: nat): (r: Result<NameRead>)
    decreases limit, |buf| - pos
    ensures r.Ok? ==> pos < r.value.end <= |buf| && r.value.used <= limit && LabelsOk(r.value.labels)
  {
    if pos >= |buf| then Err(EndOfFile)
    else if buf[pos] == 0 then Ok(NameRead([], pos + 1, 0))
    else if buf[pos] < 0x40 then
      var next := pos + 1 + buf[pos];
      if next > |buf| then Err(if pos + 1 == |buf| then EndOfFile else UnexpectedEndOfFile)
      else
        var r :- ReadLabels(buf, next, limit);
        Ok(NameRead([buf[pos + 1..next]] + r.labels, r.end, r.used))
    else if buf[pos] < 0xc0 then Err(ReservedLabelType)
    else if pos + 1 == |buf| then Err(EndOfFile)
    else if limit == 0 then Err(TooManyPointers)
    else
      var r :- ReadLabels(buf, PointerAt(buf, pos), limit - 1);
      Ok(NameRead(r.labels, pos + 2, r.used + 1))
  }

  function ReadName(buf: Bytes, pos: nat): (r: Result<(Name, nat)>)
    ensures r.Ok? ==> ValidName(r.value.0) && pos < r.value.1 <= |buf|
  {
    var r :- ReadLabels(buf, pos, POINTER_LIMIT);
    var name :- CheckName(r.labels);
    Ok((name, r.end))
  }

  /** The error of a full read of `n > 0` octets that runs out of input. */
  function ShortRead(buf: Bytes, pos: nat): Error {
    if pos >= |buf| then EndOfFile else UnexpectedEndOfFile
  }

  function ReadU16(buf: Bytes, pos: nat): (r: Result<U16>) {
    if pos + 2 <= |buf| then Ok(GetU16(buf, pos)) else Err(ShortRead(buf, pos))
  }

  function ReadU32(buf: Bytes, pos: nat): (r: Result<U32>) {
    if pos + 4 <= |buf| then Ok(GetU32(buf, pos)) else Err(ShortRead(buf, pos))
  }

  function ReadFull(buf: Bytes, pos: nat, n: nat): (r: Result<Bytes>) {
    if n == 0 then Ok([])
    else if pos + n <= |buf| then Ok(buf[pos..pos + n])
    else Err(ShortRead(buf, pos))
  }

  /** Running out of input inside fixed-width fields: a clean end if it happens where a field starts. */
  function FieldError(buf: Bytes, pos: nat, starts: set<int>): Error {
    if |buf| - pos in starts then EndOfFile else UnexpectedEndOfFile
  }

  function ReadQuestion(buf: Bytes, pos: nat): (r: Result<(Question, nat)>)
    ensures r.Ok? ==> ValidName(r.value.0.name)
  {
    var n :- ReadName(buf, pos);
    if n.1 + 4 > |buf| then Err(FieldError(buf, n.1, {0, 2}))
    else Ok((Question(n.0, GetU16(buf, n.1), GetU16(buf, n.1 + 2)), n.1 + 4))
  }

  function ReadRR(buf: Bytes, pos: nat): (r: Result<(RR, nat)>)
    ensures r.Ok? ==> ValidName(r.value.0.name) && |r.value.0.data| < 0x1_0000
  {
    var n :- ReadName(buf, pos);
    if n.1 + 10 > |buf| then Err(FieldError(buf, n.1, {0, 2, 4, 8}))
    else
      var rdLength := GetU16(buf, n.1 + 8);
      var data :- ReadFull(buf, n.1 + 10, rdLength);
      Ok((RR(n.0, GetU16(buf, n.1), GetU16(buf, n.1 + 2), GetU32(buf, n.1 + 4), data), n.1 + 10 + rdLength))
  }

  function ReadQuestions(buf: Bytes, pos: nat, count: nat): Result<(seq<Question>, nat)>
    decreases count
  {
    if count == 0 then Ok(([], pos))
    else
      var q :- ReadQuestion(buf, pos);
      var r :- ReadQuestions(buf, q.1, count - 1);
      Ok(([q.0] + r.0, r.1))
  }

  function ReadRRs(buf: Bytes, pos: nat, count: nat): Result<(seq<RR>, nat)>
    decreases count
  {
    if count == 0 then Ok(([], pos))
    else
      var rr :- ReadRR(buf, pos);
      var r :- ReadRRs(buf, rr.1, count - 1);
      Ok(([rr.0] + r.0, r.1))
  }

  /** The four sections after the 12-octet header. */
  function ReadSections(buf: Bytes, id: U16, flags: U16, qd: U16, an: U16, ns: U16, ar: U16): Result<(Message, nat)> {
    var q :- ReadQuestions(buf, 12, qd);
    var a :- ReadRRs(buf, q.1, an);
    var u :- ReadRRs(buf, a.1, ns);
    var d :- ReadRRs(buf, u.1, ar);
    Ok((Message(id, flags, q.0, a.0, u.0, d.0), d.1))
  }

  function ReadMessage(buf: Bytes): Result<(Message, nat)> {
    if |buf| < 12 then Err(if |buf| % 2 == 0 then EndOfFile else UnexpectedEndOfFile)
    else
      ReadSections(buf, GetU16(buf, 0), GetU16(buf, 2), GetU16(buf, 4), GetU16(buf, 6), GetU16(buf, 8),
                   GetU16(buf, 10))
  }

  function FromWireFormat(buf: Bytes): Result<Message> {
    match ReadMessage(buf)
    case Err(e) => Err(if e == EndOfFile then UnexpectedEndOfFile else e)
    case Ok((m, end)) => if end < |buf| then Err(TrailingBytes) else Ok(m)
  }
}
