/** The codec as it runs: a builder that grows a buffer and a cache, and a seekable reader. */
module DnsCodec {
  import opened Wire
  import opened DnsName
  import opened DnsBuilder
  import DnsReader
  import opened DnsCompression
  import DnsRoundTrip

  class MessageBuilder {
    var w: Bytes
    var nameCache: map<Bytes, nat>
    ghost var chain: map<Bytes, nat>

    ghost function State(): Builder
      reads this
    {
      Builder(w, nameCache, chain)
    }

    constructor ()
      ensures State() == EMPTY
    {
      w, nameCache, chain := [], map[], map[];
    }

    /** The panic on a label of 0 or more than 63 octets is what the precondition excludes. */
    method WriteName(name: Name)
      requires LabelsOk(name)
      modifies this
      ensures State() == PutName(old(State()), name)
    {
      hide Text, PutLabel, Depth;
      ghost var depth := Depth(State(), name);
      assert name[0..] == name;
      for i := 0 to |name|
        invariant PutLabels(State(), name[i..], depth) == PutName(old(State()), name)
      {
        var key := String(name[i..]);
        if key in nameCache && nameCache[key] <= POINTER_MAX {
          w := w + PutU16(0xc000 + nameCache[key]);
          return;
        }
        assert name[i..][1..] == name[i + 1..];
        WriteLabel(key, name[i..], depth);
      }
      w := w + [0];
    }

    /** A suffix that is not cached: remember where it starts and write its first label verbatim. */
    method WriteLabel(key: Bytes, suffix: Name, ghost depth: nat)
      requires LabelsOk(suffix) && suffix != [] && key == Text(suffix)
      modifies this
      ensures State() == PutLabel(old(State()), suffix, depth)
    {
      nameCache := nameCache[key := |w|];
      chain := chain[key := depth];
      w := w + [|suffix[0]|];
      w := w + suffix[0];
      assert w == old(w) + ([|suffix[0]|] + suffix[0]);
    }

    method WriteQuestion(q: Question)
      requires LabelsOk(q.name)
      modifies this
      ensures State() == PutEntry(old(State()), QuestionEntry(q))
    {
      WriteName(q.name);
      ghost var named := w;
      w := w + PutU16(q.qtype);
      w := w + PutU16(q.qclass);
      assert w == named + (PutU16(q.qtype) + PutU16(q.qclass));
    }

    method WriteRR(rr: RR) returns (r: Result<()>)
      requires LabelsOk(rr.name)
      modifies this
      ensures r == if |rr.data| < 0x1_0000 then Ok(()) else Err(IntegerOverflow)
      ensures State() == if r.Ok? then PutEntry(old(State()), RREntry(rr))
                         else PutName(old(State()), rr.name).Append(RRFixed(rr))
    {
      hide PutU16, PutU32, PutName;
      WriteName(rr.name);
      ghost var named := w;
      Associative(named, PutU16(rr.rtype), PutU16(rr.rclass));
      Associative(named, PutU16(rr.rtype) + PutU16(rr.rclass), PutU32(rr.ttl));
      w := w + PutU16(rr.rtype);
      w := w + PutU16(rr.rclass);
      w := w + PutU32(rr.ttl);
      assert w == named + RRFixed(rr);
      hide RRFixed;
      var rdLength := |rr.data| % 0x1_0000;
      if rdLength != |rr.data| {
        return Err(IntegerOverflow);
      }
      Associative(named, RRFixed(rr), PutU16(rdLength));
      Associative(named, RRFixed(rr) + PutU16(rdLength), rr.data);
      w := w + PutU16(rdLength);
      w := w + rr.data;
      return Ok(());
    }

    method WriteRRs(rrs: seq<RR>) returns (r: Result<()>)
      requires forall i :: 0 <= i < |rrs| ==> LabelsOk(rrs[i].name)
      modifies this
      ensures r == if DataFits(rrs) then Ok(()) else Err(IntegerOverflow)
      ensures r.Ok? ==> State() == PutEntries(old(State()), RREntries(rrs))
    {
      hide PutEntry, PutName, RREntry;
      assert rrs[0..] == rrs;
      for i := 0 to |rrs|
        invariant forall j :: 0 <= j < i ==> |rrs[j].data| < 0x1_0000
        invariant DataFits(rrs) ==> PutEntries(State(), RREntries(rrs[i..])) == PutEntries(old(State()), RREntries(rrs))
      {
        if DataFits(rrs) {
          PutRRsStep(State(), rrs[i..]);
          assert rrs[i..][1..] == rrs[i + 1..];
        }
        r := WriteRR(rrs[i]);
        if r.Err? {
          return;
        }
      }
      return Ok(());
    }

    method WriteCounts(counts: seq<nat>) returns (r: Result<()>)
      modifies this
      ensures r == if forall i :: 0 <= i < |counts| ==> counts[i] < 0x1_0000 then Ok(()) else Err(IntegerOverflow)
      ensures r.Ok? ==> State() == old(State()).Append(CountOctets(counts))
    {
      assert counts[0..] == counts;
      for i := 0 to |counts|
        invariant forall j :: 0 <= j < i ==> counts[j] < 0x1_0000
        invariant State() == old(State()).(w := w)
        invariant w + CountOctets(counts[i..]) == old(w) + CountOctets(counts)
      {
        var count16 := counts[i] % 0x1_0000;
        if count16 != counts[i] {
          return Err(IntegerOverflow);
        }
        assert counts[i..][1..] == counts[i + 1..];
        w := w + PutU16(count16);
      }
      return Ok(());
    }

    method WriteQuestions(qs: seq<Question>)
      requires forall i :: 0 <= i < |qs| ==> LabelsOk(qs[i].name)
      modifies this
      ensures State() == PutEntries(old(State()), QuestionEntries(qs))
    {
      hide PutEntry, QuestionEntry;
      assert qs[0..] == qs;
      for i := 0 to |qs|
        invariant PutEntries(State(), QuestionEntries(qs[i..])) == PutEntries(old(State()), QuestionEntries(qs))
      {
        WriteQuestion(qs[i]);
        assert qs[i..][1..] == qs[i + 1..];
        assert QuestionEntries(qs[i..])[1..] == QuestionEntries(qs[i + 1..]);
      }
    }

    /** The header: the counts may not fit, the rest always does. */
    method WriteHeader(m: Message) returns (r: Result<()>)
      modifies this
      ensures r == if CountsFit(m) then Ok(()) else Err(IntegerOverflow)
      ensures r.Ok? ==> State() == old(State()).Append(CountedHeader(m))
    {
      w := w + PutU16(m.id);
      w := w + PutU16(m.flags);
      var counts := [|m.question|, |m.answer|, |m.authority|, |m.additional|];
      ghost var octets := CountOctets(counts);
      Associative(old(w), PutU16(m.id), PutU16(m.flags) + octets);
      Associative(old(w) + PutU16(m.id), PutU16(m.flags), octets);
      r := WriteCounts(counts);
      if r.Err? {
        assert exists i :: 0 <= i < 4 && counts[i] >= 0x1_0000;
      } else {
        assert counts[0] < 0x1_0000 && counts[1] < 0x1_0000 && counts[2] < 0x1_0000 && counts[3] < 0x1_0000;
      }
    }

    method WriteMessage(m: Message) returns (r: Result<()>)
      requires LabelsOkIn(m)
      modifies this
      ensures r == if Encodable(m) then Ok(()) else Err(IntegerOverflow)
      ensures r.Ok? ==> State() == PutMessage(old(State()), m)
    {
      hide PutEntries, QuestionEntries, RREntries, PutMessage, DataFits, CountedHeader;
      r := WriteHeader(m);
      if r.Err? {
        return;
      }
      if Encodable(m) {
        EncodableHeader(m);
        PutMessageSections(old(State()), m);
      }
      WriteQuestions(m.question);
      r := WriteRRs(m.answer);
      if r.Ok? {
        r := WriteRRs(m.authority);
        if r.Ok? {
          r := WriteRRs(m.additional);
        }
      }
    }
  }

  predicate CountsFit(m: Message) {
    |m.question| < 0x1_0000 && |m.answer| < 0x1_0000 && |m.authority| < 0x1_0000 && |m.additional| < 0x1_0000
  }

  /** The header as the loop over the four counts writes it. */
  function CountedHeader(m: Message): Bytes {
    PutU16(m.id) + (PutU16(m.flags) + CountOctets([|m.question|, |m.answer|, |m.authority|, |m.additional|]))
  }

  lemma EncodableHeader(m: Message)
    requires Encodable(m)
    ensures CountsFit(m) && CountedHeader(m) == Header(m)
  {
    hide PutU16;
    var q, a, u, d := PutU16(|m.question|), PutU16(|m.answer|), PutU16(|m.authority|), PutU16(|m.additional|);
    FourCounts(|m.question|, |m.answer|, |m.authority|, |m.additional|);
    Flatten(PutU16(m.id), PutU16(m.flags), q, a, u, d);
  }

  lemma NoCounts()
    ensures CountOctets([]) == []
  {
  }

  lemma CountFirst(count: nat, more: seq<nat>)
    requires count < 0x1_0000
    ensures CountOctets([count] + more) == PutU16(count) + CountOctets(more)
  {
    assert ([count] + more)[1..] == more;
  }

  lemma FourCounts(q: nat, a: nat, u: nat, d: nat)
    requires q < 0x1_0000 && a < 0x1_0000 && u < 0x1_0000 && d < 0x1_0000
    ensures CountOctets([q, a, u, d]) == PutU16(q) + (PutU16(a) + (PutU16(u) + PutU16(d)))
  {
    hide PutU16, CountOctets;
    CountFirst(d, []);
    CountFirst(u, [d]);
    CountFirst(a, [u, d]);
    CountFirst(q, [a, u, d]);
    assert [d] + [] == [d] && [u] + [d] == [u, d] && [a] + [u, d] == [a, u, d] && [q] + [a, u, d] == [q, a, u, d];
    assert CountOctets([]) == [] by { NoCounts(); }
    assert PutU16(d) + [] == PutU16(d);
  }

  lemma Flatten(i: Bytes, f: Bytes, q: Bytes, a: Bytes, u: Bytes, d: Bytes)
    ensures i + (f + (q + (a + (u + d)))) == i + f + q + a + u + d
  {
    Associative(i, f, q + (a + (u + d)));
    Associative(i + f, q, a + (u + d));
    Associative(i + f + q, a, u + d);
    Associative(i + f + q + a, u, d);
  }

  lemma PutRRsStep(b: Builder, rrs: seq<RR>)
    requires rrs != [] && DataFits(rrs) && forall i :: 0 <= i < |rrs| ==> LabelsOk(rrs[i].name)
    ensures PutEntries(b, RREntries(rrs)) == PutEntries(PutEntry(b, RREntry(rrs[0])), RREntries(rrs[1..]))
  {
    assert RREntries(rrs)[1..] == RREntries(rrs[1..]);
  }

  function CountOctets(counts: seq<nat>): Bytes {
    if counts == [] then [] else PutU16(counts[0] % 0x1_0000) + CountOctets(counts[1..])
  }

  /** A fresh builder cannot compress: the suffixes of one name are all different. */
  lemma {:induction false} FreshLength(b: Builder, name: Name, depth: nat)
    requires LabelsOk(name)
    requires forall other: Name :: LabelsOk(other) && |other| <= |name| ==> Text(other) !in b.cache
    ensures |PutLabels(b, name, depth).w| == |b.w| + WireLength(name)
    decreases |name|
  {
    if name != [] {
      var b1 := PutLabel(b, name, depth);
      forall other: Name | LabelsOk(other) && |other| <= |name| - 1 ensures Text(other) !in b1.cache {
        PutLabelFrame(b, name, depth, other);
      }
      FreshLength(b1, name[1..], depth);
    }
  }

  /** The size check runs the compressing builder, yet measures the uncompressed length. */
  method NewName(labels: Name) returns (r: Result<Name>)
    ensures r == CheckName(labels)
    ensures r.Ok? <==> ValidName(labels)
  {
    assert labels[0..] == labels;
    for i := 0 to |labels|
      invariant FirstBadLabel(labels[i..]) == FirstBadLabel(labels)
    {
      assert labels[i..][1..] == labels[i + 1..];
      if |labels[i]| == 0 {
        return Err(ZeroLengthLabel);
      }
      if |labels[i]| > 63 {
        return Err(LabelTooLong);
      }
    }
    BadLabelIffNotOk(labels);
    var builder := new MessageBuilder();
    builder.WriteName(labels);
    FreshLength(EMPTY, labels, Depth(EMPTY, labels));
    if |builder.w| > 255 {
      return Err(NameTooLong);
    }
    return Ok(labels);
  }

  method WireFormat(m: Message) returns (r: Result<Bytes>)
    requires LabelsOkIn(m)
    ensures r == DnsBuilder.WireFormat(m)
    ensures r.Ok? && ValidNames(m) ==>
              DnsReader.FromWireFormat(r.value) ==
              if DnsRoundTrip.ChainsWithinLimit(m) then Ok(m) else Err(TooManyPointers)
  {
    var builder := new MessageBuilder();
    var e := builder.WriteMessage(m);
    if e.Err? {
      return Err(e.error);
    }
    if ValidNames(m) {
      DnsRoundTrip.RoundTrip(m);
    }
    return Ok(builder.w);
  }

  /** What one turn of the name-reading loop finds. */
  datatype Piece = Terminator | LabelText(text: Bytes) | Pointer(offset: nat) | Bad(error: Error)

  /** A name whose first labels and pointers are already read, and whose rest is at `pos`. */
  ghost function Pending(buf: Bytes, pos: nat, labels: Name, numPointers: nat, seekTo: nat): Result<DnsReader.NameRead>
    requires numPointers <= DnsReader.POINTER_LIMIT
  {
    var r :- DnsReader.ReadLabels(buf, pos, DnsReader.POINTER_LIMIT - numPointers);
    Ok(DnsReader.NameRead(labels + r.labels, if numPointers == 0 then r.end else seekTo, numPointers + r.used))
  }

  lemma PendingStart(buf: Bytes, pos: nat)
    ensures Pending(buf, pos, [], 0, 0) == DnsReader.ReadLabels(buf, pos, DnsReader.POINTER_LIMIT)
  {
    var r := DnsReader.ReadLabels(buf, pos, DnsReader.POINTER_LIMIT);
    if r.Ok? {
      assert [] + r.value.labels == r.value.labels;
    }
  }

  lemma PendingLabel(buf: Bytes, pos: nat, labels: Name, numPointers: nat, seekTo: nat)
    requires numPointers <= DnsReader.POINTER_LIMIT
    requires pos < |buf| && 0 < buf[pos] < 0x40 && pos + 1 + buf[pos] <= |buf|
    ensures var next := pos + 1 + buf[pos];
            Pending(buf, pos, labels, numPointers, seekTo) ==
            Pending(buf, next, labels + [buf[pos + 1..next]], numPointers, seekTo)
  {
    var next := pos + 1 + buf[pos];
    var r := DnsReader.ReadLabels(buf, next, DnsReader.POINTER_LIMIT - numPointers);
    if r.Ok? {
      assert labels + ([buf[pos + 1..next]] + r.value.labels) == labels + [buf[pos + 1..next]] + r.value.labels;
    }
  }

  lemma PendingPointer(buf: Bytes, pos: nat, labels: Name, numPointers: nat, seekTo: nat)
    requires numPointers < DnsReader.POINTER_LIMIT && pos + 1 < |buf| && 0xc0 <= buf[pos]
    ensures var target := DnsReader.PointerAt(buf, pos);
            Pending(buf, pos, labels, numPointers, seekTo) ==
            Pending(buf, target, labels, numPointers + 1, if numPointers == 0 then pos + 2 else seekTo)
  {
  }

  /** A list of entries whose first ones are already read. */
  ghost function Prepend<T>(done: seq<T>, r: Result<(seq<T>, nat)>): Result<(seq<T>, nat)> {
    match r
    case Ok((more, end)) => Ok((done + more, end))
    case Err(e) => Err(e)
  }

  lemma PrependCons<T>(done: seq<T>, x: T, r: Result<(seq<T>, nat)>)
    ensures Prepend(done, Prepend([x], r)) == Prepend(done + [x], r)
  {
    if r.Ok? {
      assert done + ([x] + r.value.0) == done + [x] + r.value.0;
    }
  }

  /** Where a read stops: at the terminator, or at the first thing that is wrong. */
  lemma PendingStops(buf: Bytes, pos: nat, labels: Name, numPointers: nat, seekTo: nat)
    requires numPointers <= DnsReader.POINTER_LIMIT
    ensures var p := Pending(buf, pos, labels, numPointers, seekTo);
            if pos >= |buf| then p == Err(EndOfFile)
            else if buf[pos] == 0 then
              p == Ok(DnsReader.NameRead(labels, if numPointers == 0 then pos + 1 else seekTo, numPointers))
            else if buf[pos] < 0x40 then
              pos + 1 + buf[pos] > |buf| ==> p == Err(if pos + 1 == |buf| then EndOfFile else UnexpectedEndOfFile)
            else if buf[pos] < 0xc0 then p == Err(ReservedLabelType)
            else if pos + 1 == |buf| then p == Err(EndOfFile)
            else numPointers == DnsReader.POINTER_LIMIT ==> p == Err(TooManyPointers)
  {
    assert labels + [] == labels;
  }

  class Reader {
    const buf: Bytes
    var pos: nat

    constructor (buf: Bytes)
      ensures this.buf == buf && pos == 0
    {
      this.buf := buf;
      pos := 0;
    }

    method ReadByte() returns (r: Result<Byte>)
      modifies this
      ensures old(pos) < |buf| ==> r == Ok(buf[old(pos)]) && pos == old(pos) + 1
      ensures old(pos) >= |buf| ==> r == Err(EndOfFile) && pos == old(pos)
    {
      if pos >= |buf| {
        return Err(EndOfFile);
      }
      r := Ok(buf[pos]);
      pos := pos + 1;
    }

    /** Fills `n` octets or fails; a failed read has consumed what was left. */
    method ReadFull(n: nat) returns (r: Result<Bytes>)
      modifies this
      ensures r == DnsReader.ReadFull(buf, old(pos), n)
      ensures r.Ok? ==> pos == old(pos) + n && |r.value| == n
    {
      if n == 0 {
        return Ok([]);
      }
      if pos + n > |buf| {
        r := Err(DnsReader.ShortRead(buf, pos));
        pos := if pos > |buf| then pos else |buf|;
        return;
      }
      r := Ok(buf[pos..pos + n]);
      pos := pos + n;
    }

    method ReadU16() returns (r: Result<U16>)
      modifies this
      ensures r == DnsReader.ReadU16(buf, old(pos))
      ensures r.Ok? ==> pos == old(pos) + 2
    {
      var s := ReadFull(2);
      if s.Err? {
        return Err(s.error);
      }
      return Ok(GetU16(s.value, 0));
    }

    method ReadU32() returns (r: Result<U32>)
      modifies this
      ensures r == DnsReader.ReadU32(buf, old(pos))
      ensures r.Ok? ==> pos == old(pos) + 4
    {
      var s := ReadFull(4);
      if s.Err? {
        return Err(s.error);
      }
      return Ok(GetU32(s.value, 0));
    }

    /** One length octet and what it announces. */
    method ReadPiece() returns (p: Piece)
      modifies this
      ensures var start := old(pos);
              if start >= |buf| then p == Bad(EndOfFile)
              else if buf[start] == 0 then p == Terminator && pos == start + 1
              else if buf[start] < 0x40 then
                if start + 1 + buf[start] > |buf| then
                  p == Bad(if start + 1 == |buf| then EndOfFile else UnexpectedEndOfFile)
                else p == LabelText(buf[start + 1..start + 1 + buf[start]]) && pos == start + 1 + buf[start]
              else if buf[start] < 0xc0 then p == Bad(ReservedLabelType)
              else if start + 1 == |buf| then p == Bad(EndOfFile)
              else p == Pointer(DnsReader.PointerAt(buf, start)) && pos == start + 2
    {
      var labelType := ReadByte();
      if labelType.Err? {
        return Bad(labelType.error);
      }
      var t := labelType.value;
      if t < 0x40 {
        var length := t;
        if length == 0 {
          return Terminator;
        }
        var text := ReadFull(length);
        if text.Err? {
          return Bad(text.error);
        }
        return LabelText(text.value);
      } else if t >= 0xc0 {
        var lower := ReadByte();
        if lower.Err? {
          return Bad(lower.error);
        }
        return Pointer((t - 0xc0) as int * 0x100 + lower.value);
      }
      return Bad(ReservedLabelType);
    }

    /** The loop over labels and pointers; it leaves the reader just past the first pointer or the terminator. */
    method ReadLabels() returns (r: Result<Name>)
      modifies this
      ensures match DnsReader.ReadLabels(buf, old(pos), DnsReader.POINTER_LIMIT)
              case Ok(n) => r == Ok(n.labels) && pos == n.end
              case Err(e) => r == Err(e)
    {
      hide Pending, DnsReader.ReadLabels;
      var labels: Name, numPointers, seekTo: nat := [], 0, 0;
      ghost var target := DnsReader.ReadLabels(buf, pos, DnsReader.POINTER_LIMIT);
      PendingStart(buf, pos);
      while true
        invariant numPointers <= DnsReader.POINTER_LIMIT
        invariant Pending(buf, pos, labels, numPointers, seekTo) == target
        decreases DnsReader.POINTER_LIMIT - numPointers, |buf| - pos
      {
        ghost var start := pos;
        PendingStops(buf, pos, labels, numPointers, seekTo);
        var piece := ReadPiece();
        match piece {
          case Bad(e) =>
            return Err(e);
          case Terminator =>
            break;
          case LabelText(text) =>
            PendingLabel(buf, start, labels, numPointers, seekTo);
            labels := labels + [text];
          case Pointer(offset) =>
            if numPointers < DnsReader.POINTER_LIMIT {
              PendingPointer(buf, start, labels, numPointers, seekTo);
            }
            if numPointers == 0 {
              seekTo := pos;
            }
            numPointers := numPointers + 1;
            if numPointers > DnsReader.POINTER_LIMIT {
              return Err(TooManyPointers);
            }
            pos := offset;
        }
      }
      if numPointers > 0 {
        pos := seekTo;
      }
      return Ok(labels);
    }

    method ReadName() returns (r: Result<Name>)
      modifies this
      ensures match DnsReader.ReadName(buf, old(pos))
              case Ok((name, end)) => r == Ok(name) && pos == end
              case Err(e) => r == Err(e)
    {
      var labels := ReadLabels();
      if labels.Err? { return Err(labels.error); }
      r := NewName(labels.value);
    }

    method ReadQuestion() returns (r: Result<Question>)
      modifies this
      ensures match DnsReader.ReadQuestion(buf, old(pos))
              case Ok((q, end)) => r == Ok(q) && pos == end
              case Err(e) => r == Err(e)
    {
      var name := ReadName();
      if name.Err? { return Err(name.error); }
      var qtype := ReadU16();
      if qtype.Err? { return Err(qtype.error); }
      var qclass := ReadU16();
      if qclass.Err? { return Err(qclass.error); }
      return Ok(Question(name.value, qtype.value, qclass.value));
    }

    method ReadRR() returns (r: Result<RR>)
      modifies this
      ensures match DnsReader.ReadRR(buf, old(pos))
              case Ok((rr, end)) => r == Ok(rr) && pos == end
              case Err(e) => r == Err(e)
    {
      var name := ReadName();
      if name.Err? { return Err(name.error); }
      var rtype := ReadU16();
      if rtype.Err? { return Err(rtype.error); }
      var rclass := ReadU16();
      if rclass.Err? { return Err(rclass.error); }
      var ttl := ReadU32();
      if ttl.Err? { return Err(ttl.error); }
      var rdLength := ReadU16();
      if rdLength.Err? { return Err(rdLength.error); }
      var data := ReadFull(rdLength.value);
      if data.Err? { return Err(data.error); }
      return Ok(RR(name.value, rtype.value, rclass.value, ttl.value, data.value));
    }

    method ReadQuestions(count: nat) returns (r: Result<seq<Question>>)
      modifies this
      ensures match DnsReader.ReadQuestions(buf, old(pos), count)
              case Ok((qs, end)) => r == Ok(qs) && pos == end
              case Err(e) => r == Err(e)
    {
      hide DnsReader.ReadQuestion;
      var qs: seq<Question> := [];
      ghost var target := DnsReader.ReadQuestions(buf, pos, count);
      if target.Ok? { assert qs + target.value.0 == target.value.0; }
      for i := 0 to count
        invariant Prepend(qs, DnsReader.ReadQuestions(buf, pos, count - i)) == target
      {
        var q := ReadQuestion();
        if q.Err? { return Err(q.error); }
        PrependCons(qs, q.value, DnsReader.ReadQuestions(buf, pos, count - i - 1));
        qs := qs + [q.value];
      }
      assert qs + [] == qs;
      return Ok(qs);
    }

    method ReadRRs(count: nat) returns (r: Result<seq<RR>>)
      modifies this
      ensures match DnsReader.ReadRRs(buf, old(pos), count)
              case Ok((rrs, end)) => r == Ok(rrs) && pos == end
              case Err(e) => r == Err(e)
    {
      hide DnsReader.ReadRR;
      var rrs: seq<RR> := [];
      ghost var target := DnsReader.ReadRRs(buf, pos, count);
      if target.Ok? { assert rrs + target.value.0 == target.value.0; }
      for i := 0 to count
        invariant Prepend(rrs, DnsReader.ReadRRs(buf, pos, count - i)) == target
      {
        var rr := ReadRR();
        if rr.Err? { return Err(rr.error); }
        PrependCons(rrs, rr.value, DnsReader.ReadRRs(buf, pos, count - i - 1));
        rrs := rrs + [rr.value];
      }
      assert rrs + [] == rrs;
      return Ok(rrs);
    }

    method ReadHeader() returns (r: Result<seq<U16>>)
      requires pos == 0
      modifies this
      ensures |buf| < 12 ==> r == Err(if |buf| % 2 == 0 then EndOfFile else UnexpectedEndOfFile)
      ensures |buf| >= 12 ==>
                r.Ok? && |r.value| == 6 && pos == 12 && forall i :: 0 <= i < 6 ==> r.value[i] == GetU16(buf, 2 * i)
    {
      var fields: seq<U16> := [];
      for i := 0 to 6
        invariant pos == 2 * i <= |buf| && |fields| == i
        invariant forall j :: 0 <= j < i ==> fields[j] == GetU16(buf, 2 * j)
      {
        var field := ReadU16();
        if field.Err? { return Err(field.error); }
        fields := fields + [field.value];
      }
      return Ok(fields);
    }

    method ReadMessage() returns (r: Result<Message>)
      requires pos == 0
      modifies this
      ensures match DnsReader.ReadMessage(buf)
              case Ok((m, end)) => r == Ok(m) && pos == end
              case Err(e) => r == Err(e)
    {
      var h := ReadHeader();
      if h.Err? { return Err(h.error); }
      var f := h.value;
      var question := ReadQuestions(f[2]);
      if question.Err? { return Err(question.error); }
      var answer := ReadRRs(f[3]);
      if answer.Err? { return Err(answer.error); }
      var authority := ReadRRs(f[4]);
      if authority.Err? { return Err(authority.error); }
      var additional := ReadRRs(f[5]);
      if additional.Err? { return Err(additional.error); }
      return Ok(Message(f[0], f[1], question.value, answer.value, authority.value, additional.value));
    }
  }

  method MessageFromWireFormat(buf: Bytes) returns (r: Result<Message>)
    ensures r == DnsReader.FromWireFormat(buf)
  {
    var reader := new Reader(buf);
    var m := reader.ReadMessage();
    if m.Err? {
      return Err(if m.error == EndOfFile then UnexpectedEndOfFile else m.error);
    }
    var extra := reader.ReadByte();
    if extra.Ok? {
      return Err(TrailingBytes);
    }
    return m;
  }
}
