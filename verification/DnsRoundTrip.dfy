/** Parsing inverts serialising, exactly as long as no name needs more pointers than a reader follows. */
module DnsRoundTrip {
  import opened Wire
  import opened DnsName
  import opened DnsBuilder
  import opened DnsReader
  import opened DnsCompression

  /** No entry's name, written in this order from `b`, needs more pointers than the limit. */
  predicate ChainsOk(b: Builder, es: seq<Entry>)
    requires NamesOk(es)
    decreases |es|
  {
    es == [] || (Depth(b, es[0].name) <= POINTER_LIMIT && ChainsOk(PutEntry(b, es[0]), es[1..]))
  }

  /** A condition on the message alone: the names are laid out as the builder does and chains counted. */
  predicate ChainsWithinLimit(m: Message)
    requires Encodable(m) && LabelsOkIn(m)
  {
    ChainsOk(EMPTY.Append(Header(m)), AllEntries(m))
  }

  lemma {:induction false} ChainsOkConcat(b: Builder, x: seq<Entry>, y: seq<Entry>)
    requires NamesOk(x) && NamesOk(y) && NamesOk(x + y)
    ensures ChainsOk(b, x + y) <==> ChainsOk(b, x) && ChainsOk(PutEntries(b, x), y)
    decreases |x|
  {
    hide PutEntry, Depth;
    if x == [] {
      assert x + y == y;
    } else {
      assert (x + y)[1..] == x[1..] + y;
      ChainsOkConcat(PutEntry(b, x[0]), x[1..], y);
    }
  }

  lemma AppendKeepsCache(b: Builder, s: Bytes, n: nat)
    requires CacheInv(b, n)
    ensures CacheInv(b.Append(s), n)
  {
    var c := b.Append(s);
    forall other: Name | LabelsOk(other) ensures Consistent(c, other) {
      assert Consistent(b, other);
      ConsistentExtend(b, c, other);
    }
  }

  /** A name just written, read anywhere later in the buffer. */
  lemma NameReads(b: Builder, name: Name, n: nat, buf: Bytes)
    requires ValidName(name) && CacheInv(b, n) && PutName(b, name).w <= buf
    ensures ReadName(buf, |b.w|) ==
            if Depth(b, name) <= POINTER_LIMIT then Ok((name, |PutName(b, name).w|)) else Err(TooManyPointers)
  {
    hide PutName, CacheInv, Depth, ReadLabels, CheckName;
    var a := PutName(b, name);
    PutNameReads(b, name, n);
    ReadLabelsExtend(a.w, buf, |b.w|, Depth(b, name));
    ReadLabelsLimit(buf, |b.w|, Depth(b, name), POINTER_LIMIT);
  }

  /** One entry: its name reads back through `Depth` pointers and its tail follows. */
  lemma EntryReads(b: Builder, e: Entry, n: nat, buf: Bytes)
    requires ValidName(e.name) && CacheInv(b, n) && PutEntry(b, e).w <= buf
    ensures var end := |PutEntry(b, e).w| - |e.tail|;
            && 0 <= end && buf[end..|PutEntry(b, e).w|] == e.tail
            && ReadName(buf, |b.w|) ==
               if Depth(b, e.name) <= POINTER_LIMIT then Ok((e.name, end)) else Err(TooManyPointers)
  {
    hide PutName, CacheInv, Depth, ReadName, LabelsOk;
    PrefixSlice(PutName(b, e.name).w, e.tail, buf);
    NameReads(b, e.name, n, buf);
  }

  lemma SliceU16(buf: Bytes, at: nat, s: Bytes, off: nat)
    requires at + |s| <= |buf| && buf[at..at + |s|] == s && off + 2 <= |s|
    ensures GetU16(buf, at + off) == GetU16(s, off)
  {
    assert buf[at + off] == s[off] && buf[at + off + 1] == s[off + 1];
  }

  lemma QuestionTailFields(q: Question)
    ensures var t := QuestionEntry(q).tail; |t| == 4 && GetU16(t, 0) == q.qtype && GetU16(t, 2) == q.qclass
  {
  }

  lemma QuestionReads(b: Builder, q: Question, n: nat, buf: Bytes)
    requires ValidName(q.name) && CacheInv(b, n) && PutEntry(b, QuestionEntry(q)).w <= buf
    ensures ReadQuestion(buf, |b.w|) ==
            if Depth(b, q.name) <= POINTER_LIMIT then Ok((q, |PutEntry(b, QuestionEntry(q)).w|))
            else Err(TooManyPointers)
  {
    hide PutEntry, ReadName, GetU16, QuestionEntry;
    var e := QuestionEntry(q);
    EntryReads(b, e, n, buf);
    QuestionTailFields(q);
    var end := |PutEntry(b, e).w| - |e.tail|;
    SliceU16(buf, end, e.tail, 0);
    SliceU16(buf, end, e.tail, 2);
  }

  /** The fixed part of a record, field by field. */
  lemma RRTailFields(rr: RR)
    requires |rr.data| < 0x1_0000
    ensures var t := RREntry(rr).tail;
            && |t| == 10 + |rr.data| && t[10..] == rr.data
            && GetU16(t, 0) == rr.rtype && GetU16(t, 2) == rr.rclass && GetU32(t, 4) == rr.ttl
            && GetU16(t, 8) == |rr.data|
  {
  }

  /** A record's tail, found in the buffer after its name, parses back. */
  lemma RRTailReads(rr: RR, buf: Bytes, end: nat)
    requires |rr.data| < 0x1_0000
    requires var t := RREntry(rr).tail; end + |t| <= |buf| && buf[end..end + |t|] == t
    ensures && |RREntry(rr).tail| == 10 + |rr.data|
            && GetU16(buf, end) == rr.rtype && GetU16(buf, end + 2) == rr.rclass && GetU32(buf, end + 4) == rr.ttl
            && GetU16(buf, end + 8) == |rr.data| && ReadFull(buf, end + 10, |rr.data|) == Ok(rr.data)
  {
    var t := RREntry(rr).tail;
    RRTailFields(rr);
    SliceU16(buf, end, t, 0);
    SliceU16(buf, end, t, 2);
    SliceU16(buf, end, t, 4);
    SliceU16(buf, end, t, 6);
    SliceU16(buf, end, t, 8);
    assert buf[end + 10..end + |t|] == t[10..];
  }

  lemma RRReads(b: Builder, rr: RR, n: nat, buf: Bytes)
    requires ValidName(rr.name) && |rr.data| < 0x1_0000 && CacheInv(b, n) && PutEntry(b, RREntry(rr)).w <= buf
    ensures ReadRR(buf, |b.w|) ==
            if Depth(b, rr.name) <= POINTER_LIMIT then Ok((rr, |PutEntry(b, RREntry(rr)).w|))
            else Err(TooManyPointers)
  {
    hide PutEntry, ReadName, ReadFull, GetU16, GetU32, RREntry;
    var e := RREntry(rr);
    EntryReads(b, e, n, buf);
    RRTailReads(rr, buf, |PutEntry(b, e).w| - |e.tail|);
  }

  /** Writing any entries extends the buffer, keeps the cache, and adds at most one pointer per name. */
  lemma {:induction false} PutEntriesKeeps(b: Builder, es: seq<Entry>, n: nat)
    requires NamesOk(es) && CacheInv(b, n)
    ensures b.w <= PutEntries(b, es).w && CacheInv(PutEntries(b, es), n + |es|)
    ensures n + |es| <= POINTER_LIMIT + 1 ==> ChainsOk(b, es)
    decreases |es|
  {
    if es != [] {
      PutNameReads(b, es[0].name, n);
      AppendKeepsCache(PutName(b, es[0].name), es[0].tail, n + 1);
      PutEntriesKeeps(PutEntry(b, es[0]), es[1..], n + 1);
    }
  }

  lemma FirstEntry(b: Builder, es: seq<Entry>, n: nat, buf: Bytes)
    requires NamesOk(es) && es != [] && CacheInv(b, n) && PutEntries(b, es).w <= buf
    ensures CacheInv(PutEntry(b, es[0]), n + 1) && PutEntry(b, es[0]).w <= buf
  {
    PutNameReads(b, es[0].name, n);
    AppendKeepsCache(PutName(b, es[0].name), es[0].tail, n + 1);
    PutEntriesKeeps(PutEntry(b, es[0]), es[1..], n + 1);
  }

  predicate ValidQuestions(qs: seq<Question>) {
    forall i :: 0 <= i < |qs| ==> ValidName(qs[i].name)
  }

  lemma QuestionsNamesOk(qs: seq<Question>)
    requires ValidQuestions(qs)
    ensures NamesOk(QuestionEntries(qs))
  {
    var es := QuestionEntries(qs);
    forall i | 0 <= i < |es| ensures LabelsOk(es[i].name) {
      assert ValidName(qs[i].name) && es[i] == QuestionEntry(qs[i]);
    }
  }

  lemma QuestionsStep(b: Builder, qs: seq<Question>)
    requires ValidQuestions(qs) && qs != [] && NamesOk(QuestionEntries(qs))
    ensures var c := PutEntry(b, QuestionEntry(qs[0]));
            && qs == [qs[0]] + qs[1..] && ValidQuestions(qs[1..]) && NamesOk(QuestionEntries(qs[1..]))
            && PutEntries(b, QuestionEntries(qs)) == PutEntries(c, QuestionEntries(qs[1..]))
            && (ChainsOk(b, QuestionEntries(qs)) <==>
                  Depth(b, qs[0].name) <= POINTER_LIMIT && ChainsOk(c, QuestionEntries(qs[1..])))
  {
    hide PutEntry, LabelsOk, ValidName, Depth, QuestionEntry;
    assert QuestionEntries(qs)[1..] == QuestionEntries(qs[1..]);
  }

  lemma {:induction false} QuestionsRead(b: Builder, qs: seq<Question>, n: nat, buf: Bytes)
    requires ValidQuestions(qs) && NamesOk(QuestionEntries(qs)) && CacheInv(b, n)
    requires PutEntries(b, QuestionEntries(qs)).w <= buf
    ensures ReadQuestions(buf, |b.w|, |qs|) ==
            if ChainsOk(b, QuestionEntries(qs)) then Ok((qs, |PutEntries(b, QuestionEntries(qs)).w|))
            else Err(TooManyPointers)
    decreases |qs|
  {
    hide PutEntry, ReadQuestion, CacheInv;
    if qs != [] {
      QuestionsStep(b, qs);
      FirstEntry(b, QuestionEntries(qs), n, buf);
      QuestionReads(b, qs[0], n, buf);
      QuestionsRead(PutEntry(b, QuestionEntry(qs[0])), qs[1..], n + 1, buf);
    }
  }

  predicate ValidRRs(rrs: seq<RR>) {
    forall i :: 0 <= i < |rrs| ==> ValidName(rrs[i].name) && |rrs[i].data| < 0x1_0000
  }

  lemma RRsNamesOk(rrs: seq<RR>)
    requires ValidRRs(rrs)
    ensures NamesOk(RREntries(rrs))
  {
    var es := RREntries(rrs);
    forall i | 0 <= i < |es| ensures LabelsOk(es[i].name) {
      assert ValidName(rrs[i].name) && es[i] == RREntry(rrs[i]);
    }
  }

  lemma RRsStep(b: Builder, rrs: seq<RR>)
    requires ValidRRs(rrs) && rrs != [] && NamesOk(RREntries(rrs))
    ensures var c := PutEntry(b, RREntry(rrs[0]));
            && rrs == [rrs[0]] + rrs[1..] && ValidRRs(rrs[1..]) && NamesOk(RREntries(rrs[1..]))
            && PutEntries(b, RREntries(rrs)) == PutEntries(c, RREntries(rrs[1..]))
            && (ChainsOk(b, RREntries(rrs)) <==>
                  Depth(b, rrs[0].name) <= POINTER_LIMIT && ChainsOk(c, RREntries(rrs[1..])))
  {
    hide PutEntry, LabelsOk, ValidName, Depth, RREntry;
    assert RREntries(rrs)[1..] == RREntries(rrs[1..]);
  }

  lemma {:induction false} RRsRead(b: Builder, rrs: seq<RR>, n: nat, buf: Bytes)
    requires ValidRRs(rrs) && NamesOk(RREntries(rrs)) && CacheInv(b, n)
    requires PutEntries(b, RREntries(rrs)).w <= buf
    ensures ReadRRs(buf, |b.w|, |rrs|) ==
            if ChainsOk(b, RREntries(rrs)) then Ok((rrs, |PutEntries(b, RREntries(rrs)).w|)) else Err(TooManyPointers)
    decreases |rrs|
  {
    hide PutEntry, ReadRR, CacheInv;
    if rrs != [] {
      RRsStep(b, rrs);
      FirstEntry(b, RREntries(rrs), n, buf);
      RRReads(b, rrs[0], n, buf);
      RRsRead(PutEntry(b, RREntry(rrs[0])), rrs[1..], n + 1, buf);
    }
  }

  lemma HeaderFields(m: Message, buf: Bytes)
    requires Encodable(m) && Header(m) <= buf
    ensures && GetU16(buf, 0) == m.id && GetU16(buf, 2) == m.flags
            && GetU16(buf, 4) == |m.question| && GetU16(buf, 6) == |m.answer|
            && GetU16(buf, 8) == |m.authority| && GetU16(buf, 10) == |m.additional|
  {
    var h := Header(m);
    assert forall i :: 0 <= i < 12 ==> buf[i] == h[i];
  }

  /** The builder after the header and after each of the four sections. */
  function Stages(m: Message): (r: (Builder, Builder, Builder, Builder, Builder))
    requires Encodable(m) && LabelsOkIn(m)
    ensures r.4 == PutMessage(EMPTY, m)
  {
    PutMessageSections(EMPTY, m);
    var b0 := EMPTY.Append(Header(m));
    var b1 := PutEntries(b0, QuestionEntries(m.question));
    var b2 := PutEntries(b1, RREntries(m.answer));
    var b3 := PutEntries(b2, RREntries(m.authority));
    (b0, b1, b2, b3, PutEntries(b3, RREntries(m.additional)))
  }

  /** The chains of a message, section by section. */
  lemma StageChains(m: Message)
    requires Encodable(m) && LabelsOkIn(m)
    requires && NamesOk(QuestionEntries(m.question)) && NamesOk(RREntries(m.answer))
             && NamesOk(RREntries(m.authority)) && NamesOk(RREntries(m.additional))
    ensures var (b0, b1, b2, b3, b4) := Stages(m);
            ChainsWithinLimit(m) <==>
            ChainsOk(b0, QuestionEntries(m.question)) && ChainsOk(b1, RREntries(m.answer))
            && ChainsOk(b2, RREntries(m.authority)) && ChainsOk(b3, RREntries(m.additional))
  {
    hide PutEntries, ChainsOk, QuestionEntries, RREntries, NamesOk;
    var b0 := EMPTY.Append(Header(m));
    var q, a, u, d := QuestionEntries(m.question), RREntries(m.answer), RREntries(m.authority), RREntries(m.additional);
    PutEntriesConcat(b0, q, a);
    PutEntriesConcat(b0, q + a, u);
    PutEntriesConcat(b0, q + a + u, d);
    ChainsOkConcat(b0, q, a);
    ChainsOkConcat(b0, q + a, u);
    ChainsOkConcat(b0, q + a + u, d);
  }

  lemma HeaderStage(m: Message)
    requires Encodable(m)
    ensures CacheInv(EMPTY.Append(Header(m)), 0)
  {
  }

  lemma QuestionsCached(m: Message)
    requires Encodable(m) && LabelsOkIn(m)
    ensures CacheInv(Stages(m).0, 0) && CacheInv(Stages(m).1, |m.question|)
  {
    HeaderStage(m);
    hide PutEntries, ChainsOk, CacheInv, NamesOk, Header;
    SectionNamesOk(m);
    PutEntriesKeeps(Stages(m).0, QuestionEntries(m.question), 0);
  }

  /** The cache is consistent at each stage. */
  lemma StagesCached(m: Message)
    requires Encodable(m) && LabelsOkIn(m)
    ensures var b := Stages(m);
            && CacheInv(b.0, 0) && CacheInv(b.1, |m.question|) && CacheInv(b.2, |m.question| + |m.answer|)
            && CacheInv(b.3, |m.question| + |m.answer| + |m.authority|)
  {
    hide PutEntries, ChainsOk, CacheInv, NamesOk, Header;
    SectionNamesOk(m);
    QuestionsCached(m);
    PutEntriesKeeps(Stages(m).1, RREntries(m.answer), |m.question|);
    PutEntriesKeeps(Stages(m).2, RREntries(m.authority), |m.question| + |m.answer|);
  }

  /** Each stage extends the one before it. */
  lemma StagesGrow(m: Message)
    requires Encodable(m) && LabelsOkIn(m)
    ensures var (b0, b1, b2, b3, b4) := Stages(m); b0.w <= b1.w <= b2.w <= b3.w <= b4.w
  {
    hide PutEntries, ChainsOk, CacheInv, NamesOk, Header;
    SectionNamesOk(m);
    StagesCached(m);
    var (b0, b1, b2, b3, _) := Stages(m);
    var n := |m.question|;
    PutEntriesKeeps(b0, QuestionEntries(m.question), 0);
    PutEntriesKeeps(b1, RREntries(m.answer), n);
    PutEntriesKeeps(b2, RREntries(m.authority), n + |m.answer|);
    PutEntriesKeeps(b3, RREntries(m.additional), n + |m.answer| + |m.authority|);
  }

  lemma FewChains(m: Message)
    requires Encodable(m) && LabelsOkIn(m) && NameCount(m) <= POINTER_LIMIT + 1
    ensures ChainsWithinLimit(m)
  {
    HeaderStage(m);
    hide PutEntries, ChainsOk, CacheInv, NamesOk, Header;
    PutEntriesKeeps(EMPTY.Append(Header(m)), AllEntries(m), 0);
  }

  lemma HeaderFirst(m: Message)
    requires ValidNames(m) && Encodable(m)
    ensures LabelsOkIn(m) && Header(m) <= PutMessage(EMPTY, m).w
  {
    hide PutMessage, CacheInv, PutEntries, Header;
    StagesGrow(m);
    assert Stages(m).0.w == Header(m);
  }

  lemma SectionsValid(m: Message)
    requires ValidNames(m) && Encodable(m)
    ensures LabelsOkIn(m) && ValidQuestions(m.question)
    ensures ValidRRs(m.answer) && ValidRRs(m.authority) && ValidRRs(m.additional)
    ensures NamesOk(QuestionEntries(m.question))
    ensures NamesOk(RREntries(m.answer)) && NamesOk(RREntries(m.authority)) && NamesOk(RREntries(m.additional))
  {
    QuestionsNamesOk(m.question);
    RRsNamesOk(m.answer);
    RRsNamesOk(m.authority);
    RRsNamesOk(m.additional);
  }

  lemma SectionsRead(m: Message)
    requires ValidNames(m) && Encodable(m)
    ensures var buf := PutMessage(EMPTY, m).w;
            ReadSections(buf, m.id, m.flags, |m.question|, |m.answer|, |m.authority|, |m.additional|) ==
            if ChainsWithinLimit(m) then Ok((m, |buf|)) else Err(TooManyPointers)
  {
    hide CacheInv, NamesOk, ValidQuestions, ValidRRs, QuestionEntries, RREntries, PutEntries, ChainsOk;
    hide ReadQuestions, ReadRRs;
    SectionsValid(m);
    StageChains(m);
    var (b0, b1, b2, b3, b4) := Stages(m);
    var n := |m.question|;
    StagesCached(m);
    StagesGrow(m);
    QuestionsRead(b0, m.question, 0, b4.w);
    RRsRead(b1, m.answer, n, b4.w);
    RRsRead(b2, m.authority, n + |m.answer|, b4.w);
    RRsRead(b3, m.additional, n + |m.answer| + |m.authority|, b4.w);
  }

  /**
    The round trip, with its exact boundary: a message with valid names and fitting counts parses back to
    itself, unless some name was compressed into a chain longer than the limit; then parsing reports
    too many pointers.
   */
  lemma RoundTrip(m: Message)
    requires ValidNames(m) && Encodable(m)
    ensures FromWireFormat(PutMessage(EMPTY, m).w) == if ChainsWithinLimit(m) then Ok(m) else Err(TooManyPointers)
  {
    hide ChainsWithinLimit, ReadSections, PutMessage, Header, ValidNames;
    HeaderFirst(m);
    HeaderFields(m, PutMessage(EMPTY, m).w);
    SectionsRead(m);
  }

  /** Eleven names can never exceed the limit, whatever they are. */
  lemma ElevenNamesSuffice(m: Message)
    requires ValidNames(m) && Encodable(m) && NameCount(m) <= POINTER_LIMIT + 1
    ensures WireFormat(m).Ok? && FromWireFormat(WireFormat(m).value) == Ok(m)
  {
    RoundTrip(m);
    FewChains(m);
  }
}
