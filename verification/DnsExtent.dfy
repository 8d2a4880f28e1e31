/** Where a message ends: octets after it are refused, and so is a message cut anywhere. */
module DnsExtent {
  import opened Wire
  import opened DnsName
  import opened DnsBuilder
  import opened DnsReader
  import opened DnsCompression
  import DnsRoundTrip

  /** The read ran out of input. */
  predicate RanOut<T>(r: Result<T>) {
    r == Err(EndOfFile) || r == Err(UnexpectedEndOfFile)
  }

  /** What is read from `part`, the front of a buffer, compared with what is read from the whole. */
  ghost predicate Agree<T(!new)>(part: Result<T>, whole: Result<T>) {
    && (part.Ok? ==> whole == part)
    && (whole.Ok? ==> part == whole || RanOut(part))
  }

  lemma {:induction false} LabelsCut(part: Bytes, whole: Bytes, pos: nat, limit: nat)
    requires part <= whole && ReadLabels(whole, pos, limit).Ok?
    ensures ReadLabels(part, pos, limit) == ReadLabels(whole, pos, limit) || RanOut(ReadLabels(part, pos, limit))
    decreases limit, |whole| - pos
  {
    hide PointerAt;
    if pos < |part| && part[pos] != 0 {
      assert part[pos] == whole[pos];
      if part[pos] < 0x40 {
        var next := pos + 1 + part[pos];
        if next <= |part| {
          assert part[pos + 1..next] == whole[pos + 1..next];
          LabelsCut(part, whole, next, limit);
        }
      } else if pos + 1 < |part| {
        PointerExtend(part, whole, pos);
        LabelsCut(part, whole, PointerAt(whole, pos), limit - 1);
      }
    }
  }

  lemma NameAgrees(part: Bytes, whole: Bytes, pos: nat)
    requires part <= whole
    ensures Agree(ReadName(part, pos), ReadName(whole, pos))
  {
    hide ReadLabels, CheckName;
    if ReadLabels(part, pos, POINTER_LIMIT).Ok? {
      ReadLabelsExtend(part, whole, pos, POINTER_LIMIT);
    }
    if ReadLabels(whole, pos, POINTER_LIMIT).Ok? {
      LabelsCut(part, whole, pos, POINTER_LIMIT);
    }
  }

  lemma FieldsSame(part: Bytes, whole: Bytes, pos: nat)
    requires part <= whole
    ensures pos + 2 <= |part| ==> GetU16(part, pos) == GetU16(whole, pos)
    ensures pos + 4 <= |part| ==> GetU32(part, pos) == GetU32(whole, pos)
  {
  }

  lemma QuestionAgrees(part: Bytes, whole: Bytes, pos: nat)
    requires part <= whole
    ensures Agree(ReadQuestion(part, pos), ReadQuestion(whole, pos))
  {
    hide ReadName, GetU16;
    NameAgrees(part, whole, pos);
    if ReadName(part, pos).Ok? {
      var end := ReadName(part, pos).value.1;
      FieldsSame(part, whole, end);
      FieldsSame(part, whole, end + 2);
    }
  }

  lemma RRAgrees(part: Bytes, whole: Bytes, pos: nat)
    requires part <= whole
    ensures Agree(ReadRR(part, pos), ReadRR(whole, pos))
  {
    hide ReadName, GetU16, GetU32;
    NameAgrees(part, whole, pos);
    if ReadName(part, pos).Ok? {
      var end := ReadName(part, pos).value.1;
      FieldsSame(part, whole, end);
      FieldsSame(part, whole, end + 2);
      FieldsSame(part, whole, end + 4);
      FieldsSame(part, whole, end + 8);
      if end + 10 <= |part| && end + 10 + GetU16(part, end + 8) <= |part| {
        var n := end + 10 + GetU16(part, end + 8);
        assert part[end + 10..n] == whole[end + 10..n];
      }
    }
  }

  lemma {:induction false} QuestionsAgree(part: Bytes, whole: Bytes, pos: nat, count: nat)
    requires part <= whole
    ensures Agree(ReadQuestions(part, pos, count), ReadQuestions(whole, pos, count))
    decreases count
  {
    hide ReadQuestion;
    if count > 0 {
      QuestionAgrees(part, whole, pos);
      if ReadQuestion(whole, pos).Ok? {
        QuestionsAgree(part, whole, ReadQuestion(whole, pos).value.1, count - 1);
      }
    }
  }

  lemma {:induction false} RRsAgree(part: Bytes, whole: Bytes, pos: nat, count: nat)
    requires part <= whole
    ensures Agree(ReadRRs(part, pos, count), ReadRRs(whole, pos, count))
    decreases count
  {
    hide ReadRR;
    if count > 0 {
      RRAgrees(part, whole, pos);
      if ReadRR(whole, pos).Ok? {
        RRsAgree(part, whole, ReadRR(whole, pos).value.1, count - 1);
      }
    }
  }

  lemma SectionsAgree(part: Bytes, whole: Bytes, id: U16, flags: U16, qd: U16, an: U16, ns: U16, ar: U16)
    requires part <= whole
    ensures Agree(ReadSections(part, id, flags, qd, an, ns, ar), ReadSections(whole, id, flags, qd, an, ns, ar))
  {
    hide ReadQuestions, ReadRRs;
    QuestionsAgree(part, whole, 12, qd);
    if ReadQuestions(whole, 12, qd).Ok? {
      var q := ReadQuestions(whole, 12, qd).value;
      RRsAgree(part, whole, q.1, an);
      if ReadRRs(whole, q.1, an).Ok? {
        var a := ReadRRs(whole, q.1, an).value;
        RRsAgree(part, whole, a.1, ns);
        if ReadRRs(whole, a.1, ns).Ok? {
          RRsAgree(part, whole, ReadRRs(whole, a.1, ns).value.1, ar);
        }
      }
    }
  }

  lemma MessageAgrees(part: Bytes, whole: Bytes)
    requires part <= whole
    ensures Agree(ReadMessage(part), ReadMessage(whole))
  {
    hide ReadSections, GetU16;
    if |part| >= 12 {
      forall k | k <= 10 ensures GetU16(part, k) == GetU16(whole, k) {
        FieldsSame(part, whole, k);
      }
      SectionsAgree(part, whole, GetU16(whole, 0), GetU16(whole, 2), GetU16(whole, 4), GetU16(whole, 6),
                    GetU16(whole, 8), GetU16(whole, 10));
    }
  }

  // ---------- a message ends inside its buffer ----------

  lemma {:induction false} QuestionsInside(buf: Bytes, pos: nat, count: nat)
    requires pos <= |buf| && ReadQuestions(buf, pos, count).Ok?
    ensures ReadQuestions(buf, pos, count).value.1 <= |buf|
    decreases count
  {
    hide ReadName;
    if count > 0 {
      QuestionsInside(buf, ReadQuestion(buf, pos).value.1, count - 1);
    }
  }

  lemma {:induction false} RRsInside(buf: Bytes, pos: nat, count: nat)
    requires pos <= |buf| && ReadRRs(buf, pos, count).Ok?
    ensures ReadRRs(buf, pos, count).value.1 <= |buf|
    decreases count
  {
    hide ReadName;
    if count > 0 {
      RRsInside(buf, ReadRR(buf, pos).value.1, count - 1);
    }
  }

  lemma MessageInside(buf: Bytes)
    requires ReadMessage(buf).Ok?
    ensures ReadMessage(buf).value.1 <= |buf|
  {
    hide ReadQuestions, ReadRRs;
    var q := ReadQuestions(buf, 12, GetU16(buf, 4)).value.1;
    QuestionsInside(buf, 12, GetU16(buf, 4));
    var a := ReadRRs(buf, q, GetU16(buf, 6)).value.1;
    RRsInside(buf, q, GetU16(buf, 6));
    var u := ReadRRs(buf, a, GetU16(buf, 8)).value.1;
    RRsInside(buf, a, GetU16(buf, 8));
    RRsInside(buf, u, GetU16(buf, 10));
  }

  // ---------- what parses is a whole message and nothing else ----------

  /** Octets after a message are refused, whatever they are. */
  lemma TrailingRefused(buf: Bytes, x: Bytes)
    requires FromWireFormat(buf).Ok? && x != []
    ensures FromWireFormat(buf + x) == Err(TrailingBytes)
  {
    hide ReadMessage;
    MessageAgrees(buf, buf + x);
    MessageInside(buf);
  }

  /** A message cut anywhere is refused as ending unexpectedly. */
  lemma CutRefused(buf: Bytes, n: nat)
    requires FromWireFormat(buf).Ok? && n < |buf|
    ensures FromWireFormat(buf[..n]) == Err(UnexpectedEndOfFile)
  {
    hide ReadMessage;
    MessageAgrees(buf[..n], buf);
    if ReadMessage(buf[..n]).Ok? {
      MessageInside(buf[..n]);
    }
  }

  /** The same for what was serialised: it parses as it stands, and neither longer nor shorter. */
  lemma SerialisedEndsExactly(m: Message, x: Bytes, n: nat)
    requires ValidNames(m) && Encodable(m) && LabelsOkIn(m) && DnsRoundTrip.ChainsWithinLimit(m)
    ensures var buf := WireFormat(m).value;
            && FromWireFormat(buf) == Ok(m)
            && (x != [] ==> FromWireFormat(buf + x) == Err(TrailingBytes))
            && (n < |buf| ==> FromWireFormat(buf[..n]) == Err(UnexpectedEndOfFile))
  {
    hide FromWireFormat, PutMessage, DnsRoundTrip.ChainsWithinLimit;
    DnsRoundTrip.RoundTrip(m);
    var buf := PutMessage(EMPTY, m).w;
    if x != [] {
      TrailingRefused(buf, x);
    }
    if n < |buf| {
      CutRefused(buf, n);
    }
  }
}
