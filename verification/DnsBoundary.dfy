/** Where the round trip stops: a family of messages whose chains grow by one pointer per name. */
module DnsBoundary {
  import opened Wire
  import opened DnsName
  import opened DnsBuilder
  import opened DnsReader
  import opened DnsCompression
  import opened DnsRoundTrip

  /** "1", "2.1", "3.2.1", and so on: each name adds one label in front of the one before. */
  function Stair(k: nat): (name: Name)
    requires k < 128
    ensures |name| == k && LabelsOk(name) && WireLength(name) == 2 * k + 1
  {
    if k == 0 then []
    else
      var name := [[k]] + Stair(k - 1);
      assert name[1..] == Stair(k - 1);
      name
  }

  /** Questions for the stairs after the `k`-th up to the `n`-th. */
  function StairQuestions(k: nat, n: nat): (qs: seq<Question>)
    requires k <= n < 128
    ensures |qs| == n - k
    ensures forall i :: 0 <= i < |qs| ==> ValidName(qs[i].name)
    decreases n - k
  {
    if k == n then [] else [Question(Stair(k + 1), 16, 1)] + StairQuestions(k + 1, n)
  }

  function Staircase(n: nat): (m: Message)
    requires n < 128
    ensures ValidNames(m) && Encodable(m) && LabelsOkIn(m) && NameCount(m) == n
  {
    Message(0, 0, StairQuestions(0, n), [], [], [])
  }

  /** After `k` stairs the last one is cached behind `k - 1` pointers and no higher one is cached. */
  ghost predicate Climbed(b: Builder, k: nat)
    requires k < 128
  {
    && |b.w| <= 12 + 8 * k
    && (k > 0 ==> Hit(b, Stair(k)) && Text(Stair(k)) in b.chain && b.chain[Text(Stair(k))] == k - 1)
    && forall j :: k < j < 128 ==> Text(Stair(j)) !in b.cache
  }

  lemma StairTail(k: nat)
    requires 0 < k < 128
    ensures Stair(k)[1..] == Stair(k - 1) && |Stair(k)[0]| == 1
  {
  }

  /** Writing the next stair: its first label, then a pointer to the stair below, or the end of the name. */
  lemma ClimbWrites(b: Builder, k: nat)
    requires k + 1 < 128 && Climbed(b, k)
    ensures var name := Stair(k + 1);
            var b1, c := PutLabel(b, name, k), PutName(b, name);
            && Depth(b, name) == k
            && c.cache == b1.cache && c.chain == b1.chain && |c.w| <= |b.w| + 4
  {
    hide Text, Stair;
    var name := Stair(k + 1);
    StairTail(k + 1);
    var b1 := PutLabel(b, name, k);
    PutLabelFrame(b, name, k, Stair(k));
    assert Depth(b, Stair(k)) == k;
    assert PutName(b, name) == PutLabels(b1, Stair(k), k);
  }

  lemma ClimbOne(b: Builder, k: nat, tail: Bytes)
    requires k + 1 < 128 && Climbed(b, k) && |tail| == 4
    ensures Depth(b, Stair(k + 1)) == k
    ensures Climbed(PutEntry(b, Entry(Stair(k + 1), tail)), k + 1)
  {
    hide Text, Stair, PutLabels, Depth;
    var name := Stair(k + 1);
    ClimbWrites(b, k);
    forall j | k + 1 < j < 128 ensures Text(Stair(j)) !in PutLabel(b, name, k).cache {
      PutLabelFrame(b, name, k, Stair(j));
    }
  }

  lemma {:induction false} StairChains(b: Builder, k: nat, n: nat)
    requires k <= n < 128 && Climbed(b, k) && NamesOk(QuestionEntries(StairQuestions(k, n)))
    ensures ChainsOk(b, QuestionEntries(StairQuestions(k, n))) <==> k == n || n <= POINTER_LIMIT + 1
    decreases n - k
  {
    hide Climbed, PutEntry, Depth, Stair;
    if k < n {
      var qs := StairQuestions(k, n);
      var es := QuestionEntries(qs);
      assert qs[1..] == StairQuestions(k + 1, n);
      assert es[1..] == QuestionEntries(StairQuestions(k + 1, n));
      ClimbOne(b, k, es[0].tail);
      StairChains(PutEntry(b, es[0]), k + 1, n);
    }
  }

  /** The bound of eleven names is tight: the staircase round-trips up to eleven and fails from twelve on. */
  lemma StaircaseBoundary(n: nat)
    requires n < 128
    ensures FromWireFormat(WireFormat(Staircase(n)).value) ==
            if n <= 11 then Ok(Staircase(n)) else Err(TooManyPointers)
  {
    var m := Staircase(n);
    assert AllEntries(m) == QuestionEntries(m.question);
    StairChains(EMPTY.Append(Header(m)), 0, n);
    RoundTrip(m);
  }

  // ---------- what parsing guarantees ----------

  lemma {:induction false} ReadQuestionsShape(buf: Bytes, pos: nat, count: nat)
    ensures var r := ReadQuestions(buf, pos, count);
            r.Ok? ==> |r.value.0| == count && forall i :: 0 <= i < count ==> ValidName(r.value.0[i].name)
    decreases count
  {
    if count > 0 && ReadQuestion(buf, pos).Ok? {
      ReadQuestionsShape(buf, ReadQuestion(buf, pos).value.1, count - 1);
    }
  }

  lemma {:induction false} ReadRRsShape(buf: Bytes, pos: nat, count: nat)
    ensures var r := ReadRRs(buf, pos, count);
            r.Ok? ==>
              && |r.value.0| == count && DataFits(r.value.0)
              && forall i :: 0 <= i < count ==> ValidName(r.value.0[i].name)
    decreases count
  {
    hide ReadRR;
    if count > 0 && ReadRR(buf, pos).Ok? {
      ReadRRsShape(buf, ReadRR(buf, pos).value.1, count - 1);
    }
  }

  /** Whatever parses can be serialised again, without error and without meeting the label panic. */
  lemma ParsedIsEncodable(buf: Bytes)
    ensures var r := FromWireFormat(buf);
            r.Ok? ==> ValidNames(r.value) && Encodable(r.value) && LabelsOkIn(r.value) && WireFormat(r.value).Ok?
  {
    if FromWireFormat(buf).Ok? {
      var q := ReadQuestions(buf, 12, GetU16(buf, 4)).value;
      var a := ReadRRs(buf, q.1, GetU16(buf, 6)).value;
      var u := ReadRRs(buf, a.1, GetU16(buf, 8)).value;
      ReadQuestionsShape(buf, 12, GetU16(buf, 4));
      ReadRRsShape(buf, q.1, GetU16(buf, 6));
      ReadRRsShape(buf, a.1, GetU16(buf, 8));
      ReadRRsShape(buf, u.1, GetU16(buf, 10));
    }
  }

  /** Parsing what was serialised from a parse gives the same message, under the same boundary. */
  lemma ReparseIsStable(buf: Bytes, m: Message)
    requires FromWireFormat(buf) == Ok(m)
    ensures && Encodable(m) && LabelsOkIn(m)
            && FromWireFormat(WireFormat(m).value) == if ChainsWithinLimit(m) then Ok(m) else Err(TooManyPointers)
  {
    ParsedIsEncodable(buf);
    RoundTrip(m);
  }
}
