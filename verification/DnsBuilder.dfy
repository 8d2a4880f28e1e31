/** Serialisation of messages with name compression. */
module DnsBuilder {
  import opened Wire
  import opened DnsName

  datatype Question = Question(name: Name, qtype: U16, qclass: U16)
  datatype RR = RR(name: Name, rtype: U16, rclass: U16, ttl: U32, data: Bytes)
  datatype Message = Message(id: U16, flags: U16, question: seq<Question>, answer: seq<RR>, authority: seq<RR>,
                             additional: seq<RR>)

  /** Offsets a pointer can hold: 14 bits. */
  const POINTER_MAX := 0x3fff

  /**
    The state of serialising: the octets so far, the offset of each cached suffix (keyed by its text),
    and, as history, how many pointers a reader follows from that offset.
   */
  datatype Builder = Builder(w: Bytes, cache: map<Bytes, nat>, chain: map<Bytes, nat>) {
    function Append(s: Bytes): Builder {
      this.(w := w + s)
    }
  }

  const EMPTY := Builder([], map[], map[])

  /** Is there a cached offset for this suffix that a pointer can hold? */
  predicate Hit(b: Builder, name: Name) {
    Text(name) in b.cache && b.cache[Text(name)] <= POINTER_MAX
  }

  /** The first label is written out and its suffix remembered. */
  function PutLabel(b: Builder, name: Name, depth: nat): Builder
    requires name != [] && LabelsOk(name)
  {
    Builder(b.w + ([|name[0]|] + name[0]), b.cache[Text(name) := |b.w|], b.chain[Text(name) := depth])
  }

  function PutLabels(b: Builder, name: Name, depth: nat): Builder
    requires LabelsOk(name)
    decreases |name|
  {
    if name == [] then b.Append([0])
    else if Hit(b, name) then b.Append(PutU16(0xc000 + b.cache[Text(name)]))
    else PutLabels(PutLabel(b, name, depth), name[1..], depth)
  }

  /** How many pointers a reader of `name`, written now, will follow: decided by its longest cached suffix. */
  function Depth(b: Builder, name: Name): nat
    decreases |name|
  {
    if name == [] then 0
    else if Hit(b, name) then 1 + (if Text(name) in b.chain then b.chain[Text(name)] else 0)
    else Depth(b, name[1..])
  }

  function PutName(b: Builder, name: Name): Builder
    requires LabelsOk(name)
  {
    PutLabels(b, name, Depth(b, name))
  }

  function FirstBadLabel(labels: Name): Option<Error> {
    if labels == [] then None
    else if labels[0] == [] then Some(ZeroLengthLabel)
    else if |labels[0]| > 63 then Some(LabelTooLong)
    else FirstBadLabel(labels[1..])
  }

  function CheckName(labels: Name): (r: Result<Name>)
    ensures r.Ok? <==> ValidName(labels)
    ensures r.Ok? ==> r.value == labels
  {
    BadLabelIffNotOk(labels);
    match FirstBadLabel(labels)
    case Some(e) => Err(e)
    case None => if WireLength(labels) > 255 then Err(NameTooLong) else Ok(labels)
  }

  lemma {:induction false} BadLabelIffNotOk(labels: Name)
    ensures FirstBadLabel(labels).None? <==> LabelsOk(labels)
  {
    if labels != [] {
      BadLabelIffNotOk(labels[1..]);
      assert labels == [labels[0]] + labels[1..];
    }
  }

  lemma {:induction false} FirstBadLabelIs(labels: Name, i: nat)
    requires i < |labels| && LabelsOk(labels[..i]) && (labels[i] == [] || |labels[i]| > 63)
    ensures FirstBadLabel(labels) == Some(if labels[i] == [] then ZeroLengthLabel else LabelTooLong)
    decreases i
  {
    if i > 0 {
      assert labels[..i][0] == labels[0] && labels[1..][..i - 1] == labels[..i][1..];
      FirstBadLabelIs(labels[1..], i - 1);
    }
  }

  /** The error tells the first label that is wrong, and the length only when every label is right. */
  lemma NameErrors(labels: Name)
    ensures forall i: nat {:trigger labels[i]} ::
              i < |labels| && LabelsOk(labels[..i]) && (labels[i] == [] || |labels[i]| > 63) ==>
                CheckName(labels) == Err(if labels[i] == [] then ZeroLengthLabel else LabelTooLong)
    ensures CheckName(labels) == Err(NameTooLong) <==> LabelsOk(labels) && WireLength(labels) > 255
  {
    BadLabelIffNotOk(labels);
    BadLabelErrors(labels);
    forall i: nat | i < |labels| && LabelsOk(labels[..i]) && (labels[i] == [] || |labels[i]| > 63)
      ensures CheckName(labels) == Err(if labels[i] == [] then ZeroLengthLabel else LabelTooLong)
    {
      FirstBadLabelIs(labels, i);
    }
  }

  lemma {:induction false} BadLabelErrors(labels: Name)
    ensures FirstBadLabel(labels) != Some(NameTooLong)
  {
    if labels != [] {
      BadLabelErrors(labels[1..]);
    }
  }

  // ---------- entries and messages ----------

  /** A section entry as the builder sees it: a name, compressed, and octets that follow it verbatim. */
  datatype Entry = Entry(name: Name, tail: Bytes)

  function QuestionEntry(q: Question): (e: Entry)
    ensures e.name == q.name
  {
    Entry(q.name, PutU16(q.qtype) + PutU16(q.qclass))
  }

  function RRFixed(rr: RR): Bytes {
    PutU16(rr.rtype) + PutU16(rr.rclass) + PutU32(rr.ttl)
  }

  function RREntry(rr: RR): (e: Entry)
    requires |rr.data| < 0x1_0000
    ensures e.name == rr.name
  {
    Entry(rr.name, RRFixed(rr) + PutU16(|rr.data|) + rr.data)
  }

  predicate DataFits(rrs: seq<RR>) {
    forall i :: 0 <= i < |rrs| ==> |rrs[i].data| < 0x1_0000
  }

  function QuestionEntries(qs: seq<Question>): (es: seq<Entry>)
    ensures |es| == |qs| && forall i :: 0 <= i < |qs| ==> es[i] == QuestionEntry(qs[i])
  {
    if qs == [] then [] else [QuestionEntry(qs[0])] + QuestionEntries(qs[1..])
  }

  function RREntries(rrs: seq<RR>): (es: seq<Entry>)
    requires DataFits(rrs)
    ensures |es| == |rrs| && forall i :: 0 <= i < |rrs| ==> es[i] == RREntry(rrs[i])
  {
    if rrs == [] then [] else [RREntry(rrs[0])] + RREntries(rrs[1..])
  }

  predicate NamesOk(es: seq<Entry>) {
    forall i :: 0 <= i < |es| ==> LabelsOk(es[i].name)
  }

  function PutEntry(b: Builder, e: Entry): Builder
    requires LabelsOk(e.name)
  {
    PutName(b, e.name).Append(e.tail)
  }

  function PutEntries(b: Builder, es: seq<Entry>): Builder
    requires NamesOk(es)
    decreases |es|
  {
    if es == [] then b else PutEntries(PutEntry(b, es[0]), es[1..])
  }

  /** All counts and RDATA lengths fit their 16-bit fields. */
  predicate Encodable(m: Message) {
    && |m.question| < 0x1_0000 && |m.answer| < 0x1_0000 && |m.authority| < 0x1_0000 && |m.additional| < 0x1_0000
    && DataFits(m.answer) && DataFits(m.authority) && DataFits(m.additional)
  }

  predicate LabelsOkIn(m: Message) {
    && (forall i :: 0 <= i < |m.question| ==> LabelsOk(m.question[i].name))
    && (forall i :: 0 <= i < |m.answer| ==> LabelsOk(m.answer[i].name))
    && (forall i :: 0 <= i < |m.authority| ==> LabelsOk(m.authority[i].name))
    && (forall i :: 0 <= i < |m.additional| ==> LabelsOk(m.additional[i].name))
  }

  predicate ValidNames(m: Message) {
    && (forall i :: 0 <= i < |m.question| ==> ValidName(m.question[i].name))
    && (forall i :: 0 <= i < |m.answer| ==> ValidName(m.answer[i].name))
    && (forall i :: 0 <= i < |m.authority| ==> ValidName(m.authority[i].name))
    && (forall i :: 0 <= i < |m.additional| ==> ValidName(m.additional[i].name))
  }

  function NameCount(m: Message): nat {
    |m.question| + |m.answer| + |m.authority| + |m.additional|
  }

  function Header(m: Message): (h: Bytes)
    requires Encodable(m)
    ensures |h| == 12
  {
    PutU16(m.id) + PutU16(m.flags)
    + PutU16(|m.question|) + PutU16(|m.answer|) + PutU16(|m.authority|) + PutU16(|m.additional|)
  }

  /** All entries in the order in which they are written. */
  function AllEntries(m: Message): (es: seq<Entry>)
    requires Encodable(m) && LabelsOkIn(m)
    ensures NamesOk(es) && |es| == NameCount(m)
  {
    QuestionEntries(m.question) + RREntries(m.answer) + RREntries(m.authority) + RREntries(m.additional)
  }

  function PutMessage(b: Builder, m: Message): Builder
    requires Encodable(m) && LabelsOkIn(m)
  {
    PutEntries(b.Append(Header(m)), AllEntries(m))
  }

  lemma {:induction false} PutEntriesConcat(b: Builder, x: seq<Entry>, y: seq<Entry>)
    requires NamesOk(x) && NamesOk(y)
    ensures NamesOk(x + y) && PutEntries(b, x + y) == PutEntries(PutEntries(b, x), y)
    decreases |x|
  {
    hide PutEntry;
    if x == [] {
      assert x + y == y;
    } else {
      PutEntriesConcat(PutEntry(b, x[0]), x[1..], y);
      assert (x + y)[1..] == x[1..] + y;
    }
  }

  /** Writing a message section by section. */
  lemma PutMessageSections(b: Builder, m: Message)
    requires Encodable(m) && LabelsOkIn(m)
    ensures && NamesOk(QuestionEntries(m.question)) && NamesOk(RREntries(m.answer))
            && NamesOk(RREntries(m.authority)) && NamesOk(RREntries(m.additional))
            && PutMessage(b, m) ==
               PutEntries(PutEntries(PutEntries(PutEntries(b.Append(Header(m)), QuestionEntries(m.question)),
                                                RREntries(m.answer)), RREntries(m.authority)), RREntries(m.additional))
  {
    hide PutEntries, QuestionEntry, RREntry;
    var b0 := b.Append(Header(m));
    var q, a, u, d := QuestionEntries(m.question), RREntries(m.answer), RREntries(m.authority), RREntries(m.additional);
    SectionNamesOk(m);
    PutEntriesConcat(b0, q, a);
    PutEntriesConcat(b0, q + a, u);
    PutEntriesConcat(b0, q + a + u, d);
  }

  lemma SectionNamesOk(m: Message)
    requires Encodable(m) && LabelsOkIn(m)
    ensures NamesOk(QuestionEntries(m.question)) && NamesOk(RREntries(m.answer))
    ensures NamesOk(RREntries(m.authority)) && NamesOk(RREntries(m.additional))
  {
  }

  function WireFormat(m: Message): Result<Bytes>
    requires LabelsOkIn(m)
  {
    if Encodable(m) then Ok(PutMessage(EMPTY, m).w) else Err(IntegerOverflow)
  }
}
