/** Weighted lists such as "2*apple,orange": the tokenizer, the parser and the sampler. */
module WeightedList {
  import opened Wire
  import opened Text

  const COMMA: Byte := 44
  const ASTERISK: Byte := 42
  const ESCAPE: Byte := 92

  /** `Overrun` is the panic of the tokenizer: it indexes past a string that ends in the middle of an escape. */
  datatype Token = End | Comma | Asterisk | Word(text: Bytes) | Overrun

  datatype Entry = Entry(weight: U32, name: Bytes)

  datatype Problem = Unexpected(token: Token) | BadWeight(text: Bytes)

  datatype Parsed = Entries(entries: seq<Entry>) | Refused(problem: Problem) | Panicked

  // ---------- tokens ----------

  predicate IsSeparator(b: Byte) {
    b == COMMA || b == ASTERISK
  }

  predicate EndsWord(rest: Bytes) {
    rest == [] || IsSeparator(rest[0])
  }

  /** A text and the string after it; none when the string ends in the middle of an escape. */
  type WordRead = Option<(Bytes, Bytes)>

  function Prepend(b: Byte, r: WordRead): WordRead {
    match r
    case Some((text, rest)) => Some(([b] + text, rest))
    case None => None
  }

  /** The text up to the next unescaped comma or asterisk, and what follows. */
  function WordAt(s: Bytes): (r: WordRead)
    ensures r.Some? ==> |r.value.1| <= |s| && EndsWord(r.value.1) && (!EndsWord(s) ==> |r.value.1| < |s|)
  {
    if EndsWord(s) then Some(([], s))
    else if s[0] == ESCAPE then if |s| == 1 then None else Prepend(s[1], WordAt(s[2..]))
    else Prepend(s[0], WordAt(s[1..]))
  }

  function Next(s: Bytes): (r: (Token, Bytes))
    ensures |r.1| <= |s| && (r.0.End? <==> s == []) && (s != [] ==> |r.1| < |s|)
    ensures (r.0.Word? ==> EndsWord(r.1)) && (r.0.Overrun? ==> !EndsWord(s))
  {
    if s == [] then (End, s)
    else if s[0] == COMMA then (Comma, s[1..])
    else if s[0] == ASTERISK then (Asterisk, s[1..])
    else
      match WordAt(s)
      case Some((text, rest)) => (Word(text), rest)
      case None => (Overrun, [])
  }

  /** A text of which `text` has been read. */
  ghost function Continued(text: Bytes, r: WordRead): WordRead {
    match r
    case Some((more, rest)) => Some((text + more, rest))
    case None => None
  }

  lemma ContinuedStep(text: Bytes, b: Byte, r: WordRead)
    ensures Continued(text, Prepend(b, r)) == Continued(text + [b], r)
  {
    if r.Some? {
      Associative(text, [b], r.value.0);
    }
  }

  lemma ContinuedStart(r: WordRead)
    ensures Continued([], r) == r
  {
    if r.Some? {
      assert [] + r.value.0 == r.value.0;
    }
  }

  method NextToken(s: Bytes, i: nat) returns (t: Token, j: nat)
    requires i <= |s|
    ensures j <= |s| && (t, s[j..]) == Next(s[i..])
  {
    hide WordAt;
    j := i;
    if !(j < |s|) {
      return End, j;
    }
    if s[j] == COMMA {
      j := j + 1;
      return Comma, j;
    }
    if s[j] == ASTERISK {
      j := j + 1;
      return Asterisk, j;
    }
    t, j := ReadText(s, i);
    assert j == |s| ==> s[j..] == [];
  }

  lemma TextStep(s: Bytes, j: nat)
    requires j < |s| && !IsSeparator(s[j])
    ensures WordAt(s[j..]) ==
            if s[j] != ESCAPE then Prepend(s[j], WordAt(s[j + 1..]))
            else if j + 1 == |s| then None
            else Prepend(s[j + 1], WordAt(s[j + 2..]))
  {
    var rest := s[j..];
    assert rest[1..] == s[j + 1..] && (|rest| > 1 ==> rest[2..] == s[j + 2..]);
  }

  /** One turn of the loop: `text` has been read, and what there is in all does not change. */
  lemma ReadTurn(s: Bytes, j: nat, text: Bytes)
    requires j < |s| && !IsSeparator(s[j])
    ensures Continued(text, WordAt(s[j..])) ==
            if s[j] != ESCAPE then Continued(text + [s[j]], WordAt(s[j + 1..]))
            else if j + 1 == |s| then None
            else Continued(text + [s[j + 1]], WordAt(s[j + 2..]))
  {
    hide WordAt;
    TextStep(s, j);
    if s[j] != ESCAPE {
      ContinuedStep(text, s[j], WordAt(s[j + 1..]));
    } else if j + 1 < |s| {
      ContinuedStep(text, s[j + 1], WordAt(s[j + 2..]));
    }
  }

  lemma ReadEnd(s: Bytes, j: nat, text: Bytes)
    requires j <= |s| && (j == |s| || IsSeparator(s[j]))
    ensures Continued(text, WordAt(s[j..])) == Some((text, s[j..]))
  {
    assert text + [] == text;
  }

  /** The loop that collects a text. */
  method ReadText(s: Bytes, i: nat) returns (t: Token, j: nat)
    requires i <= |s|
    ensures j <= |s|
    ensures match WordAt(s[i..])
            case Some((text, rest)) => t == Word(text) && s[j..] == rest
            case None => t == Overrun && j == |s|
  {
    ghost var r := WordAt(s[i..]);
    var text: Bytes := [];
    j := i;
    ContinuedStart(r);
    hide WordAt, Continued, EndsWord;
    while j < |s| && s[j] != COMMA && s[j] != ASTERISK
      invariant j <= |s| && r == Continued(text, WordAt(s[j..]))
    {
      ReadTurn(s, j, text);
      if s[j] == ESCAPE {
        j := j + 1;
        if !(j < |s|) {
          return Overrun, j;
        }
      }
      text := text + [s[j]];
      j := j + 1;
    }
    ReadEnd(s, j, text);
    t := Word(text);
  }


  // ---------- entries ----------

  /** A decimal number of at most 32 bits. */
  function ParseWeight(s: Bytes): Option<U32> {
    match Unsigned(s, 10)
    case Some(n) => if n < 0x1_0000_0000 then Some(n) else None
    case None => None
  }

  function Add(e: Entry, r: Parsed): Parsed {
    if r.Entries? then Entries([e] + r.entries) else r
  }

  /** A word is needed and this token is there instead. */
  function NoWord(t: Token): Parsed {
    if t.Overrun? then Panicked else Refused(Unexpected(t))
  }

  /** At the beginning of an entry. */
  function ParseEntry(s: Bytes): Parsed
    decreases |s|, 2
  {
    var (t, rest) := Next(s);
    if !t.Word? then NoWord(t)
    else if Next(rest).0.Asterisk? then ParseName(t.text, Next(rest).1)
    else ParseEnd([49], t.text, rest)
  }

  /** After a weight and an asterisk. */
  function ParseName(weight: Bytes, s: Bytes): Parsed
    decreases |s|, 1
  {
    var (t, rest) := Next(s);
    if t.Word? then ParseEnd(weight, t.text, rest) else NoWord(t)
  }

  /** After a whole entry. */
  function ParseEnd(weight: Bytes, name: Bytes, s: Bytes): Parsed
    requires EndsWord(s)
    decreases |s|, 0
  {
    match ParseWeight(weight)
    case None => Refused(BadWeight(weight))
    case Some(w) =>
      var (t, rest) := Next(s);
      match t
      case End => Entries([Entry(w, name)])
      case Comma => Add(Entry(w, name), ParseEntry(rest))
      case Asterisk => Refused(Unexpected(t))
  }

  datatype State = BeginEntry | Name | EndEntry | Done | UnexpectedToken

  /** What the machine still has to produce in each of its states. */
  ghost function Remaining(state: State, weight: Bytes, name: Bytes, t: Token, s: Bytes): Parsed
    requires state.EndEntry? ==> EndsWord(s)
  {
    match state
    case BeginEntry => ParseEntry(s)
    case Name => ParseName(weight, s)
    case EndEntry => ParseEnd(weight, name, s)
    case Done => Entries([])
    case UnexpectedToken => Refused(Unexpected(t))
  }

  ghost function Prefixed(done: seq<Entry>, r: Parsed): Parsed {
    if r.Entries? then Entries(done + r.entries) else r
  }

  lemma PrefixedAdd(done: seq<Entry>, e: Entry, r: Parsed)
    ensures Prefixed(done, Add(e, r)) == Prefixed(done + [e], r)
  {
    if r.Entries? {
      assert done + ([e] + r.entries) == done + [e] + r.entries;
    }
  }

  function StateRank(state: State): nat {
    match state
    case BeginEntry => 4
    case Name => 3
    case EndEntry => 2
    case UnexpectedToken => 1
    case Done => 0
  }

  /** The state machine; weights and names are collected in parallel. A panic of the tokenizer ends it. */
  method ParseWeightedList(s: Bytes) returns (r: Parsed)
    ensures r == ParseEntry(s)
  {
    hide ParseWeight;
    var i: nat := 0;
    var done: seq<Entry> := [];
    var weight: Bytes, name: Bytes, t: Token := [], [], End;
    var state := BeginEntry;
    assert s[0..] == s && (ParseEntry(s).Entries? ==> [] + ParseEntry(s).entries == ParseEntry(s).entries);
    while state != Done
      invariant i <= |s| && (state.EndEntry? ==> EndsWord(s[i..]))
      invariant Prefixed(done, Remaining(state, weight, name, t, s[i..])) == ParseEntry(s)
      decreases |s| - i, StateRank(state)
    {
      match state {
        case BeginEntry =>
          t, i := NextToken(s, i);
          if t.Overrun? {
            return Panicked;
          }
          if t.Word? {
            var peeked, after := NextToken(s, i);
            if peeked.Asterisk? {
              i := after;
              weight := t.text;
              state := Name;
            } else {
              weight := [49];
              name := t.text;
              state := EndEntry;
            }
          } else {
            state := UnexpectedToken;
          }
        case Name =>
          t, i := NextToken(s, i);
          if t.Overrun? {
            return Panicked;
          }
          if t.Word? {
            name := t.text;
            state := EndEntry;
          } else {
            state := UnexpectedToken;
          }
        case EndEntry =>
          var w := ParseWeight(weight);
          if w.None? {
            return Refused(BadWeight(weight));
          }
          ghost var before := done;
          t, i := NextToken(s, i);
          done := done + [Entry(w.value, name)];
          match t {
            case End =>
              assert done + [] == done;
              state := Done;
            case Comma =>
              PrefixedAdd(before, Entry(w.value, name), ParseEntry(s[i..]));
              state := BeginEntry;
            case _ =>
              state := UnexpectedToken;
          }
        case UnexpectedToken =>
          return Refused(Unexpected(t));
        case Done =>
      }
    }
    assert done + [] == done;
    return Entries(done);
  }

  // ---------- when the tokenizer panics ----------

  /** The string ends in the middle of an escape. */
  predicate Dangling(s: Bytes) {
    s != [] && if s[0] == ESCAPE then |s| == 1 || Dangling(s[2..]) else Dangling(s[1..])
  }

  /** The string up to its last unescaped comma or asterisk, which it includes. */
  function BeforeLast(s: Bytes): Bytes {
    if s == [] then []
    else if IsSeparator(s[0]) then [s[0]] + BeforeLast(s[1..])
    else
      var n := if s[0] == ESCAPE && |s| > 1 then 2 else 1;
      var more := BeforeLast(s[n..]);
      if more == [] then [] else s[..n] + more
  }

  lemma {:induction false} WordBefore(s: Bytes)
    requires Dangling(s)
    ensures match WordAt(s)
            case None => BeforeLast(s) == []
            case Some((text, rest)) =>
              && Dangling(rest) && BeforeLast(rest) != [] && BeforeLast(s) != []
              && WordAt(BeforeLast(s)) == Some((text, BeforeLast(rest)))
              && (!EndsWord(s) ==> !EndsWord(BeforeLast(s)))
  {
    if !EndsWord(s) && s != [ESCAPE] {
      var n := if s[0] == ESCAPE then 2 else 1;
      var more := BeforeLast(s[n..]);
      WordBefore(s[n..]);
      if more != [] {
        assert (s[..n] + more)[n..] == more;
      }
    }
  }

  /** Cutting off the last word leaves the tokens before it as they are. */
  lemma TokenBefore(s: Bytes)
    requires Dangling(s)
    ensures var (t, rest) := Next(s);
            s != [] &&
            if t.Overrun? then BeforeLast(s) == []
            else Dangling(rest) && Next(BeforeLast(s)) == (t, BeforeLast(rest))
  {
    hide WordAt;
    WordBefore(s);
    if EndsWord(s) {
      assert BeforeLast(s)[1..] == BeforeLast(s[1..]);
    }
  }

  lemma {:induction false} WordWhole(s: Bytes)
    requires !Dangling(s)
    ensures WordAt(s).Some? && !Dangling(WordAt(s).value.1)
  {
    if !EndsWord(s) {
      WordWhole(s[if s[0] == ESCAPE then 2 else 1..]);
    }
  }

  lemma TokenWhole(s: Bytes)
    requires !Dangling(s)
    ensures !Next(s).0.Overrun? && !Dangling(Next(s).1)
  {
    hide WordAt;
    WordWhole(s);
  }

  const NO_WORD_AT_END := Refused(Unexpected(End))

  /**
    The parser panics exactly when the string ends in the middle of an escape and nothing before its last word
    is refused, that is, when what precedes the word is refused only for ending where a word is needed.
   */
  lemma {:induction false} EntryPanics(s: Bytes)
    ensures ParseEntry(s) == Panicked <==> Dangling(s) && ParseEntry(BeforeLast(s)) == NO_WORD_AT_END
    decreases |s|, 2
  {
    hide WordAt, Dangling, BeforeLast, ParseWeight;
    var (t, rest) := Next(s);
    if Dangling(s) {
      TokenBefore(s);
      if t.Word? {
        TokenBefore(rest);
      }
    } else {
      TokenWhole(s);
      if t.Word? {
        TokenWhole(rest);
      }
    }
    if t.Word? {
      if Next(rest).0.Asterisk? {
        NamePanics(t.text, Next(rest).1);
      } else {
        EndPanics([49], t.text, rest);
      }
    }
  }

  lemma {:induction false} NamePanics(weight: Bytes, s: Bytes)
    ensures ParseName(weight, s) == Panicked <==> Dangling(s) && ParseName(weight, BeforeLast(s)) == NO_WORD_AT_END
    decreases |s|, 1
  {
    hide WordAt, Dangling, BeforeLast, ParseWeight;
    var (t, rest) := Next(s);
    if Dangling(s) {
      TokenBefore(s);
    } else {
      TokenWhole(s);
    }
    if t.Word? {
      EndPanics(weight, t.text, rest);
    }
  }

  lemma {:induction false} EndPanics(weight: Bytes, name: Bytes, s: Bytes)
    requires EndsWord(s)
    ensures Dangling(s) ==> EndsWord(BeforeLast(s))
    ensures ParseEnd(weight, name, s) == Panicked <==>
            Dangling(s) && ParseEnd(weight, name, BeforeLast(s)) == NO_WORD_AT_END
    decreases |s|, 0
  {
    hide WordAt, Dangling, ParseWeight;
    if Dangling(s) {
      TokenBefore(s);
    } else {
      TokenWhole(s);
    }
    hide BeforeLast;
    if Next(s).0.Comma? {
      EntryPanics(Next(s).1);
    }
  }

  // ---------- printing ----------

  predicate IsSpecial(b: Byte) {
    b == COMMA || b == ASTERISK || b == ESCAPE
  }

  function Escaped(name: Bytes): Bytes {
    if name == [] then []
    else (if IsSpecial(name[0]) then [ESCAPE, name[0]] else [name[0]]) + Escaped(name[1..])
  }

  lemma WordStep(b: Byte, more: Bytes)
    ensures var s := if IsSpecial(b) then [ESCAPE, b] + more else [b] + more;
            WordAt(s) == Prepend(b, WordAt(more))
  {
    if IsSpecial(b) {
      assert ([ESCAPE, b] + more)[2..] == more;
    } else {
      assert ([b] + more)[1..] == more;
    }
  }

  /** An escaped text reads back as one word, whatever it contains. */
  lemma {:induction false} EscapedReads(name: Bytes, rest: Bytes)
    requires EndsWord(rest)
    ensures WordAt(Escaped(name) + rest) == Some((name, rest))
  {
    if name == [] {
      assert Escaped(name) + rest == rest;
    } else {
      hide WordAt;
      EscapedReads(name[1..], rest);
      var more := Escaped(name[1..]) + rest;
      WordStep(name[0], more);
      Associative(if IsSpecial(name[0]) then [ESCAPE, name[0]] else [name[0]], Escaped(name[1..]), rest);
      assert [name[0]] + name[1..] == name;
    }
  }

  lemma {:induction false} EscapedDigits(s: Bytes)
    requires forall i :: 0 <= i < |s| ==> 48 <= s[i] <= 57
    ensures Escaped(s) == s
  {
    if s != [] {
      EscapedDigits(s[1..]);
      assert s == [s[0]] + s[1..];
    }
  }

  lemma WordReads(name: Bytes, rest: Bytes)
    requires name != [] && EndsWord(rest)
    ensures Next(Escaped(name) + rest) == (Word(name), rest)
  {
    EscapedReads(name, rest);
    var s := Escaped(name) + rest;
    assert s[0] == Escaped(name)[0];
  }

  /** One entry; a weight of 1 may be left out. */
  function Printed(e: Entry, terse: bool): Bytes {
    if terse && e.weight == 1 then Escaped(e.name) else Decimal(e.weight) + ([ASTERISK] + Escaped(e.name))
  }

  function Print(es: seq<Entry>, terse: bool): Bytes
    requires es != []
  {
    if |es| == 1 then Printed(es[0], terse) else Printed(es[0], terse) + ([COMMA] + Print(es[1..], terse))
  }

  lemma WeightParses(w: U32)
    ensures ParseWeight(Decimal(w)) == Some(w)
    ensures Escaped(Decimal(w)) == Decimal(w)
    ensures w == 1 ==> Decimal(w) == [49]
  {
    DecimalParses(w);
    EscapedDigits(Decimal(w));
  }

  lemma EndReads(e: Entry, rest: Bytes)
    requires rest == [] || rest[0] == COMMA
    ensures ParseEnd(Decimal(e.weight), e.name, rest) ==
            if rest == [] then Entries([e]) else Add(e, ParseEntry(rest[1..]))
  {
    hide ParseWeight, Decimal, ParseEntry;
    WeightParses(e.weight);
  }

  /** A printed entry, followed by nothing or a comma, parses as that entry. */
  lemma EntryReads(e: Entry, terse: bool, rest: Bytes)
    requires e.name != [] && (rest == [] || rest[0] == COMMA)
    ensures ParseEntry(Printed(e, terse) + rest) == if rest == [] then Entries([e]) else Add(e, ParseEntry(rest[1..]))
  {
    hide WordAt, Decimal, Escaped, ParseEnd, ParseWeight;
    WordReads(e.name, rest);
    WeightParses(e.weight);
    EndReads(e, rest);
    var named := Escaped(e.name) + rest;
    if terse && e.weight == 1 {
      TerseReads(e.name, rest);
    } else {
      var digits := Decimal(e.weight);
      WeightedReads(digits, e.name, rest);
      Associative(digits, [ASTERISK] + Escaped(e.name), rest);
      Associative([ASTERISK], Escaped(e.name), rest);
    }
  }

  lemma TerseReads(name: Bytes, rest: Bytes)
    requires name != [] && (rest == [] || rest[0] == COMMA)
    ensures ParseEntry(Escaped(name) + rest) == ParseEnd([49], name, rest)
  {
    hide WordAt, Escaped, ParseEnd;
    WordReads(name, rest);
  }

  lemma WeightedReads(digits: Bytes, name: Bytes, rest: Bytes)
    requires digits != [] && Escaped(digits) == digits && name != [] && EndsWord(rest)
    ensures var s := digits + ([ASTERISK] + (Escaped(name) + rest));
            ParseEntry(s) == ParseEnd(digits, name, rest)
  {
    hide WordAt, Escaped, ParseEnd;
    WordReads(name, rest);
    var named := Escaped(name) + rest;
    var more := [ASTERISK] + named;
    assert more[1..] == named;
    WordReads(digits, more);
  }

  /** Every non-empty list with non-empty names parses back from its printed form. */
  lemma {:induction false} PrintRoundTrip(es: seq<Entry>, terse: bool)
    requires es != [] && forall i :: 0 <= i < |es| ==> es[i].name != []
    ensures ParseEntry(Print(es, terse)) == Entries(es)
    decreases |es|
  {
    hide ParseEntry, Printed;
    if |es| == 1 {
      EntryReads(es[0], terse, []);
      assert Printed(es[0], terse) + [] == Printed(es[0], terse) && es == [es[0]];
    } else {
      PrintRoundTrip(es[1..], terse);
      var rest := [COMMA] + Print(es[1..], terse);
      assert rest[1..] == Print(es[1..], terse);
      EntryReads(es[0], terse, rest);
      assert es == [es[0]] + es[1..];
    }
  }

  // ---------- the language of lists ----------

  function Tokens(s: Bytes): seq<Token>
    decreases |s|
  {
    var (t, rest) := Next(s);
    if t.End? then [] else [t] + if t.Overrun? then [] else Tokens(rest)
  }

  /** The value of decimal digits. */
  function Value(text: Bytes): int {
    if text == [] then 0 else 10 * Value(text[..|text| - 1]) + text[|text| - 1] - 48
  }

  /** A decimal number of at most 32 bits, written with digits only. */
  predicate IsWeight(text: Bytes, w: int) {
    text != [] && (forall i :: 0 <= i < |text| ==> 48 <= text[i] <= 57) && Value(text) == w && 0 <= w < 0x1_0000_0000
  }

  /** Entries separated by commas: a name, which weighs 1, or a weight, an asterisk and a name. */
  ghost predicate Spells(ts: seq<Token>, es: seq<Entry>)
    decreases |ts|
  {
    && es != [] && ts != [] && ts[0].Word?
    && ((es[0] == Entry(1, ts[0].text) && Follows(ts[1..], es[1..]))
        || (|ts| >= 3 && ts[1].Asterisk? && ts[2].Word? && IsWeight(ts[0].text, es[0].weight)
            && es[0].name == ts[2].text && Follows(ts[3..], es[1..])))
  }

  ghost predicate Follows(ts: seq<Token>, es: seq<Entry>)
    decreases |ts|
  {
    if ts == [] then es == [] else ts[0].Comma? && Spells(ts[1..], es)
  }

  lemma {:induction false} DigitsValue(text: Bytes)
    ensures match Digits(text, 10)
            case Some(n) => (forall i :: 0 <= i < |text| ==> 48 <= text[i] <= 57) && Value(text) == n
            case None => exists i :: 0 <= i < |text| && !(48 <= text[i] <= 57)
  {
    if text != [] {
      var fore := text[..|text| - 1];
      DigitsValue(fore);
      assert forall i :: 0 <= i < |fore| ==> text[i] == fore[i];
    }
  }

  lemma WeightIff(text: Bytes, w: int)
    ensures IsWeight(text, w) <==> ParseWeight(text) == Some(w)
  {
    DigitsValue(text);
  }

  /** What has to follow a weight and an asterisk. */
  ghost predicate NameSpells(weight: Bytes, ts: seq<Token>, es: seq<Entry>) {
    && es != [] && ts != [] && ts[0].Word?
    && IsWeight(weight, es[0].weight) && es[0].name == ts[0].text && Follows(ts[1..], es[1..])
  }

  /** What has to follow a whole entry. */
  ghost predicate EndSpells(weight: Bytes, name: Bytes, ts: seq<Token>, es: seq<Entry>) {
    es != [] && IsWeight(weight, es[0].weight) && es[0].name == name && Follows(ts, es[1..])
  }

  lemma OneWeighs(w: int)
    ensures IsWeight([49], w) <==> w == 1
  {
    WeightIff([49], w);
    assert [49][..0] == [];
    assert Digits([49], 10) == Some(1);
  }

  /** The parser accepts exactly the lists of the language, with the entries they spell. */
  lemma {:induction false} AcceptsExactly(s: Bytes, es: seq<Entry>)
    ensures ParseEntry(s) == Entries(es) <==> Spells(Tokens(s), es)
    decreases |s|, 2
  {
    hide WordAt, ParseWeight, IsWeight;
    var (t, rest) := Next(s);
    if t.Word? {
      var peeked := Next(rest).0;
      if peeked.Asterisk? {
        NameAccepts(t.text, Next(rest).1, es);
        assert Tokens(s)[1..] == Tokens(rest) && Tokens(rest)[1..] == Tokens(Next(rest).1);
        if Tokens(Next(rest).1) != [] {
          assert Tokens(s)[3..] == Tokens(Next(rest).1)[1..];
        }
      } else {
        EndAccepts([49], t.text, rest, es);
        assert Tokens(s)[1..] == Tokens(rest);
        if es != [] {
          OneWeighs(es[0].weight);
        }
      }
    }
  }

  lemma {:induction false} NameAccepts(weight: Bytes, s: Bytes, es: seq<Entry>)
    ensures ParseName(weight, s) == Entries(es) <==> NameSpells(weight, Tokens(s), es)
    decreases |s|, 1
  {
    hide WordAt, ParseWeight, IsWeight;
    var (t, rest) := Next(s);
    if t.Word? {
      EndAccepts(weight, t.text, rest, es);
      assert Tokens(s)[1..] == Tokens(rest);
    }
  }

  lemma {:induction false} EndAccepts(weight: Bytes, name: Bytes, s: Bytes, es: seq<Entry>)
    requires EndsWord(s)
    ensures ParseEnd(weight, name, s) == Entries(es) <==> EndSpells(weight, name, Tokens(s), es)
    decreases |s|, 0
  {
    hide WordAt, IsWeight;
    if es != [] {
      WeightIff(weight, es[0].weight);
      hide ParseWeight;
      assert es == [es[0]] + es[1..];
      if Next(s).0.Comma? {
        AcceptsExactly(Next(s).1, es[1..]);
        assert Tokens(s)[1..] == Tokens(Next(s).1);
      }
    }
  }

  /** A weight that is no 32-bit decimal number is refused, and so is a second asterisk. */
  lemma WeightsRefused(weight: Bytes, name: Bytes, more: Bytes)
    requires weight != [] && name != [] && EndsWord(more)
    ensures var s := Escaped(weight) + ([ASTERISK] + (Escaped(name) + more));
            && ((forall w :: !IsWeight(weight, w)) ==> ParseEntry(s) == Refused(BadWeight(weight)))
            && ((exists w :: IsWeight(weight, w)) && more != [] && more[0] == ASTERISK ==>
                  ParseEntry(s) == Refused(Unexpected(Asterisk)))
  {
    hide WordAt, Escaped, IsWeight;
    var named := Escaped(name) + more;
    var rest := [ASTERISK] + named;
    assert rest[1..] == named;
    WordReads(name, more);
    WordReads(weight, rest);
    assert ParseEntry(Escaped(weight) + rest) == ParseName(weight, named);
    assert ParseName(weight, named) == ParseEnd(weight, name, more);
    if w :| IsWeight(weight, w) {
      WeightIff(weight, w);
    } else if ParseWeight(weight).Some? {
      WeightIff(weight, ParseWeight(weight).value);
    }
  }

  // ---------- sampling ----------

  function Total(weights: seq<U32>): nat {
    if weights == [] then 0 else Total(weights[..|weights| - 1]) + weights[|weights| - 1]
  }

  lemma {:induction false} TotalMonotone(weights: seq<U32>, i: nat, j: nat)
    requires i <= j <= |weights|
    ensures Total(weights[..i]) <= Total(weights[..j])
    decreases j
  {
    if i < j {
      TotalMonotone(weights, i, j - 1);
      assert weights[..j][..j - 1] == weights[..j - 1];
    }
  }

  /** `i` is chosen by `r`: `r` falls into its share of the total. */
  predicate Chosen(weights: seq<U32>, r: nat, i: nat) {
    i < |weights| && Total(weights[..i]) <= r < Total(weights[..i + 1])
  }

  /** `random` is what the random source returns below the total; the two panics are the preconditions. */
  method SampleWeighted(weights: seq<U32>, random: nat) returns (i: nat)
    requires 0 < Total(weights) <= INT64_MAX && random < Total(weights)
    ensures Chosen(weights, random, i)
  {
    var sum: int := 0;
    for k := 0 to |weights|
      invariant sum == Total(weights[..k])
    {
      assert weights[..k + 1][..k] == weights[..k];
      sum := sum + weights[k];
    }
    assert weights[..|weights|] == weights;
    assert sum != 0;
    var r: int := random;
    i := 0;
    while i < |weights|
      invariant i <= |weights| && 0 <= r && r + Total(weights[..i]) == random
    {
      assert weights[..i + 1][..i] == weights[..i];
      if r < weights[i] {
        return;
      }
      r := r - weights[i];
      i := i + 1;
    }
    assert false;
  }

  /** Exactly one index is chosen. */
  lemma ChosenOnce(weights: seq<U32>, r: nat, i: nat, j: nat)
    requires Chosen(weights, r, i) && Chosen(weights, r, j)
    ensures i == j
  {
    if i < j {
      TotalMonotone(weights, i + 1, j);
    } else if j < i {
      TotalMonotone(weights, j + 1, i);
    }
  }

  /** Each index is chosen by exactly as many values below the total as its weight says. */
  lemma Preimages(weights: seq<U32>, i: nat)
    requires i < |weights|
    ensures |set r: nat | r < Total(weights) && Chosen(weights, r, i)| == weights[i]
  {
    var lo, hi := Total(weights[..i]), Total(weights[..i + 1]);
    assert weights[..i + 1][..i] == weights[..i];
    TotalMonotone(weights, i + 1, |weights|);
    assert weights[..|weights|] == weights;
    assert (set r: nat | r < Total(weights) && Chosen(weights, r, i)) == Interval(lo, hi);
  }

  function Interval(lo: nat, hi: nat): (s: set<nat>)
    requires lo <= hi
    ensures forall r: nat :: r in s <==> lo <= r < hi
    ensures |s| == hi - lo
    decreases hi
  {
    if lo == hi then {} else Interval(lo, hi - 1) + {hi - 1}
  }
}
