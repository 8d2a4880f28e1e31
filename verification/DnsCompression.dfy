/** What the suffix cache means: every cached offset decodes to the suffix that is its key. */
module DnsCompression {
  import opened Wire
  import opened DnsName
  import opened DnsBuilder
  import opened DnsReader

  // ---------- the reader under extension and under other pointer limits ----------

  lemma PointerExtend(buf: Bytes, more: Bytes, pos: nat)
    requires buf <= more && pos + 1 < |buf| && buf[pos] >= 0xc0
    ensures more[pos] == buf[pos] && PointerAt(more, pos) == PointerAt(buf, pos)
  {
  }

  /** Octets appended later never change what an offset already decodes to. */
  lemma {:induction false} ReadLabelsExtend(buf: Bytes, more: Bytes, pos: nat, limit: nat)
    requires buf <= more
    requires ReadLabels(buf, pos, limit).Ok?
    ensures ReadLabels(more, pos, limit) == ReadLabels(buf, pos, limit)
    decreases limit, |buf| - pos
  {
    hide PointerAt;
    assert buf[pos] == more[pos];
    if buf[pos] != 0 {
      if buf[pos] < 0x40 {
        var next := pos + 1 + buf[pos];
        assert more[pos + 1..next] == buf[pos + 1..next];
        ReadLabelsExtend(buf, more, next, limit);
      } else {
        assert PointerAt(more, pos) == PointerAt(buf, pos) by { PointerExtend(buf, more, pos); }
        ReadLabelsExtend(buf, more, PointerAt(buf, pos), limit - 1);
      }
    }
  }

  /** `name` is encoded at `pos` and a reader follows exactly `depth` pointers to get it. */
  predicate Reads(buf: Bytes, pos: nat, name: Name, depth: nat) {
    var r := ReadLabels(buf, pos, depth);
    r.Ok? && r.value.labels == name && r.value.used == depth
  }

  /** The limit only matters as a threshold at the exact number of pointers. */
  lemma {:induction false} ReadLabelsLimit(buf: Bytes, pos: nat, depth: nat, limit: nat)
    requires ReadLabels(buf, pos, depth).Ok? && ReadLabels(buf, pos, depth).value.used == depth
    ensures ReadLabels(buf, pos, limit) == if depth <= limit then ReadLabels(buf, pos, depth) else Err(TooManyPointers)
    decreases depth, |buf| - pos
  {
    hide PointerAt, LabelsOk;
    if buf[pos] != 0 {
      if buf[pos] < 0x40 {
        ReadLabelsLimit(buf, pos + 1 + buf[pos], depth, limit);
      } else if limit > 0 {
        ReadLabelsLimit(buf, PointerAt(buf, pos), depth - 1, limit - 1);
      }
    }
  }

  /** Where a name ends, found without following anything: past its first pointer or its terminator. */
  function NameEnd(buf: Bytes, pos: nat): Option<nat>
    decreases |buf| - pos
  {
    if pos >= |buf| then None
    else if buf[pos] == 0 then Some(pos + 1)
    else if buf[pos] < 0x40 then NameEnd(buf, pos + 1 + buf[pos])
    else if buf[pos] < 0xc0 || pos + 2 > |buf| then None
    else Some(pos + 2)
  }

  /** However far pointers lead, reading resumes just past the first one. */
  lemma {:induction false} ReadEndsAtNameEnd(buf: Bytes, pos: nat, limit: nat)
    requires ReadLabels(buf, pos, limit).Ok?
    ensures NameEnd(buf, pos) == Some(ReadLabels(buf, pos, limit).value.end)
    decreases |buf| - pos
  {
    if 0 < buf[pos] < 0x40 {
      ReadEndsAtNameEnd(buf, pos + 1 + buf[pos], limit);
    }
  }

  // ---------- the cache invariant ----------

  ghost predicate Consistent(b: Builder, name: Name) {
    Text(name) in b.cache ==>
      Text(name) in b.chain && Reads(b.w, b.cache[Text(name)], name, b.chain[Text(name)])
  }

  ghost predicate ConsistentUpTo(b: Builder, n: nat) {
    forall name: Name {:trigger Consistent(b, name)} :: LabelsOk(name) && |name| <= n ==> Consistent(b, name)
  }

  /** Between names the whole cache is consistent, and after `n` names no chain has `n` pointers. */
  ghost predicate CacheInv(b: Builder, n: nat) {
    && (forall name: Name {:trigger Consistent(b, name)} :: LabelsOk(name) ==> Consistent(b, name))
    && forall k :: k in b.chain ==> b.chain[k] < n
  }

  ghost predicate SameEntry(b: Builder, c: Builder, name: Name) {
    && (Text(name) in b.cache <==> Text(name) in c.cache)
    && (Text(name) in b.cache ==> b.cache[Text(name)] == c.cache[Text(name)])
    && (Text(name) in b.chain <==> Text(name) in c.chain)
    && (Text(name) in b.chain ==> b.chain[Text(name)] == c.chain[Text(name)])
  }

  lemma ConsistentExtend(b: Builder, c: Builder, name: Name)
    requires b.w <= c.w && SameEntry(b, c, name) && Consistent(b, name)
    ensures Consistent(c, name)
  {
    if Text(name) in b.cache {
      ReadLabelsExtend(b.w, c.w, b.cache[Text(name)], b.chain[Text(name)]);
    }
  }

  /** Remembering a suffix touches no other suffix, because the text form is injective. */
  lemma PutLabelFrame(b: Builder, name: Name, depth: nat, other: Name)
    requires name != [] && LabelsOk(name) && LabelsOk(other) && other != name
    ensures SameEntry(b, PutLabel(b, name, depth), other)
  {
    TextEqualIff(name, other);
  }

  /** The depth of a name depends only on the entries of its own suffixes. */
  lemma {:induction false} DepthFrame(b: Builder, c: Builder, name: Name)
    requires LabelsOk(name)
    requires forall other: Name {:trigger SameEntry(b, c, other)} ::
               LabelsOk(other) && |other| <= |name| ==> SameEntry(b, c, other)
    ensures Depth(b, name) == Depth(c, name)
    decreases |name|
  {
    if name != [] {
      assert SameEntry(b, c, name);
      DepthFrame(b, c, name[1..]);
    }
  }

  /** Reading back one label, given that the rest reads back. */
  lemma ReadLabelStep(c: Bytes, pos: nat, name: Name, depth: nat)
    requires name != [] && LabelsOk(name)
    requires pos + 1 + |name[0]| <= |c| && c[pos] == |name[0]| && c[pos + 1..pos + 1 + |name[0]|] == name[0]
    requires ReadLabels(c, pos + 1 + |name[0]|, depth) == Ok(NameRead(name[1..], |c|, depth))
    ensures ReadLabels(c, pos, depth) == Ok(NameRead(name, |c|, depth))
  {
    assert name == [name[0]] + name[1..];
  }

  lemma PrefixSlice(w: Bytes, s: Bytes, c: Bytes)
    requires w + s <= c
    ensures w <= c && |w| + |s| <= |c| && c[|w|..|w| + |s|] == s
  {
    assert c[..|w| + |s|] == w + s;
  }

  lemma LabelAt(w: Bytes, c: Bytes, text: Bytes)
    requires 1 <= |text| <= 63 && w + ([|text|] + text) <= c
    ensures w <= c && |w| + 1 + |text| <= |c| && c[|w|] == |text| && c[|w| + 1..|w| + 1 + |text|] == text
  {
    PrefixSlice(w, [|text|] + text, c);
    var s := c[|w|..|w| + 1 + |text|];
    assert c[|w|] == s[0];
    assert c[|w| + 1..|w| + 1 + |text|] == s[1..];
  }

  /** Reading back the root. */
  lemma ReadEndStep(w: Bytes)
    ensures ReadLabels(w + [0], |w|, 0) == Ok(NameRead([], |w| + 1, 0))
  {
  }

  /** Reading back a pointer. */
  lemma ReadPointerStep(w: Bytes, target: nat, name: Name, depth: nat)
    requires target <= POINTER_MAX && Reads(w, target, name, depth)
    ensures var c := w + PutU16(0xc000 + target);
            ReadLabels(c, |w|, depth + 1) == Ok(NameRead(name, |c|, depth + 1))
  {
    var c := w + PutU16(0xc000 + target);
    assert c[|w|] == 0xc0 + target / 0x100 && c[|w| + 1] == target % 0x100;
    ReadLabelsExtend(w, c, target, depth);
  }

  /** `c` is `b` after writing `name`: it reads back, and suffixes no longer than it are consistent. */
  ghost predicate Written(b: Builder, c: Builder, name: Name, depth: nat) {
    && b.w <= c.w
    && ReadLabels(c.w, |b.w|, depth) == Ok(NameRead(name, |c.w|, depth))
    && ConsistentUpTo(c, |name|)
    && (forall other: Name {:trigger SameEntry(b, c, other)} ::
          LabelsOk(other) && |other| > |name| ==> SameEntry(b, c, other))
    && (forall k :: k in c.chain ==> (k in b.chain && c.chain[k] == b.chain[k]) || c.chain[k] == depth)
  }

  lemma AppendKeeps(b: Builder, s: Bytes, n: nat)
    requires ConsistentUpTo(b, n)
    ensures ConsistentUpTo(b.Append(s), n)
  {
    var c := b.Append(s);
    forall other: Name | LabelsOk(other) && |other| <= n ensures Consistent(c, other) {
      assert Consistent(b, other);
      ConsistentExtend(b, c, other);
    }
  }

  lemma WrittenRoot(b: Builder)
    requires ConsistentUpTo(b, 0)
    ensures Written(b, PutName(b, []), [], 0)
  {
    ReadEndStep(b.w);
    hide ReadLabels, Text;
    AppendKeeps(b, [0], 0);
  }

  lemma WrittenPointer(b: Builder, name: Name)
    requires name != [] && LabelsOk(name) && ConsistentUpTo(b, |name|) && Hit(b, name)
    ensures Written(b, PutName(b, name), name, Depth(b, name))
  {
    hide ReadLabels, Text;
    assert Consistent(b, name);
    hide ConsistentUpTo, LabelsOk, PutU16;
    var target := b.cache[Text(name)];
    ReadPointerStep(b.w, target, name, b.chain[Text(name)]);
    AppendKeeps(b, PutU16(0xc000 + target), |name|);
    assert Depth(b, name) == b.chain[Text(name)] + 1;
    assert PutName(b, name) == b.Append(PutU16(0xc000 + target));
    hide Depth, PutName, Consistent;
  }

  /** Before the rest of the name is written, suffixes shorter than it are still consistent. */
  lemma PutLabelKeeps(b: Builder, name: Name, depth: nat)
    requires name != [] && LabelsOk(name) && ConsistentUpTo(b, |name|)
    ensures ConsistentUpTo(PutLabel(b, name, depth), |name| - 1)
    ensures Depth(PutLabel(b, name, depth), name[1..]) == Depth(b, name[1..])
    ensures forall other: Name {:trigger SameEntry(b, PutLabel(b, name, depth), other)} ::
              LabelsOk(other) && other != name ==> SameEntry(b, PutLabel(b, name, depth), other)
  {
    var b1 := PutLabel(b, name, depth);
    forall other: Name | LabelsOk(other) && other != name ensures SameEntry(b, b1, other) {
      PutLabelFrame(b, name, depth, other);
    }
    forall other: Name | LabelsOk(other) && |other| <= |name| - 1 ensures Consistent(b1, other) {
      ConsistentExtend(b, b1, other);
    }
    DepthFrame(b, b1, name[1..]);
  }

  lemma SameEntryTrans(b: Builder, b1: Builder, c: Builder, name: Name)
    requires SameEntry(b, b1, name) && SameEntry(b1, c, name)
    ensures SameEntry(b, c, name)
  {
  }

  lemma PutLabelEntry(b: Builder, c: Builder, name: Name, depth: nat)
    requires name != [] && LabelsOk(name) && SameEntry(PutLabel(b, name, depth), c, name)
    requires Reads(c.w, |b.w|, name, depth)
    ensures Consistent(c, name)
  {
  }

  /** The first label in front of the rest: the whole name reads back. */
  lemma StepReads(b: Builder, c: Builder, name: Name, depth: nat)
    requires name != [] && LabelsOk(name)
    requires Written(PutLabel(b, name, depth), c, name[1..], depth)
    ensures b.w <= c.w && ReadLabels(c.w, |b.w|, depth) == Ok(NameRead(name, |c.w|, depth))
  {
    hide ReadLabels, SameEntry, ConsistentUpTo, Text;
    LabelAt(b.w, c.w, name[0]);
    ReadLabelStep(c.w, |b.w|, name, depth);
  }

  lemma WrittenStep(b: Builder, c: Builder, name: Name, depth: nat)
    requires name != [] && LabelsOk(name) && ConsistentUpTo(b, |name|)
    requires Written(PutLabel(b, name, depth), c, name[1..], depth)
    ensures Written(b, c, name, depth)
  {
    StepReads(b, c, name, depth);
    hide ReadLabels, SameEntry, Text, Consistent;
    var b1 := PutLabel(b, name, depth);
    PutLabelKeeps(b, name, depth);
    forall other: Name | LabelsOk(other) && |other| > |name| ensures SameEntry(b, c, other) {
      SameEntryTrans(b, b1, c, other);
    }
    forall other: Name | LabelsOk(other) && |other| <= |name| ensures Consistent(c, other) {
      if other == name {
        PutLabelEntry(b, c, name, depth);
      } else if |other| == |name| {
        SameEntryTrans(b, b1, c, other);
        ConsistentExtend(b, c, other);
      }
    }
  }

  /**
    The loop that writes a name. Inside it the entries for the longer suffixes already point at octets
    not yet written, so only suffixes up to the one being written are known to be consistent; when it
    ends the name reads back and they all are.
   */
  lemma {:induction false} PutLabelsReads(b: Builder, name: Name, depth: nat)
    requires LabelsOk(name) && ConsistentUpTo(b, |name|) && depth == Depth(b, name)
    ensures Written(b, PutLabels(b, name, depth), name, depth)
    decreases |name|
  {
    if name == [] {
      WrittenRoot(b);
    } else if Hit(b, name) {
      WrittenPointer(b, name);
    } else {
      PutLabelKeeps(b, name, depth);
      PutLabelsReads(PutLabel(b, name, depth), name[1..], depth);
      WrittenStep(b, PutLabels(b, name, depth), name, depth);
    }
  }

  /** Depth is at most one more than the deepest chain so far. */
  lemma {:induction false} DepthBound(b: Builder, name: Name, n: nat)
    requires LabelsOk(name) && CacheInv(b, n)
    ensures Depth(b, name) <= n
    decreases |name|
  {
    if name != [] {
      assert Consistent(b, name);
      DepthBound(b, name[1..], n);
    }
  }

  /** Writing the `n+1`-st name: it reads back through `Depth` pointers, and the cache stays consistent. */
  lemma PutNameReads(b: Builder, name: Name, n: nat)
    requires LabelsOk(name) && CacheInv(b, n)
    ensures var c := PutName(b, name);
            && b.w <= c.w
            && Depth(b, name) <= n
            && ReadLabels(c.w, |b.w|, Depth(b, name)) == Ok(NameRead(name, |c.w|, Depth(b, name)))
            && CacheInv(c, n + 1)
  {
    var c, depth := PutName(b, name), Depth(b, name);
    PutLabelsReads(b, name, depth);
    DepthBound(b, name, n);
    forall other: Name | LabelsOk(other) ensures Consistent(c, other) {
      if |other| > |name| {
        ConsistentExtend(b, c, other);
      }
    }
  }

  /** Every pointer the builder emits fits in 14 bits and leads strictly backward, to the suffix it stands for. */
  lemma PointersGoBack(b: Builder, name: Name, n: nat)
    requires LabelsOk(name) && name != [] && CacheInv(b, n) && Hit(b, name)
    ensures var target := b.cache[Text(name)];
            && target <= POINTER_MAX && target < |b.w|
            && Depth(b, name) > 0 && Reads(b.w, target, name, Depth(b, name) - 1)
  {
    assert Consistent(b, name);
  }

  // ---------- compression does happen ----------

  /** Writing a name touches no entry of a longer one. */
  lemma {:induction false} LongerKept(b: Builder, name: Name, depth: nat, other: Name)
    requires LabelsOk(name) && LabelsOk(other) && |other| > |name|
    ensures SameEntry(b, PutLabels(b, name, depth), other)
    decreases |name|
  {
    if name != [] && !Hit(b, name) {
      PutLabelFrame(b, name, depth, other);
      LongerKept(PutLabel(b, name, depth), name[1..], depth, other);
      SameEntryTrans(b, PutLabel(b, name, depth), PutLabels(b, name, depth), other);
    }
  }

  /** A name written at an offset below 16384, or by a pointer, takes two octets wherever it is written again. */
  lemma WrittenAgain(b: Builder, name: Name, s: Bytes)
    requires LabelsOk(name) && name != [] && (|b.w| < 16384 || Hit(b, name))
    ensures var c := PutName(b, name).Append(s);
            |PutName(c, name).w| == |c.w| + 2
  {
    hide Text;
    var depth := Depth(b, name);
    if !Hit(b, name) {
      LongerKept(PutLabel(b, name, depth), name[1..], depth, name);
    }
  }
}
