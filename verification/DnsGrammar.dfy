/** What an encoded name is, section 4.1.4 of RFC 1035, and that the decoder reads exactly that. */
module DnsGrammar {
  import opened Wire
  import opened DnsName
  import opened DnsBuilder
  import opened DnsReader
  import opened DnsCompression

  /** Labels one after the other, each behind its length. */
  function Labels(name: Name): Bytes
    requires LabelsOk(name)
  {
    if name == [] then [] else [|name[0]|] + name[0] + Labels(name[1..])
  }

  predicate StandsAt(buf: Bytes, pos: nat, s: Bytes) {
    pos + |s| <= |buf| && buf[pos..pos + |s|] == s
  }

  /**
    `name` is encoded at `pos` with `used` pointers: all its labels and a zero octet, or some labels and two octets
    with the two highest bits set, which lead to an encoding of the remaining labels with one pointer less.
   */
  ghost predicate NameAt(buf: Bytes, pos: nat, name: Name, used: nat)
    decreases used, 0
  {
    LabelsOk(name) &&
    if used == 0 then StandsAt(buf, pos, Labels(name) + [0])
    else exists k: nat | k <= |name| :: PointsOn(buf, pos, name, used, k)
  }

  ghost predicate PointsOn(buf: Bytes, pos: nat, name: Name, used: nat, k: nat)
    requires LabelsOk(name) && used > 0 && k <= |name|
    decreases used - 1, 1
  {
    var p := pos + |Labels(name[..k])|;
    && StandsAt(buf, pos, Labels(name[..k])) && p + 2 <= |buf| && buf[p] / 64 == 3
    && NameAt(buf, (buf[p] % 64) as int * 256 + buf[p + 1], name[k..], used - 1)
  }

  lemma StandsApart(buf: Bytes, pos: nat, a: Bytes, b: Bytes)
    ensures StandsAt(buf, pos, a + b) <==> StandsAt(buf, pos, a) && StandsAt(buf, pos + |a|, b)
  {
    var mid, end := pos + |a|, pos + |a| + |b|;
    if end <= |buf| {
      assert buf[pos..end] == buf[pos..mid] + buf[mid..end];
      assert (a + b)[..|a|] == a && (a + b)[|a|..] == b;
      assert (buf[pos..mid] + buf[mid..end])[..|a|] == buf[pos..mid];
      assert (buf[pos..mid] + buf[mid..end])[|a|..] == buf[mid..end];
    }
  }

  lemma LabelInFront(buf: Bytes, pos: nat, text: Bytes, s: Bytes)
    requires 1 <= |text| <= 63
    ensures StandsAt(buf, pos, [|text|] + text + s) <==>
            && pos + 1 + |text| <= |buf| && buf[pos] == |text| && buf[pos + 1..pos + 1 + |text|] == text
            && StandsAt(buf, pos + 1 + |text|, s)
  {
    StandsApart(buf, pos, [|text|] + text, s);
    StandsApart(buf, pos, [|text|], text);
    if pos < |buf| {
      assert buf[pos..pos + 1] == [buf[pos]];
    }
  }

  lemma PrependPointer(buf: Bytes, pos: nat, text: Bytes, rest: Name, used: nat, k: nat)
    requires 1 <= |text| <= 63 && LabelsOk(rest) && used > 0 && k <= |rest|
    requires pos + 1 + |text| <= |buf| && buf[pos] == |text| && buf[pos + 1..pos + 1 + |text|] == text
    ensures PointsOn(buf, pos, [text] + rest, used, k + 1) <==> PointsOn(buf, pos + 1 + |text|, rest, used, k)
  {
    hide NameAt;
    var name := [text] + rest;
    assert name[..k + 1][0] == text && name[..k + 1][1..] == rest[..k] && name[k + 1..] == rest[k..];
    LabelInFront(buf, pos, text, Labels(rest[..k]));
    hide StandsAt, LabelsOk;
  }

  /** A label in front of an encoding, read either way. */
  lemma PrependLabel(buf: Bytes, pos: nat, text: Bytes, rest: Name, used: nat)
    requires 1 <= |text| <= 63 && LabelsOk(rest)
    requires pos + 1 + |text| <= |buf| && buf[pos] == |text| && buf[pos + 1..pos + 1 + |text|] == text
    ensures NameAt(buf, pos, [text] + rest, used) <==> NameAt(buf, pos + 1 + |text|, rest, used)
  {
    var name, next := [text] + rest, pos + 1 + |text|;
    assert name[1..] == rest && LabelsOk(name);
    if used == 0 {
      assert Labels(name) + [0] == [|text|] + text + (Labels(rest) + [0]);
      LabelInFront(buf, pos, text, Labels(rest) + [0]);
    } else {
      hide NameAt, PointsOn;
      NoPointerHere(buf, pos, name, used);
      if NameAt(buf, pos, name, used) {
        var k := WherePointer(buf, pos, name, used);
        PrependPointer(buf, pos, text, rest, used, k - 1);
        PointerMakesName(buf, next, rest, used, k - 1);
      }
      if NameAt(buf, next, rest, used) {
        var k := WherePointer(buf, next, rest, used);
        PrependPointer(buf, pos, text, rest, used, k);
        PointerMakesName(buf, pos, name, used, k + 1);
      }
    }
  }

  lemma WherePointer(buf: Bytes, pos: nat, name: Name, used: nat) returns (k: nat)
    requires NameAt(buf, pos, name, used) && used > 0
    ensures LabelsOk(name) && k <= |name| && PointsOn(buf, pos, name, used, k)
  {
    k :| k <= |name| && PointsOn(buf, pos, name, used, k);
  }

  lemma PointerMakesName(buf: Bytes, pos: nat, name: Name, used: nat, k: nat)
    requires LabelsOk(name) && used > 0 && k <= |name| && PointsOn(buf, pos, name, used, k)
    ensures NameAt(buf, pos, name, used)
  {
  }

  lemma NoPointerHere(buf: Bytes, pos: nat, name: Name, used: nat)
    requires LabelsOk(name) && used > 0 && pos < |buf| && buf[pos] < 64
    ensures !PointsOn(buf, pos, name, used, 0)
  {
    assert name[..0] == [];
  }

  /** The decoder is sound: what it reads is encoded there. */
  lemma {:induction false} ReadIsThere(buf: Bytes, pos: nat, limit: nat)
    requires ReadLabels(buf, pos, limit).Ok?
    ensures var r := ReadLabels(buf, pos, limit).value; NameAt(buf, pos, r.labels, r.used)
    decreases limit, |buf| - pos
  {
    hide NameAt;
    var r := ReadLabels(buf, pos, limit).value;
    if buf[pos] == 0 {
      RootThere(buf, pos);
    } else if buf[pos] < 0x40 {
      var next := pos + 1 + buf[pos];
      ReadIsThere(buf, next, limit);
      PrependLabel(buf, pos, buf[pos + 1..next], ReadLabels(buf, next, limit).value.labels, r.used);
    } else {
      ReadIsThere(buf, PointerAt(buf, pos), limit - 1);
      PointerThere(buf, pos, r.labels, r.used);
    }
  }

  lemma RootThere(buf: Bytes, pos: nat)
    requires pos < |buf|
    ensures NameAt(buf, pos, [], 0) <==> buf[pos] == 0
  {
    assert Labels([]) + [0] == [0];
    assert buf[pos..pos + 1] == [buf[pos]];
  }

  lemma PointerThere(buf: Bytes, pos: nat, name: Name, used: nat)
    requires pos + 1 < |buf| && buf[pos] >= 0xc0 && used > 0 && NameAt(buf, PointerAt(buf, pos), name, used - 1)
    ensures NameAt(buf, pos, name, used)
  {
    assert name[..0] == [] && name[0..] == name;
    assert PointsOn(buf, pos, name, used, 0);
  }

  /** The decoder is complete: it reads any name that is encoded there with no more pointers than allowed. */
  lemma {:induction false} ThereIsRead(buf: Bytes, pos: nat, name: Name, used: nat, limit: nat)
    requires NameAt(buf, pos, name, used) && used <= limit
    ensures var r := ReadLabels(buf, pos, limit);
            r.Ok? && r.value.labels == name && r.value.used == used
    decreases used, |name|
  {
    hide NameAt, PointsOn;
    NameIsOk(buf, pos, name, used);
    if used > 0 && PointsOn(buf, pos, name, used, 0) {
      PointerHere(buf, pos, name, used);
      ThereIsRead(buf, PointerAt(buf, pos), name, used - 1, limit - 1);
    } else if name == [] {
      OnlyLabels(buf, pos, name, used);
      RootThere(buf, pos);
    } else {
      var text, rest := name[0], name[1..];
      FirstLabel(buf, pos, name, used);
      assert name == [text] + rest;
      PrependLabel(buf, pos, text, rest, used);
      ThereIsRead(buf, pos + 1 + |text|, rest, used, limit);
    }
  }

  lemma NameIsOk(buf: Bytes, pos: nat, name: Name, used: nat)
    requires NameAt(buf, pos, name, used)
    ensures LabelsOk(name)
  {
  }

  lemma PointerHere(buf: Bytes, pos: nat, name: Name, used: nat)
    requires LabelsOk(name) && used > 0 && PointsOn(buf, pos, name, used, 0)
    ensures pos + 1 < |buf| && buf[pos] >= 0xc0 && NameAt(buf, PointerAt(buf, pos), name, used - 1)
  {
    assert name[..0] == [] && name[0..] == name;
  }

  lemma OnlyLabels(buf: Bytes, pos: nat, name: Name, used: nat)
    requires name == [] && NameAt(buf, pos, name, used) && (used > 0 ==> !PointsOn(buf, pos, name, used, 0))
    ensures used == 0 && pos < |buf|
  {
  }

  /** An encoding that does not start with a pointer starts with the first label. */
  lemma FirstLabel(buf: Bytes, pos: nat, name: Name, used: nat)
    requires name != [] && NameAt(buf, pos, name, used) && (used > 0 ==> !PointsOn(buf, pos, name, used, 0))
    ensures var text := name[0];
            pos + 1 + |text| <= |buf| && buf[pos] == |text| && buf[pos + 1..pos + 1 + |text|] == text
  {
    var text := name[0];
    if used == 0 {
      assert Labels(name) + [0] == [|text|] + text + (Labels(name[1..]) + [0]);
      LabelInFront(buf, pos, text, Labels(name[1..]) + [0]);
    } else {
      var k: nat :| k <= |name| && PointsOn(buf, pos, name, used, k);
      assert name[..k][0] == text;
      LabelInFront(buf, pos, text, Labels(name[..k][1..]));
    }
  }

  /**
    The decoder accepts exactly the encodings with at most as many pointers as allowed, and reads the one name
    encoded there.
   */
  lemma ReadsExactly(buf: Bytes, pos: nat, limit: nat)
    ensures ReadLabels(buf, pos, limit).Ok? <==> exists name, used: nat :: NameAt(buf, pos, name, used) && used <= limit
    ensures forall name, used: nat :: NameAt(buf, pos, name, used) && used <= limit ==>
              ReadLabels(buf, pos, limit).Ok? && ReadLabels(buf, pos, limit).value.labels == name
  {
    hide NameAt, ReadLabels;
    forall name, used: nat | NameAt(buf, pos, name, used) && used <= limit
      ensures ReadLabels(buf, pos, limit).Ok? && ReadLabels(buf, pos, limit).value.labels == name
    {
      ThereIsRead(buf, pos, name, used, limit);
    }
    if ReadLabels(buf, pos, limit).Ok? {
      ReadIsThere(buf, pos, limit);
      var r := ReadLabels(buf, pos, limit).value;
      assert NameAt(buf, pos, r.labels, r.used) && r.used <= limit;
    }
  }

  /** A name none of whose suffixes is cached is written out in full. */
  lemma {:induction false} FreshOctets(b: Builder, name: Name, depth: nat)
    requires LabelsOk(name)
    requires forall other: Name :: LabelsOk(other) && 0 < |other| <= |name| ==> Text(other) !in b.cache
    ensures PutLabels(b, name, depth).w == b.w + (Labels(name) + [0])
    decreases |name|
  {
    if name == [] {
      assert Labels(name) + [0] == [0];
    } else {
      hide Text;
      var b1, first := PutLabel(b, name, depth), [|name[0]|] + name[0];
      forall other: Name | LabelsOk(other) && 0 < |other| <= |name| - 1 ensures Text(other) !in b1.cache {
        PutLabelFrame(b, name, depth, other);
      }
      FreshOctets(b1, name[1..], depth);
      Associative(b.w, first, Labels(name[1..]) + [0]);
      Associative(first, Labels(name[1..]), [0]);
    }
  }

  /** The two label types that are neither a length nor a pointer. */
  lemma ReservedRefused(buf: Bytes, pos: nat, limit: nat)
    requires pos < |buf| && 64 <= buf[pos] < 192
    ensures ReadLabels(buf, pos, limit) == Err(ReservedLabelType)
  {
  }
}
