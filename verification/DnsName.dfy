/** Domain names: validity limits, the text form used as a compression key, and suffix trimming. */
module DnsName {
  import opened Wire

  type Name = seq<Bytes>

  predicate LabelsOk(name: Name) {
    forall i :: 0 <= i < |name| ==> 1 <= |name[i]| <= 63
  }

  /** Octets of the uncompressed encoding: a length octet per label and a final zero. */
  function WireLength(name: Name): nat {
    if name == [] then 1 else |name[0]| + 1 + WireLength(name[1..])
  }

  /** The limits of section 2.3.4 of RFC 1035. */
  predicate ValidName(name: Name) {
    LabelsOk(name) && WireLength(name) <= 255
  }

  lemma {:induction false} WireLengthConcat(a: Name, b: Name)
    ensures WireLength(a + b) == WireLength(a) + WireLength(b) - 1
  {
    if a == [] {
      assert a + b == b;
    } else {
      WireLengthConcat(a[1..], b);
      assert (a + b)[1..] == a[1..] + b;
    }
  }

  // ---------- text form ----------

  const DOT: Byte := 46
  const BACKSLASH: Byte := 92
  const LOWER_X: Byte := 120

  predicate IsPlain(b: Byte) {
    b == 45 || 48 <= b <= 57 || 65 <= b <= 90 || 97 <= b <= 122
  }

  function HexDigit(n: int): Byte
    requires 0 <= n < 16
  {
    if n < 10 then 48 + n else 87 + n
  }

  function EscapeByte(b: Byte): Bytes {
    if IsPlain(b) then [b] else [BACKSLASH, LOWER_X, HexDigit(b / 16), HexDigit(b % 16)]
  }

  function EscapeLabel(text: Bytes): Bytes {
    if text == [] then [] else EscapeByte(text[0]) + EscapeLabel(text[1..])
  }

  /** The escaped labels from the first on, joined by dots. */
  function JoinText(name: Name): Bytes {
    if name == [] then []
    else if |name| == 1 then EscapeLabel(name[0])
    else EscapeLabel(name[0]) + ([DOT] + JoinText(name[1..]))
  }

  function Text(name: Name): Bytes {
    if name == [] then [DOT] else JoinText(name)
  }

  /** What is still to be printed when labels `i..` remain. */
  function TextFrom(name: Name, i: nat): Bytes
    requires i <= |name|
  {
    (if 0 < i < |name| then [DOT] else []) + JoinText(name[i..])
  }

  lemma TextFromStep(name: Name, i: nat)
    requires i < |name|
    ensures TextFrom(name, i) == (if i > 0 then [DOT] else []) + (EscapeLabel(name[i]) + TextFrom(name, i + 1))
  {
    assert name[i..][1..] == name[i + 1..];
  }

  method String(name: Name) returns (s: Bytes)
    ensures s == Text(name)
  {
    if |name| == 0 {
      return [DOT];
    }
    s := [];
    assert name[0..] == name && Text(name) == TextFrom(name, 0);
    hide Text, TextFrom, EscapeLabel;
    for i := 0 to |name|
      invariant Text(name) == s + TextFrom(name, i)
    {
      ghost var before, dot: Bytes := s, if i > 0 then [DOT] else [];
      TextFromStep(name, i);
      if i > 0 {
        s := s + [DOT];
      }
      assert s == before + dot;
      Associative(before, dot, EscapeLabel(name[i]) + TextFrom(name, i + 1));
      Associative(s, EscapeLabel(name[i]), TextFrom(name, i + 1));
      s := AppendEscaped(s, name[i]);
    }
    assert TextFrom(name, |name|) == [] by { TextFromEnd(name); }
  }

  lemma TextFromEnd(name: Name)
    ensures TextFrom(name, |name|) == []
  {
  }

  /** The inner loop of the printer: one label, escaped octet by octet. */
  method AppendEscaped(prefix: Bytes, text: Bytes) returns (s: Bytes)
    ensures s == prefix + EscapeLabel(text)
  {
    s := prefix;
    assert text[0..] == text;
    for j := 0 to |text|
      invariant s + EscapeLabel(text[j..]) == prefix + EscapeLabel(text)
    {
      assert text[j..][1..] == text[j + 1..];
      Associative(s, EscapeByte(text[j]), EscapeLabel(text[j + 1..]));
      if IsPlain(text[j]) {
        s := s + [text[j]];
      } else {
        s := s + [BACKSLASH, LOWER_X, HexDigit(text[j] / 16), HexDigit(text[j] % 16)];
      }
    }
  }

  predicate EndsLabel(t: Bytes) {
    t == [] || t[0] == DOT
  }

  lemma EscapeByteInjective(a: Byte, b: Byte, t: Bytes, u: Bytes)
    requires EscapeByte(a) + t == EscapeByte(b) + u
    ensures a == b && t == u
  {
    var s, r := EscapeByte(a) + t, EscapeByte(b) + u;
    assert s[0] == r[0];
    if !IsPlain(a) {
      assert s[2] == r[2] && s[3] == r[3];
      assert s[2] == HexDigit(a / 16) && s[3] == HexDigit(a % 16);
      assert r[2] == HexDigit(b / 16) && r[3] == HexDigit(b % 16);
    }
    assert t == s[|EscapeByte(a)|..] && u == r[|EscapeByte(b)|..];
  }

  lemma EscapeLabelUnfold(a: Bytes, t: Bytes)
    requires a != []
    ensures EscapeLabel(a) + t == EscapeByte(a[0]) + (EscapeLabel(a[1..]) + t)
    ensures (EscapeLabel(a) + t)[0] != DOT
  {
    Associative(EscapeByte(a[0]), EscapeLabel(a[1..]), t);
  }

  /** An escaped label ends where the first dot is: what follows is determined too. */
  lemma {:induction false} EscapeLabelInjective(a: Bytes, b: Bytes, t: Bytes, u: Bytes)
    requires EndsLabel(t) && EndsLabel(u)
    requires EscapeLabel(a) + t == EscapeLabel(b) + u
    ensures a == b && t == u
  {
    if a == [] && b == [] {
      assert EscapeLabel(a) + t == t && EscapeLabel(b) + u == u;
    } else if a == [] {
      EscapeLabelUnfold(b, u);
    } else if b == [] {
      EscapeLabelUnfold(a, t);
    } else {
      EscapeLabelUnfold(a, t);
      EscapeLabelUnfold(b, u);
      EscapeByteInjective(a[0], b[0], EscapeLabel(a[1..]) + t, EscapeLabel(b[1..]) + u);
      EscapeLabelInjective(a[1..], b[1..], t, u);
      assert a == [a[0]] + a[1..] && b == [b[0]] + b[1..];
    }
  }

  lemma {:induction false} JoinTextInjective(a: Name, b: Name)
    requires a != [] && b != []
    requires JoinText(a) == JoinText(b)
    ensures a == b
  {
    var t := if |a| == 1 then [] else [DOT] + JoinText(a[1..]);
    var u := if |b| == 1 then [] else [DOT] + JoinText(b[1..]);
    assert JoinText(a) == EscapeLabel(a[0]) + t && JoinText(b) == EscapeLabel(b[0]) + u;
    EscapeLabelInjective(a[0], b[0], t, u);
    if |a| > 1 {
      assert t[1..] == JoinText(a[1..]) && u[1..] == JoinText(b[1..]);
      JoinTextInjective(a[1..], b[1..]);
    }
    assert a == [a[0]] + a[1..] && b == [b[0]] + b[1..];
  }

  /** The only name that prints as the root does: two empty labels. */
  predicate IsEmptyPair(name: Name) {
    name == [[], []]
  }

  lemma DotIsEmptyPair(name: Name)
    requires name != []
    ensures JoinText(name) == [DOT] <==> IsEmptyPair(name)
  {
    var pair: Name := [[], []];
    assert pair[1..] == [[]] && JoinText(pair) == [DOT];
    if JoinText(name) == [DOT] {
      JoinTextInjective(name, pair);
    }
  }

  /**
    The text form determines the name, with a single exception that arises only without the label check: the
    root and a name of two empty labels.
   */
  lemma TextEqualIff(a: Name, b: Name)
    ensures Text(a) == Text(b) <==> a == b || (a == [] && IsEmptyPair(b)) || (b == [] && IsEmptyPair(a))
  {
    hide JoinText;
    if a != [] && b != [] {
      if Text(a) == Text(b) {
        JoinTextInjective(a, b);
      }
    } else if a != [] {
      DotIsEmptyPair(a);
    } else if b != [] {
      DotIsEmptyPair(b);
    }
  }

  // ---------- suffix trimming ----------

  predicate SameLabels(a: Name, b: Name) {
    |a| == |b| && forall i :: 0 <= i < |a| ==> Lower(a[i]) == Lower(b[i])
  }

  /** The labels in front of `suffix`, if `name` ends in it up to ASCII case. */
  function Trimmed(name: Name, suffix: Name): Option<Name> {
    if |suffix| <= |name| && SameLabels(name[|name| - |suffix|..], suffix)
    then Some(name[..|name| - |suffix|])
    else None
  }

  /** Equal octet by octet, but for the case of ASCII letters. */
  predicate SameButCase(a: Bytes, b: Bytes) {
    && |a| == |b|
    && forall k :: 0 <= k < |a| ==>
         || a[k] == b[k]
         || (65 <= a[k] <= 90 && b[k] == a[k] + 32)
         || (65 <= b[k] <= 90 && a[k] == b[k] + 32)
  }

  /** The last labels of `name` are those of `domain`, but for case. */
  predicate Under(name: Name, domain: Name) {
    && |domain| <= |name|
    && forall i :: 0 <= i < |domain| ==> SameButCase(name[|name| - |domain| + i], domain[i])
  }

  lemma LowerEqualIff(a: Bytes, b: Bytes)
    ensures Lower(a) == Lower(b) <==> SameButCase(a, b)
  {
    if Lower(a) == Lower(b) {
      forall k | 0 <= k < |a| ensures LowerByte(a[k]) == LowerByte(b[k]) {
        assert Lower(a)[k] == Lower(b)[k];
      }
    }
  }

  /** Trimming succeeds exactly for the names under the suffix. */
  lemma TrimmedIffUnder(name: Name, suffix: Name)
    ensures Trimmed(name, suffix) == if Under(name, suffix) then Some(name[..|name| - |suffix|]) else None
  {
    if |suffix| <= |name| {
      var aft := name[|name| - |suffix|..];
      forall i | 0 <= i < |suffix| ensures Lower(aft[i]) == Lower(suffix[i]) <==> SameButCase(aft[i], suffix[i]) {
        LowerEqualIff(aft[i], suffix[i]);
      }
    }
  }

  method TrimSuffix(name: Name, suffix: Name) returns (fore: Option<Name>)
    ensures fore == Trimmed(name, suffix)
    ensures fore == if Under(name, suffix) then Some(name[..|name| - |suffix|]) else None
  {
    TrimmedIffUnder(name, suffix);
    hide SameButCase;
    if |name| < |suffix| {
      return None;
    }
    var split := |name| - |suffix|;
    var aft := name[split..];
    for i := 0 to |aft|
      invariant forall j :: 0 <= j < i ==> Lower(aft[j]) == Lower(suffix[j])
    {
      if Lower(aft[i]) != Lower(suffix[i]) {
        return None;
      }
    }
    assert SameLabels(name[split..], suffix);
    return Some(name[..split]);
  }
}
