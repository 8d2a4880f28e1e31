/** TXT record data: one or more character-strings, section 3.3.14 of RFC 1035. */
module DnsTxt {
  import opened Wire

  function EncodeTxt(p: Bytes): (r: Bytes)
    ensures r != []
  {
    if |p| > 255 then [255] + p[..255] + EncodeTxt(p[255..]) else [|p|] + p
  }

  function DecodeTxt(p: Bytes): Result<Bytes> {
    if p == [] || |p| <= p[0] then Err(UnexpectedEndOfFile)
    else
      var text, rest := p[1..1 + p[0]], p[1 + p[0]..];
      if rest == [] then Ok(text) else Behind(text, DecodeTxt(rest))
  }

  /** What follows `text`, with `text` put in front. */
  function Behind(text: Bytes, r: Result<Bytes>): Result<Bytes> {
    match r
    case Ok(more) => Ok(text + more)
    case Err(e) => Err(e)
  }

  lemma BehindBoth(a: Bytes, b: Bytes, r: Result<Bytes>)
    ensures Behind(a, Behind(b, r)) == Behind(a + b, r)
    ensures Behind([], r) == r
  {
    if r.Ok? {
      Associative(a, b, r.value);
      assert [] + r.value == r.value;
    }
  }

  lemma DecodeTxtStep(text: Bytes, rest: Bytes)
    requires |text| <= 255
    ensures DecodeTxt([|text|] + text + rest) ==
            if rest == [] then Ok(text) else Behind(text, DecodeTxt(rest))
  {
    var p := [|text|] + text + rest;
    assert p[1..1 + |text|] == text && p[1 + |text|..] == rest;
  }

  /** Any octets at all, the empty string included, survive TXT encoding. */
  lemma {:induction false} TxtRoundTrip(p: Bytes)
    ensures DecodeTxt(EncodeTxt(p)) == Ok(p)
  {
    if |p| > 255 {
      TxtRoundTrip(p[255..]);
      DecodeTxtStep(p[..255], EncodeTxt(p[255..]));
      assert p[..255] + p[255..] == p;
    } else {
      DecodeTxtStep(p, []);
      assert [|p|] + p + [] == [|p|] + p;
    }
  }

  method EncodeRDataTXT(p: Bytes) returns (buf: Bytes)
    ensures buf == EncodeTxt(p)
  {
    buf := [];
    var q := p;
    while |q| > 255
      invariant buf + EncodeTxt(q) == EncodeTxt(p)
    {
      Associative(buf, [255], q[..255]);
      Associative(buf, [255] + q[..255], EncodeTxt(q[255..]));
      buf := buf + [255];
      buf := buf + q[..255];
      q := q[255..];
    }
    Associative(buf, [|q|], q);
    buf := buf + [|q|];
    buf := buf + q;
  }

  method DecodeRDataTXT(p: Bytes) returns (r: Result<Bytes>)
    ensures r == DecodeTxt(p)
  {
    var buf: Bytes, q := [], p;
    BehindBoth([], [], DecodeTxt(p));
    while true
      invariant DecodeTxt(p) == Behind(buf, DecodeTxt(q))
      decreases |q|
    {
      if |q| == 0 {
        return Err(UnexpectedEndOfFile);
      }
      var n := q[0];
      if |q| - 1 < n {
        return Err(UnexpectedEndOfFile);
      }
      BehindBoth(buf, q[1..1 + n], DecodeTxt(q[1 + n..]));
      buf := buf + q[1..1 + n];
      q := q[1 + n..];
      if |q| == 0 {
        break;
      }
    }
    return Ok(buf);
  }

  // ---------- character-strings ----------

  predicate AreStrings(ss: seq<Bytes>) {
    ss != [] && forall i :: 0 <= i < |ss| ==> |ss[i]| <= 255
  }

  /** Each string behind its length. */
  function CharStrings(ss: seq<Bytes>): Bytes
    requires AreStrings(ss)
  {
    [|ss[0]|] + ss[0] + if |ss| == 1 then [] else CharStrings(ss[1..])
  }

  function Concat(ss: seq<Bytes>): Bytes {
    if ss == [] then [] else ss[0] + Concat(ss[1..])
  }

  lemma {:induction false} StringsDecode(ss: seq<Bytes>)
    requires AreStrings(ss)
    ensures DecodeTxt(CharStrings(ss)) == Ok(Concat(ss)) && CharStrings(ss) != []
  {
    if |ss| == 1 {
      DecodeTxtStep(ss[0], []);
      assert Concat(ss[1..]) == [] && ss[0] + [] == ss[0];
    } else {
      StringsDecode(ss[1..]);
      DecodeTxtStep(ss[0], CharStrings(ss[1..]));
    }
  }

  lemma {:induction false} DecodedStrings(p: Bytes) returns (ss: seq<Bytes>)
    requires DecodeTxt(p).Ok?
    ensures AreStrings(ss) && p == CharStrings(ss) && DecodeTxt(p) == Ok(Concat(ss))
  {
    var text, rest := p[1..1 + p[0]], p[1 + p[0]..];
    assert p == [|text|] + text + rest;
    if rest == [] {
      ss := [text];
      assert ss[1..] == [] && Concat(ss) == text;
    } else {
      var more := DecodedStrings(rest);
      ss := [text] + more;
      assert ss[1..] == more;
    }
  }

  /** The decoder accepts exactly one or more character-strings, and joins them. */
  lemma DecodesExactly(p: Bytes, q: Bytes)
    ensures DecodeTxt(p) == Ok(q) <==> exists ss :: AreStrings(ss) && p == CharStrings(ss) && q == Concat(ss)
  {
    if DecodeTxt(p) == Ok(q) {
      var ss := DecodedStrings(p);
      assert AreStrings(ss);
    }
    if ss :| AreStrings(ss) && p == CharStrings(ss) && q == Concat(ss) {
      StringsDecode(ss);
    }
  }

  /** The encoder adds as few length octets as there can be. */
  lemma {:induction false} EncodedLength(p: Bytes)
    ensures |EncodeTxt(p)| == |p| + if p == [] then 1 else (|p| + 254) / 255
  {
    if |p| > 255 {
      EncodedLength(p[255..]);
    }
  }
}
