/** Base32 without padding, section 6 of RFC 4648, defined on the bit string of the data. */
module Base32 {
  import opened Wire

  type Bits = seq<bool>

  /** The low `width` bits of `n`, most significant first. */
  function ToBits(n: nat, width: nat): (r: Bits)
    ensures |r| == width
    decreases width
  {
    if width == 0 then [] else ToBits(n / 2, width - 1) + [n % 2 == 1]
  }

  function FromBits(bits: Bits): (n: nat)
    ensures n < Pow2(|bits|)
  {
    if bits == [] then 0 else 2 * FromBits(bits[..|bits| - 1]) + (if bits[|bits| - 1] then 1 else 0)
  }

  lemma {:induction false} FromToBits(n: nat, width: nat)
    requires n < Pow2(width)
    ensures FromBits(ToBits(n, width)) == n
    decreases width
  {
    if width > 0 {
      FromToBits(n / 2, width - 1);
      assert ToBits(n, width)[..width - 1] == ToBits(n / 2, width - 1);
    }
  }

  lemma {:induction false} ToFromBits(bits: Bits)
    ensures ToBits(FromBits(bits), |bits|) == bits
  {
    if bits != [] {
      var fore := bits[..|bits| - 1];
      ToFromBits(fore);
      assert FromBits(bits) / 2 == FromBits(fore);
      assert bits == fore + [bits[|bits| - 1]];
    }
  }

  lemma Widths()
    ensures Pow2(5) == 32 && Pow2(8) == 256
  {
    assert Pow2(1) == 2 && Pow2(2) == 4 && Pow2(3) == 8 && Pow2(4) == 16;
    assert Pow2(6) == 64 && Pow2(7) == 128;
  }

  type Symbol = x: int | 0 <= x < 32

  function SymbolOf(bits: Bits): (s: Symbol)
    requires |bits| == 5
  {
    Widths();
    FromBits(bits)
  }

  function ByteOf(bits: Bits): (b: Byte)
    requires |bits| == 8
  {
    Widths();
    FromBits(bits)
  }

  function DataBits(data: Bytes): (r: Bits)
    ensures |r| == 8 * |data|
  {
    if data == [] then [] else ToBits(data[0], 8) + DataBits(data[1..])
  }

  function Zeros(n: nat): (z: Bits)
    ensures |z| == n
  {
    seq(n, i => false)
  }

  /** Groups of five bits; the last group is filled with zeros. */
  function Symbols(bits: Bits): (r: seq<Symbol>)
    ensures |r| == (|bits| + 4) / 5
  {
    if bits == [] then []
    else if |bits| < 5 then [SymbolOf(bits + Zeros(5 - |bits|))]
    else [SymbolOf(bits[..5])] + Symbols(bits[5..])
  }

  function SymbolBits(symbols: seq<Symbol>): Bits {
    if symbols == [] then [] else ToBits(symbols[0], 5) + SymbolBits(symbols[1..])
  }

  /** Whole octets; fewer than eight bits at the end are dropped. */
  function Octets(bits: Bits): Bytes {
    if |bits| < 8 then [] else [ByteOf(bits[..8])] + Octets(bits[8..])
  }

  lemma {:induction false} SymbolsRoundTrip(bits: Bits)
    ensures var out := SymbolBits(Symbols(bits)); bits <= out && |out| < |bits| + 5
  {
    if bits == [] {
    } else if |bits| < 5 {
      var group := bits + Zeros(5 - |bits|);
      ToFromBits(group);
      assert SymbolBits([SymbolOf(group)]) == group;
    } else {
      SymbolsRoundTrip(bits[5..]);
      ToFromBits(bits[..5]);
      var symbols := Symbols(bits);
      assert symbols[1..] == Symbols(bits[5..]);
      assert bits == bits[..5] + bits[5..];
    }
  }

  lemma FirstOctet(data: Bytes, bits: Bits)
    requires data != [] && DataBits(data) <= bits
    ensures |bits| >= 8 && ByteOf(bits[..8]) == data[0] && DataBits(data[1..]) <= bits[8..]
  {
    hide ToBits, FromBits;
    var first, rest := ToBits(data[0], 8), DataBits(data[1..]);
    Widths();
    FromToBits(data[0], 8);
    assert first + rest <= bits;
    assert bits[..8] == first;
    assert bits[8..][..|rest|] == rest;
  }

  lemma {:induction false} OctetsRoundTrip(data: Bytes, bits: Bits)
    requires DataBits(data) <= bits && |bits| < 8 * |data| + 8
    ensures Octets(bits) == data
  {
    if data != [] {
      hide ToBits, FromBits;
      FirstOctet(data, bits);
      OctetsRoundTrip(data[1..], bits[8..]);
      assert data == [data[0]] + data[1..];
    }
  }

  // ---------- alphabet ----------

  function SymbolChar(s: Symbol): Byte {
    if s < 26 then 65 + s else 50 + (s - 26)
  }

  /** Either case of a letter stands for the same symbol. */
  function CharSymbol(c: Byte): Option<Symbol> {
    if 65 <= c <= 90 then Some(c - 65)
    else if 97 <= c <= 122 then Some(c - 97)
    else if 50 <= c <= 55 then Some(c - 50 + 26)
    else None
  }

  function SymbolText(symbols: seq<Symbol>): (r: Bytes)
    ensures |r| == |symbols|
  {
    seq(|symbols|, i requires 0 <= i < |symbols| => SymbolChar(symbols[i]))
  }

  function TextSymbols(text: Bytes): Option<seq<Symbol>> {
    if forall i :: 0 <= i < |text| ==> CharSymbol(text[i]).Some?
    then Some(seq(|text|, i requires 0 <= i < |text| && CharSymbol(text[i]).Some? => CharSymbol(text[i]).value))
    else None
  }

  function Encode(data: Bytes): (r: Bytes)
    ensures |r| == (8 * |data| + 4) / 5
  {
    SymbolText(Symbols(DataBits(data)))
  }

  function Decode(text: Bytes): Option<Bytes> {
    match TextSymbols(text)
    case Some(symbols) => Some(Octets(SymbolBits(symbols)))
    case None => None
  }

  lemma TextOfSymbols(symbols: seq<Symbol>, text: Bytes)
    requires |text| == |symbols|
    requires forall i :: 0 <= i < |text| ==> CharSymbol(text[i]) == CharSymbol(SymbolText(symbols)[i])
    ensures TextSymbols(text) == Some(symbols)
  {
    assert forall i :: 0 <= i < |text| ==> CharSymbol(text[i]) == Some(symbols[i]);
    assert TextSymbols(text).Some? && TextSymbols(text).value == symbols;
  }

  /** Decoding inverts encoding, also when some letters have changed case on the way. */
  lemma DecodeInverts(data: Bytes, text: Bytes)
    requires |text| == |Encode(data)|
    requires forall i :: 0 <= i < |text| ==> CharSymbol(text[i]) == CharSymbol(Encode(data)[i])
    ensures Decode(text) == Some(data)
  {
    hide Symbols, SymbolBits, Octets, DataBits;
    var symbols := Symbols(DataBits(data));
    TextOfSymbols(symbols, text);
    hide TextSymbols, SymbolText;
    SymbolsRoundTrip(DataBits(data));
    OctetsRoundTrip(data, SymbolBits(symbols));
  }

  // ---------- symbol by symbol ----------

  function Halved(n: nat, times: nat): nat {
    if times == 0 then n else Halved(n / 2, times - 1)
  }

  /** Bit `i` of the data, the most significant bit of an octet first; 0 past the end. */
  function Bit(data: Bytes, i: nat): nat {
    if i < 8 * |data| then Halved(data[i / 8], 7 - i % 8) % 2 else 0
  }

  const ALPHABET := "ABCDEFGHIJKLMNOPQRSTUVWXYZ234567"

  lemma {:induction false} ToBitsAt(n: nat, width: nat, i: nat)
    requires i < width
    ensures ToBits(n, width)[i] <==> Halved(n, width - 1 - i) % 2 == 1
    decreases width
  {
    if i < width - 1 {
      ToBitsAt(n / 2, width - 1, i);
    }
  }

  lemma {:induction false} DataBitsAt(data: Bytes, i: nat)
    requires i < 8 * |data|
    ensures DataBits(data)[i] <==> Bit(data, i) == 1
    decreases |data|
  {
    hide ToBits, Halved;
    if i < 8 {
      ToBitsAt(data[0], 8, i);
    } else {
      DataBitsAt(data[1..], i - 8);
      assert i / 8 == (i - 8) / 8 + 1 && i % 8 == (i - 8) % 8;
    }
  }

  /** Five bits of a string from `i` on, filled with zeros. */
  function Group(bits: Bits, i: nat): (g: Bits)
    ensures |g| == 5
  {
    seq(5, j requires 0 <= j => i + j < |bits| && bits[i + j])
  }

  lemma {:induction false} SymbolsAt(bits: Bits, k: nat)
    requires k < |Symbols(bits)|
    ensures Symbols(bits)[k] == SymbolOf(Group(bits, 5 * k))
    decreases |bits|
  {
    if |bits| < 5 {
      assert bits + Zeros(5 - |bits|) == Group(bits, 0);
    } else if k == 0 {
      assert bits[..5] == Group(bits, 0);
    } else {
      SymbolsAt(bits[5..], k - 1);
      assert Group(bits[5..], 5 * (k - 1)) == Group(bits, 5 * k);
    }
  }

  function One(b: bool): nat {
    if b then 1 else 0
  }

  lemma FiveBits(g: Bits)
    requires |g| == 5
    ensures SymbolOf(g) == 16 * One(g[0]) + 8 * One(g[1]) + 4 * One(g[2]) + 2 * One(g[3]) + One(g[4])
  {
    assert g[..4][..3] == g[..3] && g[..3][..2] == g[..2] && g[..2][..1] == g[..1] && g[..1][..0] == [];
    assert FromBits(g[..1]) == One(g[0]);
    assert FromBits(g[..2]) == 2 * FromBits(g[..1]) + One(g[1]);
    assert FromBits(g[..3]) == 2 * FromBits(g[..2]) + One(g[2]);
    assert FromBits(g[..4]) == 2 * FromBits(g[..3]) + One(g[3]);
  }

  /** Each symbol stands for the next five bits of the data, in the alphabet of section 6 of RFC 4648. */
  lemma EncodeAt(data: Bytes, k: nat)
    requires k < |Encode(data)|
    ensures var v := 16 * Bit(data, 5 * k) + 8 * Bit(data, 5 * k + 1) + 4 * Bit(data, 5 * k + 2)
                     + 2 * Bit(data, 5 * k + 3) + Bit(data, 5 * k + 4);
            v < 32 && Encode(data)[k] == ALPHABET[v] as int
  {
    hide DataBits, Symbols, Bit, SymbolOf, SymbolChar, One;
    var bits := DataBits(data);
    SymbolsAt(bits, k);
    var g := Group(bits, 5 * k);
    FiveBits(g);
    GroupBit(data, 5 * k);
    GroupBit(data, 5 * k + 1);
    GroupBit(data, 5 * k + 2);
    GroupBit(data, 5 * k + 3);
    GroupBit(data, 5 * k + 4);
    AlphabetAt(SymbolOf(g));
    assert Encode(data)[k] == SymbolChar(Symbols(bits)[k]);
  }

  lemma AlphabetAt(s: Symbol)
    ensures SymbolChar(s) == ALPHABET[s] as int
  {
  }

  lemma GroupBit(data: Bytes, i: nat)
    ensures One(i < |DataBits(data)| && DataBits(data)[i]) == Bit(data, i)
  {
    if i < 8 * |data| {
      DataBitsAt(data, i);
    }
  }
}
