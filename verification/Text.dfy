/** The text operations used on header lines and weights, on ASCII octets. */
module Text {
  import opened Wire

  function Ascii(s: string): (r: Bytes)
    requires forall i :: 0 <= i < |s| ==> s[i] < 128 as char
    ensures |r| == |s|
  {
    seq(|s|, i requires 0 <= i < |s| => s[i] as int)
  }

  predicate IsSpace(b: Byte) {
    9 <= b <= 13 || b == 32
  }

  function TrimLeft(s: Bytes): Bytes {
    if s != [] && IsSpace(s[0]) then TrimLeft(s[1..]) else s
  }

  function TrimRight(s: Bytes): Bytes {
    if s != [] && IsSpace(s[|s| - 1]) then TrimRight(s[..|s| - 1]) else s
  }

  function TrimSpace(s: Bytes): Bytes {
    TrimRight(TrimLeft(s))
  }

  /** What precedes the first octet `b`, and what follows it; all of it and nothing when there is none. */
  function CutAt(s: Bytes, b: Byte): (r: (Bytes, Bytes))
  {
    if s == [] then ([], [])
    else if s[0] == b then ([], s[1..])
    else
      var (before, after) := CutAt(s[1..], b);
      ([s[0]] + before, after)
  }

  predicate Contains(s: Bytes, sub: Bytes) {
    sub <= s || (s != [] && Contains(s[1..], sub))
  }

  // ---------- numbers ----------

  function DigitValue(b: Byte): Option<nat> {
    if 48 <= b <= 57 then Some(b - 48)
    else if 97 <= b <= 102 then Some(b - 87)
    else if 65 <= b <= 70 then Some(b - 55)
    else None
  }

  /** The value of a string of digits in a base up to 16, read from the left; the empty string counts as 0. */
  function Digits(s: Bytes, base: nat): Option<nat> {
    if s == [] then Some(0)
    else
      match Digits(s[..|s| - 1], base)
      case None => None
      case Some(n) =>
        match DigitValue(s[|s| - 1])
        case None => None
        case Some(d) => if d < base then Some(n * base + d) else None
  }

  function Unsigned(s: Bytes, base: nat): Option<nat> {
    if s == [] then None else Digits(s, base)
  }

  const INT64_MAX := 0x7fff_ffff_ffff_ffff

  /** A 64-bit signed integer with an optional sign. */
  function ParseInt(s: Bytes, base: nat): Option<int> {
    var negative := s != [] && s[0] == 45;
    match Unsigned(if s != [] && (s[0] == 43 || s[0] == 45) then s[1..] else s, base)
    case None => None
    case Some(n) =>
      if negative then (if n <= INT64_MAX + 1 then Some(0 - n as int) else None)
      else if n <= INT64_MAX then Some(n) else None
  }

  /** As above in base ten, but 0 on a syntax error and the nearest limit when out of range. */
  function Atoi(s: Bytes): int {
    var negative := s != [] && s[0] == 45;
    match Unsigned(if s != [] && (s[0] == 43 || s[0] == 45) then s[1..] else s, 10)
    case None => 0
    case Some(n) =>
      if negative then (if n <= INT64_MAX + 1 then 0 - n as int else -INT64_MAX - 1)
      else if n <= INT64_MAX then n else INT64_MAX
  }

  function DigitByte(d: nat): Byte
    requires d < 10
  {
    48 + d
  }

  /** Decimal notation without leading zeros. */
  function Decimal(n: nat): (s: Bytes)
    ensures s != []
  {
    if n < 10 then [DigitByte(n)] else Decimal(n / 10) + [DigitByte(n % 10)]
  }

  lemma {:induction false} DecimalParses(n: nat)
    ensures Digits(Decimal(n), 10) == Some(n)
    ensures forall i :: 0 <= i < |Decimal(n)| ==> 48 <= Decimal(n)[i] <= 57
  {
    var s := Decimal(n);
    if n < 10 {
      assert s[..|s| - 1] == [];
    } else {
      DecimalParses(n / 10);
      assert s[..|s| - 1] == Decimal(n / 10);
    }
  }
}
