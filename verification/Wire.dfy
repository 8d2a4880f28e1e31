/** Octets, fixed-width integers and the error values shared by the wire formats. */
module Wire {

  type Byte = x: int | 0 <= x < 0x100
  type Bytes = seq<Byte>
  type U16 = x: int | 0 <= x < 0x1_0000
  type U32 = x: int | 0 <= x < 0x1_0000_0000

  datatype Option<+T> = None | Some(value: T)

  datatype Error =
    | EndOfFile
    | UnexpectedEndOfFile
    | ZeroLengthLabel
    | LabelTooLong
    | NameTooLong
    | ReservedLabelType
    | TooManyPointers
    | TrailingBytes
    | IntegerOverflow
    | PacketTooLong

  datatype Result<+T> = Ok(value: T) | Err(error: Error) {
    predicate IsFailure() {
      Err?
    }

    function PropagateFailure<U>(): Result<U>
      requires Err?
    {
      Err(error)
    }

    function Extract(): T
      requires Ok?
    {
      value
    }
  }

  /** Big-endian 16-bit integer. */
  function PutU16(n: U16): (s: Bytes)
    ensures |s| == 2
    ensures GetU16(s, 0) == n
  {
    [n / 0x100, n % 0x100]
  }

  function GetU16(s: Bytes, pos: nat): (n: U16)
    requires pos + 2 <= |s|
  {
    s[pos] as int * 0x100 + s[pos + 1]
  }

  /** Big-endian 32-bit integer. */
  function PutU32(n: U32): (s: Bytes)
    ensures |s| == 4
    ensures GetU32(s, 0) == n
  {
    PutU16(n / 0x1_0000) + PutU16(n % 0x1_0000)
  }

  function GetU32(s: Bytes, pos: nat): (n: U32)
    requires pos + 4 <= |s|
  {
    GetU16(s, pos) as int * 0x1_0000 + GetU16(s, pos + 2)
  }

  function LowerByte(b: Byte): Byte {
    if 65 <= b <= 90 then b + 32 else b
  }

  /** ASCII lower case of every octet. */
  function Lower(s: Bytes): (t: Bytes)
    ensures |t| == |s|
  {
    seq(|s|, i requires 0 <= i < |s| => LowerByte(s[i]))
  }

  function Pow2(n: nat): nat {
    if n == 0 then 1 else 2 * Pow2(n - 1)
  }

  lemma Associative<T>(a: seq<T>, b: seq<T>, c: seq<T>)
    ensures a + b + c == a + (b + c)
  {
  }
}
