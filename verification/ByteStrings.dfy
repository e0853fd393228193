/** Byte strings, 32-bit integers and the optional value used all over the model.
    Text (a QString) is represented by its UTF-8 bytes. */
module ByteStrings {

  type byte = b: int | 0 <= b < 256

  type Bytes = seq<byte>

  type Text = Bytes

  const INT_MAX := 0x7fff_ffff
  const INT_MIN := -0x8000_0000

  /** A 32-bit signed `int`. */
  type int32 = i: int | INT_MIN <= i <= INT_MAX

  datatype Option<+T> = None | Some(value: T)

  /** `++i` on a 32-bit `int`; the two's-complement wrap-around stands for signed overflow. */
  function Increment(i: int32): int32 {
    if i == INT_MAX then INT_MIN else i + 1
  }

  /** The bytes of an ASCII literal. */
  function Ascii(s: string): (r: Bytes)
    ensures |r| == |s|
  {
    seq(|s|, i requires 0 <= i < |s| => s[i] as int % 256)
  }

  lemma AsciiCodes(s: string)
    ensures forall i :: 0 <= i < |s| && s[i] as int < 128 ==> Ascii(s)[i] == s[i] as int
  {
  }

  function Zeros(n: nat): (r: Bytes)
    ensures |r| == n
  {
    seq(n, i => 0)
  }

  predicate HasPrefix(s: Bytes, prefix: Bytes) {
    prefix <= s
  }
}
