/** Base64 as the client uses it: encoding with either alphabet of RFC 4648 (section 4 with
    padding, section 5 without), and Qt's decoder, which skips every character outside the
    alphabet and drops an incomplete last byte. */
module Base64 {
  import opened ByteStrings

  /** Section 4 with padding for transport text, section 5 without padding for stored secrets. */
  datatype Variant = Standard | UrlNoPadding

  type sextet = d: int | 0 <= d < 64

  const PAD: byte := 61

  function Symbol(v: Variant, d: sextet): byte {
    if d < 26 then 65 + d
    else if d < 52 then 97 + (d - 26)
    else if d < 62 then 48 + (d - 52)
    else if d == 62 then (if v == Standard then 43 else 45)
    else (if v == Standard then 47 else 95)
  }

  function Lookup(v: Variant, ch: byte): Option<sextet> {
    if 65 <= ch <= 90 then Some(ch - 65)
    else if 97 <= ch <= 122 then Some(ch - 97 + 26)
    else if 48 <= ch <= 57 then Some(ch - 48 + 52)
    else if ch == (if v == Standard then 43 else 45) then Some(62)
    else if ch == (if v == Standard then 47 else 95) then Some(63)
    else None
  }

  lemma LookupSymbol(v: Variant, d: sextet)
    ensures Lookup(v, Symbol(v, d)) == Some(d)
  {
  }

  function Padding(v: Variant, n: nat): Bytes {
    if v == UrlNoPadding then [] else seq(n, i => PAD)
  }

  function Group(v: Variant, x: byte, y: byte, z: byte): Bytes {
    [Symbol(v, x / 4), Symbol(v, x % 4 * 16 + y / 16), Symbol(v, y % 16 * 4 + z / 64), Symbol(v, z % 64)]
  }

  /** `QByteArray::toBase64`. */
  function Encode(v: Variant, b: Bytes): (s: Bytes)
    ensures s == [] <==> b == []
  {
    if |b| == 0 then []
    else if |b| == 1 then
      [Symbol(v, b[0] / 4), Symbol(v, b[0] % 4 * 16)] + Padding(v, 2)
    else if |b| == 2 then
      [Symbol(v, b[0] / 4), Symbol(v, b[0] % 4 * 16 + b[1] / 16), Symbol(v, b[1] % 16 * 4)] + Padding(v, 1)
    else
      Group(v, b[0], b[1], b[2]) + Encode(v, b[3..])
  }

  /** How many bits the decoder holds back, and their value. */
  datatype Buffer = Buffer(bits: nat, value: nat)

  ghost predicate Fits(buf: Buffer) {
    || (buf.bits == 0 && buf.value == 0)
    || (buf.bits == 2 && buf.value < 4)
    || (buf.bits == 4 && buf.value < 16)
    || (buf.bits == 6 && buf.value < 64)
  }

  /** `QByteArray::fromBase64`: six bits in per character, one byte out as soon as there are eight. */
  function DecodeFrom(v: Variant, s: Bytes, buf: Buffer): Bytes
    requires Fits(buf)
    decreases |s|, 0
  {
    if s == [] then []
    else
      match Lookup(v, s[0])
      case None => DecodeFrom(v, s[1..], buf)
      case Some(d) => Push(v, d, s[1..], buf)
  }

  /** Six more bits, and then the rest. */
  function Push(v: Variant, d: sextet, rest: Bytes, buf: Buffer): Bytes
    requires Fits(buf)
    decreases |rest|, 1
  {
    var value := buf.value * 64 + d;
    if buf.bits == 0 then DecodeFrom(v, rest, Buffer(6, value))
    else if buf.bits == 2 then [value] + DecodeFrom(v, rest, Buffer(0, 0))
    else if buf.bits == 4 then [value / 4] + DecodeFrom(v, rest, Buffer(2, value % 4))
    else [value / 16] + DecodeFrom(v, rest, Buffer(4, value % 16))
  }

  function Decode(v: Variant, s: Bytes): Bytes {
    DecodeFrom(v, s, Buffer(0, 0))
  }

  lemma {:induction false} DecodePadding(v: Variant, n: nat, buf: Buffer)
    requires Fits(buf)
    ensures DecodeFrom(v, Padding(v, n), buf) == []
  {
    if v == Standard && n > 0 {
      assert Padding(v, n)[0] == PAD && Padding(v, n)[1..] == Padding(v, n - 1);
      DecodePadding(v, n - 1, buf);
    }
  }

  lemma DecodeOne(v: Variant, s: Bytes, d: sextet, buf: Buffer)
    requires Fits(buf) && s != [] && Lookup(v, s[0]) == Some(d)
    ensures DecodeFrom(v, s, buf) == Push(v, d, s[1..], buf)
  {
  }

  lemma DecodeSymbol(v: Variant, d: sextet, rest: Bytes, buf: Buffer)
    requires Fits(buf)
    ensures DecodeFrom(v, [Symbol(v, d)] + rest, buf) == Push(v, d, rest, buf)
  {
    LookupSymbol(v, d);
    var s := [Symbol(v, d)] + rest;
    assert s[1..] == rest;
    DecodeOne(v, s, d, buf);
  }

  lemma DecodePair(v: Variant, x: byte, low: nat, rest: Bytes)
    requires low < 16
    ensures DecodeFrom(v, [Symbol(v, x / 4), Symbol(v, x % 4 * 16 + low)] + rest, Buffer(0, 0))
         == [x] + DecodeFrom(v, rest, Buffer(4, low))
  {
    var d0, d1 := x / 4, x % 4 * 16 + low;
    assert [Symbol(v, d0), Symbol(v, d1)] + rest == [Symbol(v, d0)] + ([Symbol(v, d1)] + rest);
    DecodeSymbol(v, d0, [Symbol(v, d1)] + rest, Buffer(0, 0));
    DecodeSymbol(v, d1, rest, Buffer(6, d0));
    assert (d0 * 64 + d1) / 16 == x && (d0 * 64 + d1) % 16 == low;
  }

  lemma DecodeThird(v: Variant, x: byte, low: nat, rest: Bytes)
    requires low < 4
    ensures DecodeFrom(v, [Symbol(v, x % 16 * 4 + low)] + rest, Buffer(4, x / 16))
         == [x] + DecodeFrom(v, rest, Buffer(2, low))
  {
    var d := x % 16 * 4 + low;
    DecodeSymbol(v, d, rest, Buffer(4, x / 16));
    var n: int := x;
    assert n / 16 * 64 + d == n * 4 + low;
  }

  lemma DecodeFourth(v: Variant, x: byte, rest: Bytes)
    ensures DecodeFrom(v, [Symbol(v, x % 64)] + rest, Buffer(2, x / 64)) == [x] + Decode(v, rest)
  {
    DecodeSymbol(v, x % 64, rest, Buffer(2, x / 64));
  }

  lemma TwoByteTail(v: Variant, b: Bytes)
    requires |b| == 2
    ensures Decode(v, Encode(v, b)) == b
  {
    var rest := [Symbol(v, b[1] % 16 * 4)] + Padding(v, 1);
    DecodePair(v, b[0], b[1] / 16, rest);
    assert Encode(v, b) == [Symbol(v, b[0] / 4), Symbol(v, b[0] % 4 * 16 + b[1] / 16)] + rest;
    DecodeThird(v, b[1], 0, Padding(v, 1));
    DecodePadding(v, 1, Buffer(2, 0));
  }

  /** Four characters of a full group give their three bytes and leave the buffer empty. */
  lemma DecodeGroup(v: Variant, x: byte, y: byte, z: byte, tail: Bytes)
    ensures Decode(v, Group(v, x, y, z) + tail) == [x, y, z] + Decode(v, tail)
  {
    var last := [Symbol(v, z % 64)] + tail;
    var rest := [Symbol(v, y % 16 * 4 + z / 64)] + last;
    assert Group(v, x, y, z) + tail == [Symbol(v, x / 4), Symbol(v, x % 4 * 16 + y / 16)] + rest;
    DecodePair(v, x, y / 16, rest);
    DecodeThird(v, y, z / 64, last);
    DecodeFourth(v, z, tail);
    assert [x] + ([y] + ([z] + Decode(v, tail))) == [x, y, z] + Decode(v, tail);
  }

  /** Decoding what was encoded gives the bytes back, with either variant. */
  lemma {:induction false} RoundTrip(v: Variant, b: Bytes)
    ensures Decode(v, Encode(v, b)) == b
  {
    if |b| == 1 {
      DecodePair(v, b[0], 0, Padding(v, 2));
      DecodePadding(v, 2, Buffer(4, 0));
    } else if |b| == 2 {
      TwoByteTail(v, b);
    } else if |b| >= 3 {
      DecodeGroup(v, b[0], b[1], b[2], Encode(v, b[3..]));
      RoundTrip(v, b[3..]);
      assert b == [b[0], b[1], b[2]] + b[3..];
    }
  }
}
